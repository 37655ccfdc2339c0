/** Optional values and outcomes that carry a value or an error. */
module Outcomes {
  datatype Option<+T> = None | Some(value: T)

  datatype Outcome<+T, +E> = Ok(value: T) | Err(error: E) {
    predicate IsFailure() {
      Err?
    }

    function PropagateFailure<U>(): Outcome<U, E>
      requires Err?
    {
      Err(error)
    }

    function Extract(): T
      requires Ok?
    {
      value
    }
  }

  function Need<E>(condition: bool, error: E): Outcome<(), E> {
    if condition then Ok(()) else Err(error)
  }
}
