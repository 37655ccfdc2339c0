/** Repeating a step and folding a list, for any type. */
module Iteration {
  function Iterate<T>(f: T -> T, c: T, count: nat): T {
    if count == 0 then c else Iterate(f, f(c), count - 1)
  }

  function Fold<T, B>(f: (T, B) -> T, start: T, items: seq<B>): T
    decreases |items|
  {
    if items == [] then start else Fold(f, f(start, items[0]), items[1..])
  }

  lemma {:induction false} FoldConcat<T, B>(f: (T, B) -> T, start: T, a: seq<B>, b: seq<B>)
    ensures Fold(f, start, a + b) == Fold(f, Fold(f, start, a), b)
    decreases |a|
  {
    if a == [] {
      assert a + b == b;
    } else {
      assert (a + b)[1..] == a[1..] + b && (a + b)[0] == a[0];
      FoldConcat(f, f(start, a[0]), a[1..], b);
    }
  }

  /** A step that respects an operation, repeated, still respects it. */
  lemma {:induction false} IterateRespects<T(!new)>(f: T -> T, g: (T, T) -> T, a: T, b: T, count: nat)
    requires forall x: T, y: T :: f(g(x, y)) == g(f(x), f(y))
    ensures Iterate(f, g(a, b), count) == g(Iterate(f, a, count), Iterate(f, b, count))
  {
    if count > 0 { IterateRespects(f, g, f(a), f(b), count - 1); }
  }

  lemma FourSteps<T>(f: T -> T, c: T, a: T, b: T, d: T, e: T)
    requires f(c) == a && f(a) == b && f(b) == d && f(d) == e
    ensures Iterate(f, c, 4) == e
    ensures Iterate(f, c, 8) == Iterate(f, e, 4)
  {
    assert Iterate(f, c, 8) == Iterate(f, a, 7) == Iterate(f, b, 6) == Iterate(f, d, 5) == Iterate(f, e, 4);
    assert Iterate(f, c, 4) == Iterate(f, a, 3) == Iterate(f, b, 2) == Iterate(f, d, 1) == Iterate(f, e, 0);
  }

  /** The items a value yields when `first` is taken and `rest` kept, repeatedly. */
  function Unfold<T, B>(first: T -> B, rest: T -> T, value: T, count: nat): (items: seq<B>)
    ensures |items| == count
  {
    if count == 0 then [] else [first(value)] + Unfold(first, rest, rest(value), count - 1)
  }

  /** If feeding one item and keeping the rest is a step on the sum, then feeding all items
      is the repeated step. */
  lemma {:induction false} FeedAll<T(!new), B>(feed: (T, B) -> T, first: T -> B, rest: T -> T, add: (T, T) -> T, step: T -> T,
                                              register: T, value: T, count: nat)
    requires forall r: T, v: T :: add(feed(r, first(v)), rest(v)) == step(add(r, v))
    ensures add(Fold(feed, register, Unfold(first, rest, value, count)), Iterate(rest, value, count))
         == Iterate(step, add(register, value), count)
  {
    if count > 0 {
      var next := feed(register, first(value));
      FeedAll(feed, first, rest, add, step, next, rest(value), count - 1);
      var items := Unfold(first, rest, value, count);
      assert items[0] == first(value) && items[1..] == Unfold(first, rest, rest(value), count - 1);
      assert Fold(feed, register, items) == Fold(feed, next, items[1..]);
    }
  }
}
