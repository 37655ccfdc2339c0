/** A stable file opened for reading: its bytes and a cursor. */
module Streams {
  import opened Outcomes
  import opened Results
  import opened Bytes

  class InputFile {
    const bytes: seq<Byte>
    var position: nat

    constructor (content: seq<Byte>)
      ensures bytes == content && position == 0
    {
      bytes := content;
      position := 0;
    }

    /** Moves the cursor to the end and reports it. */
    method SeekEnd() returns (size: nat)
      modifies this
      ensures position == size == |bytes|
    {
      position := |bytes|;
      size := |bytes|;
    }

    method SeekStart(at: nat)
      modifies this
      ensures position == at
    {
      position := at;
    }

    /** Reads exactly `count` bytes at the cursor, or fails on a short file. */
    method ReadExact(count: nat) returns (r: Result<seq<Byte>>)
      modifies this
      ensures r.Ok? <==> old(position) + count <= |bytes|
      ensures r.Ok? ==> r.value == bytes[old(position)..old(position) + count] && position == old(position) + count
      ensures r.Err? ==> r.error == TruncatedInput
    {
      if position + count > |bytes| {
        return Err(TruncatedInput);
      }
      r := Ok(bytes[position..position + count]);
      position := position + count;
    }

    /** Reads exactly `count` bytes that are known to be there. */
    method Take(count: nat) returns (read: seq<Byte>)
      requires position + count <= |bytes|
      modifies this
      ensures read == bytes[old(position)..old(position) + count] && position == old(position) + count
    {
      read := bytes[position..position + count];
      position := position + count;
    }

    /** Fills the front of a buffer with exactly `count` bytes, or fails on a short file. */
    method ReadInto(buffer: array<Byte>, count: nat) returns (r: Result<()>)
      requires count <= buffer.Length
      modifies this`position, buffer
      ensures r.Ok? <==> old(position) + count <= |bytes|
      ensures r.Ok? ==> position == old(position) + count
                        && buffer[..count] == bytes[old(position)..old(position) + count]
    {
      if position + count > |bytes| {
        return Err(TruncatedInput);
      }
      forall i | 0 <= i < count {
        buffer[i] := bytes[position + i];
      }
      position := position + count;
      return Ok(());
    }

    /** Whether another byte follows the cursor. */
    function HasMore(): bool
      reads this
    {
      position < |bytes|
    }
  }
}
