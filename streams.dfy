/**
 * The Stream FASTER hands to an object serializer: bytes are written at its end
 * and read from a cursor. The write end and the read cursor are kept apart:
 * writing does not move `position`, whereas a .NET stream writes at its
 * Position and advances it. FASTER serializes to one stream and deserializes
 * from another, so the two never meet.
 */
module Streams {
  import opened Bytes
  import opened Wrappers

  datatype StreamError = EndOfStream

  class ByteStream {
    var content: seq<byte>
    var position: nat

    ghost predicate Valid()
      reads this
    {
      position <= |content|
    }

    /** The bytes not yet read. */
    ghost function Remaining(): seq<byte>
      reads this
      requires Valid()
    {
      content[position..]
    }

    constructor (initial: seq<byte>)
      ensures Valid() && content == initial && position == 0
    {
      content := initial;
      position := 0;
    }

    /** Stream.Write(bytes). */
    method Write(bytes: seq<byte>)
      requires Valid()
      modifies this
      ensures Valid()
      ensures content == old(content) + bytes && position == old(position)
      ensures Remaining() == old(Remaining()) + bytes
    {
      content := content + bytes;
    }

    /**
     * Stream.ReadExactly(buffer) for a buffer of `count` bytes: the next `count`
     * bytes, or an EndOfStreamException once the stream runs out (the bytes
     * that were there are consumed).
     */
    method ReadExactly(count: nat) returns (r: Result<seq<byte>, StreamError>)
      requires Valid()
      modifies this
      ensures Valid() && content == old(content)
      ensures count <= |old(Remaining())| ==>
                r == Ok(old(Remaining())[..count]) && position == old(position) + count
      ensures count > |old(Remaining())| ==> r == Err(EndOfStream) && position == |content|
    {
      if |content| - position < count {
        position := |content|;
        return Err(EndOfStream);
      }
      assert content[position..][..count] == content[position..position + count];
      r := Ok(content[position..position + count]);
      position := position + count;
    }
  }
}
