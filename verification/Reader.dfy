/** `bufio.Reader` over a connection. `stream` is everything the peer will ever send. */
module Reading {
  import opened Prelude

  class Reader {
    const stream: Bytes
    // Whether the byte at a position has already arrived when the reader stands there: this
    // depends on how the network cuts the stream into packets.
    const arrived: nat -> bool
    var pos: nat

    ghost predicate Valid()
      reads this
    {
      pos <= |stream|
    }

    /** The bytes not yet read. */
    ghost function Rest(): (r: Bytes)
      requires Valid()
      reads this
    {
      stream[pos..]
    }

    constructor (stream: Bytes, arrived: nat -> bool)
      ensures Valid() && this.stream == stream && this.arrived == arrived && pos == 0
    {
      this.stream, this.arrived, pos := stream, arrived, 0;
    }

    /** None is the error at the end of the stream. */
    method ReadByte() returns (b: Option<Byte>)
      requires Valid()
      modifies this`pos
      ensures Valid()
      ensures old(Rest()) == [] ==> b == None && pos == old(pos)
      ensures old(Rest()) != [] ==> b == Some(old(Rest())[0]) && pos == old(pos) + 1 && Rest() == old(Rest())[1..]
    {
      if pos == |stream| {
        b := None;
      } else {
        b := Some(stream[pos]);
        pos := pos + 1;
      }
    }

    /** `Buffered() > 0`, and then what `Peek(1)` shows. */
    method PeekBuffered() returns (b: Option<Byte>)
      requires Valid()
      ensures b == if Rest() != [] && arrived(pos) then Some(Rest()[0]) else None
    {
      b := if pos < |stream| && arrived(pos) then Some(stream[pos]) else None;
    }
  }
}
