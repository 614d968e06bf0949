/** The write context: a 64-byte buffer in front of the sink. */
module WriteBuffer {
  import opened Bits

  class Context {
    var sink: seq<Byte>
    const buffer: array<Byte>
    var used: nat

    ghost predicate Valid()
      reads this
    {
      buffer.Length == 64 && used <= 64
    }

    /** The bytes an unbuffered writer would have sent by now. */
    ghost function Contents(): seq<Byte>
      requires Valid()
      reads this, buffer
    {
      sink + buffer[..used]
    }

    constructor ()
      ensures Valid() && fresh(buffer) && Contents() == [] && used == 0
    {
      buffer := new Byte[64](_ => 0);
      sink, used := [], 0;
    }

    /** `stbiw__write_flush` */
    method Flush()
      requires Valid()
      modifies this
      ensures Valid() && Contents() == old(Contents()) && used == 0 && sink == Contents()
    {
      if used != 0 {
        sink := sink + buffer[..used];
        used := 0;
      }
    }

    /** Bytes sent past the buffer, as the header is: in order only when the buffer is empty. */
    method Send(bytes: seq<Byte>)
      requires Valid() && used == 0
      modifies this
      ensures Valid() && Contents() == old(Contents()) + bytes && used == 0
    {
      sink := sink + bytes;
    }

    /** `stbiw__write1` */
    method Write1(a: Byte)
      requires Valid()
      modifies this, buffer
      ensures Valid() && Contents() == old(Contents()) + [a]
    {
      if used + 1 > buffer.Length {
        Flush();
      }
      label room:
      buffer[used] := a;
      used := used + 1;
      assert buffer[..used] == old@room(buffer[..used]) + [a];
    }

    /** `stbiw__write3` */
    method Write3(a: Byte, b: Byte, c: Byte)
      requires Valid()
      modifies this, buffer
      ensures Valid() && Contents() == old(Contents()) + [a, b, c]
    {
      if used + 3 > buffer.Length {
        Flush();
      }
      label room:
      var n := used;
      used := n + 3;
      buffer[n] := a;
      buffer[n + 1] := b;
      buffer[n + 2] := c;
      assert buffer[..used] == old@room(buffer[..used]) + [a, b, c];
    }
  }
}
