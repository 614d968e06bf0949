/** The compressor's output: a stretchy byte buffer behind a small bit accumulator. */
module BitStream {
  import opened Bits
  import opened DeflateTokens

  lemma OneZero()
    ensures 0 < Pow2(1) && LsbBits(0, 1) == [false]
  {
    assert LsbBits(0, 1) == [false] + LsbBits(0, 0);
  }

  lemma NoBits(v: nat)
    ensures LsbBits(v, 0) == []
  {
  }

  class Stream {
    var out: seq<Byte>     // the buffer's used part
    var capacity: nat      // its allocated size, 0 before the first push
    var bitbuf: nat        // pending bits, oldest lowest: an unsigned 32-bit register
    var bitcount: nat

    ghost predicate BufferValid()
      reads this
    {
      if capacity == 0 then out == [] else |out| < capacity
    }

    ghost predicate Valid()
      reads this
    {
      BufferValid() && bitcount < 8 && bitbuf < Pow2(bitcount)
    }

    /** Everything written so far, as bits. */
    ghost function Contents(): seq<bool>
      reads this
    {
      BitsOf(out) + LsbBits(bitbuf, bitcount)
    }

    constructor ()
      ensures Valid() && out == [] && bitcount == 0
    {
      out, capacity, bitbuf, bitcount := [], 0, 0, 0;
    }

    /** Appends a byte, growing the allocation when it is full. */
    method Push(v: Byte)
      requires BufferValid()
      modifies this`out, this`capacity
      ensures BufferValid() && out == old(out) + [v]
      ensures capacity >= old(capacity)
    {
      if capacity == 0 || |out| + 1 >= capacity {
        capacity := if capacity == 0 then 2 else 2 * capacity + 1;
      }
      out := out + [v];
    }

    /** Moves whole bytes from the accumulator to the buffer. */
    method Flush()
      requires BufferValid() && bitbuf < Pow2(bitcount)
      modifies this
      ensures Valid() && Contents() == old(Contents())
      ensures capacity >= old(capacity)
    {
      while bitcount >= 8
        invariant BufferValid() && bitbuf < Pow2(bitcount)
        invariant Contents() == old(Contents()) && capacity >= old(capacity)
      {
        FlushStep(out, bitbuf, bitcount);
        Push(bitbuf % 256);
        bitbuf := bitbuf / 256;
        bitcount := bitcount - 8;
      }
    }

    /** `stbiw__zlib_add`: appends the low n bits of code, least significant first. */
    method Add(code: nat, n: nat)
      requires Valid() && n <= 16 && code < Pow2(n)
      modifies this
      ensures Valid() && Contents() == old(Contents()) + LsbBits(code, n)
      ensures capacity >= old(capacity)
    {
      AddFits(code, n, bitcount);
      OrDisjoint(code, bitbuf, bitcount);
      LsbSplit(bitbuf, code, bitcount, n);
      ghost var a, b, c := BitsOf(out), LsbBits(bitbuf, bitcount), LsbBits(code, n);
      assert a + (b + c) == (a + b) + c;
      bitbuf := BitOr(bitbuf, Shl32(code, bitcount));
      bitcount := bitcount + n;
      AddBound(code, old(bitbuf), n, old(bitcount));
      Flush();
    }

    /** `stbiw__zlib_huffa`: appends an n-bit code, most significant bit first. */
    method AddReversed(code: nat, n: nat)
      requires Valid() && n <= 16
      modifies this
      ensures Valid() && Contents() == old(Contents()) + MsbBits(code, n)
      ensures capacity >= old(capacity)
    {
      var res := Reverse(code, n);
      Add(res, n);
    }

    /** `stbiw__zlib_huff`: appends the fixed code of a symbol. */
    method AddSymbol(s: nat)
      requires Valid() && s <= 285
      modifies this
      ensures Valid() && Contents() == old(Contents()) + SymbolBits(s)
      ensures capacity >= old(capacity)
    {
      assert Pow2(7) == 128 && Pow2(8) == 256 && Pow2(9) == 512 by { Pow2Values(); }
      hide Pow2, MsbBits, LsbBits, BitsOf;
      if s <= 143 {
        AddReversed(0x30 + s, 8);
      } else if s <= 255 {
        AddReversed(0x190 + s - 144, 9);
      } else if s <= 279 {
        AddReversed(0 + s - 256, 7);
      } else {
        AddReversed(0xc0 + s - 280, 8);
      }
    }

    /** Zero bits up to the next byte boundary. */
    method Pad() returns (ghost pad: seq<bool>)
      requires Valid()
      modifies this
      ensures Valid() && bitcount == 0 && |pad| < 8 && forall i :: 0 <= i < |pad| ==> !pad[i]
      ensures BitsOf(out) == old(Contents()) + pad
      ensures capacity >= old(capacity)
    {
      hide BitsOf, LsbBits, Pow2;
      pad := [];
      assert Contents() + [] == Contents();
      while bitcount != 0
        invariant Valid() && Contents() == old(Contents()) + pad && capacity >= old(capacity)
        invariant forall i :: 0 <= i < |pad| ==> !pad[i]
        invariant bitcount == 0 ==> |pad| < 8
        invariant bitcount != 0 ==> |pad| + (8 - bitcount) < 8
        decreases if bitcount == 0 then 0 else 8 - bitcount
      {
        ghost var before := bitcount;
        OneZero();
        Add(0, 1);
        Associate(old(Contents()), pad, LsbBits(0, 1));
        pad := pad + LsbBits(0, 1);
        assert |Contents()| == |old(Contents())| + |pad|;
      }
      NoBits(bitbuf);
      assert BitsOf(out) + [] == BitsOf(out);
    }

    /** `memcpy` to the end of the buffer without growing it: the bytes must fit in the allocation. */
    method CopyIn(block: seq<Byte>)
      requires BufferValid() && |out| + |block| < capacity
      modifies this`out
      ensures BufferValid() && out == old(out) + block
    {
      out := out + block;
    }

    /** Forgets everything past the first n bytes. */
    method Truncate(n: nat)
      requires BufferValid() && n <= |out|
      modifies this`out
      ensures BufferValid() && out == old(out)[..n]
    {
      out := out[..n];
    }
  }

  lemma FlushStep(out: seq<Byte>, buf: nat, count: nat)
    requires count >= 8 && buf < Pow2(count)
    ensures buf / 256 < Pow2(count - 8)
    ensures BitsOf(out + [buf % 256]) + LsbBits(buf / 256, count - 8) == BitsOf(out) + LsbBits(buf, count)
  {
    Pow2Values();
    Pow2Sum(8, count - 8);
    LsbSplit(buf % 256, buf / 256, 8, count - 8);
    var a, b, c := BitsOf(out), LsbBits(buf % 256, 8), LsbBits(buf / 256, count - 8);
    assert (out + [buf % 256])[..|out|] == out;
    assert BitsOf(out + [buf % 256]) == a + b;
    assert a + (b + c) == (a + b) + c;
  }

  lemma AddFits(code: nat, n: nat, count: nat)
    requires code < Pow2(n) && n <= 16 && count < 8
    ensures Shl32(code, count) == code * Pow2(count)
  {
    Pow2Values();
    Pow2Monotone(n, 16);
    Pow2Monotone(count, 7);
    assert code * Pow2(count) <= 65536 * 128 by {
      MulMonotone(code, 65536, Pow2(count), 128);
    }
  }

  lemma MulMonotone(a: nat, b: nat, c: nat, d: nat)
    requires a <= b && c <= d
    ensures a * c <= b * d
  {
    assert a * c <= a * d;
    assert a * d <= b * d;
  }

  lemma AddBound(code: nat, buf: nat, n: nat, count: nat)
    requires code < Pow2(n) && buf < Pow2(count)
    ensures code * Pow2(count) + buf < Pow2(count + n)
  {
    Pow2Sum(count, n);
    MulMonotone(code + 1, Pow2(n), Pow2(count), Pow2(count));
    assert (code + 1) * Pow2(count) == code * Pow2(count) + Pow2(count);
  }

  lemma ShiftIn(res: nat, bit: nat, k: nat)
    requires res < Pow2(k) && bit < 2 && k < 16
    ensures BitOr(Shl32(res, 1), bit) == 2 * res + bit < Pow2(k + 1)
  {
    Pow2Values();
    Pow2Monotone(k, 16);
    assert Pow2(1) == 2;
    assert Shl32(res, 1) == res * Pow2(1);
    OrDisjoint(res, bit, 1);
  }

  lemma ReverseStep(res: nat, c: nat, k: nat, left: nat)
    requires left > 0
    ensures MsbBits(c, left) + LsbBits(res, k) == MsbBits(c / 2, left - 1) + LsbBits(2 * res + c % 2, k + 1)
  {
    var head, bit, low := MsbBits(c / 2, left - 1), [c % 2 == 1], LsbBits(res, k);
    var next := 2 * res + c % 2;
    assert next % 2 == c % 2 && next / 2 == res;
    assert LsbBits(next, k + 1) == bit + low;
    assert (head + bit) + low == head + (bit + low);
  }

  /** `stbiw__zlib_bitrev`: the n low bits of code in reverse order. */
  method Reverse(code: nat, n: nat) returns (res: nat)
    requires n <= 16
    ensures res < Pow2(n) && LsbBits(res, n) == MsbBits(code, n)
  {
    res := 0;
    var c: nat, left: nat := code, n;
    while left != 0
      invariant left <= n && res < Pow2(n - left)
      invariant MsbBits(code, n) == MsbBits(c, left) + LsbBits(res, n - left)
    {
      ShiftIn(res, c % 2, n - left);
      ReverseStep(res, c, n - left, left);
      res := BitOr(Shl32(res, 1), c % 2);
      c := c / 2;
      left := left - 1;
    }
  }
}
