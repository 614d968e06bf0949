/** Bits of natural numbers and of byte strings, in the two orders the encoders use. */
module Bits {

  type Byte = b: int | 0 <= b < 256

  /** The magnitude of an integer. */
  function Abs(x: int): nat {
    if x < 0 then -x else x
  }

  lemma Associate<T>(a: seq<T>, b: seq<T>, c: seq<T>)
    ensures (a + b) + c == a + (b + c)
  {
  }

  lemma Associate4<T>(f: seq<T>, a: seq<T>, b: seq<T>, c: seq<T>, d: seq<T>)
    ensures f + a + b + c + d == f + (a + b + c + d)
  {
  }

  function Pow2(n: nat): (p: nat)
    ensures p >= 1
  {
    if n == 0 then 1 else 2 * Pow2(n - 1)
  }

  lemma Pow2Values()
    ensures Pow2(1) == 2 && Pow2(2) == 4 && Pow2(3) == 8 && Pow2(4) == 16 && Pow2(5) == 32
    ensures Pow2(6) == 64 && Pow2(7) == 128 && Pow2(8) == 256 && Pow2(9) == 512
    ensures Pow2(10) == 1024 && Pow2(11) == 2048 && Pow2(12) == 4096 && Pow2(13) == 8192
    ensures Pow2(16) == 65536 && Pow2(23) == 0x80_0000 && Pow2(24) == 0x100_0000
  {
    assert Pow2(3) == 8;
    assert Pow2(5) == 32;
    assert Pow2(7) == 128;
    assert Pow2(9) == 512;
    assert Pow2(11) == 2048;
    assert Pow2(13) == 8192;
    assert Pow2(15) == 32768;
    assert Pow2(17) == 131072;
    assert Pow2(19) == 524288;
    assert Pow2(21) == 2097152;
    assert Pow2(23) == 0x80_0000;
  }

  lemma {:induction false} Pow2Sum(a: nat, b: nat)
    ensures Pow2(a + b) == Pow2(a) * Pow2(b)
  {
    if a != 0 {
      Pow2Sum(a - 1, b);
      assert Pow2(a + b) == 2 * Pow2(a - 1 + b);
      assert 2 * (Pow2(a - 1) * Pow2(b)) == (2 * Pow2(a - 1)) * Pow2(b);
    }
  }

  lemma {:induction false} Pow2Monotone(a: nat, b: nat)
    requires a <= b
    ensures Pow2(a) <= Pow2(b)
    decreases b - a
  {
    if a < b {
      Pow2Monotone(a + 1, b);
    }
  }

  /** The n low bits of v, least significant first. */
  function LsbBits(v: nat, n: nat): (bits: seq<bool>)
    ensures |bits| == n
  {
    if n == 0 then [] else [v % 2 == 1] + LsbBits(v / 2, n - 1)
  }

  /** The n low bits of v, most significant first. */
  function MsbBits(v: nat, n: nat): (bits: seq<bool>)
    ensures |bits| == n
  {
    if n == 0 then [] else MsbBits(v / 2, n - 1) + [v % 2 == 1]
  }

  function LsbVal(bits: seq<bool>): nat {
    if bits == [] then 0 else (if bits[0] then 1 else 0) + 2 * LsbVal(bits[1..])
  }

  function MsbVal(bits: seq<bool>): nat {
    if bits == [] then 0
    else 2 * MsbVal(bits[..|bits| - 1]) + (if bits[|bits| - 1] then 1 else 0)
  }

  lemma {:induction false} LsbRoundTrip(v: nat, n: nat)
    requires v < Pow2(n)
    ensures LsbVal(LsbBits(v, n)) == v
  {
    if n != 0 {
      LsbRoundTrip(v / 2, n - 1);
      assert LsbBits(v, n)[1..] == LsbBits(v / 2, n - 1);
    }
  }

  lemma {:induction false} MsbRoundTrip(v: nat, n: nat)
    requires v < Pow2(n)
    ensures MsbVal(MsbBits(v, n)) == v
  {
    if n != 0 {
      MsbRoundTrip(v / 2, n - 1);
      assert MsbBits(v, n)[..n - 1] == MsbBits(v / 2, n - 1);
    }
  }

  lemma HalfOfSum(lo: nat, hi: nat, k: nat)
    requires k > 0
    ensures (lo + hi * Pow2(k)) % 2 == lo % 2
    ensures (lo + hi * Pow2(k)) / 2 == lo / 2 + hi * Pow2(k - 1)
  {
    assert hi * Pow2(k) == 2 * (hi * Pow2(k - 1));
  }

  /** A number written above k other bits: the two fields follow each other. */
  lemma {:induction false} LsbSplit(lo: nat, hi: nat, k: nat, n: nat)
    requires lo < Pow2(k)
    ensures LsbBits(lo + hi * Pow2(k), k + n) == LsbBits(lo, k) + LsbBits(hi, n)
  {
    if k != 0 {
      var v := lo + hi * Pow2(k);
      HalfOfSum(lo, hi, k);
      LsbSplit(lo / 2, hi, k - 1, n);
      var bit, rest, top := [v % 2 == 1], LsbBits(lo / 2, k - 1), LsbBits(hi, n);
      assert LsbBits(v, k + n) == bit + (rest + top);
      assert bit + (rest + top) == (bit + rest) + top;
    } else {
      assert hi * Pow2(0) == hi;
    }
  }

  lemma {:induction false} MsbSplit(hi: nat, lo: nat, n: nat, k: nat)
    requires lo < Pow2(k)
    ensures MsbBits(hi * Pow2(k) + lo, n + k) == MsbBits(hi, n) + MsbBits(lo, k)
  {
    if k != 0 {
      var v := hi * Pow2(k) + lo;
      HalfOfSum(lo, hi, k);
      MsbSplit(hi, lo / 2, n, k - 1);
    } else {
      assert hi * Pow2(0) + lo == hi;
    }
  }

  /** The bits of a byte string, each byte least significant bit first (section 3.1.1 of RFC 1951). */
  function BitsOf(bytes: seq<Byte>): (bits: seq<bool>)
    ensures |bits| == 8 * |bytes|
  {
    if bytes == [] then [] else BitsOf(bytes[..|bytes| - 1]) + LsbBits(bytes[|bytes| - 1], 8)
  }

  /** The bytes whose bits these are. */
  function BytesOf(bits: seq<bool>): (bytes: seq<Byte>)
    requires |bits| % 8 == 0
    ensures |bytes| == |bits| / 8
  {
    if bits == [] then []
    else
      LsbValBound(bits[|bits| - 8..]);
      BytesOf(bits[..|bits| - 8]) + [LsbVal(bits[|bits| - 8..])]
  }

  lemma LsbValBound(bits: seq<bool>)
    ensures LsbVal(bits) < Pow2(|bits|)
    ensures |bits| == 8 ==> LsbVal(bits) < 256
  {
    Pow2Values();
    if bits != [] {
      LsbValBound(bits[1..]);
    }
  }

  lemma {:induction false} BytesOfBitsOf(bytes: seq<Byte>)
    ensures BytesOf(BitsOf(bytes)) == bytes
  {
    if bytes != [] {
      var init, last := bytes[..|bytes| - 1], bytes[|bytes| - 1];
      assert last < Pow2(8) by { Pow2Values(); }
      hide Pow2, LsbBits, LsbVal;
      BytesOfBitsOf(init);
      LsbRoundTrip(last, 8);
      var bits := BitsOf(bytes);
      assert bits[..|bits| - 8] == BitsOf(init);
      assert bits[|bits| - 8..] == LsbBits(last, 8);
      assert bytes == init + [last];
    }
  }

  lemma {:induction false} BitsOfConcat(a: seq<Byte>, b: seq<Byte>)
    ensures BitsOf(a + b) == BitsOf(a) + BitsOf(b)
  {
    if b == [] {
      assert a + b == a;
    } else {
      var init := b[..|b| - 1];
      var last := LsbBits(b[|b| - 1], 8);
      BitsOfConcat(a, init);
      assert (a + b)[..|a + b| - 1] == a + init;
      assert BitsOf(a + b) == (BitsOf(a) + BitsOf(init)) + last;
      assert (BitsOf(a) + BitsOf(init)) + last == BitsOf(a) + (BitsOf(init) + last);
    }
  }

  /** Bitwise or of two unsigned numbers. */
  function BitOr(a: nat, b: nat): nat {
    if a == 0 then b
    else if b == 0 then a
    else 2 * BitOr(a / 2, b / 2) + (if a % 2 == 1 || b % 2 == 1 then 1 else 0)
  }

  /** Or-ing two numbers that share no bit position adds them. */
  lemma {:induction false} OrDisjoint(hi: nat, lo: nat, k: nat)
    requires lo < Pow2(k)
    ensures BitOr(hi * Pow2(k), lo) == hi * Pow2(k) + lo
    ensures BitOr(lo, hi * Pow2(k)) == hi * Pow2(k) + lo
  {
    if k == 0 {
      assert lo == 0;
    } else {
      assert hi * Pow2(k) == 2 * (hi * Pow2(k - 1));
      OrDisjoint(hi, lo / 2, k - 1);
    }
  }

  /** `x << s` on 32-bit unsigned numbers. */
  function Shl32(x: nat, s: nat): (r: nat)
    ensures r < 0x1_0000_0000
  {
    (x * Pow2(s)) % 0x1_0000_0000
  }
}
