/** The JPEG entropy coder: the bit writer with its stuffed zero bytes, and the coefficient coder. */
module Jpeg {
  import opened Bits
  import opened Optional

  // ---------- Stuffing (section F.1.2.3 of ITU-T T.81) ----------

  /** What one byte is stuffed to. */
  function Piece(b: Byte): seq<Byte> {
    if b == 255 then [255, 0] else [b]
  }

  /** A zero byte after every 0xFF. */
  function Stuff(raw: seq<Byte>): seq<Byte> {
    if raw == [] then []
    else
      var last := raw[|raw| - 1];
      Stuff(raw[..|raw| - 1]) + Piece(last)
  }

  /** What a decoder reads: the byte after an 0xFF must be zero and is dropped. */
  function Unstuff(bytes: seq<Byte>): Option<seq<Byte>>
    decreases |bytes|
  {
    if bytes == [] then Some([])
    else if bytes[0] != 255 then
      var rest :- Unstuff(bytes[1..]);
      Some([bytes[0]] + rest)
    else if |bytes| >= 2 && bytes[1] == 0 then
      var rest :- Unstuff(bytes[2..]);
      Some([255] + rest)
    else None
  }

  lemma PieceRead(b: Byte, tail: seq<Byte>, rest: seq<Byte>)
    requires Unstuff(tail) == Some(rest)
    ensures Unstuff(Piece(b) + tail) == Some([b] + rest)
  {
    assert (Piece(b) + tail)[|Piece(b)|..] == tail;
  }

  lemma {:induction false} UnstuffAppend(raw: seq<Byte>, tail: seq<Byte>, rest: seq<Byte>)
    requires Unstuff(tail) == Some(rest)
    ensures Unstuff(Stuff(raw) + tail) == Some(raw + rest)
  {
    hide Unstuff, Piece;
    if raw == [] {
      assert Stuff(raw) + tail == tail;
      assert raw + rest == rest;
    } else {
      var init, last := raw[..|raw| - 1], raw[|raw| - 1];
      PieceRead(last, tail, rest);
      UnstuffAppend(init, Piece(last) + tail, [last] + rest);
      Associate(Stuff(init), Piece(last), tail);
      Associate(init, [last], rest);
      assert init + [last] == raw;
    }
  }

  /** Unstuffing undoes stuffing. */
  lemma StuffRoundTrip(raw: seq<Byte>)
    ensures Unstuff(Stuff(raw)) == Some(raw)
  {
    UnstuffAppend(raw, [], []);
    assert Stuff(raw) + [] == Stuff(raw);
    assert raw + [] == raw;
  }

  /** The bits of a byte string, each byte most significant bit first. */
  function MsbBitsOf(bytes: seq<Byte>): (bits: seq<bool>)
    ensures |bits| == 8 * |bytes|
  {
    if bytes == [] then [] else MsbBitsOf(bytes[..|bytes| - 1]) + MsbBits(bytes[|bytes| - 1], 8)
  }

  // ---------- The bit writer ----------

  const WORD := 0x1_0000_0000

  class Writer {
    var sink: seq<Byte>
    var bitBuf: nat       // a 32-bit register
    var bitCnt: nat
    ghost var raw: seq<Byte>  // the bytes written, without the stuffed ones
    ghost var pending: nat    // the value of the bits not written yet
    ghost var stale: nat      // what is left of the last byte above bit 24

    ghost predicate Valid()
      reads this
    {
      Register() && bitCnt < 8
    }

    /** The pending bits stand just below bit 24, with nothing below them. */
    ghost predicate Register()
      reads this
    {
      && bitCnt <= 24 && pending < Pow2(bitCnt) && stale < 256
      && bitBuf == stale * 0x100_0000 + pending * Pow2(24 - bitCnt)
      && sink == Stuff(raw)
    }

    ghost function Contents(): seq<bool>
      reads this
    {
      MsbBitsOf(raw) + MsbBits(pending, bitCnt)
    }

    constructor ()
      ensures Valid() && Contents() == [] && sink == []
    {
      sink, bitBuf, bitCnt, raw, pending, stale := [], 0, 0, [], 0, 0;
    }

    /** `stbiw__jpg_writeBits`: an n-bit code of at most 16 bits, most significant bit first. */
    method WriteBits(code: nat, n: nat)
      requires Valid() && n <= 16 && code < Pow2(n)
      modifies this
      ensures Valid() && Contents() == old(Contents()) + MsbBits(code, n)
    {
      hide Pow2, MsbBits, MsbBitsOf, BitOr, Stuff;
      EnterCode(bitBuf, stale, pending, bitCnt, code, n);
      MsbSplit(pending, code, bitCnt, n);
      Associate(MsbBitsOf(raw), MsbBits(pending, bitCnt), MsbBits(code, n));
      bitCnt := bitCnt + n;
      bitBuf := BitOr(bitBuf, Shl32(code, 24 - bitCnt));
      pending := pending * Pow2(n) + code;
      while bitCnt >= 8
        invariant Register() && Contents() == old(Contents()) + MsbBits(code, n)
      {
        ShiftByte();
      }
    }

    /** One round of the loop in `writeBits`. */
    method ShiftByte()
      requires Register() && bitCnt >= 8
      modifies this
      ensures Register() && Contents() == old(Contents()) && bitCnt == old(bitCnt) - 8
    {
      hide Pow2, MsbBits, MsbBitsOf, BitOr, Stuff;
      ghost var m := bitCnt - 8;
      ghost var low := pending % Pow2(m);
      LeaveByte(bitBuf, stale, pending, bitCnt);
      var c := bitBuf / 0x1_0000 % 256;
      Associate(MsbBitsOf(raw), MsbBits(c, 8), MsbBits(low, m));
      Appended(raw, c);
      raw := raw + [c];
      sink := sink + [c];
      if c == 255 {
        sink := sink + [0];
      }
      bitBuf := bitBuf * 256 % WORD;
      bitCnt := bitCnt - 8;
      pending, stale := low, c;
    }
  }

  lemma Appended(raw: seq<Byte>, c: Byte)
    ensures MsbBitsOf(raw + [c]) == MsbBitsOf(raw) + MsbBits(c, 8)
    ensures Stuff(raw + [c]) == if c == 255 then Stuff(raw) + [c] + [0] else Stuff(raw) + [c]
  {
    var after := raw + [c];
    assert after[..|after| - 1] == raw;
    assert [c] + [0] == [c, 0];
  }

  /** A code or-ed in below the pending bits: no carry and no lost bit. */
  lemma EnterCode(buf: nat, stale: nat, pending: nat, cnt: nat, code: nat, n: nat)
    requires cnt < 8 && n <= 16 && pending < Pow2(cnt) && code < Pow2(n)
    requires buf == stale * 0x100_0000 + pending * Pow2(24 - cnt)
    ensures pending * Pow2(n) + code < Pow2(cnt + n)
    ensures BitOr(buf, Shl32(code, 24 - (cnt + n)))
         == stale * 0x100_0000 + (pending * Pow2(n) + code) * Pow2(24 - (cnt + n))
  {
    hide Pow2, BitOr, Shl32;
    EnterBelow(buf, stale, pending, cnt, code, n, 24 - cnt, 24 - (cnt + n));
  }

  lemma EnterBelow(buf: nat, stale: nat, pending: nat, cnt: nat, code: nat, n: nat, j: nat, k: nat)
    requires cnt + j == 24 && n + k == j && pending < Pow2(cnt) && code < Pow2(n)
    requires buf == stale * 0x100_0000 + pending * Pow2(j)
    ensures pending * Pow2(n) + code < Pow2(cnt + n)
    ensures BitOr(buf, Shl32(code, k)) == stale * 0x100_0000 + (pending * Pow2(n) + code) * Pow2(k)
  {
    Pow2Sum(cnt, j); Pow2Sum(n, k); Pow2Sum(cnt, n);
    assert Pow2(24) == 0x100_0000 by { Pow2Values(); }
    hide Pow2, BitOr, Shl32;
    CodeFits(code, n, k);
    OrBelow(buf, stale, pending, Pow2(cnt), code * Pow2(k), j);
    EnterSum(stale, pending, code, Pow2(cnt), Pow2(j), Pow2(n), Pow2(k));
  }

  lemma OrBelow(buf: nat, stale: nat, pending: nat, C: nat, low: nat, j: nat)
    requires C * Pow2(j) == 0x100_0000 && low < Pow2(j)
    requires buf == stale * 0x100_0000 + pending * Pow2(j)
    ensures BitOr(buf, low) == buf + low
  {
    hide Pow2, BitOr;
    RegisterMultiple(stale, pending, C, Pow2(j), buf);
    OrDisjoint(stale * C + pending, low, j);
  }

  lemma EnterSum(stale: nat, pending: nat, code: nat, C: nat, P: nat, N: nat, K: nat)
    requires P == N * K && pending < C && code < N
    ensures pending * N + code < C * N
    ensures stale * 0x100_0000 + pending * P + code * K == stale * 0x100_0000 + (pending * N + code) * K
  {
    Spread(pending, N, K, P, code);
    Below(pending, code, C, N);
  }

  lemma Spread(pending: nat, N: nat, K: nat, P: nat, code: nat)
    requires P == N * K
    ensures pending * P + code * K == (pending * N + code) * K
  {
    assert pending * (N * K) == (pending * N) * K;
  }

  lemma Below(a: nat, b: nat, A: nat, B: nat)
    requires a < A && b < B
    ensures a * B + b < A * B
  {
    assert (a + 1) * B <= A * B;
    assert (a + 1) * B == a * B + B;
  }

  lemma RegisterMultiple(stale: nat, pending: nat, C: nat, P: nat, buf: nat)
    requires 0x100_0000 == C * P && buf == stale * 0x100_0000 + pending * P
    ensures buf == (stale * C + pending) * P
  {
    assert stale * (C * P) == (stale * C) * P;
  }

  lemma CodeFits(code: nat, n: nat, k: nat)
    requires code < Pow2(n) && n + k <= 24
    ensures Shl32(code, k) == code * Pow2(k) < Pow2(n + k)
  {
    Pow2Sum(n, k);
    assert Pow2(n + k) <= 0x100_0000 by {
      Pow2Monotone(n + k, 24);
      Pow2Values();
    }
    hide Pow2;
    Below(code, 0, Pow2(n), Pow2(k));
    InWord(code * Pow2(k));
  }

  /** Shifting a byte out: it is the first eight pending bits, and the rest stay pending. */
  lemma LeaveByte(buf: nat, stale: nat, pending: nat, cnt: nat)
    requires 8 <= cnt <= 24 && pending < Pow2(cnt)
    requires buf == stale * 0x100_0000 + pending * Pow2(24 - cnt)
    ensures var c, low := buf / 0x1_0000 % 256, pending % Pow2(cnt - 8);
            && low < Pow2(cnt - 8)
            && MsbBits(pending, cnt) == MsbBits(c, 8) + MsbBits(low, cnt - 8)
            && buf * 256 % WORD == c * 0x100_0000 + low * Pow2(24 - (cnt - 8))
  {
    var m := cnt - 8;
    Pow2Sum(m, 24 - cnt); Pow2Sum(8, m); Pow2Sum(8, 24 - cnt);
    assert Pow2(8) == 256 && Pow2(16) == 0x1_0000 by { Pow2Values(); }
    hide Pow2, MsbBits;
    var c := ShiftedByte(stale, pending, Pow2(m), Pow2(24 - cnt), buf);
    MsbSplit(c, pending % Pow2(m), 8, m);
  }

  lemma ShiftedByte(stale: nat, pending: nat, M: nat, P: nat, buf: nat) returns (c: nat)
    requires M > 0 && M * P == 0x1_0000 && pending < 256 * M
    requires buf == stale * 0x100_0000 + pending * P
    ensures c == buf / 0x1_0000 % 256 && pending == c * M + pending % M
    ensures buf * 256 % WORD == c * 0x100_0000 + pending % M * (256 * P)
  {
    var low := pending % M;
    c := pending / M;
    assert pending == c * M + low;
    HighPart(c, low, M, 256);
    SplitRegister(stale, pending, c, low, M, P, buf);
    Below(low, 0, M, P);
    Bytes(stale, c, low * P, buf);
    assert low * (256 * P) == 256 * (low * P);
  }

  lemma InWord(x: nat)
    requires x < 0x100_0000
    ensures x % WORD == x
  {
  }

  lemma HighPart(c: nat, low: nat, M: nat, n: nat)
    requires c * M + low < n * M
    ensures c < n
  {
    assert (c - n) * M == c * M - n * M;
  }

  lemma SplitRegister(stale: nat, pending: nat, c: nat, low: nat, M: nat, P: nat, buf: nat)
    requires buf == stale * 0x100_0000 + pending * P && pending == c * M + low && M * P == 0x1_0000
    ensures buf == stale * 0x100_0000 + c * 0x1_0000 + low * P
  {
    assert (c * M + low) * P == c * (M * P) + low * P;
  }

  lemma Bytes(stale: nat, c: nat, rest: nat, buf: nat)
    requires buf == stale * 0x100_0000 + c * 0x1_0000 + rest && c < 256 && rest < 0x1_0000
    ensures buf / 0x1_0000 % 256 == c && buf * 256 % WORD == c * 0x100_0000 + 256 * rest
  {
    assert buf / 0x1_0000 == stale * 256 + c;
    assert buf * 256 == stale * WORD + (c * 0x100_0000 + 256 * rest);
  }
}
