/** Coding a block of 64 quantised coefficients. */
module JpegBlock {
  import opened Bits
  import opened Jpeg
  import opened JpegCode

  /** `stbiw__jpg_calcBits`: size category and magnitude bits of a non-zero value. */
  method CalcBits(val: int) returns (code: nat, n: nat)
    requires val != 0
    ensures n == Size(Abs(val)) && code == MagnitudeCode(val)
    ensures code < Pow2(n) && Extend(code, n) == val
  {
    var tmp := Abs(val);
    var v := if val < 0 then val - 1 else val;
    hide Pow2, Extend;
    n := 1;
    while tmp / 2 != 0
      invariant tmp > 0 && n + Size(tmp) == 1 + Size(Abs(val)) && n > 0
      decreases tmp
    {
      tmp := tmp / 2;
      n := n + 1;
    }
    TwosComplement(val, n);
    code := v % Pow2(n);
  }

  /** The DC difference: its size category and, unless it is zero, its magnitude. */
  method EncodeDC(w: Writer, t: seq<Code>, diff: int)
    requires w.Valid() && IsTable(t) && Size(Abs(diff)) <= 16
    modifies w
    ensures w.Valid() && w.Contents() == old(w.Contents()) + DCBits(t, diff)
  {
    if diff == 0 {
      w.WriteBits(t[0].value, t[0].length);
    } else {
      var code, n := CalcBits(diff);
      w.WriteBits(t[n].value, t[n].length);
      w.WriteBits(code, n);
      Associate(old(w.Contents()), t[n].Bits(), MsbBits(code, n));
    }
  }

  /** A ZRL for every sixteen zeros of a run; the rest of the run is still to code. */
  method EncodeZeros(w: Writer, t: seq<Code>, run: nat) returns (nrzeroes: nat)
    requires w.Valid() && IsTable(t)
    modifies w
    ensures w.Valid() && w.Contents() == old(w.Contents()) + ZrlBits(t, run / 16)
    ensures nrzeroes == run % 16
  {
    hide MsbBits;
    nrzeroes := run;
    assert w.Contents() + [] == w.Contents();
    if nrzeroes >= 16 {
      var lng := nrzeroes / 16;
      var nrmarker := 1;
      while nrmarker <= lng
        invariant 1 <= nrmarker <= lng + 1
        invariant w.Valid() && w.Contents() == old(w.Contents()) + ZrlBits(t, nrmarker - 1)
      {
        w.WriteBits(t[0xF0].value, t[0xF0].length);
        Associate(old(w.Contents()), ZrlBits(t, nrmarker - 1), t[0xF0].Bits());
        nrmarker := nrmarker + 1;
      }
      nrzeroes := nrzeroes % 16;
    }
  }

  /** A coefficient after a run of zeros: a ZRL for every sixteen of them, run/size and magnitude. */
  method EncodeRun(w: Writer, t: seq<Code>, run: nat, v: int)
    requires w.Valid() && IsTable(t) && v != 0 && Fits(run, v)
    modifies w
    ensures w.Valid() && w.Contents() == old(w.Contents()) + RunBits(t, run, v)
  {
    hide MsbBits, Size, Extend, Pow2, ZrlBits;
    var nrzeroes := EncodeZeros(w, t, run);
    var code, n := CalcBits(v);
    var rs := 16 * nrzeroes + n;
    w.WriteBits(t[rs].value, t[rs].length);
    w.WriteBits(code, n);
    Associate(old(w.Contents()) + ZrlBits(t, run / 16), t[rs].Bits(), MsbBits(code, n));
    Associate(old(w.Contents()), ZrlBits(t, run / 16), t[rs].Bits() + MsbBits(code, n));
  }

  /** `stbiw__jpg_processDU` from the quantised coefficients on. The bits written decode to them, whatever follows,
      if and only if the tables have a code for every symbol written. */
  method EncodeBlock(w: Writer, du: seq<int>, dc: int, htdc: seq<Code>, htac: seq<Code>) returns (newDC: int)
    requires w.Valid() && IsTable(htdc) && IsTable(htac) && IsBlock(dc, du)
    modifies w
    ensures newDC == du[0]
    ensures w.Valid() && w.Contents() == old(w.Contents()) + BlockBits(htdc, htac, dc, du)
    ensures ReadsBack(htdc, htac, dc, du, BlockBits(htdc, htac, dc, du)) <==> Codable(htdc, htac, dc, du)
  {
    hide IsTable, Size, DCBits, ACBits, TailBits, ReadsBack, Codable;
    newDC := du[0];
    assert |htdc| == |htac| == 256 by { TableSize(htdc); TableSize(htac); }
    EncodeDC(w, htdc, du[0] - dc);
    var end0pos := 63;
    while end0pos > 0 && du[end0pos] == 0
      invariant 0 <= end0pos <= 63 && forall j :: end0pos < j <= 63 ==> du[j] == 0
    {
      end0pos := end0pos - 1;
    }
    EncodeAC(w, du, end0pos, htac);
    Associate(old(w.Contents()), DCBits(htdc, du[0] - dc), ACBits(htac, du, 64) + TailBits(htac, du));
    BlockReadIff(htdc, htac, dc, du);
  }

  lemma {:induction false} NothingBetween(t: seq<Code>, du: seq<int>, i: nat, j: nat)
    requires |t| == 256 && Categories(du) && 1 <= i <= j <= |du| && forall k :: i <= k < j ==> du[k] == 0
    ensures ACBits(t, du, j) == ACBits(t, du, i)
    ensures ZerosBefore(du, j) == ZerosBefore(du, i) + (j - i)
  {
    hide ACBits, ZerosBefore, Categories, RunBits, Fits;
    if i < j {
      NothingBetween(t, du, i, j - 1);
      NextBits(t, du, j - 1);
    }
  }

  /** The coefficients from 1 to the last one that is not zero, and the end of block unless that is 63. */
  method EncodeAC(w: Writer, du: seq<int>, end0pos: nat, t: seq<Code>)
    requires w.Valid() && |du| == 64 && Categories(du) && IsTable(t)
    requires end0pos <= 63 && (end0pos > 0 ==> du[end0pos] != 0)
    requires forall j :: end0pos < j <= 63 ==> du[j] == 0
    modifies w
    ensures w.Valid() && w.Contents() == old(w.Contents()) + (ACBits(t, du, 64) + TailBits(t, du))
  {
    hide IsTable, Size, RunBits, ACBits, Categories, ZerosBefore, MsbBits;
    assert |t| == 256 by { TableSize(t); }
    NothingFirst(t, du);
    assert w.Contents() + [] == w.Contents();
    if end0pos == 0 {
      NothingBetween(t, du, 1, 64);
      WriteTail(w, t);
      assert [] + t[0].Bits() == t[0].Bits();
      return;
    }
    var i := 1;
    while i <= end0pos
      invariant 1 <= i <= end0pos + 1 && ZerosBefore(du, i) == 0
      invariant w.Valid() && w.Contents() == old(w.Contents()) + ACBits(t, du, i)
    {
      var startpos := i;
      while du[i] == 0 && i <= end0pos
        invariant startpos <= i <= end0pos && forall j :: startpos <= j < i ==> du[j] == 0
      {
        i := i + 1;
      }
      NothingBetween(t, du, startpos, i);
      CategoryAt(du, i);
      EncodeRun(w, t, i - startpos, du[i]);
      OneMore(t, du, i, old(w.Contents()));
      i := i + 1;
    }
    NothingBetween(t, du, i, 64);
    if end0pos != 63 {
      WriteTail(w, t);
      Associate(old(w.Contents()), ACBits(t, du, 64), t[0].Bits());
    } else {
      assert ACBits(t, du, 64) + [] == ACBits(t, du, 64);
    }
  }

  lemma OneMore(t: seq<Code>, du: seq<int>, i: nat, before: seq<bool>)
    requires |t| == 256 && Categories(du) && 1 <= i < |du| && du[i] != 0
    ensures Fits(ZerosBefore(du, i), du[i])
    ensures (before + ACBits(t, du, i)) + RunBits(t, ZerosBefore(du, i), du[i]) == before + ACBits(t, du, i + 1)
    ensures ZerosBefore(du, i + 1) == 0
  {
    hide RunBits, ACBits, ZerosBefore, Categories, Size;
    NextBits(t, du, i);
    Associate(before, ACBits(t, du, i), RunBits(t, ZerosBefore(du, i), du[i]));
  }

  lemma CategoryAt(du: seq<int>, i: nat)
    requires Categories(du) && 1 <= i < |du| && du[i] != 0
    ensures Fits(ZerosBefore(du, i), du[i])
  {
  }

  method WriteTail(w: Writer, t: seq<Code>)
    requires w.Valid() && IsTable(t)
    modifies w
    ensures w.Valid() && |t| == 256 && w.Contents() == old(w.Contents()) + t[0].Bits()
  {
    w.WriteBits(t[0].value, t[0].length);
  }
}
