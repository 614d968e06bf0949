/** The bits of a block of 64 quantised coefficients, and when the decoder of section F.2.2 of ITU-T T.81
    gets the block back from them. */
module JpegCode {
  import opened Bits
  import opened Optional

  /** A Huffman code; length 0 says that the symbol has none. */
  datatype Code = Code(value: nat, length: nat) {
    function Bits(): seq<bool> {
      MsbBits(value, length)
    }
  }

  ghost predicate Used(t: seq<Code>, s: nat) {
    s < |t| && t[s].length > 0
  }

  /** A table of codes of at most 16 bits, none of which begins another. */
  ghost predicate IsTable(t: seq<Code>) {
    && |t| == 256
    && (forall s :: 0 <= s < 256 ==> t[s].length <= 16 && t[s].value < Pow2(t[s].length))
    && forall a: nat, b: nat :: Used(t, a) && Used(t, b) && a != b ==> !(t[a].Bits() <= t[b].Bits())
  }

  // ---------- The decoder ----------

  /** The first symbol from s on whose code begins the bits. */
  function Symbol(t: seq<Code>, bits: seq<bool>, s: nat): (r: Option<nat>)
    ensures r.Some? ==> r.value < |t| && 0 < t[r.value].length <= |bits|
    ensures r.Some? ==> t[r.value].Bits() <= bits
    decreases |t| - s
  {
    if s >= |t| then None
    else if t[s].length > 0 && t[s].Bits() <= bits then Some(s)
    else Symbol(t, bits, s + 1)
  }

  /** The signed value of n magnitude bits (EXTEND, section F.2.2.1). */
  function Extend(v: nat, n: nat): int
    requires n > 0
  {
    if v < Pow2(n - 1) then v - Pow2(n) + 1 else v
  }

  /** An n-bit magnitude and the bits after it. */
  function Magnitude(bits: seq<bool>, n: nat): Option<(int, seq<bool>)> {
    if n == 0 then Some((0, bits))
    else if n > |bits| then None
    else Some((Extend(MsbVal(bits[..n]), n), bits[n..]))
  }

  /** The DC difference (section F.2.2.1). */
  function DecodeDC(t: seq<Code>, bits: seq<bool>): Option<(int, seq<bool>)> {
    var s :- Symbol(t, bits, 0);
    Magnitude(bits[t[s].length..], s)
  }

  function Zeros(n: nat): (z: seq<int>)
    ensures |z| == n
  {
    seq(n, _ => 0)
  }

  /** The AC coefficients after those in zz (section F.2.2.2): run/size pairs, ZRL and EOB. */
  function DecodeAC(t: seq<Code>, bits: seq<bool>, zz: seq<int>): Option<(seq<int>, seq<bool>)>
    decreases |bits|
  {
    if |zz| >= 64 then
      if |zz| == 64 then Some((zz, bits)) else None
    else
      var rs :- Symbol(t, bits, 0);
      var rest := bits[t[rs].length..];
      var run, size := rs / 16, rs % 16;
      if size == 0 && run == 15 then DecodeAC(t, rest, zz + Zeros(16))
      else if size == 0 then Some((zz + Zeros(64 - |zz|), rest))
      else
        match Magnitude(rest, size)
        case None => None
        case Some((v, after)) => DecodeAC(t, after, zz + Zeros(run) + [v])
  }

  /** A block whose DC prediction is dc. */
  function DecodeBlock(htdc: seq<Code>, htac: seq<Code>, dc: int, bits: seq<bool>): Option<(seq<int>, seq<bool>)> {
    var (diff, rest) :- DecodeDC(htdc, bits);
    DecodeAC(htac, rest, [dc + diff])
  }

  // ---------- Symbols and magnitudes ----------

  lemma Comparable(a: seq<bool>, b: seq<bool>, bits: seq<bool>)
    requires a <= bits && b <= bits
    ensures a <= b || b <= a
  {
    if |a| <= |b| {
      assert a == bits[..|a|] == b[..|a|];
    } else {
      assert b == bits[..|b|] == a[..|b|];
    }
  }

  /** A code at the front is the symbol read, whatever follows. */
  lemma {:induction false} SymbolReadFrom(t: seq<Code>, s: nat, rest: seq<bool>, k: nat)
    requires IsTable(t) && Used(t, s) && k <= s
    ensures Symbol(t, t[s].Bits() + rest, k) == Some(s)
    decreases s - k
  {
    var bits := t[s].Bits() + rest;
    if k < s {
      if Used(t, k) && t[k].Bits() <= bits {
        Comparable(t[k].Bits(), t[s].Bits(), bits);
      }
      SymbolReadFrom(t, s, rest, k + 1);
    }
  }

  lemma SymbolRead(t: seq<Code>, s: nat, rest: seq<bool>)
    requires IsTable(t) && Used(t, s)
    ensures Symbol(t, t[s].Bits() + rest, 0) == Some(s)
    ensures (t[s].Bits() + rest)[t[s].length..] == rest
  {
    SymbolReadFrom(t, s, rest, 0);
  }

  /** The number of bits of a magnitude: its size category (section F.1.2.1). */
  function Size(v: nat): (n: nat)
    ensures v > 0 ==> n > 0 && Pow2(n - 1) <= v
    ensures v < Pow2(n)
    ensures n == 0 <==> v == 0
  {
    if v == 0 then 0 else 1 + Size(v / 2)
  }

  /** The magnitude bits of a value: its low bits, or those of one less when it is negative. */
  function MagnitudeCode(val: int): nat {
    (if val < 0 then val - 1 else val) % Pow2(Size(Abs(val)))
  }

  lemma MagnitudeCodeIs(val: int)
    requires val != 0
    ensures MagnitudeCode(val) < Pow2(Size(Abs(val))) && Extend(MagnitudeCode(val), Size(Abs(val))) == val
  {
    hide Pow2;
    TwosComplement(val, Size(Abs(val)));
  }

  /** The low n bits of a value, or of one less when it is negative, extend to it again. */
  lemma TwosComplement(val: int, n: nat)
    requires n > 0 && Pow2(n - 1) <= Abs(val) < Pow2(n)
    ensures var code := (if val < 0 then val - 1 else val) % Pow2(n);
            code < Pow2(n) && Extend(code, n) == val
  {
    assert Pow2(n) == 2 * Pow2(n - 1);
    hide Pow2;
    Wrap(val, if val < 0 then val - 1 else val, Pow2(n - 1), Pow2(n));
  }

  lemma Wrap(val: int, v: int, H: nat, N: nat)
    requires N == 2 * H && H <= Abs(val) < N
    requires v == if val < 0 then val - 1 else val
    ensures v % N < N && val == if v % N < H then v % N - N + 1 else v % N
  {
    if val < 0 {
      WrapOnce(v, N);
    }
  }

  lemma WrapOnce(v: int, N: nat)
    requires -(N as int) <= v < 0
    ensures v % N == v + N
  {
    var q, r := v / N, v % N;
    if q != -1 {
      Multiple(q + 1, N);
    }
  }

  lemma Multiple(q: int, N: int)
    requires q != 0 && N > 0
    ensures q * N >= N || q * N <= -N
  {
  }

  lemma MagnitudeRead(code: nat, n: nat, rest: seq<bool>)
    requires n > 0 && code < Pow2(n)
    ensures Magnitude(MsbBits(code, n) + rest, n) == Some((Extend(code, n), rest))
  {
    var bits := MsbBits(code, n) + rest;
    assert bits[..n] == MsbBits(code, n);
    assert bits[n..] == rest;
    MsbRoundTrip(code, n);
  }

  // ---------- What written bits do to the decoder ----------

  /** Reading `out` takes the AC decoder from the coefficients zz to the coefficients to. */
  ghost predicate Decodes(t: seq<Code>, out: seq<bool>, zz: seq<int>, to: seq<int>) {
    forall rest :: DecodeAC(t, out + rest, zz) == DecodeAC(t, rest, to)
  }

  lemma ReadsNothing(t: seq<Code>, zz: seq<int>)
    ensures Decodes(t, [], zz, zz)
  {
    forall rest ensures DecodeAC(t, [] + rest, zz) == DecodeAC(t, rest, zz) {
      assert [] + rest == rest;
    }
  }

  lemma Compose(t: seq<Code>, a: seq<bool>, b: seq<bool>, x: seq<int>, y: seq<int>, z: seq<int>)
    requires Decodes(t, a, x, y) && Decodes(t, b, y, z)
    ensures Decodes(t, a + b, x, z)
  {
    forall rest ensures DecodeAC(t, (a + b) + rest, x) == DecodeAC(t, rest, z) {
      Associate(a, b, rest);
      assert DecodeAC(t, a + (b + rest), x) == DecodeAC(t, b + rest, y);
    }
  }

  lemma SixteenZeros(t: seq<Code>, zz: seq<int>)
    requires IsTable(t) && Used(t, 0xF0) && |zz| < 64
    ensures Decodes(t, t[0xF0].Bits(), zz, zz + Zeros(16))
  {
    forall rest ensures DecodeAC(t, t[0xF0].Bits() + rest, zz) == DecodeAC(t, rest, zz + Zeros(16)) {
      SymbolRead(t, 0xF0, rest);
    }
  }

  lemma EndOfBlock(t: seq<Code>, zz: seq<int>)
    requires IsTable(t) && Used(t, 0) && |zz| < 64
    ensures Decodes(t, t[0].Bits(), zz, zz + Zeros(64 - |zz|))
  {
    forall rest ensures DecodeAC(t, t[0].Bits() + rest, zz) == DecodeAC(t, rest, zz + Zeros(64 - |zz|)) {
      SymbolRead(t, 0, rest);
    }
  }

  lemma Coefficient(t: seq<Code>, zz: seq<int>, run: nat, code: nat, n: nat)
    requires IsTable(t) && run < 16 && 0 < n < 16 && Used(t, 16 * run + n) && |zz| < 64 && code < Pow2(n)
    ensures Decodes(t, t[16 * run + n].Bits() + MsbBits(code, n), zz, zz + Zeros(run) + [Extend(code, n)])
  {
    var rs := 16 * run + n;
    var a, b, to := t[rs].Bits(), MsbBits(code, n), zz + Zeros(run) + [Extend(code, n)];
    forall rest ensures DecodeAC(t, (a + b) + rest, zz) == DecodeAC(t, rest, to) {
      hide IsTable, Used, Pow2, MsbBits, DecodeAC, Extend, Zeros;
      Associate(a, b, rest);
      SymbolRead(t, rs, b + rest);
      MagnitudeRead(code, n, rest);
      CoefficientStep(t, a + (b + rest), zz, run, n, b + rest, Extend(code, n), rest);
    }
  }

  /** One step of the decoder: a run/size symbol and its magnitude. */
  lemma CoefficientStep(t: seq<Code>, bits: seq<bool>, zz: seq<int>, run: nat, n: nat, after: seq<bool>, v: int,
      rest: seq<bool>)
    requires run < 16 && 0 < n < 16 && |zz| < 64 && Symbol(t, bits, 0) == Some(16 * run + n)
    requires bits[t[16 * run + n].length..] == after && Magnitude(after, n) == Some((v, rest))
    ensures DecodeAC(t, bits, zz) == DecodeAC(t, rest, zz + Zeros(run) + [v])
  {
    assert (16 * run + n) / 16 == run && (16 * run + n) % 16 == n;
    hide Symbol, Magnitude, Zeros;
  }

  lemma CodedCoefficient(t: seq<Code>, zz: seq<int>, run: nat, v: int)
    requires IsTable(t) && run < 16 && v != 0 && Size(Abs(v)) < 16 && Used(t, SymbolOf(run, v)) && |zz| < 64
    ensures Decodes(t, t[SymbolOf(run, v)].Bits() + MsbBits(MagnitudeCode(v), Size(Abs(v))), zz, zz + Zeros(run) + [v])
  {
    hide Decodes, MsbBits, Extend, IsTable, Used, Size, Pow2, Zeros, MagnitudeCode;
    assert SymbolOf(run, v) == 16 * run + Size(Abs(v));
    MagnitudeCodeIs(v);
    Coefficient(t, zz, run, MagnitudeCode(v), Size(Abs(v)));
  }

  // ---------- The bits of a block ----------

  /** Run/size: the zeros left after the ZRLs, and the size category. */
  function SymbolOf(run: nat, v: int): nat {
    16 * (run % 16) + Size(Abs(v))
  }

  /** What the coder can index its table of 256 entries with: at most 16 magnitude bits, and a run/size inside the
      table. With 16 bits it reads the entry that stands for no bits after the next longer run. */
  predicate Fits(run: nat, v: int) {
    Size(Abs(v)) <= 16 && SymbolOf(run, v) < 256
  }

  function ZrlBits(t: seq<Code>, n: nat): seq<bool>
    requires |t| == 256
  {
    if n == 0 then [] else ZrlBits(t, n - 1) + t[0xF0].Bits()
  }

  /** A coefficient after a run of zeros. */
  function RunBits(t: seq<Code>, run: nat, v: int): seq<bool>
    requires |t| == 256 && v != 0 && Fits(run, v)
  {
    ZrlBits(t, run / 16) + (t[SymbolOf(run, v)].Bits() + MsbBits(MagnitudeCode(v), Size(Abs(v))))
  }

  /** The number of zeros just before position i, from position 1 on. */
  function ZerosBefore(du: seq<int>, i: nat): (n: nat)
    requires 1 <= i <= |du|
    ensures n < i && forall j :: i - n <= j < i ==> du[j] == 0
  {
    if i == 1 || du[i - 1] != 0 then 0 else 1 + ZerosBefore(du, i - 1)
  }

  /** Every AC coefficient, after its run, has a table entry. */
  predicate Categories(du: seq<int>) {
    forall i :: 1 <= i < |du| && du[i] != 0 ==> Fits(ZerosBefore(du, i), du[i])
  }

  /** The coefficients from 1 to before i, without an end of block. */
  function ACBits(t: seq<Code>, du: seq<int>, i: nat): seq<bool>
    requires |t| == 256 && 1 <= i <= |du| && Categories(du)
  {
    if i == 1 then []
    else if du[i - 1] == 0 then ACBits(t, du, i - 1)
    else ACBits(t, du, i - 1) + RunBits(t, ZerosBefore(du, i - 1), du[i - 1])
  }

  function DCBits(t: seq<Code>, diff: int): seq<bool>
    requires |t| == 256 && Size(Abs(diff)) <= 16
  {
    if diff == 0 then t[0].Bits()
    else t[Size(Abs(diff))].Bits() + MsbBits(MagnitudeCode(diff), Size(Abs(diff)))
  }

  function TailBits(t: seq<Code>, du: seq<int>): seq<bool>
    requires |t| == 256 && |du| == 64
  {
    if du[63] == 0 then t[0].Bits() else []
  }

  /** The values the coder can index its tables with. */
  predicate IsBlock(dc: int, du: seq<int>) {
    |du| == 64 && Categories(du) && Size(Abs(du[0] - dc)) <= 16
  }

  function BlockBits(htdc: seq<Code>, htac: seq<Code>, dc: int, du: seq<int>): seq<bool>
    requires |htdc| == |htac| == 256 && IsBlock(dc, du)
  {
    DCBits(htdc, du[0] - dc) + (ACBits(htac, du, 64) + TailBits(htac, du))
  }

  ghost predicate RunCodable(t: seq<Code>, run: nat, v: int) {
    Size(Abs(v)) < 16 && Used(t, SymbolOf(run, v)) && (run >= 16 ==> Used(t, 0xF0))
  }

  ghost predicate ACCodable(t: seq<Code>, du: seq<int>, from: nat)
    requires from >= 1
  {
    forall i :: from <= i < |du| && du[i] != 0 ==> RunCodable(t, ZerosBefore(du, i), du[i])
  }

  /** Both tables have a code for every symbol that is written for this block, and no AC coefficient has more
      magnitude bits than a run/size symbol can tell. */
  ghost predicate Codable(htdc: seq<Code>, htac: seq<Code>, dc: int, du: seq<int>)
    requires |du| == 64
  {
    && Used(htdc, Size(Abs(du[0] - dc)))
    && ACCodable(htac, du, 1)
    && (du[63] == 0 ==> Used(htac, 0))
  }

  lemma {:induction false} SizeBound(v: nat, n: nat)
    requires v < Pow2(n)
    ensures Size(v) <= n
  {
    if v > 0 {
      SizeBound(v / 2, n - 1);
    }
  }

  /** The table has a code for every run with this size category. */
  ghost predicate CoversSize(t: seq<Code>, n: nat) {
    forall run: nat :: run < 16 ==> Used(t, 16 * run + n)
  }

  /** Tables with the symbols of baseline JPEG serve every block within the baseline range. */
  lemma BaselineCodable(htdc: seq<Code>, htac: seq<Code>, dc: int, du: seq<int>)
    requires |du| == 64 && Abs(du[0] - dc) <= 2047 && forall i :: 1 <= i < 64 ==> Abs(du[i]) <= 1023
    requires forall n: nat :: n <= 11 ==> Used(htdc, n)
    requires Used(htac, 0) && Used(htac, 0xF0)
    requires forall n: nat :: 1 <= n <= 10 ==> CoversSize(htac, n)
    ensures IsBlock(dc, du) && Codable(htdc, htac, dc, du)
  {
    hide Used, Size, CoversSize, SymbolOf;
    Pow2Values();
    SizeBound(Abs(du[0] - dc), 11);
    forall i | 1 <= i < 64 && du[i] != 0
      ensures Fits(ZerosBefore(du, i), du[i]) && RunCodable(htac, ZerosBefore(du, i), du[i])
    {
      SizeBound(Abs(du[i]), 10);
      Covered(htac, ZerosBefore(du, i), du[i]);
    }
  }

  lemma Covered(t: seq<Code>, run: nat, v: int)
    requires CoversSize(t, Size(Abs(v))) && Size(Abs(v)) <= 10
    ensures Used(t, SymbolOf(run, v)) && SymbolOf(run, v) < 256
  {
    assert run % 16 < 16;
  }

  // ---------- Reading them ----------

  lemma MoreZeros(zz: seq<int>, n: nat, m: nat)
    ensures (zz + Zeros(n)) + Zeros(m) == zz + Zeros(n + m)
  {
  }

  lemma {:induction false} ZrlsRead(t: seq<Code>, zz: seq<int>, n: nat)
    requires IsTable(t) && |zz| + 16 * n < 64 && (n > 0 ==> Used(t, 0xF0))
    ensures Decodes(t, ZrlBits(t, n), zz, zz + Zeros(16 * n))
  {
    hide Decodes, IsTable, Used;
    assert |t| == 256 by { TableSize(t); }
    if n == 0 {
      ReadsNothing(t, zz);
      assert zz + Zeros(0) == zz;
    } else {
      ZrlsRead(t, zz, n - 1);
      var mid := zz + Zeros(16 * (n - 1));
      SixteenZeros(t, mid);
      Compose(t, ZrlBits(t, n - 1), t[0xF0].Bits(), zz, mid, mid + Zeros(16));
      MoreZeros(zz, 16 * (n - 1), 16);
    }
  }

  lemma RunRead(t: seq<Code>, zz: seq<int>, run: nat, v: int)
    requires IsTable(t) && v != 0 && RunCodable(t, run, v) && |zz| + run < 64
    ensures Decodes(t, RunBits(t, run, v), zz, zz + Zeros(run) + [v])
  {
    hide Decodes, MsbBits, Size, Used, ZrlBits, IsTable;
    assert |t| == 256 by { TableSize(t); }
    var q, r := run / 16, run % 16;
    var mid := zz + Zeros(16 * q);
    ZrlsRead(t, zz, q);
    assert SymbolOf(r, v) == SymbolOf(run, v);
    CodedCoefficient(t, mid, r, v);
    MoreZeros(zz, 16 * q, r);
    Compose(t, ZrlBits(t, run / 16), t[SymbolOf(run, v)].Bits() + MsbBits(MagnitudeCode(v), Size(Abs(v))), zz, mid,
            mid + Zeros(run % 16) + [v]);
  }

  lemma Prefix(du: seq<int>, startpos: nat, i: nat)
    requires startpos <= i < |du| && forall j :: startpos <= j < i ==> du[j] == 0
    ensures du[..startpos] + Zeros(i - startpos) + [du[i]] == du[..i + 1]
  {
  }

  lemma NothingFirst(t: seq<Code>, du: seq<int>)
    requires |t| == 256 && Categories(du) && |du| > 0
    ensures ACBits(t, du, 1) == [] && ZerosBefore(du, 1) == 0
  {
  }

  /** What one more coefficient adds. */
  lemma NextBits(t: seq<Code>, du: seq<int>, i: nat)
    requires |t| == 256 && Categories(du) && 1 <= i < |du|
    ensures du[i] != 0 ==> Fits(ZerosBefore(du, i), du[i])
    ensures ZerosBefore(du, i + 1) == if du[i] == 0 then ZerosBefore(du, i) + 1 else 0
    ensures ACBits(t, du, i + 1)
         == if du[i] == 0 then ACBits(t, du, i) else ACBits(t, du, i) + RunBits(t, ZerosBefore(du, i), du[i])
  {
    hide RunBits;
  }

  lemma CodableAt(t: seq<Code>, du: seq<int>, i: nat)
    requires ACCodable(t, du, 1) && 1 <= i < |du| && du[i] != 0
    ensures RunCodable(t, ZerosBefore(du, i), du[i])
  {
    hide RunCodable;
  }

  /** The coefficients before i take the decoder to the last of them that is not zero. */
  lemma {:induction false} ACRead(t: seq<Code>, du: seq<int>, i: nat)
    requires IsTable(t) && |du| == 64 && Categories(du) && ACCodable(t, du, 1) && 1 <= i <= 64
    ensures Decodes(t, ACBits(t, du, i), du[..1], du[..i - ZerosBefore(du, i)])
  {
    hide Decodes, IsTable, Used, RunBits, Size, RunCodable, Categories, ACCodable, ACBits, ZerosBefore;
    assert |t| == 256 by { TableSize(t); }
    if i == 1 {
      NothingFirst(t, du);
      ReadsNothing(t, du[..1]);
    } else {
      ACRead(t, du, i - 1);
      NextBits(t, du, i - 1);
      if du[i - 1] != 0 {
        CodableAt(t, du, i - 1);
        NextRead(t, du, i - 1, ACBits(t, du, i - 1));
      }
    }
  }

  lemma NextRead(t: seq<Code>, du: seq<int>, i: nat, before: seq<bool>)
    requires IsTable(t) && |du| == 64 && 1 <= i < 64 && du[i] != 0
    requires Fits(ZerosBefore(du, i), du[i]) && RunCodable(t, ZerosBefore(du, i), du[i])
    requires Decodes(t, before, du[..1], du[..i - ZerosBefore(du, i)])
    ensures Decodes(t, before + RunBits(t, ZerosBefore(du, i), du[i]), du[..1], du[..i + 1])
  {
    hide Decodes, IsTable, Used, RunBits, Size, RunCodable, Fits;
    assert |t| == 256 by { TableSize(t); }
    var run := ZerosBefore(du, i);
    RunRead(t, du[..i - run], run, du[i]);
    Prefix(du, i - run, i);
    hide ZerosBefore;
    Compose(t, before, RunBits(t, run, du[i]), du[..1], du[..i - run], du[..i + 1]);
  }

  lemma TableSize(t: seq<Code>)
    requires IsTable(t)
    ensures |t| == 256
  {
  }

  lemma TailRead(t: seq<Code>, du: seq<int>)
    requires IsTable(t) && |du| == 64 && (du[63] == 0 ==> Used(t, 0))
    ensures Decodes(t, TailBits(t, du), du[..64 - ZerosBefore(du, 64)], du)
  {
    hide Decodes, Used;
    var zz := du[..64 - ZerosBefore(du, 64)];
    if du[63] == 0 {
      EndOfBlock(t, zz);
      assert zz + Zeros(64 - |zz|) == du;
    } else {
      ReadsNothing(t, du);
      assert zz == du;
    }
  }

  lemma DCRead(t: seq<Code>, diff: int, rest: seq<bool>)
    requires IsTable(t) && Size(Abs(diff)) <= 16 && Used(t, Size(Abs(diff)))
    ensures DecodeDC(t, DCBits(t, diff) + rest) == Some((diff, rest))
  {
    hide IsTable, Symbol, MsbBits;
    assert |t| == 256 by { TableSize(t); }
    var n := Size(Abs(diff));
    if diff == 0 {
      SymbolRead(t, 0, rest);
    } else {
      var a, b := t[n].Bits(), MsbBits(MagnitudeCode(diff), n);
      Associate(a, b, rest);
      SymbolRead(t, n, b + rest);
      MagnitudeCodeIs(diff);
      MagnitudeRead(MagnitudeCode(diff), n, rest);
    }
  }

  lemma AfterDC(htdc: seq<Code>, htac: seq<Code>, dc: int, du: seq<int>, bits: seq<bool>)
    requires IsTable(htdc) && |du| == 64 && Size(Abs(du[0] - dc)) <= 16 && Used(htdc, Size(Abs(du[0] - dc)))
    ensures DecodeBlock(htdc, htac, dc, DCBits(htdc, du[0] - dc) + bits) == DecodeAC(htac, bits, du[..1])
  {
    hide DecodeDC, DecodeAC, DCBits, Size;
    DCRead(htdc, du[0] - dc, bits);
    assert du[..1] == [du[0]];
  }

  /** The bits decode to the block, whatever follows. */
  ghost predicate ReadsBack(htdc: seq<Code>, htac: seq<Code>, dc: int, du: seq<int>, out: seq<bool>) {
    forall rest :: DecodeBlock(htdc, htac, dc, out + rest) == Some((du, rest))
  }

  /** With a code for every symbol written, the bits of a block decode to it. */
  lemma BlockRead(htdc: seq<Code>, htac: seq<Code>, dc: int, du: seq<int>)
    requires IsTable(htdc) && IsTable(htac) && IsBlock(dc, du) && Codable(htdc, htac, dc, du)
    ensures ReadsBack(htdc, htac, dc, du, BlockBits(htdc, htac, dc, du))
  {
    hide Decodes, IsTable, Used, DCBits, ACBits, TailBits, ZerosBefore, DecodeBlock, ACCodable, Categories, Size;
    TableSize(htdc);
    TableSize(htac);
    ACRead(htac, du, 64);
    TailRead(htac, du);
    var dcBits, a, b := DCBits(htdc, du[0] - dc), ACBits(htac, du, 64), TailBits(htac, du);
    Compose(htac, a, b, du[..1], du[..64 - ZerosBefore(du, 64)], du);
    forall rest ensures DecodeBlock(htdc, htac, dc, (dcBits + (a + b)) + rest) == Some((du, rest)) {
      Associate(dcBits, a + b, rest);
      AfterDC(htdc, htac, dc, du, (a + b) + rest);
      ACsRead(htac, a + b, du, rest);
    }
  }

  lemma ACsRead(t: seq<Code>, out: seq<bool>, du: seq<int>, rest: seq<bool>)
    requires |du| == 64 && Decodes(t, out, du[..1], du)
    ensures DecodeAC(t, out + rest, du[..1]) == Some((du, rest))
  {
    assert DecodeAC(t, rest, du) == Some((du, rest));
  }

  // ---------- A symbol without a code ----------

  lemma SizeIs(v: nat, n: nat)
    requires n > 0 && Pow2(n - 1) <= v < Pow2(n)
    ensures Size(v) == n
  {
    SizeBound(v, n);
    if Size(v) < n {
      Pow2Monotone(Size(v), n - 1);
    }
  }

  /** A value with n magnitude bits has size category n. */
  lemma ExtendSize(v: nat, n: nat)
    requires n > 0 && v < Pow2(n)
    ensures Extend(v, n) != 0 && Size(Abs(Extend(v, n))) == n
  {
    assert Pow2(n) == 2 * Pow2(n - 1);
    hide Pow2, Size;
    SizeIs(Abs(Extend(v, n)), n);
  }

  lemma {:induction false} MsbValBound(bits: seq<bool>)
    ensures MsbVal(bits) < Pow2(|bits|)
  {
    if bits != [] {
      MsbValBound(bits[..|bits| - 1]);
    }
  }

  lemma MagnitudeSize(bits: seq<bool>, n: nat)
    requires n > 0 && Magnitude(bits, n).Some?
    ensures var (v, rest) := Magnitude(bits, n).value; v != 0 && Size(Abs(v)) == n && |rest| <= |bits|
  {
    MsbValBound(bits[..n]);
    ExtendSize(MsbVal(bits[..n]), n);
  }

  lemma {:induction false} SamePrefix(zz: seq<int>, du: seq<int>, i: nat)
    requires 1 <= i <= |zz| && zz <= du
    ensures ZerosBefore(zz, i) == ZerosBefore(du, i)
  {
    if i > 1 {
      SamePrefix(zz, du, i - 1);
    }
  }

  lemma {:induction false} ZerosAfter(zz: seq<int>, n: nat)
    requires |zz| >= 1
    ensures ZerosBefore(zz + Zeros(n), |zz| + n) == ZerosBefore(zz, |zz|) + n
  {
    if n == 0 {
      assert zz + Zeros(0) == zz;
    } else {
      ZerosAfter(zz, n - 1);
      SamePrefix(zz + Zeros(n - 1), zz + Zeros(n), |zz| + n - 1);
    }
  }

  /** The zeros at the end come from ZRLs. */
  ghost predicate Whole(t: seq<Code>, zz: seq<int>) {
    |zz| >= 1 && ZerosBefore(zz, |zz|) % 16 == 0 && (ZerosBefore(zz, |zz|) > 0 ==> Used(t, 0xF0))
  }

  /** What the first symbol is: the end of the block, sixteen zeros, or a coefficient after a run of zeros. */
  lemma FirstSymbol(t: seq<Code>, bits: seq<bool>, zz: seq<int>) returns (run: nat, v: int, more: Option<seq<bool>>)
    requires |t| == 256 && |zz| < 64 && DecodeAC(t, bits, zz).Some?
    ensures more.None? ==> DecodeAC(t, bits, zz).value.0 == zz + Zeros(64 - |zz|)
    ensures more.Some? ==> |more.value| < |bits|
    ensures more.Some? && v == 0 ==> Used(t, 0xF0) && DecodeAC(t, bits, zz) == DecodeAC(t, more.value, zz + Zeros(16))
    ensures more.Some? && v != 0 ==> run < 16 && Size(Abs(v)) < 16 && Used(t, 16 * run + Size(Abs(v)))
    ensures more.Some? && v != 0 ==> DecodeAC(t, bits, zz) == DecodeAC(t, more.value, zz + Zeros(run) + [v])
  {
    var rs := Symbol(t, bits, 0).value;
    var after := bits[t[rs].length..];
    var size := rs % 16;
    hide Symbol, Magnitude, Size, Zeros;
    run, v, more := rs / 16, 0, None;
    if size == 0 && run == 15 {
      more := Some(after);
    } else if size > 0 {
      MagnitudeSize(after, size);
      v, more := Magnitude(after, size).value.0, Some(Magnitude(after, size).value.1);
    }
  }

  /** Whatever bits decode to a block, they hold a run/size code for each of its coefficients. */
  lemma {:induction false} CodesNeeded(t: seq<Code>, bits: seq<bool>, zz: seq<int>, du: seq<int>, rest: seq<bool>)
    requires |t| == 256 && Whole(t, zz) && DecodeAC(t, bits, zz) == Some((du, rest))
    ensures zz <= du && |du| == 64 && ACCodable(t, du, |zz|)
    decreases |bits|
  {
    if |zz| < 64 {
      hide Whole, ACCodable, Zeros, DecodeAC, Size, Used;
      var run, v, more := FirstSymbol(t, bits, zz);
      if more.None? {
        NoneLeft(t, zz + Zeros(64 - |zz|));
        ZerosNeedNothing(t, zz, 64 - |zz|, du);
      } else if v == 0 {
        WholeZeros(t, zz);
        CodesNeeded(t, more.value, zz + Zeros(16), du, rest);
        ZerosNeedNothing(t, zz, 16, du);
      } else {
        NextWhole(t, zz, run, v);
        CodesNeeded(t, more.value, zz + Zeros(run) + [v], du, rest);
        CoefficientNeeded(t, zz, run, v, du);
      }
    }
  }

  lemma NoneLeft(t: seq<Code>, du: seq<int>)
    requires |du| > 0
    ensures ACCodable(t, du, |du|)
  {
  }

  lemma WholeZeros(t: seq<Code>, zz: seq<int>)
    requires Whole(t, zz) && Used(t, 0xF0)
    ensures Whole(t, zz + Zeros(16))
  {
    ZerosAfter(zz, 16);
  }

  lemma ZerosNeedNothing(t: seq<Code>, zz: seq<int>, n: nat, du: seq<int>)
    requires |zz| >= 1 && zz + Zeros(n) <= du && ACCodable(t, du, |zz| + n)
    ensures zz <= du && ACCodable(t, du, |zz|)
  {
    hide RunCodable;
    assert forall i :: |zz| <= i < |zz| + n ==> du[i] == (zz + Zeros(n))[i] == 0;
    assert zz == (zz + Zeros(n))[..|zz|] == du[..|zz|];
  }

  lemma NextWhole(t: seq<Code>, zz: seq<int>, run: nat, v: int)
    requires v != 0
    ensures Whole(t, zz + Zeros(run) + [v])
  {
  }

  lemma CoefficientNeeded(t: seq<Code>, zz: seq<int>, run: nat, v: int, du: seq<int>)
    requires Whole(t, zz) && run < 16 && v != 0 && Size(Abs(v)) < 16 && Used(t, 16 * run + Size(Abs(v)))
    requires zz + Zeros(run) + [v] <= du && ACCodable(t, du, |zz| + run + 1)
    ensures zz <= du && ACCodable(t, du, |zz|)
  {
    var k := |zz| + run;
    RunMeasured(zz, run, v, du);
    RunNeeded(t, ZerosBefore(zz, |zz|), run, v);
    hide RunCodable, Whole, Used;
    assert ACCodable(t, du, k);
    ZerosNeedNothing(t, zz, run, du);
  }

  lemma RunMeasured(zz: seq<int>, run: nat, v: int, du: seq<int>)
    requires |zz| >= 1 && zz + Zeros(run) + [v] <= du
    ensures var k := |zz| + run;
            zz + Zeros(run) <= du && du[k] == v && ZerosBefore(du, k) == ZerosBefore(zz, |zz|) + run
  {
    var k := |zz| + run;
    ZerosAfter(zz, run);
    assert du[k] == (zz + Zeros(run) + [v])[k] == v;
    assert zz + Zeros(run) == (zz + Zeros(run) + [v])[..k] == du[..k];
    SamePrefix(zz + Zeros(run), du, k);
  }

  lemma RunNeeded(t: seq<Code>, before: nat, run: nat, v: int)
    requires before % 16 == 0 && (before > 0 ==> Used(t, 0xF0)) && run < 16
    requires Size(Abs(v)) < 16 && Used(t, 16 * run + Size(Abs(v)))
    ensures RunCodable(t, before + run, v)
  {
    hide Used, Size;
    SameRemainder(before, run);
  }

  lemma SameRemainder(before: nat, run: nat)
    requires before % 16 == 0 && run < 16
    ensures (before + run) % 16 == run
  {
  }

  /** The size category that was read is that of the value. */
  lemma DCNeeded(t: seq<Code>, bits: seq<bool>)
    requires DecodeDC(t, bits).Some?
    ensures Used(t, Size(Abs(DecodeDC(t, bits).value.0)))
  {
    var s := Symbol(t, bits, 0).value;
    if s > 0 {
      MagnitudeSize(bits[t[s].length..], s);
    }
  }

  /** Without an end-of-block code the bits end before the decoder has its 64 coefficients. */
  lemma TailNeeded(htdc: seq<Code>, htac: seq<Code>, dc: int, du: seq<int>)
    requires IsTable(htdc) && IsTable(htac) && IsBlock(dc, du) && du[63] == 0 && !Used(htac, 0)
    requires Used(htdc, Size(Abs(du[0] - dc))) && ACCodable(htac, du, 1)
    ensures DecodeBlock(htdc, htac, dc, BlockBits(htdc, htac, dc, du)).None?
  {
    hide Decodes, DCBits, ACBits, DecodeDC, ACCodable, Categories, Size;
    assert TailBits(htac, du) == [];
    var a, n := ACBits(htac, du, 64), 64 - ZerosBefore(du, 64);
    assert a + [] == a;
    DCRead(htdc, du[0] - dc, a);
    ACRead(htac, du, 64);
    assert du[..1] == [du[0]];
    ReadOn(htac, a, du[..1], du[..n]);
  }

  lemma ReadOn(t: seq<Code>, out: seq<bool>, zz: seq<int>, to: seq<int>)
    requires IsTable(t) && Decodes(t, out, zz, to) && |to| < 64
    ensures DecodeAC(t, out, zz).None?
  {
    assert out + [] == out;
    assert DecodeAC(t, out + [], zz) == DecodeAC(t, [], to);
  }

  /** Bits after a block can stand in for a missing end-of-block code: here the ones that fill up the last byte
      start with the code of sixteen zeros. */
  lemma FillStandsIn(htdc: seq<Code>, htac: seq<Code>, dc: int, du: seq<int>)
    requires IsTable(htdc) && IsTable(htac) && IsBlock(dc, du) && du[63] == 0 && ZerosBefore(du, 64) == 16
    requires Used(htdc, Size(Abs(du[0] - dc))) && ACCodable(htac, du, 1)
    requires !Used(htac, 0) && htac[0xF0] == Code(7, 3)
    ensures !Codable(htdc, htac, dc, du)
    ensures DecodeBlock(htdc, htac, dc, BlockBits(htdc, htac, dc, du) + MsbBits(0x7F, 7)) == Some((du, MsbBits(0xF, 4)))
  {
    hide Decodes, DCBits, ACBits, TailBits, ZerosBefore, Categories, Size, Symbol, MsbBits, DecodeBlock, IsTable,
         ACCodable;
    TableSize(htdc);
    TableSize(htac);
    var d, a := DCBits(htdc, du[0] - dc), ACBits(htac, du, 64);
    assert TailBits(htac, du) == [] by { NoTail(htac, du); }
    Associate(d, a, MsbBits(0x7F, 7));
    assert a + [] == a;
    SevenBits();
    ACRead(htac, du, 64);
    ZerosRead(htac, a, du, MsbBits(0xF, 4));
    AfterDC(htdc, htac, dc, du, a + MsbBits(0x7F, 7));
  }

  lemma NoTail(t: seq<Code>, du: seq<int>)
    requires |t| == 256 && |du| == 64 && !Used(t, 0)
    ensures TailBits(t, du) == []
  {
  }

  lemma ZerosRead(t: seq<Code>, out: seq<bool>, du: seq<int>, rest: seq<bool>)
    requires IsTable(t) && Used(t, 0xF0) && |du| == 64 && ZerosBefore(du, 64) == 16
    requires Decodes(t, out, du[..1], du[..48])
    ensures DecodeAC(t, out + (t[0xF0].Bits() + rest), du[..1]) == Some((du, rest))
  {
    SixteenZeros(t, du[..48]);
    hide IsTable, ZerosBefore;
    assert du[..48] + Zeros(16) == du;
    assert DecodeAC(t, t[0xF0].Bits() + rest, du[..48]) == DecodeAC(t, rest, du);
  }

  lemma SevenBits()
    ensures MsbBits(0x7F, 7) == Code(7, 3).Bits() + MsbBits(0xF, 4)
  {
    assert MsbBits(0x7F, 7) == [true, true, true, true, true, true, true];
    assert MsbBits(7, 3) == [true, true, true];
    assert MsbBits(0xF, 4) == [true, true, true, true];
  }

  lemma BlockReadIff(htdc: seq<Code>, htac: seq<Code>, dc: int, du: seq<int>)
    requires IsTable(htdc) && IsTable(htac) && IsBlock(dc, du)
    ensures ReadsBack(htdc, htac, dc, du, BlockBits(htdc, htac, dc, du)) <==> Codable(htdc, htac, dc, du)
  {
    hide ReadsBack, Codable, BlockBits, Categories;
    if Codable(htdc, htac, dc, du) {
      BlockRead(htdc, htac, dc, du);
    } else if ReadsBack(htdc, htac, dc, du, BlockBits(htdc, htac, dc, du)) {
      AllNeeded(htdc, htac, dc, du);
    }
  }

  lemma AllNeeded(htdc: seq<Code>, htac: seq<Code>, dc: int, du: seq<int>)
    requires IsTable(htdc) && IsTable(htac) && IsBlock(dc, du)
    requires ReadsBack(htdc, htac, dc, du, BlockBits(htdc, htac, dc, du))
    ensures Codable(htdc, htac, dc, du)
  {
    hide DecodeBlock, BlockBits, DecodeDC, IsTable, ACCodable, Used, Size, Categories, TailBits;
    TableSize(htdc);
    TableSize(htac);
    var out := BlockBits(htdc, htac, dc, du);
    assert out + [] == out;
    assert DecodeBlock(htdc, htac, dc, out + []) == Some((du, []));
    SymbolsNeeded(htdc, htac, dc, du, out, []);
    if du[63] == 0 && !Used(htac, 0) {
      TailNeeded(htdc, htac, dc, du);
    }
  }

  /** Whatever bits decode to a block, they hold a code for its DC difference and for each of its coefficients. */
  lemma SymbolsNeeded(htdc: seq<Code>, htac: seq<Code>, dc: int, du: seq<int>, out: seq<bool>, rest: seq<bool>)
    requires |htdc| == |htac| == 256 && |du| == 64 && DecodeBlock(htdc, htac, dc, out) == Some((du, rest))
    ensures Used(htdc, Size(Abs(du[0] - dc))) && ACCodable(htac, du, 1)
  {
    hide DecodeDC, DecodeAC, ACCodable, Used, Size;
    var (diff, after) := DecodeDC(htdc, out).value;
    DCNeeded(htdc, out);
    FirstWhole(htac, dc + diff);
    CodesNeeded(htac, after, [dc + diff], du, rest);
    assert du[0] == [dc + diff][0];
  }

  lemma FirstWhole(t: seq<Code>, v: int)
    ensures Whole(t, [v])
  {
  }
}
