/** The entropy-coded segment: all blocks with their DC predictions, the fill bits and the end marker. */
module JpegScan {
  import opened Bits
  import opened Jpeg
  import opened JpegBlock
  import opened JpegCode
  import opened Optional

  /** The tables of the encoder: luminance and chrominance, DC and AC. */
  datatype Tables = Tables(ydc: seq<Code>, yac: seq<Code>, uvdc: seq<Code>, uvac: seq<Code>) {
    function DC(component: nat): seq<Code> {
      if component == 0 then ydc else uvdc
    }

    function AC(component: nat): seq<Code> {
      if component == 0 then yac else uvac
    }

    ghost predicate Valid() {
      IsTable(ydc) && IsTable(yac) && IsTable(uvdc) && IsTable(uvac)
    }
  }

  // ---------- What the file says about its scan ----------

  /** The components of the frame header: how many, and for each an identifier, its sampling factors and its
      quantisation table. */
  function FrameHeader(subsample: bool): seq<Byte> {
    [3, 1, if subsample then 0x22 else 0x11, 0, 2, 0x11, 1, 3, 0x11, 1]
  }

  /** The scan header: marker, length, and for each component an identifier and its two table selectors. */
  const SCAN_HEADER: seq<Byte> := [0xFF, 0xDA, 0, 0xC, 3, 1, 0, 2, 0x11, 3, 0x11, 0, 0x3F, 0]

  /** What a reader has of a file: the Huffman tables behind their class and destination bytes, in the order of the
      file, and the two headers. */
  datatype Reader = Reader(definitions: seq<(Byte, seq<Code>)>, frame: seq<Byte>, scan: seq<Byte>) {
    /** The last definition for a class (DC 0, AC 1) and a destination (section B.2.4.2 of ITU-T T.81). */
    function Table(class_: nat, destination: nat): seq<Code> {
      LastDefinition(definitions, 16 * class_ + destination)
    }

    /** The selectors of component c (section B.2.3): the DC table in the high half, the AC table in the low one. */
    function Selectors(c: nat): Byte
      requires 6 + 2 * c < |scan|
    {
      scan[6 + 2 * c]
    }

    function DC(c: nat): seq<Code> {
      if 6 + 2 * c < |scan| then Table(0, Selectors(c) / 16) else []
    }

    function AC(c: nat): seq<Code> {
      if 6 + 2 * c < |scan| then Table(1, Selectors(c) % 16) else []
    }

    /** How many blocks of component c a unit of the scan has (section A.2.3). */
    function Sampling(c: nat): nat {
      if 2 + 3 * c < |frame| then (frame[2 + 3 * c] / 16) * (frame[2 + 3 * c] % 16) else 0
    }

    /** The components of the blocks of one unit, in order. */
    function Order(): seq<nat> {
      Times(0, Sampling(0)) + Times(1, Sampling(1)) + Times(2, Sampling(2))
    }
  }

  function Times(c: nat, n: nat): (cs: seq<nat>)
    ensures |cs| == n
  {
    seq(n, _ => c)
  }

  function LastDefinition(definitions: seq<(Byte, seq<Code>)>, id: nat): seq<Code> {
    if definitions == [] then []
    else if definitions[|definitions| - 1].0 == id then definitions[|definitions| - 1].1
    else LastDefinition(definitions[..|definitions| - 1], id)
  }

  /** The tables as the file defines them, and its headers. */
  function Headers(t: Tables, subsample: bool): Reader {
    Reader([(0, t.ydc), (0x10, t.yac), (1, t.uvdc), (0x11, t.uvac)], FrameHeader(subsample), SCAN_HEADER)
  }

  lemma FourDefinitions(a: (Byte, seq<Code>), b: (Byte, seq<Code>), c: (Byte, seq<Code>), d: (Byte, seq<Code>), id: nat)
    ensures LastDefinition([a, b, c, d], id)
         == if d.0 == id then d.1 else if c.0 == id then c.1 else if b.0 == id then b.1
            else if a.0 == id then a.1 else []
  {
    var ds := [a, b, c, d];
    assert ds[..3][..2] == [a, b] && [a, b][..1] == [a] && [a][..0] == [];
    assert LastDefinition([a], id) == if a.0 == id then a.1 else [];
    assert LastDefinition([a, b], id) == if b.0 == id then b.1 else LastDefinition([a], id);
    assert LastDefinition(ds[..3], id) == if c.0 == id then c.1 else LastDefinition([a, b], id);
  }

  /** A reader of the file uses the luminance tables for component 0 and the chrominance tables for 1 and 2. */
  lemma TablesByHeader(t: Tables, subsample: bool, c: nat)
    requires c < 3
    ensures Headers(t, subsample).DC(c) == t.DC(c) && Headers(t, subsample).AC(c) == t.AC(c)
  {
    FourDefinitions((0, t.ydc), (0x10, t.yac), (1, t.uvdc), (0x11, t.uvac), 0);
    FourDefinitions((0, t.ydc), (0x10, t.yac), (1, t.uvdc), (0x11, t.uvac), 1);
    FourDefinitions((0, t.ydc), (0x10, t.yac), (1, t.uvdc), (0x11, t.uvac), 0x10);
    FourDefinitions((0, t.ydc), (0x10, t.yac), (1, t.uvdc), (0x11, t.uvac), 0x11);
    hide LastDefinition;
  }

  // ---------- Blocks in the order of the scan ----------

  /** The blocks of one step of the pixel loops: one of luminance, or four with subsampling, and two of chrominance. */
  datatype Mcu = Mcu(ys: seq<seq<int>>, u: seq<int>, v: seq<int>)

  predicate AreMcus(mcus: seq<Mcu>, subsample: bool) {
    forall m :: 0 <= m < |mcus| ==>
      && |mcus[m].ys| == (if subsample then 4 else 1) && |mcus[m].u| == |mcus[m].v| == 64
      && forall i :: 0 <= i < |mcus[m].ys| ==> |mcus[m].ys[i]| == 64
  }

  /** A block and its component. */
  datatype Unit = Unit(component: nat, du: seq<int>)

  function PerMcu(subsample: bool): nat {
    if subsample then 6 else 3
  }

  /** Block i of a step: luminance first, then U, then V. */
  function UnitAt(m: Mcu, i: nat): Unit {
    if i < |m.ys| then Unit(0, m.ys[i]) else if i == |m.ys| then Unit(1, m.u) else Unit(2, m.v)
  }

  function Units(mcus: seq<Mcu>, subsample: bool): (units: seq<Unit>)
    requires AreMcus(mcus, subsample)
    ensures |units| == |mcus| * PerMcu(subsample) && AreUnits(units)
  {
    seq(|mcus| * PerMcu(subsample), k requires 0 <= k < |mcus| * PerMcu(subsample) =>
      InMcus(k, |mcus|, PerMcu(subsample));
      UnitAt(mcus[k / PerMcu(subsample)], k % PerMcu(subsample)))
  }

  lemma InMcus(k: nat, n: nat, per: nat)
    requires k < n * per && per > 0
    ensures k / per < n
  {
  }

  lemma UnitOf(mcus: seq<Mcu>, subsample: bool, m: nat, i: nat)
    requires AreMcus(mcus, subsample) && m < |mcus| && i < PerMcu(subsample)
    ensures m * PerMcu(subsample) + i < |Units(mcus, subsample)|
    ensures Units(mcus, subsample)[m * PerMcu(subsample) + i] == UnitAt(mcus[m], i)
  {
    var per := PerMcu(subsample);
    assert (m + 1) * per <= |mcus| * per;
    DivMod(m, per, i);
  }

  lemma DivMod(m: nat, per: nat, i: nat)
    requires i < per
    ensures (m * per + i) / per == m && (m * per + i) % per == i
  {
    var q, r := (m * per + i) / per, (m * per + i) % per;
    assert (q - m) * per == i - r;
    if q != m {
      Multiple(q - m, per);
    }
  }

  /** The components that a reader expects, from the headers and the number of units. */
  function Components(r: Reader, n: nat): (cs: seq<nat>) {
    var order := r.Order();
    seq(n * |order|, k requires 0 <= k < n * |order| => order[k % |order|])
  }

  predicate IsUnit(u: Unit) {
    u.component < 3 && |u.du| == 64
  }

  predicate AreUnits(units: seq<Unit>) {
    forall i :: 0 <= i < |units| ==> IsUnit(units[i])
  }

  function Blocks(units: seq<Unit>): (bs: seq<seq<int>>)
    ensures |bs| == |units|
  {
    seq(|units|, i requires 0 <= i < |units| => units[i].du)
  }

  /** The last DC value of each component, zero before its first block. */
  function Predictions(units: seq<Unit>): (dc: seq<int>)
    requires AreUnits(units)
    ensures |dc| == 3
  {
    if units == [] then [0, 0, 0]
    else
      var last := units[|units| - 1];
      Predictions(units[..|units| - 1])[last.component := last.du[0]]
  }

  /** Every block can be indexed in the tables, with the DC prediction it gets. */
  predicate AreBlocks(units: seq<Unit>)
    requires AreUnits(units)
  {
    units == [] ||
    (AreBlocks(units[..|units| - 1])
     && IsBlock(Predictions(units[..|units| - 1])[units[|units| - 1].component], units[|units| - 1].du))
  }

  lemma {:induction false} BlocksBefore(units: seq<Unit>, n: nat)
    requires AreUnits(units) && AreBlocks(units) && n <= |units|
    ensures AreBlocks(units[..n])
    ensures n < |units| ==> IsBlock(Predictions(units[..n])[units[n].component], units[n].du)
    decreases |units|
  {
    if n == |units| {
      assert units[..n] == units;
    } else if n < |units| - 1 {
      BlocksBefore(units[..|units| - 1], n);
      assert units[..|units| - 1][..n] == units[..n];
    }
  }

  /** The bits of one block: those of component 0 are coded with the luminance tables, the others with the
      chrominance tables. */
  function UnitBits(t: Tables, dc: int, u: Unit): seq<bool>
    requires |t.ydc| == |t.yac| == |t.uvdc| == |t.uvac| == 256 && IsBlock(dc, u.du)
  {
    if u.component == 0 then BlockBits(t.ydc, t.yac, dc, u.du) else BlockBits(t.uvdc, t.uvac, dc, u.du)
  }

  /** The bits of all blocks, each with the DC prediction of its own component. */
  function ScanBits(t: Tables, units: seq<Unit>): seq<bool>
    requires |t.ydc| == |t.yac| == |t.uvdc| == |t.uvac| == 256 && AreUnits(units) && AreBlocks(units)
  {
    if units == [] then []
    else
      var init, last := units[..|units| - 1], units[|units| - 1];
      ScanBits(t, init) + UnitBits(t, Predictions(init)[last.component], last)
  }

  ghost predicate UnitCodable(t: Tables, before: seq<Unit>, u: Unit)
    requires AreUnits(before) && IsUnit(u)
  {
    Codable(t.DC(u.component), t.AC(u.component), Predictions(before)[u.component], u.du)
  }

  /** The tables have a code for every symbol that is written for these blocks. */
  ghost predicate AllCodable(t: Tables, units: seq<Unit>)
    requires AreUnits(units)
  {
    forall i :: 0 <= i < |units| ==> UnitCodable(t, units[..i], units[i])
  }

  /** The tables have a code for the end of every block that does not fill up its coefficients. */
  ghost predicate TailsCodable(t: Tables, units: seq<Unit>)
    requires AreUnits(units)
  {
    forall i :: 0 <= i < |units| && units[i].du[63] == 0 ==> Used(t.AC(units[i].component), 0)
  }

  /** The tables have a code for the DC difference and for every run of block i. */
  ghost predicate SymbolsCodable(t: Tables, units: seq<Unit>, i: nat)
    requires AreUnits(units) && i < |units|
  {
    var u := units[i];
    && Used(t.DC(u.component), Size(Abs(u.du[0] - Predictions(units[..i])[u.component])))
    && ACCodable(t.AC(u.component), u.du, 1)
  }

  /** The blocks after those already read, for a scan whose blocks belong to these components. */
  function DecodeScan(r: Reader, components: seq<nat>, blocks: seq<seq<int>>, dc: seq<int>, bits: seq<bool>)
    : Option<(seq<seq<int>>, seq<bool>)>
    decreases |components| - |blocks|
  {
    if |blocks| >= |components| then Some((blocks, bits))
    else
      var c := components[|blocks|];
      if c >= |dc| then None
      else
        match DecodeBlock(r.DC(c), r.AC(c), dc[c], bits)
        case None => None
        case Some((du, rest)) =>
          if |du| != 64 then None
          else DecodeScan(r, components, blocks + [du], dc[c := du[0]], rest)
  }

  /** Reading `out` yields the blocks of these units, and leaves their DC values as predictions. */
  ghost predicate Yields(r: Reader, components: seq<nat>, out: seq<bool>, units: seq<Unit>)
    requires AreUnits(units)
  {
    forall rest :: DecodeScan(r, components, [], [0, 0, 0], out + rest)
                == DecodeScan(r, components, Blocks(units), Predictions(units), rest)
  }

  lemma YieldsNext(r: Reader, components: seq<nat>, out: seq<bool>, units: seq<Unit>, u: Unit, more: seq<bool>)
    requires AreUnits(units) && IsUnit(u) && Yields(r, components, out, units)
    requires |units| < |components| && components[|units|] == u.component
    requires ReadsBack(r.DC(u.component), r.AC(u.component), Predictions(units)[u.component], u.du, more)
    ensures Yields(r, components, out + more, units + [u])
  {
    assert Blocks(units + [u]) == Blocks(units) + [u.du];
    Last(units, u);
    hide DecodeBlock, Predictions, DecodeScan, Blocks, AreUnits;
    MoreRead(r, components, out, more, Blocks(units), Predictions(units), u);
  }

  lemma MoreRead(r: Reader, components: seq<nat>, out: seq<bool>, more: seq<bool>, blocks: seq<seq<int>>, dc: seq<int>,
      u: Unit)
    requires IsUnit(u) && |dc| == 3 && |blocks| < |components| && components[|blocks|] == u.component
    requires forall rest ::
      DecodeScan(r, components, [], [0, 0, 0], out + rest) == DecodeScan(r, components, blocks, dc, rest)
    requires forall rest ::
      DecodeBlock(r.DC(u.component), r.AC(u.component), dc[u.component], more + rest) == Some((u.du, rest))
    ensures forall rest :: DecodeScan(r, components, [], [0, 0, 0], (out + more) + rest)
                        == DecodeScan(r, components, blocks + [u.du], dc[u.component := u.du[0]], rest)
  {
    hide DecodeBlock, DecodeScan;
    forall rest ensures DecodeScan(r, components, [], [0, 0, 0], (out + more) + rest)
                     == DecodeScan(r, components, blocks + [u.du], dc[u.component := u.du[0]], rest)
    {
      Associate(out, more, rest);
      ReadBlock(r, components, blocks, dc, more + rest, u, rest);
    }
  }

  lemma Last(units: seq<Unit>, u: Unit)
    requires AreUnits(units) && IsUnit(u)
    ensures Predictions(units + [u]) == Predictions(units)[u.component := u.du[0]]
  {
    var next := units + [u];
    assert next[..|next| - 1] == units;
  }

  lemma ReadBlock(r: Reader, components: seq<nat>, blocks: seq<seq<int>>, dc: seq<int>, bits: seq<bool>, u: Unit,
      rest: seq<bool>)
    requires IsUnit(u) && |dc| == 3 && |blocks| < |components| && components[|blocks|] == u.component
    requires DecodeBlock(r.DC(u.component), r.AC(u.component), dc[u.component], bits) == Some((u.du, rest))
    ensures DecodeScan(r, components, blocks, dc, bits)
         == DecodeScan(r, components, blocks + [u.du], dc[u.component := u.du[0]], rest)
  {
    hide DecodeBlock;
  }

  lemma ReadAll(r: Reader, components: seq<nat>, out: seq<bool>, units: seq<Unit>, fill: seq<bool>)
    requires AreUnits(units) && Yields(r, components, out, units) && |components| == |units|
    ensures DecodeScan(r, components, [], [0, 0, 0], out + fill) == Some((Blocks(units), fill))
  {
  }

  /** The bits of the scan make a reader that goes by the headers get all blocks. */
  lemma {:induction false} ScanRead(t: Tables, subsample: bool, components: seq<nat>, units: seq<Unit>)
    requires t.Valid() && AreUnits(units) && AreBlocks(units) && AllCodable(t, units)
    requires |units| <= |components| && OfUnits(components[..|units|], units)
    ensures Yields(Headers(t, subsample), components, ScanBits(t, units), units)
  {
    hide Yields, Codable, IsBlock, DecodeBlock, DecodeScan, Predictions, UnitBits, IsTable, Headers, ReadsBack;
    var r := Headers(t, subsample);
    if units == [] {
      YieldsNothing(r, components);
    } else {
      var init, u := units[..|units| - 1], units[|units| - 1];
      forall i | 0 <= i < |init| ensures UnitCodable(t, init[..i], init[i]) {
        assert init[..i] == units[..i];
        assert UnitCodable(t, units[..i], units[i]);
      }
      ScanRead(t, subsample, components, init);
      assert UnitCodable(t, init, u);
      UnitRead(t, subsample, Predictions(init)[u.component], u);
      YieldsNext(r, components, ScanBits(t, init), init, u, UnitBits(t, Predictions(init)[u.component], u));
      assert init + [u] == units;
    }
  }

  lemma UnitRead(t: Tables, subsample: bool, dc: int, u: Unit)
    requires t.Valid() && IsUnit(u) && IsBlock(dc, u.du) && Codable(t.DC(u.component), t.AC(u.component), dc, u.du)
    ensures |t.ydc| == |t.yac| == |t.uvdc| == |t.uvac| == 256
    ensures var r := Headers(t, subsample);
            ReadsBack(r.DC(u.component), r.AC(u.component), dc, u.du, UnitBits(t, dc, u))
  {
    hide Codable, IsBlock, BlockBits, ReadsBack;
    TablesByHeader(t, subsample, u.component);
    hide Headers;
    BlockRead(t.DC(u.component), t.AC(u.component), dc, u.du);
  }

  /** The first k blocks are written after head, and y, u and v are the last DC values of the components. */
  ghost predicate Coded(t: Tables, units: seq<Unit>, k: nat, written: seq<bool>, head: seq<bool>,
      y: int, u: int, v: int)
    requires |t.ydc| == |t.yac| == |t.uvdc| == |t.uvac| == 256 && AreUnits(units)
  {
    && k <= |units| && AreBlocks(units[..k])
    && written == head + ScanBits(t, units[..k]) && [y, u, v] == Predictions(units[..k])
  }

  /** One call of `stbiw__jpg_processDU`, for block k of the scan. */
  method EncodeUnit(w: Writer, t: Tables, ghost units: seq<Unit>, ghost k: nat, ghost head: seq<bool>,
      ghost y: int, ghost u: int, ghost v: int, du: seq<int>, dc: int, htdc: seq<Code>, htac: seq<Code>)
    returns (newDC: int)
    requires w.Valid() && t.Valid() && AreUnits(units) && AreBlocks(units) && k < |units| && units[k].du == du
    requires htdc == (if units[k].component == 0 then t.ydc else t.uvdc)
    requires htac == (if units[k].component == 0 then t.yac else t.uvac)
    requires dc == (if units[k].component == 0 then y else if units[k].component == 1 then u else v)
    requires Coded(t, units, k, w.Contents(), head, y, u, v)
    modifies w
    ensures newDC == du[0] && w.Valid()
    ensures var c := units[k].component;
            Coded(t, units, k + 1, w.Contents(), head, if c == 0 then newDC else y, if c == 1 then newDC else u,
                  if c == 2 then newDC else v)
  {
    hide IsBlock, BlockBits, Predictions, ScanBits, AreBlocks, Codable, ReadsBack, IsTable;
    TableSizes(t);
    BlocksBefore(units, k);
    BlocksBefore(units, k + 1);
    PredictionsNext(units, k);
    newDC := EncodeBlock(w, du, dc, htdc, htac);
    ScanBitsNext(t, units, k);
    Associate(head, ScanBits(t, units[..k]), BlockBits(htdc, htac, dc, du));
  }

  lemma ScanBitsNext(t: Tables, units: seq<Unit>, k: nat)
    requires |t.ydc| == |t.yac| == |t.uvdc| == |t.uvac| == 256 && AreUnits(units) && k < |units|
    requires AreBlocks(units[..k]) && AreBlocks(units[..k + 1])
    requires IsBlock(Predictions(units[..k])[units[k].component], units[k].du)
    ensures ScanBits(t, units[..k + 1])
         == ScanBits(t, units[..k]) + UnitBits(t, Predictions(units[..k])[units[k].component], units[k])
  {
    hide IsBlock, UnitBits, Predictions;
    assert units[..k + 1][..k] == units[..k];
  }

  /** The block loop of `stbi_write_jpg_core`: with and without subsampling, each block is coded with the tables and
      the DC prediction of its component. A reader that goes by the headers gets all blocks back when the tables
      have a code for every symbol written. */
  method EncodeUnits(w: Writer, t: Tables, mcus: seq<Mcu>, subsample: bool)
    requires w.Valid() && t.Valid() && AreMcus(mcus, subsample) && AreBlocks(Units(mcus, subsample))
    modifies w
    ensures w.Valid() && w.Contents() == old(w.Contents()) + ScanBits(t, Units(mcus, subsample))
    ensures var r, units := Headers(t, subsample), Units(mcus, subsample);
            AllCodable(t, units) ==> Yields(r, Components(r, |mcus|), ScanBits(t, units), units)
  {
    hide AllCodable, Yields, AreBlocks, ScanBits, Units, IsTable, Headers, Coded;
    ghost var head, units, per := w.Contents(), Units(mcus, subsample), PerMcu(subsample);
    var dcy, dcu, dcv := 0, 0, 0;
    TableSizes(t);
    NothingCoded(t, units, head);
    for m := 0 to |mcus|
      invariant w.Valid() && Coded(t, units, m * per, w.Contents(), head, dcy, dcu, dcv)
    {
      dcy, dcu, dcv := EncodeMcu(w, t, mcus, subsample, m, head, dcy, dcu, dcv);
    }
    AllCoded(t, units, w.Contents(), head, dcy, dcu, dcv);
    if AllCodable(t, units) {
      ComponentsAre(t, mcus, subsample);
      ghost var cs := Components(Headers(t, subsample), |mcus|);
      assert cs[..|units|] == cs;
      ScanRead(t, subsample, cs, units);
    }
  }

  lemma NothingCoded(t: Tables, units: seq<Unit>, head: seq<bool>)
    requires |t.ydc| == |t.yac| == |t.uvdc| == |t.uvac| == 256 && AreUnits(units)
    ensures Coded(t, units, 0, head, head, 0, 0, 0)
  {
    assert units[..0] == [];
    assert head + [] == head;
  }

  lemma AllCoded(t: Tables, units: seq<Unit>, written: seq<bool>, head: seq<bool>,
      y: int, u: int, v: int)
    requires |t.ydc| == |t.yac| == |t.uvdc| == |t.uvac| == 256 && AreUnits(units) && AreBlocks(units)
    requires Coded(t, units, |units|, written, head, y, u, v)
    ensures written == head + ScanBits(t, units)
  {
    hide ScanBits, AreBlocks, Predictions;
    assert units[..|units|] == units;
  }

  /** One step of the pixel loops. */
  method EncodeMcu(w: Writer, t: Tables, mcus: seq<Mcu>, subsample: bool, m: nat, ghost head: seq<bool>,
      dcy0: int, dcu0: int, dcv0: int)
    returns (dcy: int, dcu: int, dcv: int)
    requires w.Valid() && t.Valid() && AreMcus(mcus, subsample) && AreBlocks(Units(mcus, subsample)) && m < |mcus|
    requires Coded(t, Units(mcus, subsample), m * PerMcu(subsample), w.Contents(), head, dcy0, dcu0, dcv0)
    modifies w
    ensures w.Valid()
    ensures Coded(t, Units(mcus, subsample), (m + 1) * PerMcu(subsample), w.Contents(), head, dcy, dcu, dcv)
  {
    hide AreBlocks, Units, IsTable, Coded;
    ghost var units, k := Units(mcus, subsample), m * PerMcu(subsample);
    TableSizes(t);
    McuUnits(mcus, subsample, m);
    dcy, dcu, dcv := dcy0, dcu0, dcv0;
    if subsample {
      dcy := EncodeUnit(w, t, units, k, head, dcy, dcu, dcv, mcus[m].ys[0], dcy, t.ydc, t.yac);
      dcy := EncodeUnit(w, t, units, k + 1, head, dcy, dcu, dcv, mcus[m].ys[1], dcy, t.ydc, t.yac);
      dcy := EncodeUnit(w, t, units, k + 2, head, dcy, dcu, dcv, mcus[m].ys[2], dcy, t.ydc, t.yac);
      dcy := EncodeUnit(w, t, units, k + 3, head, dcy, dcu, dcv, mcus[m].ys[3], dcy, t.ydc, t.yac);
      dcu := EncodeUnit(w, t, units, k + 4, head, dcy, dcu, dcv, mcus[m].u, dcu, t.uvdc, t.uvac);
      dcv := EncodeUnit(w, t, units, k + 5, head, dcy, dcu, dcv, mcus[m].v, dcv, t.uvdc, t.uvac);
    } else {
      dcy := EncodeUnit(w, t, units, k, head, dcy, dcu, dcv, mcus[m].ys[0], dcy, t.ydc, t.yac);
      dcu := EncodeUnit(w, t, units, k + 1, head, dcy, dcu, dcv, mcus[m].u, dcu, t.uvdc, t.uvac);
      dcv := EncodeUnit(w, t, units, k + 2, head, dcy, dcu, dcv, mcus[m].v, dcv, t.uvdc, t.uvac);
    }
  }

  lemma McuUnits(mcus: seq<Mcu>, subsample: bool, m: nat)
    requires AreMcus(mcus, subsample) && m < |mcus|
    ensures var units, k := Units(mcus, subsample), m * PerMcu(subsample);
            && k + PerMcu(subsample) == (m + 1) * PerMcu(subsample) <= |units|
            && forall i :: k <= i < k + PerMcu(subsample) ==> units[i] == UnitAt(mcus[m], i - k)
  {
    assert (m + 1) * PerMcu(subsample) <= |mcus| * PerMcu(subsample);
    var k := m * PerMcu(subsample);
    forall i | k <= i < k + PerMcu(subsample) ensures Units(mcus, subsample)[i] == UnitAt(mcus[m], i - k) {
      UnitOf(mcus, subsample, m, i - k);
    }
  }

  lemma TableSizes(t: Tables)
    requires t.Valid()
    ensures |t.ydc| == |t.yac| == |t.uvdc| == |t.uvac| == 256
  {
  }

  /** The order of the blocks is the one that the sampling factors of the frame header announce. */
  lemma ComponentsAre(t: Tables, mcus: seq<Mcu>, subsample: bool)
    requires AreMcus(mcus, subsample)
    ensures var cs, units := Components(Headers(t, subsample), |mcus|), Units(mcus, subsample);
            OfUnits(cs, units)
  {
    var r, units, per := Headers(t, subsample), Units(mcus, subsample), PerMcu(subsample);
    assert |r.Order()| == per;
    forall k | 0 <= k < |units| ensures Components(r, |mcus|)[k] == units[k].component {
      InMcus(k, |mcus|, per);
    }
  }

  lemma YieldsNothing(r: Reader, components: seq<nat>)
    ensures Predictions([]) == [0, 0, 0]
    ensures Yields(r, components, [], [])
  {
    forall rest ensures DecodeScan(r, components, [], [0, 0, 0], [] + rest)
                     == DecodeScan(r, components, Blocks([]), Predictions([]), rest)
    {
      assert [] + rest == rest;
    }
  }

  lemma PredictionsNext(units: seq<Unit>, i: nat)
    requires AreUnits(units) && i < |units|
    ensures units[..i] + [units[i]] == units[..i + 1]
    ensures Predictions(units[..i + 1]) == Predictions(units[..i])[units[i].component := units[i].du[0]]
  {
    assert units[..i + 1][..i] == units[..i];
  }

  /** Writing fill bits pushes out every bit written before them. */
  lemma FillFlushes(done: seq<bool>, pending: seq<bool>, before: seq<bool>, ones: seq<bool>) returns (fill: seq<bool>)
    requires done + pending == before + ones && |pending| <= |ones| && AllOnes(ones)
    ensures done == before + fill && |fill| == |ones| - |pending| && AllOnes(fill)
  {
    var n := |done|;
    fill := ones[..n - |before|];
    assert done == (done + pending)[..n];
    assert (before + ones)[..n] == before + fill;
  }

  predicate AllOnes(bits: seq<bool>) {
    forall i :: 0 <= i < |bits| ==> bits[i]
  }

  /**
   * The segment a decoder gets: stuffed bytes and the EOI marker. Its bits are the blocks of the scan and
   * at most seven one bits.
   */
  function DecodeSegment(r: Reader, n: nat, bytes: seq<Byte>): Option<seq<seq<int>>> {
    if |bytes| < 2 || bytes[|bytes| - 2..] != [0xFF, 0xD9] then None
    else
      var raw :- Unstuff(bytes[..|bytes| - 2]);
      var (blocks, fill) :- DecodeScan(r, Components(r, n), [], [0, 0, 0], MsbBitsOf(raw));
      if |fill| <= 7 && AllOnes(fill) then Some(blocks) else None
  }

  /** Everything from the first block to the EOI marker. A reader that goes by the headers of the file gets all
      blocks when the tables have a code for every symbol written, and, if they have the end-of-block codes, only
      then; the other codes are needed anyway. */
  method EncodeScan(t: Tables, mcus: seq<Mcu>, subsample: bool) returns (bytes: seq<Byte>)
    requires t.Valid() && AreMcus(mcus, subsample) && AreBlocks(Units(mcus, subsample))
    ensures var units := Units(mcus, subsample);
            var decodes := DecodeSegment(Headers(t, subsample), |mcus|, bytes) == Some(Blocks(units));
            && (AllCodable(t, units) ==> decodes)
            && (TailsCodable(t, units) ==> (decodes <==> AllCodable(t, units)))
            && (decodes ==> forall i :: 0 <= i < |units| ==> SymbolsCodable(t, units, i))
  {
    hide IsTable, AllCodable, TailsCodable, SymbolsCodable, Predictions, MsbBits, MsbBitsOf, Stuff, Unstuff, Yields,
         DecodeScan, AllOnes, Units, Headers, Components, ScanBits, AreBlocks;
    TableSizes(t);
    var w := new Writer();
    ghost var r, units := Headers(t, subsample), Units(mcus, subsample);
    EncodeUnits(w, t, mcus, subsample);
    ghost var out := ScanBits(t, units);
    assert [] + out == out;
    SevenOnes();
    w.WriteBits(0x7F, 7);
    ghost var fill := FillFlushes(MsbBitsOf(w.raw), MsbBits(w.pending, w.bitCnt), out, MsbBits(0x7F, 7));
    bytes := w.sink + [0xFF] + [0xD9];
    Trailer(w.sink, bytes);
    StuffRoundTrip(w.raw);
    ComponentsAre(t, mcus, subsample);
    if AllCodable(t, units) {
      ReadAll(r, Components(r, |mcus|), out, units, fill);
      assert DecodeSegment(r, |mcus|, bytes) == Some(Blocks(units));
    }
    Necessary(t, subsample, units, |mcus|, bytes);
  }

  lemma Necessary(t: Tables, subsample: bool, units: seq<Unit>, n: nat, bytes: seq<Byte>)
    requires t.Valid() && AreUnits(units) && OfUnits(Components(Headers(t, subsample), n), units)
    ensures var decodes := DecodeSegment(Headers(t, subsample), n, bytes) == Some(Blocks(units));
            && (decodes ==> forall i :: 0 <= i < |units| ==> SymbolsCodable(t, units, i))
            && (decodes && TailsCodable(t, units) ==> AllCodable(t, units))
  {
    hide DecodeSegment, SymbolsCodable, TailsCodable, AllCodable, IsTable, Headers, Components, OfUnits, AreUnits;
    if DecodeSegment(Headers(t, subsample), n, bytes) == Some(Blocks(units)) {
      CodesInSegment(t, subsample, units, n, bytes);
    }
  }

  // ---------- What a segment needs ----------

  /** Decoding only adds to the blocks that are there. */
  lemma {:induction false} ScanExtends(r: Reader, components: seq<nat>, blocks: seq<seq<int>>, dc: seq<int>,
      bits: seq<bool>)
    requires DecodeScan(r, components, blocks, dc, bits).Some?
    ensures blocks <= DecodeScan(r, components, blocks, dc, bits).value.0
    decreases |components| - |blocks|
  {
    if |blocks| < |components| {
      hide DecodeBlock;
      var c := components[|blocks|];
      var (du, rest) := DecodeBlock(r.DC(c), r.AC(c), dc[c], bits).value;
      ScanExtends(r, components, blocks + [du], dc[c := du[0]], rest);
    }
  }

  predicate OfUnits(components: seq<nat>, units: seq<Unit>) {
    |components| == |units| && forall k :: 0 <= k < |units| ==> components[k] == units[k].component
  }

  /** The next block, when decoding on gives the blocks of these units. */
  lemma NextInScan(r: Reader, components: seq<nat>, units: seq<Unit>, n: nat, dc: seq<int>, bits: seq<bool>,
      fill: seq<bool>)
    returns (rest: seq<bool>)
    requires OfUnits(components, units) && AreUnits(units) && n < |units| && |dc| == 3
    requires DecodeScan(r, components, Blocks(units)[..n], dc, bits) == Some((Blocks(units), fill))
    ensures var u := units[n];
            && DecodeBlock(r.DC(u.component), r.AC(u.component), dc[u.component], bits) == Some((u.du, rest))
            && DecodeScan(r, components, Blocks(units)[..n + 1], dc[u.component := u.du[0]], rest)
               == Some((Blocks(units), fill))
  {
    hide DecodeBlock;
    var c, all := units[n].component, Blocks(units);
    var (du, after) := DecodeBlock(r.DC(c), r.AC(c), dc[c], bits).value;
    rest := after;
    ScanExtends(r, components, all[..n] + [du], dc[c := du[0]], rest);
    assert du == (all[..n] + [du])[n] == all[n];
    assert all[..n] + [du] == all[..n + 1];
  }

  /** Whatever bits decode to these blocks, the tables have a code for all their symbols but the ends of blocks. */
  lemma {:induction false} CodesInScan(t: Tables, subsample: bool, components: seq<nat>, units: seq<Unit>, n: nat,
      bits: seq<bool>, fill: seq<bool>)
    requires t.Valid() && OfUnits(components, units) && AreUnits(units) && n <= |units|
    requires DecodeScan(Headers(t, subsample), components, Blocks(units)[..n], Predictions(units[..n]), bits)
          == Some((Blocks(units), fill))
    ensures forall i :: n <= i < |units| ==> SymbolsCodable(t, units, i)
    decreases |units| - n
  {
    hide DecodeScan, DecodeBlock, Predictions, SymbolsCodable, IsTable, Blocks, OfUnits, Headers;
    if n < |units| {
      var rest := NextInScan(Headers(t, subsample), components, units, n, Predictions(units[..n]), bits, fill);
      UnitNeeded(t, subsample, units, n, bits, rest);
      PredictionsNext(units, n);
      CodesInScan(t, subsample, components, units, n + 1, rest, fill);
    }
  }

  lemma UnitNeeded(t: Tables, subsample: bool, units: seq<Unit>, i: nat, bits: seq<bool>, rest: seq<bool>)
    requires t.Valid() && AreUnits(units) && i < |units|
    requires var u, r := units[i], Headers(t, subsample);
             DecodeBlock(r.DC(u.component), r.AC(u.component), Predictions(units[..i])[u.component], bits)
             == Some((u.du, rest))
    ensures SymbolsCodable(t, units, i)
  {
    hide DecodeBlock, Predictions, ACCodable, Used, Size;
    var u := units[i];
    TablesByHeader(t, subsample, u.component);
    hide Headers;
    SymbolsNeeded(t.DC(u.component), t.AC(u.component), Predictions(units[..i])[u.component], u.du, bits, rest);
  }

  /** A segment, however it was made, that decodes to these blocks needs a code for every symbol but the ends of
      blocks. */
  lemma CodesInSegment(t: Tables, subsample: bool, units: seq<Unit>, n: nat, bytes: seq<Byte>)
    requires t.Valid() && AreUnits(units) && OfUnits(Components(Headers(t, subsample), n), units)
    requires DecodeSegment(Headers(t, subsample), n, bytes) == Some(Blocks(units))
    ensures forall i :: 0 <= i < |units| ==> SymbolsCodable(t, units, i)
    ensures TailsCodable(t, units) ==> AllCodable(t, units)
  {
    hide DecodeScan, Predictions, SymbolsCodable, IsTable, Unstuff, MsbBitsOf, Headers, Components, OfUnits;
    var r, raw := Headers(t, subsample), Unstuff(bytes[..|bytes| - 2]).value;
    var (blocks, fill) := DecodeScan(r, Components(r, n), [], [0, 0, 0], MsbBitsOf(raw)).value;
    assert Blocks(units)[..0] == [] && units[..0] == [];
    assert Predictions([]) == [0, 0, 0] by { NothingPredicted(); }
    CodesInScan(t, subsample, Components(r, n), units, 0, MsbBitsOf(raw), fill);
    if TailsCodable(t, units) {
      forall i | 0 <= i < |units| ensures UnitCodable(t, units[..i], units[i]) {
        AllSymbols(t, units, i);
      }
    }
  }

  lemma NothingPredicted()
    ensures Predictions([]) == [0, 0, 0]
  {
  }

  lemma AllSymbols(t: Tables, units: seq<Unit>, i: nat)
    requires AreUnits(units) && i < |units| && TailsCodable(t, units) && SymbolsCodable(t, units, i)
    ensures UnitCodable(t, units[..i], units[i])
  {
    hide Predictions, ACCodable, Used, Size;
  }

  lemma Trailer(sink: seq<Byte>, bytes: seq<Byte>)
    requires bytes == sink + [0xFF] + [0xD9]
    ensures bytes[|bytes| - 2..] == [0xFF, 0xD9] && bytes[..|bytes| - 2] == sink
  {
  }

  lemma SevenOnes()
    ensures 0x7F < Pow2(7) && AllOnes(MsbBits(0x7F, 7))
  {
    Pow2Values();
    assert MsbBits(0x7F, 7) == [true, true, true, true, true, true, true];
  }
}
