/** `stbi_write_png_to_mem`: filter every scanline, compress, frame as chunks. */
module PngWriter {
  import opened Bits
  import opened Crc
  import opened Inflate
  import opened Optional
  import opened PngFilter
  import opened PngFormat
  import opened Zlib

  const INT_MAX := 0x7FFF_FFFF

  /** `sig` */
  const SIG: seq<Byte> := [137, 80, 78, 71, 13, 10, 26, 10]

  /** `stbiw__wptag` */
  function Tag(s: string): (t: seq<Byte>)
    requires |s| == 4 && forall i :: 0 <= i < 4 ==> s[i] <= '\U{7F}'
    ensures |t| == 4
  {
    [s[0] as int, s[1] as int, s[2] as int, s[3] as int]
  }

  lemma TagsAre()
    ensures Tag("IHDR") == IHDR && Tag("IDAT") == IDAT && Tag("IEND") == IEND && SIG == SIGNATURE
  {
  }

  // ---------- Choosing and applying filters ----------

  function LineOf(filter: nat, row: seq<Byte>, prev: seq<Byte>, n: nat): (line: seq<int>)
    requires |row| == |prev| && n > 0
    ensures |line| == |row|
  {
    seq(|row|, i requires 0 <= i < |row| => SChar(Filtered(filter, row, prev, n, i)))
  }

  function SumAbs(line: seq<int>): nat {
    if line == [] then 0 else SumAbs(line[..|line| - 1]) + Abs(line[|line| - 1])
  }

  /** The estimate of a filter: the sum of the magnitudes it leaves in the line buffer. */
  function Cost(filter: nat, row: seq<Byte>, prev: seq<Byte>, n: nat): nat
    requires |row| == |prev| && n > 0
  {
    SumAbs(LineOf(filter, row, prev, n))
  }

  method Estimate(line: array<int>) returns (est: nat)
    ensures est == SumAbs(line[..])
  {
    est := 0;
    for i := 0 to line.Length
      invariant est == SumAbs(line[..i])
    {
      assert line[..i + 1][..i] == line[..i];
      est := est + Abs(line[i]);
    }
    assert line[..line.Length] == line[..];
  }

  /** The cheapest filter, the first one on a tie; filter 0 if every estimate reaches INT_MAX. */
  ghost predicate IsCheapest(best: nat, row: seq<Byte>, prev: seq<Byte>, n: nat)
    requires |row| == |prev| && n > 0
  {
    && best < 5
    && if exists f :: 0 <= f < 5 && Cost(f, row, prev, n) < INT_MAX
       then (forall f :: 0 <= f < 5 ==> Cost(best, row, prev, n) <= Cost(f, row, prev, n))
            && (forall f :: 0 <= f < best ==> Cost(best, row, prev, n) < Cost(f, row, prev, n))
       else best == 0
  }

  method ChooseFilter(pixels: seq<Byte>, z: nat, signedStride: int, first: bool, n: nat, line: array<int>)
    returns (best: nat)
    requires 0 < n <= line.Length && z + line.Length <= |pixels|
    requires !first ==> 0 <= z - signedStride && z - signedStride + line.Length <= |pixels|
    modifies line
    ensures IsCheapest(best, pixels[z..z + line.Length], Above(pixels, z, signedStride, line.Length, first), n)
  {
    hide Cost, Above;
    ghost var row, prev := pixels[z..z + line.Length], Above(pixels, z, signedStride, line.Length, first);
    best := 0;
    var bestVal := INT_MAX;
    for filter := 0 to 5
      invariant best < 5 && bestVal <= INT_MAX
      invariant bestVal < INT_MAX ==> best < filter && bestVal == Cost(best, row, prev, n)
      invariant bestVal == INT_MAX ==> best == 0
      invariant forall f :: 0 <= f < filter ==> bestVal <= Cost(f, row, prev, n)
      invariant bestVal < INT_MAX ==> forall f :: 0 <= f < best ==> bestVal < Cost(f, row, prev, n)
    {
      var est := EstimateFilter(pixels, z, signedStride, first, n, filter, line);
      if est < bestVal {
        bestVal, best := est, filter;
      }
    }
  }

  method EstimateFilter(pixels: seq<Byte>, z: nat, signedStride: int, first: bool, n: nat, filter: nat,
      line: array<int>) returns (est: nat)
    requires 0 < n <= line.Length && filter < 5 && z + line.Length <= |pixels|
    requires !first ==> 0 <= z - signedStride && z - signedStride + line.Length <= |pixels|
    modifies line
    ensures est == Cost(filter, pixels[z..z + line.Length], Above(pixels, z, signedStride, line.Length, first), n)
  {
    hide Filtered, Above, SumAbs;
    EncodeLine(pixels, z, signedStride, first, n, filter, line);
    est := Estimate(line);
    assert line[..]
        == LineOf(filter, pixels[z..z + line.Length], Above(pixels, z, signedStride, line.Length, first), n);
  }

  /** A filter byte and the filtered bytes behind it. */
  function FilteredLine(filter: nat, row: seq<Byte>, prev: seq<Byte>, n: nat): (r: seq<Byte>)
    requires |row| == |prev| && n > 0 && filter < 5
    ensures |r| == |row| + 1
  {
    [filter] + FilteredBytes(filter, row, prev, n)
  }

  function FilteredBytes(filter: nat, row: seq<Byte>, prev: seq<Byte>, n: nat): (r: seq<Byte>)
    requires |row| == |prev| && n > 0
    ensures |r| == |row| && forall i :: 0 <= i < |row| ==> r[i] == Filtered(filter, row, prev, n, i)
  {
    seq(|row|, i requires 0 <= i < |row| => Filtered(filter, row, prev, n, i))
  }

  /** The copy out of the line buffer: signed characters as bytes. */
  method CopyBytes(line: array<int>, ghost filter: nat, ghost row: seq<Byte>, ghost prev: seq<Byte>, ghost n: nat)
    returns (bytes: seq<Byte>)
    requires n > 0 && Done(line, line.Length, filter, row, prev, n)
    ensures bytes == FilteredBytes(filter, row, prev, n)
  {
    bytes := [];
    for i := 0 to line.Length
      invariant bytes == FilteredBytes(filter, row, prev, n)[..i]
    {
      assert line[i] % 256 == Filtered(filter, row, prev, n, i);
      bytes := bytes + [line[i] % 256];
    }
  }

  /** The bytes for one scanline, with a forced or an estimated filter. */
  method FilterLine(pixels: seq<Byte>, z: nat, signedStride: int, first: bool, n: nat, forceFilter: int,
      line: array<int>)
    returns (bytes: seq<Byte>, filter: nat)
    requires 0 < n <= line.Length && z + line.Length <= |pixels| && forceFilter < 5
    requires !first ==> 0 <= z - signedStride && z - signedStride + line.Length <= |pixels|
    modifies line
    ensures filter < 5 && (forceFilter > -1 ==> filter == forceFilter)
    ensures bytes
         == FilteredLine(filter, pixels[z..z + line.Length], Above(pixels, z, signedStride, line.Length, first), n)
  {
    if forceFilter > -1 {
      filter := forceFilter;
    } else {
      filter := ChooseFilter(pixels, z, signedStride, first, n, line);
    }
    EncodeLine(pixels, z, signedStride, first, n, filter, line);
    ghost var row, prev := pixels[z..z + line.Length], Above(pixels, z, signedStride, line.Length, first);
    var filtered := CopyBytes(line, filter, row, prev, n);
    bytes := [filter] + filtered;
  }

  // ---------- Where the rows are ----------

  /** Where row k starts, when the pixels are given by a pointer to position origin. */
  function Offset(origin: nat, k: nat, stride: int): int {
    origin + k * stride
  }

  /** Row k of the pixels, len bytes long. */
  function RowAt(pixels: seq<Byte>, origin: nat, stride: int, len: nat, k: nat): (row: seq<Byte>)
    requires 0 <= Offset(origin, k, stride) && Offset(origin, k, stride) + len <= |pixels|
    ensures |row| == len
  {
    pixels[Offset(origin, k, stride)..Offset(origin, k, stride) + len]
  }

  /** Which row of the pixels is written as scanline j. */
  function Source(j: nat, y: nat, flip: bool): (k: nat)
    requires j < y
    ensures k < y
  {
    if flip then y - 1 - j else j
  }

  /** Every row that is read lies inside the pixels. */
  predicate Inside(pixels: seq<Byte>, origin: nat, stride: int, len: nat, y: nat) {
    forall k :: 0 <= k < y ==> 0 <= Offset(origin, k, stride) && Offset(origin, k, stride) + len <= |pixels|
  }

  /** The rows in the order they are written. */
  function Rows(pixels: seq<Byte>, origin: nat, stride: int, len: nat, y: nat, flip: bool): (rows: seq<seq<Byte>>)
    requires Inside(pixels, origin, stride, len, y)
    ensures |rows| == y
    ensures forall j :: 0 <= j < y ==>
      rows[j] == RowAt(pixels, origin, stride, len, Source(j, y, flip)) && |rows[j]| == len
  {
    seq(y, j requires 0 <= j < y => RowAt(pixels, origin, stride, len, Source(j, y, flip)))
  }

  /** Byte i of scanline j, from the pointer, the stride and the flip setting; a stride of zero stands for rows without
      gaps. */
  lemma RowsAre(pixels: seq<Byte>, origin: nat, strideBytes: int, len: nat, y: nat, flip: bool, j: nat, i: nat)
    requires Inside(pixels, origin, Stride(strideBytes, len), len, y) && j < y && i < len
    ensures var at := origin + (if flip then y - 1 - j else j) * (if strideBytes == 0 then len else strideBytes) + i;
            0 <= at < |pixels| && Rows(pixels, origin, Stride(strideBytes, len), len, y, flip)[j][i] == pixels[at]
  {
    InsideAt(pixels, origin, Stride(strideBytes, len), len, y, Source(j, y, flip));
  }

  /** In either order, the scanline above is one (signed) stride before. */
  lemma StrideBetween(origin: nat, stride: int, y: nat, flip: bool, j: nat)
    requires 0 < j < y
    ensures Offset(origin, Source(j - 1, y, flip), stride)
         == Offset(origin, Source(j, y, flip), stride) - SignedStride(stride, flip)
  {
    if flip {
      assert (y - 1 - (j - 1)) * stride == (y - 1 - j) * stride + stride;
    } else {
      assert (j - 1) * stride == j * stride - stride;
    }
  }

  lemma AboveIsBefore(pixels: seq<Byte>, origin: nat, stride: int, len: nat, y: nat, flip: bool, j: nat)
    requires Inside(pixels, origin, stride, len, y) && j < y
    ensures var z, ss := Offset(origin, Source(j, y, flip), stride), SignedStride(stride, flip);
            && 0 <= z && z + len <= |pixels|
            && (j > 0 ==> 0 <= z - ss && z - ss + len <= |pixels|)
            && Above(pixels, z, ss, len, j == 0) == Before(Rows(pixels, origin, stride, len, y, flip), len, j)
  {
    hide Source, SignedStride, Inside, Offset;
    InsideAt(pixels, origin, stride, len, y, Source(j, y, flip));
    if j > 0 {
      var k := Source(j - 1, y, flip);
      InsideAt(pixels, origin, stride, len, y, k);
      StrideBetween(origin, stride, y, flip, j);
      SliceAbove(pixels, Offset(origin, Source(j, y, flip), stride) - SignedStride(stride, flip),
                 Offset(origin, k, stride), len);
      assert Rows(pixels, origin, stride, len, y, flip)[j - 1] == RowAt(pixels, origin, stride, len, k);
    }
  }

  lemma InsideAt(pixels: seq<Byte>, origin: nat, stride: int, len: nat, y: nat, k: nat)
    requires Inside(pixels, origin, stride, len, y) && k < y
    ensures 0 <= Offset(origin, k, stride) && Offset(origin, k, stride) + len <= |pixels|
  {
  }

  lemma SliceAbove(pixels: seq<Byte>, a: int, b: int, len: nat)
    requires a == b >= 0 && b + len <= |pixels|
    ensures 0 <= a && a + len <= |pixels| && pixels[a..a + len] == pixels[b..b + len]
  {
  }

  function SignedStride(stride: int, flip: bool): int {
    if flip then -stride else stride
  }

  /** The filtered lines, decoded from line j on, give the rows from j on. */
  lemma {:induction false} ScanlinesRoundTrip(rows: seq<seq<Byte>>, filters: seq<nat>, prev: seq<Byte>, n: nat)
    requires |filters| == |rows| && n > 0
    requires forall j :: 0 <= j < |rows| ==> |rows[j]| == |prev| && filters[j] < 5
    ensures Scanlines(FilteredImage(rows, filters, prev, n), |rows|, prev, n) == Some(rows)
  {
    if rows != [] {
      var first := FilteredLine(filters[0], rows[0], prev, n);
      var rest := FilteredImage(rows[1..], filters[1..], rows[0], n);
      var raw := first + rest;
      assert raw[0] == filters[0] && raw[1 + |prev|..] == rest;
      assert raw[1..1 + |prev|] == first[1..];
      UnfilterFiltered(filters[0], rows[0], prev, n, first[1..]);
      hide Unfilter, FilteredLine;
      ScanlinesRoundTrip(rows[1..], filters[1..], rows[0], n);
      assert rows == [rows[0]] + rows[1..];
    }
  }

  function FilteredImage(rows: seq<seq<Byte>>, filters: seq<nat>, prev: seq<Byte>, n: nat): (r: seq<Byte>)
    requires |filters| == |rows| && n > 0
    requires forall j :: 0 <= j < |rows| ==> |rows[j]| == |prev| && filters[j] < 5
    ensures |r| == |rows| * (1 + |prev|)
  {
    if rows == [] then [] else
    FilteredLine(filters[0], rows[0], prev, n) + FilteredImage(rows[1..], filters[1..], rows[0], n)
  }

  lemma {:induction false} AppendLine(rows: seq<seq<Byte>>, filters: seq<nat>, prev: seq<Byte>, n: nat,
      row: seq<Byte>, filter: nat)
    requires |filters| == |rows| && n > 0 && |row| == |prev| && filter < 5
    requires forall j :: 0 <= j < |rows| ==> |rows[j]| == |prev| && filters[j] < 5
    ensures FilteredImage(rows + [row], filters + [filter], prev, n)
         == FilteredImage(rows, filters, prev, n)
            + FilteredLine(filter, row, if rows == [] then prev else rows[|rows| - 1], n)
  {
    var all, allFilters := rows + [row], filters + [filter];
    if rows == [] {
      assert all[1..] == [] && allFilters[1..] == [];
      assert FilteredLine(filter, row, prev, n) + [] == FilteredLine(filter, row, prev, n);
      assert [] + FilteredLine(filter, row, prev, n) == FilteredLine(filter, row, prev, n);
    } else {
      assert all[1..] == rows[1..] + [row] && allFilters[1..] == filters[1..] + [filter];
      AppendLine(rows[1..], filters[1..], rows[0], n, row, filter);
      Associate(FilteredLine(filters[0], rows[0], prev, n), FilteredImage(rows[1..], filters[1..], rows[0], n),
                FilteredLine(filter, row, rows[|rows| - 1], n));
    }
  }

  /** The row above row j of the output. */
  function Before(rows: seq<seq<Byte>>, len: nat, j: nat): (row: seq<Byte>)
    requires j <= |rows| && forall i :: 0 <= i < j ==> |rows[i]| == len
    ensures |row| == len
  {
    if j == 0 then Zeros(len) else rows[j - 1]
  }

  /** Scanline j behind its filter byte. */
  method FilterRow(pixels: seq<Byte>, origin: nat, stride: int, y: nat, j: nat, n: nat, forceFilter: int, flip: bool,
      line: array<int>)
    returns (bytes: seq<Byte>, filter: nat)
    requires 0 < n <= line.Length && Inside(pixels, origin, stride, line.Length, y) && j < y && forceFilter < 5
    modifies line
    ensures filter < 5
    ensures var rows := Rows(pixels, origin, stride, line.Length, y, flip);
            bytes == FilteredLine(filter, rows[j], Before(rows, line.Length, j), n)
  {
    hide Above, Before, FilteredLine, SignedStride, Offset, Source;
    AboveIsBefore(pixels, origin, stride, line.Length, y, flip, j);
    var z := Offset(origin, Source(j, y, flip), stride);
    bytes, filter := FilterLine(pixels, z, SignedStride(stride, flip), j == 0, n, forceFilter, line);
  }

  /** All scanlines behind their filter bytes. */
  method FilterImage(pixels: seq<Byte>, origin: nat, stride: int, len: nat, y: nat, n: nat, forceFilter: int,
      flip: bool)
    returns (filt: seq<Byte>, ghost filters: seq<nat>)
    requires 0 < n <= len && Inside(pixels, origin, stride, len, y) && forceFilter < 5
    ensures |filters| == y && forall j :: 0 <= j < y ==> filters[j] < 5
    ensures filt == FilteredImage(Rows(pixels, origin, stride, len, y, flip), filters, Zeros(len), n)
    ensures Scanlines(filt, y, Zeros(len), n) == Some(Rows(pixels, origin, stride, len, y, flip))
  {
    hide FilteredLine, FilteredImage, Before, Inside;
    ghost var rows := Rows(pixels, origin, stride, len, y, flip);
    var line := new int[len];
    filt, filters := [], [];
    NoLines(Zeros(len), n);
    for j := 0 to y
      invariant |filters| == j && forall i :: 0 <= i < j ==> filters[i] < 5
      invariant filt == FilteredImage(rows[..j], filters, Zeros(len), n)
    {
      var bytes, filter := FilterRow(pixels, origin, stride, y, j, n, forceFilter, flip, line);
      AppendLine(rows[..j], filters, Zeros(len), n, rows[j], filter);
      LastIsBefore(rows, len, j);
      assert rows[..j + 1] == rows[..j] + [rows[j]];
      filt := filt + bytes;
      filters := filters + [filter];
    }
    assert rows[..y] == rows;
    ScanlinesRoundTrip(rows, filters, Zeros(len), n);
  }

  lemma NoLines(prev: seq<Byte>, n: nat)
    requires n > 0
    ensures FilteredImage([], [], prev, n) == []
  {
  }

  lemma LastIsBefore(rows: seq<seq<Byte>>, len: nat, j: nat)
    requires j <= |rows| && forall i :: 0 <= i < |rows| ==> |rows[i]| == len
    ensures Before(rows, len, j) == if rows[..j] == [] then Zeros(len) else rows[..j][|rows[..j]| - 1]
  {
  }

  // ---------- Chunks ----------

  /** `stbiw__wp32` */
  function Word(v: nat): (r: seq<Byte>)
    ensures |r| == 4
  {
    [v / 0x100_0000 % 256, v / 0x1_0000 % 256, v / 0x100 % 256, v % 256]
  }

  lemma WordRoundTrip(v: nat)
    requires v < 0x1_0000_0000
    ensures Be32(Word(v)) == v
  {
    assert v / 0x100 / 0x100 == v / 0x1_0000;
    assert v / 0x1_0000 / 0x100 == v / 0x100_0000;
  }

  function ChunkBytes(tag: seq<Byte>, data: seq<Byte>): (r: seq<Byte>)
    requires |tag| == 4
    ensures |r| == |data| + 12
  {
    Word(|data|) + (tag + data) + WordBytes(Crc32(tag + data))
  }

  /** One chunk, with the CRC taken over the bytes just written. */
  method WriteChunk(o: seq<Byte>, tag: seq<Byte>, data: seq<Byte>) returns (r: seq<Byte>)
    requires |tag| == 4
    ensures r == o + ChunkBytes(tag, data)
  {
    r := o + Word(|data|);
    r := r + tag;
    r := r + data;
    assert r[|r| - |data| - 4..] == tag + data;
    var crc := ComputeCrc(r[|r| - |data| - 4..]);
    r := r + WordBytes(crc);
    assert r == o + (Word(|data|) + (tag + data) + WordBytes(crc));
  }

  lemma ChunkRoundTrip(tag: seq<Byte>, data: seq<Byte>, rest: seq<Byte>)
    requires |tag| == 4 && |data| < 0x8000_0000
    ensures ReadChunk(ChunkBytes(tag, data) + rest) == Some((Chunk(tag, data), rest))
  {
    var n, body := |data|, tag + data;
    var bytes := ChunkBytes(tag, data) + rest;
    WordRoundTrip(n);
    assert bytes[..4] == Word(n);
    assert bytes[4..8 + n] == body;
    assert bytes[8 + n..12 + n] == WordBytes(Crc32(body));
    assert bytes[12 + n..] == rest;
    assert body[..4] == tag && body[4..] == data;
  }

  lemma ChunksRoundTrip(tag: seq<Byte>, data: seq<Byte>, rest: seq<Byte>, chunks: seq<Chunk>)
    requires |tag| == 4 && |data| < 0x8000_0000 && ReadChunks(rest) == Some(chunks)
    ensures ReadChunks(ChunkBytes(tag, data) + rest) == Some([Chunk(tag, data)] + chunks)
  {
    ChunkRoundTrip(tag, data, rest);
  }

  /** The three chunks of a file are read back as written. */
  lemma FileRoundTrip(header: seq<Byte>, z: seq<Byte>)
    requires |header| == 13 && |z| < 0x8000_0000
    ensures ReadChunks(ChunkBytes(IHDR, header) + (ChunkBytes(IDAT, z) + (ChunkBytes(IEND, []) + [])))
         == Some([Chunk(IHDR, header)] + ([Chunk(IDAT, z)] + ([Chunk(IEND, [])] + [])))
  {
    ChunksRoundTrip(IEND, [], [], []);
    ChunksRoundTrip(IDAT, z, ChunkBytes(IEND, []) + [], [Chunk(IEND, [])] + []);
    ChunksRoundTrip(IHDR, header, ChunkBytes(IDAT, z) + (ChunkBytes(IEND, []) + []),
                    [Chunk(IDAT, z)] + ([Chunk(IEND, [])] + []));
  }

  // ---------- The file ----------

  const CTYPE: seq<Byte> := [0, 0, 4, 2, 6]  // by channels; entry 0 is not used

  function Header(x: nat, y: nat, n: nat): (r: seq<Byte>)
    requires 1 <= n <= 4
    ensures |r| == 13
  {
    Word(x) + Word(y) + [8, CTYPE[n], 0, 0, 0]
  }

  lemma HeaderRoundTrip(x: nat, y: nat, n: nat)
    requires 1 <= n <= 4 && 1 <= x < 0x8000_0000 && 1 <= y < 0x8000_0000
    ensures ReadHeader(Header(x, y, n)) == Some((x, y, n))
  {
    var d := Header(x, y, n);
    assert d[..4] == Word(x) && d[4..8] == Word(y);
    assert d[8] == 8 && d[9] == CTYPE[n] && d[10..] == [0, 0, 0];
    WordRoundTrip(x);
    WordRoundTrip(y);
  }

  lemma DataRoundTrip(x: nat, y: nat, n: nat, rows: seq<seq<Byte>>, filters: seq<nat>, z: seq<Byte>)
    requires n > 0 && |rows| == |filters| == y
    requires forall j :: 0 <= j < y ==> |rows[j]| == x * n && filters[j] < 5
    requires Decompress(z) == Some(FilteredImage(rows, filters, Zeros(x * n), n))
    ensures DecodeData(x, y, n, x * n, [Chunk(IDAT, z)]) == Some(Image(x, y, n, rows))
  {
    assert [Chunk(IDAT, z)][1..] == [];
    assert z + [] == z;
    assert JoinIdat([Chunk(IDAT, z)]) == Some(z);
    ScanlinesRoundTrip(rows, filters, Zeros(x * n), n);
  }

  lemma SignedFile(rest: seq<Byte>)
    ensures Decode(SIGNATURE + rest)
         == match ReadChunks(rest) case None => None case Some(chunks) => DecodeChunks(chunks)
  {
    var out := SIGNATURE + rest;
    assert out[..8] == SIGNATURE && out[8..] == rest;
  }

  lemma ThreeChunks(header: seq<Byte>, z: seq<Byte>, x: nat, y: nat, n: nat, len: nat)
    requires len == x * n && ReadHeader(header) == Some((x, y, n))
    ensures DecodeChunks([Chunk(IHDR, header)] + ([Chunk(IDAT, z)] + ([Chunk(IEND, [])] + [])))
         == DecodeData(x, y, n, len, [Chunk(IDAT, z)])
  {
    var chunks := [Chunk(IHDR, header)] + ([Chunk(IDAT, z)] + ([Chunk(IEND, [])] + []));
    assert chunks[1..2] == [Chunk(IDAT, z)];
  }

  lemma FileDecodes(out: seq<Byte>, header: seq<Byte>, z: seq<Byte>, x: nat, y: nat, n: nat, len: nat)
    requires |header| == 13 && |z| < 0x8000_0000 && len == x * n && ReadHeader(header) == Some((x, y, n))
    requires out == SIGNATURE + ChunkBytes(IHDR, header) + ChunkBytes(IDAT, z) + ChunkBytes(IEND, [])
    ensures Decode(out) == DecodeData(x, y, n, len, [Chunk(IDAT, z)])
  {
    var a, b, c := ChunkBytes(IHDR, header), ChunkBytes(IDAT, z), ChunkBytes(IEND, []);
    assert c + [] == c;
    Associate(SIGNATURE + a, b, c);
    Associate(SIGNATURE, a, b + c);
    FileRoundTrip(header, z);
    SignedFile(ChunkBytes(IHDR, header) + (ChunkBytes(IDAT, z) + (ChunkBytes(IEND, []) + [])));
    ThreeChunks(header, z, x, y, n, len);
  }

  /** A stride of 0 stands for rows without gaps. */
  function Stride(strideBytes: int, len: nat): int {
    if strideBytes == 0 then len else strideBytes
  }

  /** `stbi_write_png_to_mem`. The pixels are the bytes of memory around a pointer to position origin, from which a
      stride can lead either way; every size stays in the range of int. */
  method WritePng(pixels: seq<Byte>, origin: nat, strideBytes: int, x: nat, y: nat, n: nat, forceFilter: int,
      flip: bool, level: int)
    returns (out: seq<Byte>)
    requires x >= 1 && y >= 1 && 1 <= n <= 4
    requires Inside(pixels, origin, Stride(strideBytes, x * n), x * n, y)
    requires x <= INT_MAX && y <= INT_MAX && 57 + MaxSize(y * (x * n + 1)) <= INT_MAX
    ensures Decode(out) == Some(Image(x, y, n, Rows(pixels, origin, Stride(strideBytes, x * n), x * n, y, flip)))
  {
    hide Decode, Decompress, Inside, FilteredImage, Scanlines, Header, ChunkBytes, FixedForm, Packed, Rows;
    var len := x * n;
    AtLeast(x, n);
    var stride := Stride(strideBytes, len);
    var filter := if forceFilter >= 5 then -1 else forceFilter;
    var filt, filters := FilterImage(pixels, origin, stride, len, y, n, filter, flip);
    FilteredSize(filt, Rows(pixels, origin, stride, len, y, flip), filters, len, y, n);
    AtLeast(y, len + 1);
    var zlib := Compress(filt, level);
    out := Frame(Header(x, y, n), zlib);
    ImageDecodes(out, x, y, n, Rows(pixels, origin, stride, len, y, flip), filters, zlib);
  }

  lemma AtLeast(x: nat, n: nat)
    requires x >= 1
    ensures x * n >= n
  {
  }

  lemma FilteredSize(filt: seq<Byte>, rows: seq<seq<Byte>>, filters: seq<nat>, len: nat, y: nat, n: nat)
    requires |filters| == |rows| == y && n > 0 && forall j :: 0 <= j < y ==> |rows[j]| == len && filters[j] < 5
    requires filt == FilteredImage(rows, filters, Zeros(len), n)
    ensures |filt| == y * (len + 1)
  {
  }

  /** Signature and chunks around the compressed data. */
  method Frame(header: seq<Byte>, z: seq<Byte>) returns (out: seq<Byte>)
    ensures out == SIGNATURE + ChunkBytes(IHDR, header) + ChunkBytes(IDAT, z) + ChunkBytes(IEND, [])
  {
    hide ChunkBytes;
    TagsAre();
    out := SIG;
    out := WriteChunk(out, Tag("IHDR"), header);
    out := WriteChunk(out, Tag("IDAT"), z);
    out := WriteChunk(out, Tag("IEND"), []);
  }

  lemma ImageDecodes(out: seq<Byte>, x: nat, y: nat, n: nat, rows: seq<seq<Byte>>, filters: seq<nat>, z: seq<Byte>)
    requires 1 <= x <= INT_MAX && 1 <= y <= INT_MAX && 1 <= n <= 4 && |z| < 0x8000_0000 && |rows| == |filters| == y
    requires forall j :: 0 <= j < y ==> |rows[j]| == x * n && filters[j] < 5
    requires Decompress(z) == Some(FilteredImage(rows, filters, Zeros(x * n), n))
    requires out
          == SIGNATURE + ChunkBytes(IHDR, Header(x, y, n)) + ChunkBytes(IDAT, z) + ChunkBytes(IEND, [])
    ensures Decode(out) == Some(Image(x, y, n, rows))
  {
    hide Decode, DecodeData, Decompress, FilteredImage, ChunkBytes;
    DataRoundTrip(x, y, n, rows, filters, z);
    HeaderRoundTrip(x, y, n);
    FileDecodes(out, Header(x, y, n), z, x, y, n, x * n);
  }
}
