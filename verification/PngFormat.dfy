/** The PNG decoder that the writer is judged by (PNG specification, Second Edition):
    signature, chunks with CRCs, one zlib stream, filtered 8-bit scanlines without interlace. */
module PngFormat {
  import opened Bits
  import opened Crc
  import opened Inflate
  import opened Optional

  datatype Image = Image(width: nat, height: nat, channels: nat, rows: seq<seq<Byte>>)

  datatype Chunk = Chunk(tag: seq<Byte>, data: seq<Byte>)

  /** The signature (section 5.2): a byte above 127, the letters PNG, a DOS line end, an end of file,
    a Unix line end. */
  const SIGNATURE: seq<Byte> := [0x89, 0x50, 0x4E, 0x47, 0x0D, 0x0A, 0x1A, 0x0A]
  // The chunk types as numbers.
  const IHDR: seq<Byte> := [73, 72, 68, 82]
  const IDAT: seq<Byte> := [73, 68, 65, 84]
  const IEND: seq<Byte> := [73, 69, 78, 68]

  // ---------- Chunks (section 5.3) ----------

  /** A 32-bit big-endian number. */
  function Be32(b: seq<Byte>): (n: nat)
    requires |b| == 4
  {
    (((b[0] as int) * 256 + b[1]) * 256 + b[2]) * 256 + b[3]
  }

  /** Length, tag, data and the CRC over tag and data. */
  function ReadChunk(bytes: seq<Byte>): (r: Option<(Chunk, seq<Byte>)>)
    ensures r.Some? ==> |r.value.1| < |bytes|
  {
    if |bytes| < 12 then None else
    var n := Be32(bytes[..4]);
    if |bytes| < 12 + n then None else
    var body := bytes[4..8 + n];
    if bytes[8 + n..12 + n] != WordBytes(Crc32(body)) then None
    else Some((Chunk(body[..4], body[4..]), bytes[12 + n..]))
  }

  function ReadChunks(bytes: seq<Byte>): Option<seq<Chunk>>
    decreases |bytes|
  {
    if bytes == [] then Some([]) else
    var (chunk, rest) :- ReadChunk(bytes);
    var chunks :- ReadChunks(rest);
    Some([chunk] + chunks)
  }

  /** The zlib stream carried by consecutive IDAT chunks. */
  function JoinIdat(chunks: seq<Chunk>): Option<seq<Byte>> {
    if chunks == [] then Some([])
    else if chunks[0].tag != IDAT then None
    else
      var rest :- JoinIdat(chunks[1..]);
      Some(chunks[0].data + rest)
  }

  // ---------- Filters (section 9.2) ----------

  function PaethPredictor(a: nat, b: nat, c: nat): (r: nat)
    ensures r == a || r == b || r == c
  {
    var p := a as int + b - c;
    if Abs(p - a) <= Abs(p - b) && Abs(p - a) <= Abs(p - c) then a
    else if Abs(p - b) <= Abs(p - c) then b
    else c
  }

  /** What is added to a filtered byte: from the byte to the left, above, and above left. */
  function Predictor(filter: nat, a: nat, b: nat, c: nat): nat {
    if filter == 1 then a
    else if filter == 2 then b
    else if filter == 3 then (a + b) / 2
    else if filter == 4 then PaethPredictor(a, b, c)
    else 0
  }

  /** The byte n places to the left, or zero outside the scanline. */
  function Left(row: seq<Byte>, i: nat, n: nat): Byte
    requires i <= |row| || i < |row| + n
  {
    if n <= i && i - n < |row| then row[i - n] else 0
  }

  /** Undoes a filter on one scanline, given the scanline above. */
  function Unfilter(filter: nat, line: seq<Byte>, prev: seq<Byte>, n: nat): (row: seq<Byte>)
    requires |line| == |prev| && n > 0
    ensures |row| == |line|
  {
    if line == [] then [] else
    var i := |line| - 1;
    var init := Unfilter(filter, line[..i], prev[..i], n);
    init + [(line[i] + Predictor(filter, Left(init, i, n), prev[i], Left(prev, i, n))) % 256]
  }

  /** The scanlines of the decompressed data, each behind its filter byte. */
  function Scanlines(raw: seq<Byte>, height: nat, prev: seq<Byte>, n: nat): Option<seq<seq<Byte>>>
    requires n > 0
    decreases height
  {
    if height == 0 then if raw == [] then Some([]) else None
    else if |raw| < 1 + |prev| || raw[0] > 4 then None
    else
      var row := Unfilter(raw[0], raw[1..1 + |prev|], prev, n);
      var rows :- Scanlines(raw[1 + |prev|..], height - 1, row, n);
      Some([row] + rows)
  }

  function Zeros(n: nat): (r: seq<Byte>)
    ensures |r| == n
  {
    seq(n, i => 0)
  }

  // ---------- The file ----------

  /** Samples per pixel by colour type (section 11.2.2): greyscale, greyscale with alpha, RGB, RGBA. */
  function Channels(colourType: Byte): Option<nat> {
    if colourType == 0 then Some(1)
    else if colourType == 4 then Some(2)
    else if colourType == 2 then Some(3)
    else if colourType == 6 then Some(4)
    else None
  }

  /** Width, height and samples per pixel: 8 bits, no interlace. */
  function ReadHeader(d: seq<Byte>): Option<(nat, nat, nat)> {
    if |d| != 13 then None else
    var width, height := Be32(d[..4]), Be32(d[4..8]);
    var n :- Channels(d[9]);
    if d[8] != 8 || d[10..] != [0, 0, 0] || width == 0 || height == 0 then None
    else Some((width, height, n))
  }

  function DecodeData(width: nat, height: nat, n: nat, rowBytes: nat, data: seq<Chunk>): Option<Image> {
    if n == 0 then None else
    var z :- JoinIdat(data);
    var raw :- Decompress(z);
    var rows :- Scanlines(raw, height, Zeros(rowBytes), n);
    Some(Image(width, height, n, rows))
  }

  function DecodeChunks(chunks: seq<Chunk>): Option<Image> {
    var last := |chunks| - 1;
    if last < 1 || chunks[0].tag != IHDR || chunks[last] != Chunk(IEND, []) then None else
    var (width, height, n) :- ReadHeader(chunks[0].data);
    DecodeData(width, height, n, width * n, chunks[1..last])
  }

  function Decode(bytes: seq<Byte>): Option<Image> {
    if |bytes| < 8 || bytes[..8] != SIGNATURE then None else
    var chunks :- ReadChunks(bytes[8..]);
    DecodeChunks(chunks)
  }
}
