/** The TGA run-length encoder, against the packet description of the Truevision TGA 2.0 specification. */
module Tga {
  import opened Bits
  import opened Optional
  import opened WriteBuffer

  /** A pixel as it is shown. */
  datatype Colour =
    | Grey(value: Byte)
    | GreyAlpha(value: Byte, alpha: Byte)
    | Rgb(red: Byte, green: Byte, blue: Byte)
    | Rgba(red: Byte, green: Byte, blue: Byte, alpha: Byte)

  datatype Image = Image(width: nat, height: nat, channels: nat, rows: seq<seq<Colour>>)

  // ---------- The decoder ----------

  /** A pixel from its bytes in the file: blue, green and red, then alpha. */
  function FromFile(b: seq<Byte>): Colour
    requires 1 <= |b| <= 4
  {
    if |b| == 1 then Grey(b[0])
    else if |b| == 2 then GreyAlpha(b[0], b[1])
    else
      var blue, green, red := b[0], b[1], b[2];
      if |b| == 3 then Rgb(red, green, blue) else Rgba(red, green, blue, b[3])
  }

  function Repeat(c: Colour, n: nat): (cs: seq<Colour>)
    ensures |cs| == n
  {
    seq(n, _ => c)
  }

  /** Count pixels of n bytes each. */
  function ReadPixels(bytes: seq<Byte>, count: nat, n: nat): Option<(seq<Colour>, seq<Byte>)>
    requires 1 <= n <= 4
  {
    if count == 0 then Some(([], bytes))
    else if |bytes| < n then None
    else
      var (ps, rest) :- ReadPixels(bytes[n..], count - 1, n);
      Some(([FromFile(bytes[..n])] + ps, rest))
  }

  /** The rest of a row after the pixels in done. A packet must not reach past the end of the row. */
  function DecodeRow(bytes: seq<Byte>, width: nat, n: nat, done: seq<Colour>): (r: Option<(seq<Colour>, seq<Byte>)>)
    requires 1 <= n <= 4
    ensures r.Some? ==> |r.value.0| == width
    decreases width - |done|
  {
    if |done| >= width then
      if |done| == width then Some((done, bytes)) else None
    else if bytes == [] then None
    else
      var count := bytes[0] % 128 + 1;
      if |done| + count > width then None
      else if bytes[0] >= 128 then
        if |bytes| < 1 + n then None
        else DecodeRow(bytes[1 + n..], width, n, done + Repeat(FromFile(bytes[1..1 + n]), count))
      else
        match ReadPixels(bytes[1..], count, n)
        case None => None
        case Some((ps, rest)) =>
          if |ps| != count then None else DecodeRow(rest, width, n, done + ps)
  }

  /** The rows above those in below: a file without the origin bits stores the bottom row first. */
  function DecodeRows(bytes: seq<Byte>, width: nat, height: nat, n: nat,
      below: seq<seq<Colour>>): Option<(seq<seq<Colour>>, seq<Byte>)>
    requires 1 <= n <= 4
    decreases height - |below|
  {
    if |below| >= height then Some((below, bytes))
    else
      match DecodeRow(bytes, width, n, [])
      case None => None
      case Some((row, rest)) => DecodeRows(rest, width, height, n, [row] + below)
  }

  function Word(lo: Byte, hi: Byte): nat {
    lo as nat + 256 * hi as nat
  }

  /** A run-length packed file without ID field or colour map, of type 10 (colour) or 11 (grey). */
  function Decode(bytes: seq<Byte>): Option<Image> {
    if |bytes| < 18 || bytes[0] != 0 || bytes[1] != 0 then None
    else
      var width: nat, height: nat := Word(bytes[12], bytes[13]), Word(bytes[14], bytes[15]);
      var n, alpha := bytes[16] / 8, bytes[17];
      if n < 1 || n > 4 || bytes[16] % 8 != 0 || bytes[2] != (if n <= 2 then 11 else 10) then None
      else if alpha != (if n % 2 == 0 then 8 else 0) then None
      else
        match DecodeRows(bytes[18..], width, height, n, [])
        case None => None
        case Some((rows, rest)) => if rest == [] then Some(Image(width, height, n, rows)) else None
  }

  // ---------- What written bytes do to the decoder ----------

  /** The bytes of one pixel in memory: grey, grey and alpha, RGB or RGBA. */
  type Pixel = p: seq<Byte> | 1 <= |p| <= 4 witness [0]

  /** The pixel of comp channels at offset `at` of the image in memory: red, green and blue, then alpha. */
  function InMemory(data: seq<Byte>, at: nat, comp: nat): Colour
    requires 1 <= comp <= 4 && at + comp <= |data|
  {
    if comp == 1 then Grey(data[at])
    else if comp == 2 then GreyAlpha(data[at], data[at + 1])
    else
      var red, green, blue := data[at], data[at + 1], data[at + 2];
      if comp == 3 then Rgb(red, green, blue) else Rgba(red, green, blue, data[at + 3])
  }

  function Shown(p: Pixel): Colour {
    InMemory(p, 0, |p|)
  }

  function AllShown(ps: seq<Pixel>): (cs: seq<Colour>)
    ensures |cs| == |ps|
  {
    seq(|ps|, i requires 0 <= i < |ps| => Shown(ps[i]))
  }

  /** The bytes that the writer sends for a pixel. */
  function PixelBytes(p: Pixel): (b: seq<Byte>)
    ensures |b| == |p|
  {
    if |p| == 3 then [p[2], p[1], p[0]]
    else if |p| == 4 then [p[2], p[1], p[0], p[3]]
    else p
  }

  /** What a reader shows for them is what the memory holds. */
  lemma PixelRead(p: Pixel)
    ensures FromFile(PixelBytes(p)) == Shown(p)
  {
  }

  function FileBytes(ps: seq<Pixel>): seq<Byte> {
    if ps == [] then [] else FileBytes(ps[..|ps| - 1]) + PixelBytes(ps[|ps| - 1])
  }

  lemma OneRead(p: Pixel, rest: seq<Byte>, more: seq<Colour>, after: seq<Byte>, k: nat)
    requires ReadPixels(rest, k, |p|) == Some((more, after))
    ensures ReadPixels(PixelBytes(p) + rest, k + 1, |p|) == Some(([Shown(p)] + more, after))
  {
    PixelRead(p);
    var n := |p|;
    assert (PixelBytes(p) + rest)[..n] == PixelBytes(p) && (PixelBytes(p) + rest)[n..] == rest;
  }

  lemma {:induction false} PixelsRead(ps: seq<Pixel>, n: nat, rest: seq<Byte>, more: seq<Colour>, after: seq<Byte>,
      k: nat)
    requires 1 <= n <= 4 && (forall i :: 0 <= i < |ps| ==> |ps[i]| == n)
    requires ReadPixels(rest, k, n) == Some((more, after))
    ensures ReadPixels(FileBytes(ps) + rest, |ps| + k, n) == Some((AllShown(ps) + more, after))
  {
    if ps == [] {
      assert FileBytes(ps) + rest == rest;
      assert AllShown(ps) + more == more;
    } else {
      var init, p := ps[..|ps| - 1], ps[|ps| - 1];
      OneRead(p, rest, more, after, k);
      LastPixel(ps);
      hide PixelBytes, ReadPixels, Shown, AllShown, FileBytes;
      PixelsRead(init, n, PixelBytes(p) + rest, [Shown(p)] + more, after, k + 1);
      Associate(FileBytes(init), PixelBytes(p), rest);
      Associate(AllShown(init), [Shown(p)], more);
    }
  }

  lemma LastPixel(ps: seq<Pixel>)
    requires ps != []
    ensures var init, p := ps[..|ps| - 1], ps[|ps| - 1];
            FileBytes(ps) == FileBytes(init) + PixelBytes(p) && AllShown(ps) == AllShown(init) + [Shown(p)]
  {
  }

  lemma AllRead(ps: seq<Pixel>, n: nat, rest: seq<Byte>)
    requires 1 <= n <= 4 && (forall i :: 0 <= i < |ps| ==> |ps[i]| == n)
    ensures ReadPixels(FileBytes(ps) + rest, |ps|, n) == Some((AllShown(ps), rest))
  {
    PixelsRead(ps, n, rest, [], rest, 0);
    assert AllShown(ps) + [] == AllShown(ps);
  }

  /** Reading `out` takes the decoder of a row from the pixels done to the pixels to. */
  ghost predicate Advances(out: seq<Byte>, width: nat, n: nat, done: seq<Colour>, to: seq<Colour>)
    requires 1 <= n <= 4
  {
    forall rest :: DecodeRow(out + rest, width, n, done) == DecodeRow(rest, width, n, to)
  }

  lemma Compose(a: seq<Byte>, b: seq<Byte>, width: nat, n: nat, x: seq<Colour>, y: seq<Colour>, z: seq<Colour>)
    requires 1 <= n <= 4 && Advances(a, width, n, x, y) && Advances(b, width, n, y, z)
    ensures Advances(a + b, width, n, x, z)
  {
    forall rest: seq<Byte> ensures DecodeRow((a + b) + rest, width, n, x) == DecodeRow(rest, width, n, z) {
      Associate(a, b, rest);
      assert DecodeRow(a + (b + rest), width, n, x) == DecodeRow(b + rest, width, n, y);
    }
  }

  lemma ReadsNothing(width: nat, n: nat, done: seq<Colour>)
    requires 1 <= n <= 4
    ensures Advances([], width, n, done, done)
  {
    forall rest: seq<Byte> ensures DecodeRow([] + rest, width, n, done) == DecodeRow(rest, width, n, done) {
      assert [] + rest == rest;
    }
  }

  lemma RunPacket(p: Pixel, len: nat, width: nat, n: nat, done: seq<Colour>)
    requires 1 <= len <= 128 && |p| == n && |done| + len <= width
    ensures Advances([len + 127] + PixelBytes(p), width, n, done, done + Repeat(Shown(p), len))
  {
    var out: seq<Byte> := [len + 127] + PixelBytes(p);
    PixelRead(p);
    forall rest: seq<Byte>
      ensures DecodeRow(out + rest, width, n, done) == DecodeRow(rest, width, n, done + Repeat(Shown(p), len))
    {
      var bytes := out + rest;
      assert bytes[1..1 + n] == PixelBytes(p) && bytes[1 + n..] == rest;
    }
  }

  lemma RawPacket(ps: seq<Pixel>, width: nat, n: nat, done: seq<Colour>)
    requires 1 <= |ps| <= 128 && 1 <= n <= 4 && (forall i :: 0 <= i < |ps| ==> |ps[i]| == n) && |done| + |ps| <= width
    ensures Advances([|ps| - 1] + FileBytes(ps), width, n, done, done + AllShown(ps))
  {
    var out: seq<Byte> := [|ps| - 1] + FileBytes(ps);
    forall rest: seq<Byte>
      ensures DecodeRow(out + rest, width, n, done) == DecodeRow(rest, width, n, done + AllShown(ps))
    {
      AllRead(ps, n, rest);
      RawRead(out + rest, |ps|, AllShown(ps), FileBytes(ps) + rest, rest, width, n, done);
    }
  }

  lemma RawRead(bytes: seq<Byte>, count: nat, ps: seq<Colour>, body: seq<Byte>, rest: seq<Byte>, width: nat, n: nat,
      done: seq<Colour>)
    requires 1 <= n <= 4 && 1 <= count <= 128 && |ps| == count && |done| + count <= width
    requires |bytes| == 1 + |body| && bytes[0] == count - 1 && bytes[1..] == body
    requires ReadPixels(body, count, n) == Some((ps, rest))
    ensures DecodeRow(bytes, width, n, done) == DecodeRow(rest, width, n, done + ps)
  {
    hide ReadPixels, FromFile, Repeat;
  }

  // ---------- The encoder ----------

  /** `stbiw__write_pixel` as the TGA writer calls it. */
  method WritePixel(s: Context, d: Pixel)
    requires s.Valid()
    modifies s, s.buffer
    ensures s.Valid() && s.Contents() == old(s.Contents()) + PixelBytes(d)
  {
    var comp := |d|;
    if comp <= 2 {
      s.Write1(d[0]);
    } else {
      s.Write3(d[2], d[1], d[0]);
    }
    if comp == 2 || comp == 4 {
      s.Write1(d[comp - 1]);
    }
  }

  /**
   * The packet to write at pixel i. A run packet takes all the pixels equal to the first. The scan for a
   * raw packet compares pixels two apart, and stops one short of a pixel equal to the last but one.
   */
  method ChoosePacket(row: seq<Pixel>, i: nat) returns (len: nat, diff: bool)
    requires i < |row|
    ensures 1 <= len <= 128 && i + len <= |row|
    ensures diff <==> i + 1 == |row| || row[i] != row[i + 1]
    ensures !diff ==> len > 1 && forall k :: i <= k < i + len ==> row[k] == row[i]
    ensures !diff && len < 128 && i + len < |row| ==> row[i + len] != row[i]
    ensures diff ==> forall k :: i + 2 <= k < i + len ==> row[k] != row[k - 2]
    ensures diff && len < 128 && i + len < |row| ==> i + len + 1 < |row| && row[i + len + 1] == row[i + len - 1]
  {
    diff, len := true, 1;
    if i + 1 < |row| {
      len := len + 1;
      diff := row[i] != row[i + 1];
      var k := i + 2;
      if diff {
        var prev := i;
        while k < |row| && len < 128
          invariant i + 2 <= k <= |row| && len == k - i <= 128 && prev == k - 2
          invariant forall m :: i + 2 <= m < k ==> row[m] != row[m - 2]
        {
          if row[prev] != row[k] {
            prev := prev + 1;
            len := len + 1;
          } else {
            len := len - 1;
            break;
          }
          k := k + 1;
        }
      } else {
        while k < |row| && len < 128
          invariant i + 2 <= k <= |row| && len == k - i <= 128
          invariant forall m :: i <= m < k ==> row[m] == row[i]
        {
          if row[i] != row[k] {
            break;
          }
          len := len + 1;
          k := k + 1;
        }
      }
    }
  }

  predicate IsRow(row: seq<Pixel>, n: nat) {
    forall i :: 0 <= i < |row| ==> |row[i]| == n
  }

  /** The pixels of a raw packet. */
  method WriteRaw(s: Context, ps: seq<Pixel>, n: nat)
    requires s.Valid() && 1 <= n <= 4 && IsRow(ps, n)
    modifies s, s.buffer
    ensures s.Valid() && s.Contents() == old(s.Contents()) + FileBytes(ps)
  {
    for k := 0 to |ps|
      invariant s.Valid() && s.Contents() == old(s.Contents()) + FileBytes(ps[..k])
    {
      WritePixel(s, ps[k]);
      assert ps[..k + 1][..k] == ps[..k];
      Associate(old(s.Contents()), FileBytes(ps[..k]), PixelBytes(ps[k]));
    }
    assert ps[..|ps|] == ps;
  }

  /** One row in packets: the decoder gets exactly its pixels back, and no packet leaves the row. */
  method EncodeRow(s: Context, row: seq<Pixel>, n: nat) returns (ghost out: seq<Byte>)
    requires s.Valid() && 1 <= n <= 4 && IsRow(row, n)
    modifies s, s.buffer
    ensures s.Valid() && s.Contents() == old(s.Contents()) + out
    ensures Advances(out, |row|, n, [], AllShown(row))
  {
    hide Advances, FileBytes, PixelBytes;
    out := [];
    ReadsNothing(|row|, n, []);
    var i := 0;
    while i < |row|
      invariant i <= |row|
      invariant s.Valid() && s.Contents() == old(s.Contents()) + out
      invariant Advances(out, |row|, n, [], AllShown(row)[..i])
    {
      var len, diff := ChoosePacket(row, i);
      var packet := WritePacket(s, row, i, len, diff, n);
      Compose(out, packet, |row|, n, [], AllShown(row)[..i], AllShown(row)[..i + len]);
      Associate(old(s.Contents()), out, packet);
      out := out + packet;
      i := i + len;
    }
    assert AllShown(row)[..i] == AllShown(row);
  }

  /** A packet of len pixels from i on: its header byte, then the one pixel of a run or all of them. */
  method WritePacket(s: Context, row: seq<Pixel>, i: nat, len: nat, diff: bool, n: nat) returns (ghost out: seq<Byte>)
    requires s.Valid() && 1 <= n <= 4 && IsRow(row, n) && 1 <= len <= 128 && i + len <= |row|
    requires diff || forall k :: i <= k < i + len ==> row[k] == row[i]
    modifies s, s.buffer
    ensures s.Valid() && s.Contents() == old(s.Contents()) + out
    ensures Advances(out, |row|, n, AllShown(row)[..i], AllShown(row)[..i + len])
  {
    hide Advances, FileBytes, PixelBytes;
    if diff {
      s.Write1(len - 1);
      WriteRaw(s, row[i..i + len], n);
      out := [len - 1] + FileBytes(row[i..i + len]);
      Associate(old(s.Contents()), [len - 1], FileBytes(row[i..i + len]));
      RawPacket(row[i..i + len], |row|, n, AllShown(row)[..i]);
      assert AllShown(row)[..i] + AllShown(row[i..i + len]) == AllShown(row)[..i + len];
    } else {
      var header := (len - 129) % 256;
      s.Write1(header);
      WritePixel(s, row[i]);
      out := [len + 127] + PixelBytes(row[i]);
      Associate(old(s.Contents()), [len + 127], PixelBytes(row[i]));
      RunPacket(row[i], len, |row|, n, AllShown(row)[..i]);
      assert AllShown(row)[..i] + Repeat(Shown(row[i]), len) == AllShown(row)[..i + len];
    }
  }

  // ---------- The file ----------

  /** Row j of the image, x pixels of comp bytes each. */
  function Row(data: seq<Byte>, x: nat, comp: nat, j: nat): (row: seq<Pixel>)
    requires 1 <= comp <= 4 && (j + 1) * x * comp <= |data|
    ensures |row| == x && IsRow(row, comp)
  {
    seq(x, i requires 0 <= i < x => PixelAt(data, x, comp, j, i))
  }

  function PixelAt(data: seq<Byte>, x: nat, comp: nat, j: nat, i: nat): (p: Pixel)
    requires i < x && 1 <= comp <= 4 && (j + 1) * x * comp <= |data|
    ensures |p| == comp
  {
    InData(x, comp, j, i);
    data[(j * x + i) * comp..(j * x + i + 1) * comp]
  }

  lemma InData(x: nat, comp: nat, j: nat, i: nat)
    requires i < x
    ensures 0 <= (j * x + i) * comp && (j * x + i + 1) * comp == (j * x + i) * comp + comp <= (j + 1) * x * comp
  {
    assert (j + 1) * x == j * x + x;
    assert (j * x + i + 1) * comp <= (j * x + x) * comp;
  }

  lemma RowFits(x: nat, y: nat, comp: nat, j: nat)
    requires j < y
    ensures (j + 1) * x * comp <= x * y * comp
  {
    assert (j + 1) * x <= y * x;
  }

  /** Row j of the picture in memory. */
  function RowShown(data: seq<Byte>, x: nat, y: nat, comp: nat, j: nat): (row: seq<Colour>)
    requires 1 <= comp <= 4 && |data| == x * y * comp && j < y
    ensures |row| == x
  {
    seq(x, i requires 0 <= i < x =>
      InData(x, comp, j, i);
      RowFits(x, y, comp, j);
      InMemory(data, (j * x + i) * comp, comp))
  }

  lemma RowIsShown(data: seq<Byte>, x: nat, y: nat, comp: nat, j: nat)
    requires 1 <= comp <= 4 && |data| == x * y * comp && j < y
    ensures (j + 1) * x * comp <= |data| && AllShown(Row(data, x, comp, j)) == RowShown(data, x, y, comp, j)
  {
    RowFits(x, y, comp, j);
    var row := Row(data, x, comp, j);
    forall i | 0 <= i < x ensures AllShown(row)[i] == RowShown(data, x, y, comp, j)[i] {
      InData(x, comp, j, i);
      SameColour(data, (j * x + i) * comp, comp, row[i]);
    }
  }

  lemma SameColour(data: seq<Byte>, at: nat, comp: nat, p: Pixel)
    requires 1 <= comp <= 4 && at + comp <= |data| && p == data[at..at + comp]
    ensures Shown(p) == InMemory(data, at, comp)
  {
  }

  /** The picture as it should be shown, top row first: row 0 of the memory on top, or at the bottom when flipping. */
  function Rows(data: seq<Byte>, x: nat, y: nat, comp: nat, flip: bool): (rows: seq<seq<Colour>>)
    requires 1 <= comp <= 4 && |data| == x * y * comp
    ensures |rows| == y
  {
    seq(y, k requires 0 <= k < y => RowShown(data, x, y, comp, if flip then y - 1 - k else k))
  }

  ghost predicate Stacks(out: seq<Byte>, x: nat, y: nat, comp: nat, below: seq<seq<Colour>>)
    requires 1 <= comp <= 4
  {
    forall rest :: DecodeRows(out + rest, x, y, comp, []) == DecodeRows(rest, x, y, comp, below)
  }

  lemma StackRow(out: seq<Byte>, packed: seq<Byte>, x: nat, y: nat, comp: nat, below: seq<seq<Colour>>,
      row: seq<Colour>)
    requires 1 <= comp <= 4 && Stacks(out, x, y, comp, below) && Advances(packed, x, comp, [], row)
    requires |below| < y && |row| == x
    ensures Stacks(out + packed, x, y, comp, [row] + below)
  {
    forall rest: seq<Byte>
      ensures DecodeRows((out + packed) + rest, x, y, comp, []) == DecodeRows(rest, x, y, comp, [row] + below)
    {
      Associate(out, packed, rest);
      assert DecodeRow(packed + rest, x, comp, []) == Some((row, rest));
    }
  }

  lemma StackNothing(x: nat, y: nat, comp: nat)
    requires 1 <= comp <= 4
    ensures Stacks([], x, y, comp, [])
  {
    forall rest: seq<Byte> ensures DecodeRows([] + rest, x, y, comp, []) == DecodeRows(rest, x, y, comp, []) {
      assert [] + rest == rest;
    }
  }

  /** `STBIW_UCHAR` */
  function UChar(v: nat): Byte {
    v % 256
  }

  function Header(x: nat, y: nat, comp: nat): (h: seq<Byte>)
    requires 1 <= comp <= 4
    ensures |h| == 18
  {
    [0, 0, if comp <= 2 then 11 else 10, 0, 0, 0, 0, 0, 0, 0, 0, 0,
     UChar(x), UChar(x / 256), UChar(y), UChar(y / 256), comp * 8, if comp % 2 == 0 then 8 else 0]
  }

  /** The row loop of `stbi_write_tga_core`. */
  method EncodeRows(s: Context, data: seq<Byte>, x: nat, y: nat, comp: nat, flip: bool) returns (ghost out: seq<Byte>)
    requires s.Valid() && 1 <= comp <= 4 && |data| == x * y * comp
    modifies s, s.buffer
    ensures s.Valid() && s.Contents() == old(s.Contents()) + out
    ensures Stacks(out, x, y, comp, Rows(data, x, y, comp, flip))
  {
    hide Stacks, Advances, Row, RowShown, AllShown, IsRow;
    out := [];
    ghost var rows := Rows(data, x, y, comp, flip);
    StackNothing(x, y, comp);
    assert rows[y..] == [];
    var j, jend, jdir := if flip then 0 else y - 1, if flip then y else -1, if flip then 1 else -1;
    ghost var k := y;
    while j != jend
      invariant 0 <= k <= y && j == if flip then y - k else k - 1
      invariant s.Valid() && s.Contents() == old(s.Contents()) + out
      invariant Stacks(out, x, y, comp, rows[k..])
      decreases k
    {
      RowIsShown(data, x, y, comp, j);
      var packed := EncodeRow(s, Row(data, x, comp, j), comp);
      StackNext(out, packed, x, y, comp, rows, k, RowShown(data, x, y, comp, j));
      Associate(old(s.Contents()), out, packed);
      out := out + packed;
      j := j + jdir;
      k := k - 1;
    }
    assert rows[0..] == rows;
  }

  lemma StackNext(out: seq<Byte>, packed: seq<Byte>, x: nat, y: nat, comp: nat, rows: seq<seq<Colour>>, k: nat,
      row: seq<Colour>)
    requires 1 <= comp <= 4 && 0 < k <= |rows| == y && rows[k - 1] == row && |row| == x
    requires Stacks(out, x, y, comp, rows[k..]) && Advances(packed, x, comp, [], row)
    ensures Stacks(out + packed, x, y, comp, rows[k - 1..])
  {
    hide Stacks, Advances;
    StackRow(out, packed, x, y, comp, rows[k..], row);
    assert [row] + rows[k..] == rows[k - 1..];
  }

  lemma HeaderRead(x: nat, y: nat, comp: nat, body: seq<Byte>, rows: seq<seq<Colour>>)
    requires 1 <= comp <= 4 && x < 65536 && y < 65536
    requires DecodeRows(body, x, y, comp, []) == Some((rows, []))
    ensures Decode(Header(x, y, comp) + body) == Some(Image(x, y, comp, rows))
  {
    hide DecodeRows;
    var bytes := Header(x, y, comp) + body;
    assert bytes[18..] == body;
    assert Word(UChar(x), UChar(x / 256)) == x && Word(UChar(y), UChar(y / 256)) == y;
  }

  /**
   * `stbi_write_tga_core` with run-length packing on. Negative sizes are refused. Otherwise the file decodes to
   * the pixels, bottom-up unless flipping is set, exactly when both sizes fit in the 16 bits of the header.
   */
  method WriteTga(s: Context, x: int, y: int, comp: nat, data: seq<Byte>, flip: bool) returns (ok: bool)
    requires s.Valid() && s.used == 0 && s.sink == [] && 1 <= comp <= 4
    requires x >= 0 && y >= 0 ==> |data| == x * y * comp
    modifies s, s.buffer
    ensures ok <==> x >= 0 && y >= 0
    ensures !ok ==> s.sink == []
    ensures ok ==> (Decode(s.sink) == Some(Image(x, y, comp, Rows(data, x, y, comp, flip))) <==> x < 65536 && y < 65536)
  {
    hide DecodeRows, Rows, Stacks;
    if y < 0 || x < 0 {
      return false;
    }
    s.Send(Header(x, y, comp));
    var body := EncodeRows(s, data, x, y, comp, flip);
    s.Flush();
    ok := true;
    if x < 65536 && y < 65536 {
      AllStacked(body, x, y, comp, Rows(data, x, y, comp, flip));
      HeaderRead(x, y, comp, body, Rows(data, x, y, comp, flip));
    } else {
      SizesFit(s.sink);
    }
  }

  lemma AllStacked(out: seq<Byte>, x: nat, y: nat, comp: nat, rows: seq<seq<Colour>>)
    requires 1 <= comp <= 4 && Stacks(out, x, y, comp, rows) && |rows| == y
    ensures DecodeRows(out, x, y, comp, []) == Some((rows, []))
  {
    assert out + [] == out;
  }

  lemma SizesFit(bytes: seq<Byte>)
    ensures Decode(bytes).Some? ==> Decode(bytes).value.width < 65536 && Decode(bytes).value.height < 65536
  {
  }
}
