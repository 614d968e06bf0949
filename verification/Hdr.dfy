/** The run-length packed scanlines of the Radiance HDR writer. */
module Hdr {
  import opened Bits
  import opened Optional

  /** Four bytes of a line: three mantissas and the shared exponent. */
  type Quad = q: seq<Byte> | |q| == 4 witness [0, 0, 0, 0]

  /** In lines that are not packed, readers take these bytes as a repeat of the pixel before. */
  predicate IsRepeat(q: Quad) {
    q[0] == 1 && q[1] == 1 && q[2] == 1
  }

  /** A pixel as the packing of floats leaves it: black, or with a mantissa in the upper half of its range. */
  type Rgbe = q: Quad | !IsRepeat(q) witness [0, 0, 0, 0]

  // ---------- The decoder ----------

  /** The rest of a component: a code above 128 repeats a byte, another copies that many, none leaves the line. */
  function DecodeComponent(bytes: seq<Byte>, width: nat, done: seq<Byte>): (r: Option<(seq<Byte>, seq<Byte>)>)
    ensures r.Some? ==> |r.value.0| == width
    decreases width - |done|
  {
    if |done| >= width then
      if |done| == width then Some((done, bytes)) else None
    else if |bytes| < 2 || bytes[0] == 0 then None
    else
      var code := bytes[0];
      if code > 128 then
        if |done| + (code - 128) > width then None
        else DecodeComponent(bytes[2..], width, done + Repeat(bytes[1], code - 128))
      else if |done| + code > width || 1 + code > |bytes| then None
      else DecodeComponent(bytes[1 + code..], width, done + bytes[1..1 + code])
  }

  function Repeat(b: Byte, n: nat): (s: seq<Byte>)
    ensures |s| == n
  {
    seq(n, _ => b)
  }

  function Packs(width: nat): bool {
    8 <= width < 32768
  }

  /** A scanline: plain pixels, or a header with the width and the four components one after the other. */
  function DecodeScanline(bytes: seq<Byte>, width: nat): Option<(seq<Quad>, seq<Byte>)> {
    if !Packs(width) then ReadPixels(bytes, width)
    else if |bytes| < 4 || bytes[0] != 2 || bytes[1] != 2 || Word(bytes[2], bytes[3]) != width then None
    else
      var (r, rest0) :- DecodeComponent(bytes[4..], width, []);
      var (g, rest1) :- DecodeComponent(rest0, width, []);
      var (b, rest2) :- DecodeComponent(rest1, width, []);
      var (e, rest3) :- DecodeComponent(rest2, width, []);
      Some((Zip(r, g, b, e), rest3))
  }

  function Word(hi: Byte, lo: Byte): nat {
    256 * hi as nat + lo as nat
  }

  /** Plain pixels; a repeat is refused. */
  function ReadPixels(bytes: seq<Byte>, n: nat): Option<(seq<Quad>, seq<Byte>)> {
    if n == 0 then Some(([], bytes))
    else if |bytes| < 4 || IsRepeat(bytes[..4]) then None
    else
      var (ps, rest) :- ReadPixels(bytes[4..], n - 1);
      Some(([bytes[..4]] + ps, rest))
  }

  function Zip(r: seq<Byte>, g: seq<Byte>, b: seq<Byte>, e: seq<Byte>): (ps: seq<Quad>)
    requires |r| == |g| == |b| == |e|
    ensures |ps| == |r|
  {
    seq(|r|, i requires 0 <= i < |r| => [r[i], g[i], b[i], e[i]])
  }

  /** Component c of a line of pixels. */
  function Component(pixels: seq<Rgbe>, c: nat): (s: seq<Byte>)
    requires c < 4
    ensures |s| == |pixels|
  {
    seq(|pixels|, i requires 0 <= i < |pixels| => pixels[i][c])
  }

  lemma ZipComponents(pixels: seq<Rgbe>)
    ensures Zip(Component(pixels, 0), Component(pixels, 1), Component(pixels, 2), Component(pixels, 3)) == pixels
  {
    var zipped := Zip(Component(pixels, 0), Component(pixels, 1), Component(pixels, 2), Component(pixels, 3));
    forall i | 0 <= i < |pixels| ensures zipped[i] == pixels[i] {
      assert zipped[i] == [pixels[i][0], pixels[i][1], pixels[i][2], pixels[i][3]];
    }
  }

  // ---------- What written bytes do to the decoder ----------

  /** Reading `out` takes the decoder of a component from the bytes done to the bytes to. */
  ghost predicate Advances(out: seq<Byte>, width: nat, done: seq<Byte>, to: seq<Byte>) {
    forall rest :: DecodeComponent(out + rest, width, done) == DecodeComponent(rest, width, to)
  }

  lemma ReadsNothing(width: nat, done: seq<Byte>)
    ensures Advances([], width, done, done)
  {
    forall rest: seq<Byte> ensures DecodeComponent([] + rest, width, done) == DecodeComponent(rest, width, done) {
      assert [] + rest == rest;
    }
  }

  lemma Compose(a: seq<Byte>, b: seq<Byte>, width: nat, x: seq<Byte>, y: seq<Byte>, z: seq<Byte>)
    requires Advances(a, width, x, y) && Advances(b, width, y, z)
    ensures Advances(a + b, width, x, z)
  {
    forall rest: seq<Byte> ensures DecodeComponent((a + b) + rest, width, x) == DecodeComponent(rest, width, z) {
      Associate(a, b, rest);
      assert DecodeComponent(a + (b + rest), width, x) == DecodeComponent(b + rest, width, y);
    }
  }

  // ---------- The encoder ----------

  /** `stbiw__write_run_data` */
  method RunData(out: seq<Byte>, len: nat, b: Byte, ghost width: nat, ghost done: seq<Byte>)
    returns (r: seq<Byte>)
    requires 1 <= len <= 127 && |done| + len <= width
    ensures out <= r && Advances(r[|out|..], width, done, done + Repeat(b, len))
  {
    r := out + [len + 128];
    r := r + [b];
    ghost var packet := [len + 128, b];
    assert r[|out|..] == packet;
    forall rest: seq<Byte>
      ensures DecodeComponent(packet + rest, width, done) == DecodeComponent(rest, width, done + Repeat(b, len))
    {
      assert (packet + rest)[2..] == rest;
    }
  }

  /** `stbiw__write_dump_data` */
  method DumpData(out: seq<Byte>, data: seq<Byte>, ghost width: nat, ghost done: seq<Byte>)
    returns (r: seq<Byte>)
    requires 1 <= |data| <= 128 && |done| + |data| <= width
    ensures out <= r && Advances(r[|out|..], width, done, done + data)
  {
    r := out + [|data|];
    Associate(out, [|data|], data);
    r := r + data;
    ghost var packet := [|data|] + data;
    assert r[|out|..] == packet;
    forall rest: seq<Byte>
      ensures DecodeComponent(packet + rest, width, done) == DecodeComponent(rest, width, done + data)
    {
      DumpRead(packet + rest, data, rest, width, done);
    }
  }

  lemma DumpRead(bytes: seq<Byte>, data: seq<Byte>, rest: seq<Byte>, width: nat, done: seq<Byte>)
    requires 1 <= |data| <= 128 && |done| + |data| <= width && bytes == ([|data|] + data) + rest
    ensures DecodeComponent(bytes, width, done) == DecodeComponent(rest, width, done + data)
  {
    assert bytes[1..1 + |data|] == data && bytes[1 + |data|..] == rest;
  }

  predicate Triple(comp: seq<Byte>, r: nat) {
    r + 2 < |comp| && comp[r] == comp[r + 1] == comp[r + 2]
  }

  /** The first run of three from x on, or the end of the line. */
  method FindRun(comp: seq<Byte>, x: nat) returns (r: nat)
    requires x <= |comp|
    ensures x <= r <= |comp| && (forall k :: x <= k < r ==> !Triple(comp, k))
    ensures r + 2 < |comp| ==> Triple(comp, r)
    ensures r + 2 >= |comp| ==> r == |comp|
  {
    r := x;
    while r + 2 < |comp|
      invariant x <= r <= |comp| && forall k :: x <= k < r ==> !Triple(comp, k)
    {
      if comp[r] == comp[r + 1] && comp[r] == comp[r + 2] {
        break;
      }
      r := r + 1;
    }
    if r + 2 >= |comp| {
      r := |comp|;
    }
  }

  /** One component: the decoder gets back exactly its bytes, and x strictly advances in every round. */
  method EncodeComponent(comp: seq<Byte>, out0: seq<Byte>) returns (out: seq<Byte>)
    ensures out0 <= out && Advances(out[|out0|..], |comp|, [], comp)
  {
    hide Advances, Triple;
    var width := |comp|;
    out := out0;
    ghost var packed := [];
    ReadsNothing(width, []);
    var x := 0;
    while x < width
      invariant x <= width && out == out0 + packed && Advances(packed, width, [], comp[..x])
      decreases width - x
    {
      ghost var start := x;
      var r := FindRun(comp, x);
      while x < r
        invariant start <= x <= r && out == out0 + packed && Advances(packed, width, [], comp[..x])
      {
        var len := r - x;
        if len > 128 {
          len := 128;
        }
        ghost var before := out;
        out := DumpData(out, comp[x..x + len], width, comp[..x]);
        packed := NextPacket(comp, x, len, packed, out[|before|..], comp[x..x + len], out0, out);
        x := x + len;
      }
      if r + 2 < width {
        RunStarts(comp, x);
        while r < width && comp[r] == comp[x]
          invariant x <= r <= width && (forall k :: x <= k < r ==> comp[k] == comp[x])
        {
          r := r + 1;
        }
        assert r > x;
        ghost var first := x;
        while x < r
          invariant first <= x <= r && out == out0 + packed && Advances(packed, width, [], comp[..x])
          invariant forall k :: x <= k < r ==> comp[k] == comp[first]
        {
          var len := r - x;
          if len > 127 {
            len := 127;
          }
          ghost var before := out;
          out := RunData(out, len, comp[x], width, comp[..x]);
          packed := NextPacket(comp, x, len, packed, out[|before|..], Repeat(comp[x], len), out0, out);
          x := x + len;
        }
      }
    }
    assert comp[..x] == comp;
    assert out[|out0|..] == packed;
  }

  lemma RunStarts(comp: seq<Byte>, x: nat)
    requires x + 2 < |comp|
    ensures Triple(comp, x) ==> comp[x] == comp[x + 1]
  {
  }

  lemma NextPacket(comp: seq<Byte>, x: nat, len: nat, packed: seq<Byte>, packet: seq<Byte>, data: seq<Byte>,
      out0: seq<Byte>, out: seq<Byte>)
    returns (next: seq<Byte>)
    requires x + len <= |comp| && data == comp[x..x + len] && out == (out0 + packed) + packet
    requires Advances(packed, |comp|, [], comp[..x]) && Advances(packet, |comp|, comp[..x], comp[..x] + data)
    ensures next == packed + packet && out == out0 + next && Advances(next, |comp|, [], comp[..x + len])
  {
    hide Advances;
    next := packed + packet;
    assert comp[..x] + data == comp[..x + len];
    Compose(packed, packet, |comp|, [], comp[..x], comp[..x + len]);
  }

  // ---------- Scanlines ----------

  /** From offset off on, the scratch buffer holds component c of the first x pixels. */
  predicate Plane(scratch: seq<Byte>, pixels: seq<Rgbe>, x: nat, c: nat, off: nat) {
    c < 4 && x <= |pixels| && off + x <= |scratch| && forall i :: 0 <= i < x ==> scratch[i + off] == pixels[i][c]
  }

  predicate Planes(scratch: seq<Byte>, pixels: seq<Rgbe>, x: nat) {
    var w := |pixels|;
    && Plane(scratch, pixels, x, 0, 0) && Plane(scratch, pixels, x, 1, w)
    && Plane(scratch, pixels, x, 2, 2 * w) && Plane(scratch, pixels, x, 3, 3 * w)
  }

  /** Four bytes of pixel x written, seen from one plane. */
  lemma PlaneGrows(s: seq<Byte>, pixels: seq<Rgbe>, x: nat, c: nat, off: nat, t: seq<Byte>)
    requires |s| == |t| == 4 * |pixels| && x < |pixels| && Plane(s, pixels, x, c, off) && off + x < |t|
    requires t[x + off] == pixels[x][c]
    requires forall m :: 0 <= m < |s| && off <= m < off + x ==> t[m] == s[m]
    ensures Plane(t, pixels, x + 1, c, off)
  {
    forall i | 0 <= i < x + 1 ensures t[i + off] == pixels[i][c] {
    }
  }

  /** The loop that splits a line of pixels into the four planes of the scratch buffer. */
  method FillScratch(pixels: seq<Rgbe>, scratch: array<Byte>)
    requires scratch.Length == |pixels| * 4
    modifies scratch
    ensures Planes(scratch[..], pixels, |pixels|)
  {
    var width := |pixels|;
    for x := 0 to width
      invariant Planes(scratch[..], pixels, x)
    {
      ghost var before := scratch[..];
      scratch[x + width * 0] := pixels[x][0];
      scratch[x + width * 1] := pixels[x][1];
      scratch[x + width * 2] := pixels[x][2];
      scratch[x + width * 3] := pixels[x][3];
      hide Plane;
      PlaneGrows(before, pixels, x, 0, 0, scratch[..]);
      PlaneGrows(before, pixels, x, 1, width, scratch[..]);
      PlaneGrows(before, pixels, x, 2, 2 * width, scratch[..]);
      PlaneGrows(before, pixels, x, 3, 3 * width, scratch[..]);
    }
  }

  lemma PlaneIs(scratch: seq<Byte>, pixels: seq<Rgbe>, c: nat)
    requires |scratch| == |pixels| * 4 && c < 4 && Planes(scratch, pixels, |pixels|)
    ensures |pixels| * (c + 1) <= |scratch| && scratch[|pixels| * c..|pixels| * (c + 1)] == Component(pixels, c)
  {
    var w := |pixels|;
    assert scratch[w * 0..w * 1] == Component(pixels, 0);
    assert scratch[w * 1..w * 2] == Component(pixels, 1);
    assert scratch[w * 2..w * 3] == Component(pixels, 2);
    assert scratch[w * 3..w * 4] == Component(pixels, 3);
  }

  function Join(parts: seq<seq<Byte>>): seq<Byte> {
    if parts == [] then [] else Join(parts[..|parts| - 1]) + parts[|parts| - 1]
  }

  lemma JoinMore(parts: seq<seq<Byte>>, part: seq<Byte>)
    ensures Join(parts + [part]) == Join(parts) + part
  {
    assert (parts + [part])[..|parts|] == parts;
  }

  function LineHeader(width: nat): (h: seq<Byte>)
    ensures |h| == 4
  {
    [2, 2, width / 256 % 256, width % 256]
  }

  lemma ComponentRead(part: seq<Byte>, comp: seq<Byte>, rest: seq<Byte>)
    requires Advances(part, |comp|, [], comp)
    ensures DecodeComponent(part + rest, |comp|, []) == Some((comp, rest))
  {
  }

  lemma Nest<T>(h: seq<T>, a: seq<T>, b: seq<T>, c: seq<T>, d: seq<T>, rest: seq<T>)
    ensures (h + (((a + b) + c) + d)) + rest == h + (a + (b + (c + (d + rest))))
  {
  }

  lemma LineRead(pixels: seq<Rgbe>, parts: seq<seq<Byte>>, rest: seq<Byte>)
    requires Packs(|pixels|) && |parts| == 4
    requires forall c :: 0 <= c < 4 ==> Advances(parts[c], |pixels|, [], Component(pixels, c))
    ensures DecodeScanline((LineHeader(|pixels|) + Join(parts)) + rest, |pixels|) == Some((pixels, rest))
  {
    hide Advances, DecodeComponent, Zip, Component;
    var width := |pixels|;
    var a, b, c, d := parts[0], parts[1], parts[2], parts[3];
    assert Join(parts) == ((a + b) + c) + d by { JoinFour(parts); }
    var body := a + (b + (c + (d + rest)));
    Nest(LineHeader(width), a, b, c, d, rest);
    ComponentRead(a, Component(pixels, 0), b + (c + (d + rest)));
    ComponentRead(b, Component(pixels, 1), c + (d + rest));
    ComponentRead(c, Component(pixels, 2), d + rest);
    ComponentRead(d, Component(pixels, 3), rest);
    ZipComponents(pixels);
    HeaderRead(width, LineHeader(width) + body, body);
  }

  lemma HeaderRead(width: nat, bytes: seq<Byte>, body: seq<Byte>)
    requires Packs(width) && bytes == LineHeader(width) + body
    ensures bytes[0] == bytes[1] == 2 && Word(bytes[2], bytes[3]) == width && bytes[4..] == body
  {
  }

  lemma JoinFour(parts: seq<seq<Byte>>)
    requires |parts| == 4
    ensures Join(parts) == ((parts[0] + parts[1]) + parts[2]) + parts[3]
  {
    JoinMore([], parts[0]);
    JoinMore([parts[0]], parts[1]);
    JoinMore([parts[0]] + [parts[1]], parts[2]);
    JoinMore([parts[0]] + [parts[1]] + [parts[2]], parts[3]);
    assert [] + parts[0] == parts[0] && [] + [parts[0]] == [parts[0]];
    assert [parts[0]] + [parts[1]] + [parts[2]] + [parts[3]] == parts;
  }

  /** Reading `out` gives this line and leaves what follows. */
  ghost predicate IsLine(out: seq<Byte>, pixels: seq<Rgbe>) {
    forall rest :: DecodeScanline(out + rest, |pixels|) == Some((pixels, rest))
  }

  lemma OneRead(p: Rgbe, rest: seq<Byte>, k: nat, more: seq<Quad>, after: seq<Byte>)
    requires ReadPixels(rest, k) == Some((more, after))
    ensures ReadPixels(p + rest, k + 1) == Some(([p] + more, after))
  {
    assert (p + rest)[..4] == p && (p + rest)[4..] == rest;
  }

  lemma {:induction false} PlainRead(pixels: seq<Rgbe>, rest: seq<Byte>, k: nat, more: seq<Quad>, after: seq<Byte>)
    requires ReadPixels(rest, k) == Some((more, after))
    ensures ReadPixels(Join(pixels) + rest, |pixels| + k) == Some((pixels + more, after))
  {
    if pixels == [] {
      assert Join(pixels) + rest == rest && pixels + more == more;
    } else {
      var init, p := pixels[..|pixels| - 1], pixels[|pixels| - 1];
      OneRead(p, rest, k, more, after);
      PlainRead(init, p + rest, k + 1, [p] + more, after);
      Associate(Join(init), p, rest);
      assert init + ([p] + more) == pixels + more;
    }
  }

  /** `stbiw__write_hdr_scanline` from the packed pixels on. */
  method EncodeScanline(pixels: seq<Rgbe>, scratch: array<Byte>, out0: seq<Byte>) returns (out: seq<Byte>)
    requires scratch.Length == |pixels| * 4
    modifies scratch
    ensures out0 <= out && IsLine(out[|out0|..], pixels)
  {
    var width := |pixels|;
    if width < 8 || width >= 32768 {
      out := PlainScanline(pixels, out0);
    } else {
      FillScratch(pixels, scratch);
      hide Component, Advances, Join, Planes;
      out := out0 + LineHeader(width);
      ghost var parts := [];
      NoParts();
      assert out == out0 + LineHeader(width) + Join(parts);
      for c := 0 to 4
        invariant |parts| == c && out == out0 + LineHeader(width) + Join(parts)
        invariant forall k :: 0 <= k < c ==> Advances(parts[k], width, [], Component(pixels, k))
        invariant Planes(scratch[..], pixels, width)
      {
        PlaneIs(scratch[..], pixels, c);
        ghost var before := out;
        out := EncodeComponent(scratch[width * c..width * (c + 1)], out);
        ghost var part := out[|before|..];
        JoinMore(parts, part);
        Associate(out0 + LineHeader(width), Join(parts), part);
        parts := parts + [part];
      }
      ghost var packed := LineHeader(width) + Join(parts);
      forall rest ensures DecodeScanline(packed + rest, width) == Some((pixels, rest)) {
        LineRead(pixels, parts, rest);
      }
      Associate(out0, LineHeader(width), Join(parts));
      assert out[|out0|..] == packed;
    }
  }

  lemma NoParts()
    ensures forall s: seq<Byte> :: s + Join([]) == s
  {
  }

  method PlainScanline(pixels: seq<Rgbe>, out0: seq<Byte>) returns (out: seq<Byte>)
    requires !Packs(|pixels|)
    ensures out0 <= out && IsLine(out[|out0|..], pixels)
  {
    out := out0;
    for x := 0 to |pixels|
      invariant out == out0 + Join(pixels[..x])
    {
      out := out + pixels[x];
      assert pixels[..x] + [pixels[x]] == pixels[..x + 1];
      JoinMore(pixels[..x], pixels[x]);
      Associate(out0, Join(pixels[..x]), pixels[x]);
    }
    assert pixels[..|pixels|] == pixels;
    ghost var packed := Join(pixels);
    assert out[|out0|..] == packed;
    forall rest ensures DecodeScanline(packed + rest, |pixels|) == Some((pixels, rest)) {
      PlainRead(pixels, rest, 0, [], rest);
      assert pixels + [] == pixels;
    }
  }

  // ---------- All lines ----------

  /** The lines after those already read. */
  function DecodeLines(bytes: seq<Byte>, width: nat, height: nat, lines: seq<seq<Quad>>)
    : Option<(seq<seq<Quad>>, seq<Byte>)>
    decreases height - |lines|
  {
    if |lines| >= height then Some((lines, bytes))
    else
      match DecodeScanline(bytes, width)
      case None => None
      case Some((line, rest)) => DecodeLines(rest, width, height, lines + [line])
  }

  /** The lines in the order of the file. */
  function Flipped<T>(rows: seq<T>, flip: bool): (r: seq<T>)
    ensures |r| == |rows|
  {
    seq(|rows|, i requires 0 <= i < |rows| => rows[if flip then |rows| - 1 - i else i])
  }

  ghost predicate Lists(out: seq<Byte>, width: nat, height: nat, lines: seq<seq<Rgbe>>) {
    forall rest :: DecodeLines(out + rest, width, height, []) == DecodeLines(rest, width, height, lines)
  }

  lemma ListLine(out: seq<Byte>, packed: seq<Byte>, width: nat, height: nat, lines: seq<seq<Rgbe>>, line: seq<Rgbe>)
    requires Lists(out, width, height, lines) && IsLine(packed, line) && |line| == width && |lines| < height
    ensures Lists(out + packed, width, height, lines + [line])
  {
    forall rest: seq<Byte>
      ensures DecodeLines((out + packed) + rest, width, height, []) == DecodeLines(rest, width, height, lines + [line])
    {
      Associate(out, packed, rest);
      assert DecodeScanline(packed + rest, width) == Some((line, rest));
    }
  }

  lemma ListNothing(width: nat, height: nat)
    ensures Lists([], width, height, [])
  {
    forall rest: seq<Byte> ensures DecodeLines([] + rest, width, height, []) == DecodeLines(rest, width, height, []) {
      assert [] + rest == rest;
    }
  }

  lemma ListAll(out: seq<Byte>, width: nat, lines: seq<seq<Rgbe>>)
    requires Lists(out, width, |lines|, lines)
    ensures DecodeLines(out, width, |lines|, []) == Some((lines, []))
  {
    assert out + [] == out;
  }

  /** The line loop of `stbi_write_hdr_core`, with one scratch buffer for all lines. */
  method EncodeLines(rows: seq<seq<Rgbe>>, width: nat, flip: bool) returns (out: seq<Byte>)
    requires forall i :: 0 <= i < |rows| ==> |rows[i]| == width
    ensures DecodeLines(out, width, |rows|, []) == Some((Flipped(rows, flip), []))
  {
    hide Lists, IsLine, DecodeLines;
    var scratch := new Byte[width * 4];
    out := [];
    ghost var lines := Flipped(rows, flip);
    var y := |rows|;
    ListNothing(width, y);
    for i := 0 to y
      invariant Lists(out, width, y, lines[..i])
    {
      var row := rows[if flip then y - 1 - i else i];
      ghost var before := out;
      out := EncodeScanline(row, scratch, out);
      ListLine(before, out[|before|..], width, y, lines[..i], row);
      assert out == before + out[|before|..];
      assert lines[..i] + [row] == lines[..i + 1];
    }
    assert lines[..y] == lines;
    ListAll(out, width, lines);
  }
}
