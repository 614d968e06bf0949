/** `stbiw__encode_png_line` and the choice of a filter for each scanline. */
module PngFilter {
  import opened Bits
  import opened PngFormat

  /** Conversion to `signed char`. */
  function SChar(x: int): (r: int)
    ensures -128 <= r < 128 && r % 256 == x % 256
  {
    if x % 256 < 128 then x % 256 else x % 256 - 256
  }

  /** What the filter leaves of byte i of a row, given the row above. */
  function Filtered(filter: nat, row: seq<Byte>, prev: seq<Byte>, n: nat, i: nat): Byte
    requires i < |row| == |prev| && n > 0
  {
    (row[i] as int - Predictor(filter, Left(row, i, n), prev[i], Left(prev, i, n))) % 256
  }

  /** Unfiltering a filtered row gives the row back. */
  lemma {:induction false} UnfilterFiltered(filter: nat, row: seq<Byte>, prev: seq<Byte>, n: nat, line: seq<Byte>)
    requires |line| == |row| == |prev| && n > 0
    requires forall i :: 0 <= i < |row| ==> line[i] == Filtered(filter, row, prev, n, i)
    ensures Unfilter(filter, line, prev, n) == row
  {
    if row != [] {
      var i := |row| - 1;
      forall k | 0 <= k < i ensures line[..i][k] == Filtered(filter, row[..i], prev[..i], n, k) {
        assert line[k] == Filtered(filter, row, prev, n, k);
      }
      UnfilterFiltered(filter, row[..i], prev[..i], n, line[..i]);
      var p := Predictor(filter, Left(row, i, n), prev[i], Left(prev, i, n));
      assert Left(row[..i], i, n) == Left(row, i, n);
      assert line[i] == (row[i] as int - p) % 256;
      assert (line[i] + p) % 256 == row[i];
      assert row == row[..i] + [row[i]];
    }
  }

  /** `stbiw__paeth` */
  function Paeth(a: nat, b: nat, c: nat): nat {
    var p := a as int + b - c;
    var pa, pb, pc := Abs(p - a), Abs(p - b), Abs(p - c);
    if pa <= pb && pa <= pc then a
    else if pb <= pc then b
    else c
  }

  const FIRSTMAP: seq<nat> := [0, 1, 0, 5, 6]

  /** The switch for the first pixel of a scanline. */
  function FirstByte(kind: nat, d: int, up: Byte): int {
    match kind
    case 2 => d - up
    case 3 => d - up / 2
    case 4 => d - Paeth(0, up, 0)
    case _ => d
  }

  /** The switch for the other pixels. */
  function NextByte(kind: nat, d: int, left: Byte, up: Byte, upLeft: Byte): int {
    match kind
    case 1 => d - left
    case 2 => d - up
    case 3 => d - ((left as int) + up) / 2
    case 4 => d - Paeth(left, up, upLeft)
    case 5 => d - left / 2
    case 6 => d - Paeth(left, 0, 0)
    case _ => d
  }

  /** The filter the switches compute: the first scanline has its own cases, in which nothing above is read. */
  function Kind(filter: nat, first: bool): nat
    requires filter < 5
  {
    if first then FIRSTMAP[filter] else filter
  }

  lemma FirstByteFilters(filter: nat, first: bool, d: Byte, up: Byte)
    requires filter < 5
    ensures FirstByte(Kind(filter, first), d, up) == d as int - Predictor(filter, 0, if first then 0 else up, 0)
  {
  }

  lemma NextByteFilters(filter: nat, first: bool, d: Byte, left: Byte, up: Byte, upLeft: Byte)
    requires filter < 5 && Kind(filter, first) != 0
    ensures NextByte(Kind(filter, first), d, left, up, upLeft)
         == d as int - Predictor(filter, left, if first then 0 else up, if first then 0 else upLeft)
  {
  }

  lemma SameSChar(x: int)
    ensures SChar(x) == SChar(x % 256)
  {
  }

  /** The first k bytes of the line buffer hold the filtered row. */
  ghost predicate Done(line: array<int>, k: nat, filter: nat, row: seq<Byte>, prev: seq<Byte>, n: nat)
    requires n > 0
    reads line
  {
    && k <= line.Length == |row| == |prev|
    && forall i :: 0 <= i < k ==> line[i] == SChar(Filtered(filter, row, prev, n, i))
  }

  /** The scanline above the one at offset z. */
  function Above(pixels: seq<Byte>, z: nat, signedStride: int, len: nat, first: bool): (prev: seq<Byte>)
    requires !first ==> 0 <= z - signedStride && z - signedStride + len <= |pixels|
    ensures |prev| == len
  {
    if first then Zeros(len) else pixels[z - signedStride..z - signedStride + len]
  }

  /** `memcpy` into the line buffer. */
  method CopyLine(pixels: seq<Byte>, z: nat, first: bool, n: nat, filter: nat, line: array<int>, ghost prev: seq<Byte>)
    requires n > 0 && filter < 5 && z + line.Length <= |pixels| && |prev| == line.Length
    requires Kind(filter, first) == 0 && (first ==> prev == Zeros(|prev|))
    modifies line
    ensures Done(line, line.Length, filter, pixels[z..z + line.Length], prev, n)
  {
    ghost var row := pixels[z..z + line.Length];
    for i := 0 to line.Length
      invariant Done(line, i, filter, row, prev, n)
    {
      CopyFilters(filter, first, row, prev, n, i);
      line[i] := SChar(pixels[z + i]);
    }
  }

  method FilterFirst(pixels: seq<Byte>, z: nat, signedStride: int, first: bool, n: nat, filter: nat, line: array<int>)
    requires 0 < n <= line.Length && filter < 5 && z + line.Length <= |pixels|
    requires !first ==> 0 <= z - signedStride && z - signedStride + line.Length <= |pixels|
    modifies line
    ensures Done(line, n, filter, pixels[z..z + line.Length], Above(pixels, z, signedStride, line.Length, first), n)
  {
    ghost var row, prev := pixels[z..z + line.Length], Above(pixels, z, signedStride, line.Length, first);
    for i := 0 to n
      invariant Done(line, i, filter, row, prev, n)
    {
      var up := if first then 0 else pixels[z - signedStride + i];
      FirstByteFilters(filter, first, row[i], up);
      SameSChar(FirstByte(Kind(filter, first), row[i], up));
      line[i] := SChar(FirstByte(Kind(filter, first), pixels[z + i], up));
    }
  }

  method FilterRest(pixels: seq<Byte>, z: nat, signedStride: int, first: bool, n: nat, filter: nat, line: array<int>)
    requires 0 < n <= line.Length && filter < 5 && z + line.Length <= |pixels| && Kind(filter, first) != 0
    requires !first ==> 0 <= z - signedStride && z - signedStride + line.Length <= |pixels|
    requires Done(line, n, filter, pixels[z..z + line.Length], Above(pixels, z, signedStride, line.Length, first), n)
    modifies line
    ensures Done(line, line.Length, filter, pixels[z..z + line.Length],
                 Above(pixels, z, signedStride, line.Length, first), n)
  {
    ghost var row, prev := pixels[z..z + line.Length], Above(pixels, z, signedStride, line.Length, first);
    for i := n to line.Length
      invariant Done(line, i, filter, row, prev, n)
    {
      var up := if first then 0 else pixels[z - signedStride + i];
      var upLeft := if first then 0 else pixels[z - signedStride + i - n];
      NextByteFilters(filter, first, row[i], row[i - n], up, upLeft);
      SameSChar(NextByte(Kind(filter, first), row[i], row[i - n], up, upLeft));
      line[i] := SChar(NextByte(Kind(filter, first), pixels[z + i], pixels[z + i - n], up, upLeft));
    }
  }

  /** One scanline at offset z of the pixels, the one above it at offset z - signedStride.
      The line buffer receives the filtered bytes as signed characters. */
  method EncodeLine(pixels: seq<Byte>, z: nat, signedStride: int, first: bool, n: nat, filter: nat, line: array<int>)
    requires 0 < n <= line.Length && filter < 5 && z + line.Length <= |pixels|
    requires !first ==> 0 <= z - signedStride && z - signedStride + line.Length <= |pixels|
    modifies line
    ensures Done(line, line.Length, filter, pixels[z..z + line.Length],
                 Above(pixels, z, signedStride, line.Length, first), n)
  {
    if Kind(filter, first) == 0 {
      CopyLine(pixels, z, first, n, filter, line, Above(pixels, z, signedStride, line.Length, first));
    } else {
      FilterFirst(pixels, z, signedStride, first, n, filter, line);
      FilterRest(pixels, z, signedStride, first, n, filter, line);
    }
  }

  /** No filter at all, also chosen for "above" in the first scanline. */
  lemma CopyFilters(filter: nat, first: bool, row: seq<Byte>, prev: seq<Byte>, n: nat, i: nat)
    requires filter < 5 && Kind(filter, first) == 0 && i < |row| == |prev| && n > 0
    requires first ==> prev == Zeros(|prev|)
    ensures Filtered(filter, row, prev, n, i) == row[i]
  {
  }
}
