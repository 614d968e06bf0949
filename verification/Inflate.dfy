/** The decoder that the compressed stream is judged by: DEFLATE (RFC 1951) inside the
    zlib wrapper (RFC 1950), written from the two documents. */
module Inflate {
  import opened Bits
  import opened Optional

  /** One symbol of the fixed literal/length code (section 3.2.6 of RFC 1951). */
  function FixedSymbol(bits: seq<bool>): (r: Option<(nat, seq<bool>)>)
    ensures r.Some? ==> |r.value.1| < |bits|
  {
    if |bits| < 7 then None else
    var c7 := MsbVal(bits[..7]);
    if c7 <= 0x17 then Some((256 + c7, bits[7..])) else
    if |bits| < 8 then None else
    var c8 := MsbVal(bits[..8]);
    if 0x30 <= c8 <= 0xBF then Some((c8 - 0x30, bits[8..]))
    else if 0xC0 <= c8 <= 0xC7 then Some((280 + (c8 - 0xC0), bits[8..])) else
    if |bits| < 9 then None else
    var c9 := MsbVal(bits[..9]);
    if 0x190 <= c9 then Some((144 + (c9 - 0x190), bits[9..])) else None
  }

  /** An unsigned field of n bits, least significant bit first. */
  function Field(bits: seq<bool>, n: nat): (r: Option<(nat, seq<bool>)>)
    ensures r.Some? ==> |r.value.1| + n == |bits|
  {
    if |bits| < n then None else Some((LsbVal(bits[..n]), bits[n..]))
  }

  // Length and distance codes (section 3.2.5 of RFC 1951), by their regular structure.

  function LengthExtra(s: nat): nat {
    if s < 265 || s == 285 then 0 else (s - 261) / 4
  }

  function LengthBase(s: nat): nat
    requires 257 <= s
  {
    if s == 285 then 258
    else if s < 265 then s - 254
    else 3 + (4 + (s - 261) % 4) * Pow2(LengthExtra(s))
  }

  function DistExtra(c: nat): nat {
    if c < 4 then 0 else c / 2 - 1
  }

  function DistBase(c: nat): nat {
    if c < 4 then c + 1 else 1 + (2 + c % 2) * Pow2(DistExtra(c))
  }

  /** Appends len bytes, each a copy of the one dist positions back; the two stretches may overlap. */
  function CopyBack(out: seq<Byte>, len: nat, dist: nat): (r: seq<Byte>)
    requires 1 <= dist <= |out|
    ensures |r| == |out| + len
    decreases len
  {
    if len == 0 then out else CopyBack(out + [out[|out| - dist]], len - 1, dist)
  }

  /** A distance: five code bits, then its extra bits. */
  function FixedDistance(bits: seq<bool>): (r: Option<(nat, seq<bool>)>)
    ensures r.Some? ==> |r.value.1| <= |bits|
  {
    if |bits| < 5 then None else
    var c := MsbVal(bits[..5]);
    if c > 29 then None else
    var (extra, rest) :- Field(bits[5..], DistExtra(c));
    Some((DistBase(c) + extra, rest))
  }

  /** A length/distance pair whose length symbol has just been read. */
  function FixedMatch(s: nat, bits: seq<bool>, out: seq<Byte>): (r: Option<(seq<Byte>, seq<bool>)>)
    requires 257 <= s
    ensures r.Some? ==> |r.value.1| <= |bits|
  {
    if s > 285 then None else
    var (extra, bits1) :- Field(bits, LengthExtra(s));
    var (dist, rest) :- FixedDistance(bits1);
    if dist == 0 || dist > |out| then None
    else Some((CopyBack(out, LengthBase(s) + extra, dist), rest))
  }

  /** The body of a block coded with the fixed codes, up to and including its end-of-block symbol. */
  function FixedBlock(bits: seq<bool>, out: seq<Byte>): (r: Option<(seq<Byte>, seq<bool>)>)
    ensures r.Some? ==> |r.value.1| < |bits|
    decreases |bits|
  {
    var (s, rest) :- FixedSymbol(bits);
    if s < 256 then FixedBlock(rest, out + [s])
    else if s == 256 then Some((out, rest))
    else
      var (out1, rest1) :- FixedMatch(s, rest, out);
      FixedBlock(rest1, out1)
  }

  /** What is left once the reader has moved to the next byte boundary: the whole stream
      is a number of bytes, so the bits still in the current byte are counted from the end. */
  function Align(bits: seq<bool>): (r: seq<bool>)
    ensures |r| % 8 == 0 && |r| <= |bits|
  {
    bits[|bits| % 8..]
  }

  /** A stored block, from its length fields on (section 3.2.4 of RFC 1951). */
  function StoredBlock(bits: seq<bool>, out: seq<Byte>): (r: Option<(seq<Byte>, seq<bool>)>)
    ensures r.Some? ==> |r.value.1| <= |bits|
  {
    var (len, bits1) :- Field(bits, 16);
    var (nlen, bits2) :- Field(bits1, 16);
    if len + nlen != 0xFFFF || |bits2| < 8 * len then None
    else Some((out + BytesOf(bits2[..8 * len]), bits2[8 * len..]))
  }

  /** A sequence of blocks up to the one marked final (section 3.2.3 of RFC 1951).
      Blocks with dynamic codes are rejected: the encoder never writes one. */
  function Blocks(bits: seq<bool>, out: seq<Byte>): Option<(seq<Byte>, seq<bool>)>
    decreases |bits|
  {
    if |bits| < 3 then None else
    var (out1, rest) :- match LsbVal(bits[1..3])
      case 0 => StoredBlock(Align(bits[3..]), out)
      case 1 => FixedBlock(bits[3..], out)
      case _ => None;
    if bits[0] then Some((out1, rest)) else Blocks(rest, out1)
  }

  // Adler-32 (section 2.2 of RFC 1950): both sums start from the bytes' definition and are
  // reduced at every byte.

  function AdlerA(data: seq<Byte>): (a: nat)
    ensures a < 65521
  {
    if data == [] then 1 else (AdlerA(data[..|data| - 1]) + data[|data| - 1]) % 65521
  }

  function AdlerB(data: seq<Byte>): (b: nat)
    ensures b < 65521
  {
    if data == [] then 0 else (AdlerB(data[..|data| - 1]) + AdlerA(data)) % 65521
  }

  function AdlerBytes(data: seq<Byte>): (r: seq<Byte>)
    ensures |r| == 4
  {
    var a, b := AdlerA(data), AdlerB(data);
    [b / 256, b % 256, a / 256, a % 256]
  }

  /** CM = 8, CINFO <= 7, FCHECK, no preset dictionary (section 2.2 of RFC 1950). */
  predicate HeaderOk(cmf: nat, flg: nat) {
    cmf % 16 == 8 && cmf / 16 <= 7 && (cmf * 256 + flg) % 31 == 0 && (flg / 32) % 2 == 0
  }

  /** The compressed blocks and the checksum of their text, with nothing after it. */
  function Content(z: seq<Byte>): Option<seq<Byte>> {
    var (out, rest) :- Blocks(BitsOf(z), []);
    if BytesOf(Align(rest)) == AdlerBytes(out) then Some(out) else None
  }

  /** A complete zlib stream. */
  function Decompress(z: seq<Byte>): Option<seq<Byte>> {
    if |z| < 2 || !HeaderOk(z[0], z[1]) then None else Content(z[2..])
  }
}
