/** The intermediate form of a fixed-code block: literals and back references, their
    meaning, and their bits. */
module DeflateTokens {
  import opened Bits
  import opened Inflate
  import opened Optional

  /** A back reference carries the length and distance symbols (from 257 and from 0) chosen for it. */
  datatype Token = Literal(b: Byte) | Match(len: nat, lenSym: nat, dist: nat, distSym: nat) {
    /** The chosen symbols can express the sizes, and the reference stays inside a text of n bytes. */
    predicate Fits(n: nat) {
      Match? ==>
        && 257 <= lenSym <= 285 && LengthBase(lenSym) <= len < LengthBase(lenSym) + Pow2(LengthExtra(lenSym))
        && distSym <= 29 && DistBase(distSym) <= dist < DistBase(distSym) + Pow2(DistExtra(distSym))
        && 1 <= dist <= n
    }

    /** Appends what the token stands for. */
    function Extend(out: seq<Byte>): seq<Byte>
      requires Fits(|out|)
    {
      match this
      case Literal(b) => out + [b]
      case Match(len, _, dist, _) => CopyBack(out, len, dist)
    }

    function Bits(n: nat): seq<bool>
      requires Fits(n)
    {
      match this
      case Literal(b) => SymbolBits(b)
      case Match(len, s, dist, c) =>
        SymbolBits(s) + LsbBits(len - LengthBase(s), LengthExtra(s))
        + MsbBits(c, 5) + LsbBits(dist - DistBase(c), DistExtra(c))
    }
  }

  /** The text a token list stands for. */
  function Expand(ts: seq<Token>): seq<Byte>
    requires WellFormed(ts)
    decreases |ts|, 1
  {
    if ts == [] then [] else ts[|ts| - 1].Extend(Expand(ts[..|ts| - 1]))
  }

  predicate WellFormed(ts: seq<Token>)
    decreases |ts|, 0
  {
    ts == [] || (WellFormed(ts[..|ts| - 1]) && ts[|ts| - 1].Fits(|Expand(ts[..|ts| - 1])|))
  }

  /** The code of a symbol, as the table in section 3.2.6 of RFC 1951 gives it. */
  function SymbolBits(s: nat): seq<bool>
    requires s <= 285
  {
    if s <= 143 then MsbBits(0x30 + s, 8)
    else if s <= 255 then MsbBits(0x190 + (s - 144), 9)
    else if s <= 279 then MsbBits(s - 256, 7)
    else MsbBits(0xC0 + (s - 280), 8)
  }

  function TokensBits(ts: seq<Token>): seq<bool>
    requires WellFormed(ts)
  {
    if ts == [] then [] else
    TokensBits(ts[..|ts| - 1]) + ts[|ts| - 1].Bits(|Expand(ts[..|ts| - 1])|)
  }

  lemma CodePrefix(v: nat, n: nat, rest: seq<bool>)
    requires v < Pow2(n)
    ensures MsbVal((MsbBits(v, n) + rest)[..n]) == v
    ensures n > 0 ==> MsbBits(v, n) + rest == MsbBits(v / 2, n - 1) + ([v % 2 == 1] + rest)
  {
    MsbRoundTrip(v, n);
    assert (MsbBits(v, n) + rest)[..n] == MsbBits(v, n);
  }

  /** Reading fewer bits of a code than it has yields the code without its last bits. */
  lemma MsbPrefix(v: nat, n: nat, rest: seq<bool>)
    requires v < Pow2(n) && n >= 2
    ensures var bits := MsbBits(v, n) + rest;
            MsbVal(bits[..n]) == v && MsbVal(bits[..n - 1]) == v / 2 && MsbVal(bits[..n - 2]) == v / 4
  {
    CodePrefix(v, n, rest);
    CodePrefix(v / 2, n - 1, [v % 2 == 1] + rest);
    CodePrefix(v / 2 / 2, n - 2, [v / 2 % 2 == 1] + ([v % 2 == 1] + rest));
  }

  lemma SymbolRoundTrip(s: nat, rest: seq<bool>)
    requires s <= 285
    ensures FixedSymbol(SymbolBits(s) + rest) == Some((s, rest))
  {
    Pow2Values();
    if s <= 143 {
      MsbPrefix(0x30 + s, 8, rest);
    } else if s <= 255 {
      MsbPrefix(0x190 + (s - 144), 9, rest);
    } else if s <= 279 {
      MsbPrefix(s - 256, 7, rest);
    } else {
      MsbPrefix(0xC0 + (s - 280), 8, rest);
    }
  }

  lemma FieldRoundTrip(v: nat, n: nat, rest: seq<bool>)
    requires v < Pow2(n)
    ensures Field(LsbBits(v, n) + rest, n) == Some((v, rest))
  {
    LsbRoundTrip(v, n);
    assert (LsbBits(v, n) + rest)[..n] == LsbBits(v, n);
  }

  lemma DistanceRoundTrip(c: nat, extra: nat, rest: seq<bool>)
    requires c <= 29 && extra < Pow2(DistExtra(c))
    ensures FixedDistance(MsbBits(c, 5) + (LsbBits(extra, DistExtra(c)) + rest)) == Some((DistBase(c) + extra, rest))
  {
    hide DistBase, DistExtra, LsbBits, MsbBits, Field, MsbVal;
    var tail := LsbBits(extra, DistExtra(c)) + rest;
    assert c < Pow2(5) by { Pow2Values(); }
    CodePrefix(c, 5, tail);
    FieldRoundTrip(extra, DistExtra(c), rest);
  }

  lemma MatchFromFields(s: nat, bits: seq<bool>, le: nat, bits1: seq<bool>, dist: nat, rest: seq<bool>, out: seq<Byte>)
    requires 257 <= s <= 285 && 1 <= dist <= |out|
    requires Field(bits, LengthExtra(s)) == Some((le, bits1))
    requires FixedDistance(bits1) == Some((dist, rest))
    ensures FixedMatch(s, bits, out) == Some((CopyBack(out, LengthBase(s) + le, dist), rest))
  {
    hide Field, FixedDistance, CopyBack, LengthBase, LengthExtra;
  }

  lemma MatchFields(s: nat, le: nat, c: nat, de: nat, rest: seq<bool>, out: seq<Byte>)
    requires 257 <= s <= 285 && le < Pow2(LengthExtra(s))
    requires c <= 29 && de < Pow2(DistExtra(c)) && 1 <= DistBase(c) + de <= |out|
    ensures FixedMatch(s, LsbBits(le, LengthExtra(s)) + (MsbBits(c, 5) + (LsbBits(de, DistExtra(c)) + rest)), out)
         == Some((CopyBack(out, LengthBase(s) + le, DistBase(c) + de), rest))
  {
    hide Field, FixedDistance, FixedMatch, CopyBack, LengthBase, LengthExtra, DistBase, DistExtra, Pow2, LsbBits,
         MsbBits;
    var distance := MsbBits(c, 5) + (LsbBits(de, DistExtra(c)) + rest);
    var bits, dist := LsbBits(le, LengthExtra(s)) + distance, DistBase(c) + de;
    assert Field(bits, LengthExtra(s)) == Some((le, distance)) by { FieldRoundTrip(le, LengthExtra(s), distance); }
    assert FixedDistance(distance) == Some((dist, rest)) by { DistanceRoundTrip(c, de, rest); }
    MatchFromFields(s, bits, le, distance, dist, rest, out);
  }

  lemma Reassociate<T>(a: seq<T>, b: seq<T>, c: seq<T>, d: seq<T>, rest: seq<T>)
    ensures a + b + c + d + rest == a + (b + (c + (d + rest)))
  {
  }

  lemma MatchRoundTrip(t: Token, rest: seq<bool>, out: seq<Byte>)
    requires t.Match? && t.Fits(|out|)
    ensures FixedBlock(t.Bits(|out|) + rest, out) == FixedBlock(rest, t.Extend(out))
  {
    hide Field, FixedSymbol, FixedMatch, SymbolBits, CopyBack, LengthBase, LengthExtra, DistBase, DistExtra, Pow2,
        LsbBits, MsbBits;
    var Match(len, s, dist, c) := t;
    var le, de := len - LengthBase(s), dist - DistBase(c);
    var tail := LsbBits(le, LengthExtra(s)) + (MsbBits(c, 5) + (LsbBits(de, DistExtra(c)) + rest));
    assert t.Bits(|out|) + rest == SymbolBits(s) + tail by {
      Reassociate(SymbolBits(s), LsbBits(le, LengthExtra(s)), MsbBits(c, 5), LsbBits(de, DistExtra(c)), rest);
    }
    SymbolRoundTrip(s, tail);
    assert FixedMatch(s, tail, out) == Some((t.Extend(out), rest)) by {
      MatchFields(s, le, c, de, rest, out);
    }
  }

  /** Decoding the bits of any token list appends exactly the text it stands for, whatever follows. */
  lemma {:induction false} TokensRoundTrip(ts: seq<Token>, rest: seq<bool>)
    requires WellFormed(ts)
    ensures FixedBlock(TokensBits(ts) + rest, []) == FixedBlock(rest, Expand(ts))
  {
    if ts == [] {
      assert [] + rest == rest;
    } else {
      var init, last := ts[..|ts| - 1], ts[|ts| - 1];
      var bits := last.Bits(|Expand(init)|);
      TokensRoundTrip(init, bits + rest);
      assert (TokensBits(init) + bits) + rest == TokensBits(init) + (bits + rest);
      if last.Match? {
        MatchRoundTrip(last, rest, Expand(init));
      } else {
        SymbolRoundTrip(last.b, rest);
      }
    }
  }

  /** A copy of len bytes from dist back reproduces text in which the two stretches agree. */
  lemma {:induction false} CopyBackIsText(data: seq<Byte>, i: nat, len: nat, dist: nat)
    requires i + len <= |data| && 1 <= dist <= i
    requires data[i - dist..i - dist + len] == data[i..i + len]
    ensures CopyBack(data[..i], len, dist) == data[..i + len]
    decreases len
  {
    if len != 0 {
      assert data[i - dist] == data[i - dist..i - dist + len][0] == data[i..i + len][0] == data[i];
      assert data[..i] + [data[..i][|data[..i]| - dist]] == data[..i + 1];
      assert data[i + 1 - dist..i + 1 - dist + (len - 1)] == data[i - dist..i - dist + len][1..];
      assert data[i + 1..i + 1 + (len - 1)] == data[i..i + len][1..];
      CopyBackIsText(data, i + 1, len - 1, dist);
    }
  }
}
