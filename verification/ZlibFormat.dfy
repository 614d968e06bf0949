/** The shapes of output the compressor can produce, and what each decodes to. */
module ZlibFormat {
  import opened Bits
  import opened DeflateTokens
  import opened Inflate
  import opened Optional

  const HEADER: seq<Byte> := [0x78, 0x5e]

  // ---------- What a well-formed output decodes to ----------

  lemma ContentIntro(content: seq<Byte>, text: seq<Byte>, rest: seq<bool>)
    requires Blocks(BitsOf(content), []) == Some((text, rest))
    requires BytesOf(Align(rest)) == AdlerBytes(text)
    ensures Content(content) == Some(text)
  {
  }

  lemma HeaderAccepted(content: seq<Byte>)
    ensures Decompress(HEADER + content) == Content(content)
  {
    var z := HEADER + content;
    assert z[0] == 0x78 && z[1] == 0x5e;
    assert z[2..] == content;
  }

  lemma StreamIntro(body: seq<Byte>, text: seq<Byte>, rest: seq<bool>)
    requires Blocks(BitsOf(body) + BitsOf(AdlerBytes(text)), []) == Some((text, rest))
    requires Align(rest) == BitsOf(AdlerBytes(text))
    ensures Decompress(HEADER + (body + AdlerBytes(text))) == Some(text)
  {
    var trailer := AdlerBytes(text);
    BitsOfConcat(body, trailer);
    BytesOfBitsOf(trailer);
    ContentIntro(body + trailer, text, rest);
    HeaderAccepted(body + trailer);
  }

  lemma FixedBlocksIntro(block: seq<bool>, text: seq<Byte>, rest: seq<bool>)
    requires FixedBlock(block, []) == Some((text, rest))
    ensures Blocks([true] + LsbBits(1, 2) + block, []) == Some((text, rest))
  {
    var bits := [true] + LsbBits(1, 2) + block;
    assert bits[1..3] == LsbBits(1, 2) && bits[3..] == block;
    assert 1 < Pow2(2);
    LsbRoundTrip(1, 2);
  }

  lemma FixedTextDecodes(ts: seq<Token>, rest: seq<bool>)
    requires WellFormed(ts)
    ensures FixedBlock(TokensBits(ts) + (SymbolBits(256) + rest), []) == Some((Expand(ts), rest))
  {
    TokensRoundTrip(ts, SymbolBits(256) + rest);
    SymbolRoundTrip(256, rest);
  }

  lemma AlignDrops(pad: seq<bool>, bits: seq<bool>, k: nat)
    requires |pad| < 8 && |bits| == 8 * k
    ensures Align(pad + bits) == bits
  {
    assert |pad + bits| == |pad| + 8 * k;
    assert |pad + bits| % 8 == |pad|;
  }

  /** A padded fixed-code block followed by the checksum decodes to the text of its tokens. */
  lemma FixedStreamDecodes(body: seq<Byte>, ts: seq<Token>, pad: seq<bool>)
    requires WellFormed(ts) && |pad| < 8
    requires BitsOf(body) == [true] + LsbBits(1, 2) + TokensBits(ts) + SymbolBits(256) + pad
    ensures Decompress(HEADER + (body + AdlerBytes(Expand(ts)))) == Some(Expand(ts))
  {
    var trailer := BitsOf(AdlerBytes(Expand(ts)));
    var head, tokens, eob := [true] + LsbBits(1, 2), TokensBits(ts), SymbolBits(256);
    assert (head + tokens + eob + pad) + trailer == head + (tokens + (eob + (pad + trailer))) by {
      Reassociate(head, tokens, eob, pad, trailer);
    }
    FixedTextDecodes(ts, pad + trailer);
    FixedBlocksIntro(tokens + (eob + (pad + trailer)), Expand(ts), pad + trailer);
    AlignDrops(pad, BitsOf(AdlerBytes(Expand(ts))), 4);
    StreamIntro(body, Expand(ts), pad + trailer);
  }

  /** A 16-bit number as two bytes, low byte first. */
  function Le16(n: nat): (r: seq<Byte>)
    requires n < 65536
    ensures |r| == 2
  {
    [n % 256, n / 256]
  }

  /** The final flag, the length and its complement. */
  function StoredHead(last: bool, n: nat): (r: seq<Byte>)
    requires n <= 0x7FFF
    ensures |r| == 5
  {
    [if last then 1 else 0] + (Le16(n) + Le16(0xFFFF - n))
  }

  /** One stored block. */
  function StoredBytes(last: bool, data: seq<Byte>): (r: seq<Byte>)
    requires |data| <= 0x7FFF
    ensures |r| == |data| + 5
  {
    StoredHead(last, |data|) + data
  }

  /** The data cut into stored blocks of at most 32767 bytes. */
  function Stored(data: seq<Byte>): (r: seq<Byte>)
    ensures |r| == |data| + 5 * ((|data| + 32766) / 32767)
  {
    if data == [] then []
    else if |data| <= 32767 then StoredBytes(true, data)
    else StoredBytes(false, data[..32767]) + Stored(data[32767..])
  }

  lemma BitsOfOne(b: Byte)
    ensures BitsOf([b]) == LsbBits(b, 8)
  {
    assert [b][..0] == [];
    assert BitsOf([]) + LsbBits(b, 8) == LsbBits(b, 8);
  }

  lemma BitsOfLe16(n: nat)
    requires n < 65536
    ensures BitsOf(Le16(n)) == LsbBits(n, 16)
  {
    assert Le16(n) == [n % 256] + [n / 256];
    BitsOfConcat([n % 256], [n / 256]);
    BitsOfOne(n % 256);
    BitsOfOne(n / 256);
    Pow2Values();
    LsbSplit(n % 256, n / 256, 8, 8);
  }

  lemma StoredHeadBits(last: bool, n: nat)
    requires n <= 0x7FFF
    ensures BitsOf(StoredHead(last, n))
         == LsbBits(if last then 1 else 0, 8) + (LsbBits(n, 16) + LsbBits(0xFFFF - n, 16))
  {
    var flag := if last then 1 else 0;
    BitsOfConcat([flag], Le16(n) + Le16(0xFFFF - n));
    BitsOfConcat(Le16(n), Le16(0xFFFF - n));
    BitsOfOne(flag);
    BitsOfLe16(n);
    BitsOfLe16(0xFFFF - n);
  }

  /** Three fields of bits in front of some bytes and whatever follows them. */
  lemma BitsAfterHead(head: seq<Byte>, a: seq<bool>, b: seq<bool>, c: seq<bool>, data: seq<Byte>, rest: seq<bool>)
    requires BitsOf(head) == a + (b + c)
    ensures BitsOf(head + data) + rest == a + (b + (c + (BitsOf(data) + rest)))
  {
    BitsOfConcat(head, data);
    var d := BitsOf(data);
    assert (a + (b + c)) + d + rest == a + (b + (c + (d + rest)));
  }

  lemma FlagBits(last: bool)
    ensures LsbBits(if last then 1 else 0, 8) == [last] + ([false, false] + [false, false, false, false, false])
    ensures LsbVal([false, false]) == 0
  {
    assert [false, false][1..] == [false];
    assert [false][1..] == [];
  }

  lemma StoredIntro(n: nat, data: seq<bool>, rest: seq<bool>, out: seq<Byte>)
    requires n <= 0xFFFF && |data| == 8 * n && |data| % 8 == 0
    ensures StoredBlock(LsbBits(n, 16) + (LsbBits(0xFFFF - n, 16) + (data + rest)), out)
         == Some((out + BytesOf(data), rest))
  {
    var body := data + rest;
    var tail := LsbBits(0xFFFF - n, 16) + body;
    var bits := LsbBits(n, 16) + tail;
    Pow2Values();
    assert Field(bits, 16) == Some((n, tail)) by { FieldRoundTrip(n, 16, tail); }
    assert Field(tail, 16) == Some((0xFFFF - n, body)) by { FieldRoundTrip(0xFFFF - n, 16, body); }
    assert body[..8 * n] == data && body[8 * n..] == rest;
    StoredFromFields(bits, tail, n, body, out);
  }

  lemma StoredFromFields(bits: seq<bool>, tail: seq<bool>, n: nat, body: seq<bool>, out: seq<Byte>)
    requires n <= 0xFFFF && |body| >= 8 * n
    requires Field(bits, 16) == Some((n, tail)) && Field(tail, 16) == Some((0xFFFF - n, body))
    ensures StoredBlock(bits, out) == Some((out + BytesOf(body[..8 * n]), body[8 * n..]))
  {
  }

  /** Reading one stored block yields its data and leaves what follows. */
  lemma StoredBlockDecodes(last: bool, data: seq<Byte>, rest: seq<bool>, out: seq<Byte>)
    requires |data| <= 0x7FFF && |rest| % 8 == 0
    ensures Blocks(BitsOf(StoredBytes(last, data)) + rest, out)
         == if last then Some((out + data, rest)) else Blocks(rest, out + data)
  {
    hide Blocks, BitsOf, LsbBits, BytesOf, StoredBlock;
    var n, flag := |data|, LsbBits(if last then 1 else 0, 8);
    var fields := LsbBits(n, 16) + (LsbBits(0xFFFF - n, 16) + (BitsOf(data) + rest));
    assert BitsOf(StoredBytes(last, data)) + rest == flag + fields by {
      StoredHeadBits(last, n);
      BitsAfterHead(StoredHead(last, n), flag, LsbBits(n, 16), LsbBits(0xFFFF - n, 16), data, rest);
    }
    assert StoredBlock(fields, out) == Some((out + data, rest)) by {
      StoredIntro(n, BitsOf(data), rest, out);
      BytesOfBitsOf(data);
    }
    StoredHeader(last, fields, n + 4 + |rest| / 8, out, out + data, rest);
  }

  lemma StoredHeader(last: bool, fields: seq<bool>, k: nat, out: seq<Byte>, out1: seq<Byte>, rest: seq<bool>)
    requires |fields| == 8 * k && StoredBlock(fields, out) == Some((out1, rest))
    ensures Blocks(LsbBits(if last then 1 else 0, 8) + fields, out)
         == if last then Some((out1, rest)) else Blocks(rest, out1)
  {
    var skip: seq<bool> := [false, false, false, false, false];
    var bits := LsbBits(if last then 1 else 0, 8) + fields;
    FlagBits(last);
    assert bits[0] == last && bits[1..3] == [false, false] && bits[3..] == skip + fields;
    AlignDrops(skip, fields, k);
    hide LsbBits, StoredBlock, Align, FixedBlock, LsbVal;
  }

  lemma StoredMore(data: seq<Byte>, rest: seq<bool>)
    requires |data| > 32767
    ensures BitsOf(Stored(data)) + rest
         == BitsOf(StoredBytes(false, data[..32767])) + (BitsOf(Stored(data[32767..])) + rest)
  {
    assert Stored(data) == StoredBytes(false, data[..32767]) + Stored(data[32767..]);
    hide Stored, StoredBytes, BitsOf;
    var a, b := StoredBytes(false, data[..32767]), Stored(data[32767..]);
    BitsOfConcat(a, b);
    Associate(BitsOf(a), BitsOf(b), rest);
  }

  lemma StillAligned(bytes: seq<Byte>, rest: seq<bool>)
    requires |rest| % 8 == 0
    ensures |BitsOf(bytes) + rest| % 8 == 0
  {
    hide BitsOf;
  }

  lemma {:induction false} StoredDecodes(data: seq<Byte>, rest: seq<bool>, out: seq<Byte>)
    requires data != [] && |rest| % 8 == 0
    ensures Blocks(BitsOf(Stored(data)) + rest, out) == Some((out + data, rest))
  {
    if |data| <= 32767 {
      StoredBlockDecodes(true, data, rest, out);
    } else {
      var head, tail := data[..32767], data[32767..];
      StoredMore(data, rest);
      hide Stored, StoredBytes, Blocks, BitsOf;
      StillAligned(Stored(tail), rest);
      StoredBlockDecodes(false, head, BitsOf(Stored(tail)) + rest, out);
      StoredDecodes(tail, rest, out + head);
      Associate(out, head, tail);
      assert data == head + tail;
    }
  }

  lemma StoredStreamDecodes(data: seq<Byte>)
    requires data != []
    ensures Decompress(HEADER + (Stored(data) + AdlerBytes(data))) == Some(data)
  {
    hide Stored, BitsOf, Blocks;
    StoredDecodes(data, BitsOf(AdlerBytes(data)), []);
    assert [] + data == data;
    AlignDrops([], BitsOf(AdlerBytes(data)), 4);
    assert [] + BitsOf(AdlerBytes(data)) == BitsOf(AdlerBytes(data));
    StreamIntro(Stored(data), data, BitsOf(AdlerBytes(data)));
  }

  /** With no block at all, the checksum bytes are read as a truncated stored block. */
  lemma EmptyStreamFails()
    ensures Decompress(HEADER + (Stored([]) + AdlerBytes([]))) == None
  {
    assert Stored([]) + AdlerBytes([]) == Le16(0) + Le16(256);
    HeaderAccepted(Le16(0) + Le16(256));
    BitsOfConcat(Le16(0), Le16(256));
    BitsOfLe16(0);
    TruncatedBlock(BitsOf(Le16(256)));
  }

  lemma TruncatedBlock(bits: seq<bool>)
    requires |bits| == 16
    ensures Blocks(LsbBits(0, 16) + bits, []) == None
  {
    var all := LsbBits(0, 16) + bits;
    assert LsbBits(0, 16)[..3] == [false, false, false];
    assert all[0] == false && all[1..3] == [false, false];
    assert LsbVal([false, false]) == 0 by { FlagBits(false); }
    assert |Align(all[3..])| == 24;
  }
}
