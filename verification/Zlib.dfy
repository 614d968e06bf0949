/** `stbi_zlib_compress`: hash-chain match finder, lazy matching, fixed codes, stored fallback. */
module Zlib {
  import opened Adler
  import opened BitStream
  import opened Bits
  import opened DeflateTokens
  import opened Inflate
  import opened Optional
  import opened ZlibFormat
  import opened ZlibTables

  const ZHASH := 16384

  /** `stbiw__zhash` */
  function Hash(data: bv32): bv32 {
    var h := data ^ (data << 3);
    var h := h + (h >> 5);
    var h := h ^ (h << 4);
    var h := h + (h >> 17);
    var h := h ^ (h << 25);
    h + (h >> 6)
  }

  /** The chain of the three bytes at position i. */
  function ChainIndex(data: seq<Byte>, i: nat): (h: nat)
    requires i + 3 <= |data|
    ensures h < ZHASH
  {
    Low14(Hash(Three(data[i], data[i + 1], data[i + 2])))
  }

  function Three(a: Byte, b: Byte, c: Byte): bv32 {
    (a as bv32) + ((b as bv32) << 8) + ((c as bv32) << 16)
  }

  function Low14(h: bv32): (r: nat)
    ensures r < ZHASH
  {
    (h & 16383) as bv14 as nat
  }

  /** How many of the next limit bytes at a and at b agree. */
  function Agreement(data: seq<Byte>, a: nat, b: nat, limit: nat): (n: nat)
    requires a + limit <= |data| && b + limit <= |data|
    ensures n <= limit
    decreases limit
  {
    if limit == 0 || data[a] != data[b] then 0 else 1 + Agreement(data, a + 1, b + 1, limit - 1)
  }

  lemma {:induction false} AgreementMeans(data: seq<Byte>, a: nat, b: nat, limit: nat)
    requires a + limit <= |data| && b + limit <= |data|
    ensures var n := Agreement(data, a, b, limit);
            data[a..a + n] == data[b..b + n] && (n < limit ==> data[a + n] != data[b + n])
    decreases limit
  {
    if limit != 0 && data[a] == data[b] {
      AgreementMeans(data, a + 1, b + 1, limit - 1);
      var n := Agreement(data, a, b, limit);
      assert data[a..a + n] == [data[a]] + data[a + 1..a + 1 + (n - 1)];
      assert data[b..b + n] == [data[b]] + data[b + 1..b + 1 + (n - 1)];
    }
  }

  /** The length of the match of position i with an earlier position p: at most 258, inside the data. */
  function MatchLen(data: seq<Byte>, p: nat, i: nat): (n: nat)
    requires p < i <= |data|
    ensures n <= 258 && i + n <= |data|
  {
    Agreement(data, p, i, if |data| - i < 258 then |data| - i else 258)
  }

  lemma AgreementStep(data: seq<Byte>, a: nat, b: nat, limit: nat)
    requires a + limit <= |data| && b + limit <= |data| && limit > 0
    ensures Agreement(data, a, b, limit)
         == if data[a] != data[b] then 0 else 1 + Agreement(data, a + 1, b + 1, limit - 1)
  {
  }

  /** `stbiw__zlib_countm` */
  method CountMatch(data: seq<Byte>, p: nat, i: nat) returns (n: nat)
    requires p < i <= |data|
    ensures n == MatchLen(data, p, i)
  {
    ghost var limit := if |data| - i < 258 then |data| - i else 258;
    n := 0;
    hide Agreement;
    while n < |data| - i && n < 258
      invariant n <= limit
      invariant MatchLen(data, p, i) == n + Agreement(data, p + n, i + n, limit - n)
    {
      AgreementStep(data, p + n, i + n, limit - n);
      if data[p + n] != data[i + n] { break; }
      n := n + 1;
    }
  }

  /** A chain of the hash table: increasing positions before i, at most twice the quality of them. */
  predicate Chain(bucket: seq<nat>, i: nat, quality: nat) {
    && |bucket| <= 2 * quality
    && (forall j :: 0 <= j < |bucket| ==> bucket[j] < i)
    && (forall j, k :: 0 <= j < k < |bucket| ==> bucket[j] < bucket[k])
  }

  predicate Chains(table: seq<seq<nat>>, i: nat, quality: nat) {
    |table| == ZHASH && forall h :: 0 <= h < ZHASH ==> Chain(table[h], i, quality)
  }

  lemma ChainsLater(table: seq<seq<nat>>, i: nat, next: nat, quality: nat)
    requires Chains(table, i, quality) && i <= next
    ensures Chains(table, next, quality)
  {
    forall h | 0 <= h < ZHASH ensures Chain(table[h], next, quality) {
      assert Chain(table[h], i, quality);
    }
  }

  /** p starts the longest match of the chain within the window, and the latest one on a tie. */
  ghost predicate Longest(data: seq<Byte>, i: nat, bucket: seq<nat>, p: nat, best: nat)
    requires i < |data|
  {
    && p in bucket && p < i && i - p <= 32767 && 3 <= best == MatchLen(data, p, i)
    && forall q :: q in bucket && q < i && i - q <= 32767 ==>
         MatchLen(data, q, i) <= best && (q > p ==> MatchLen(data, q, i) < best)
  }

  /** The chain has no match of three bytes within the window. */
  ghost predicate NoneLong(data: seq<Byte>, i: nat, bucket: seq<nat>)
    requires i < |data|
  {
    forall q :: q in bucket && q < i && i - q <= 32767 ==> MatchLen(data, q, i) < 3
  }

  /** The chain of the next byte has a match there that is longer than best. */
  ghost predicate LongerNext(data: seq<Byte>, i: nat, bucket: seq<nat>, best: nat)
    requires i + 1 <= |data|
  {
    exists q :: q in bucket && q <= i && i - q < 32767 && MatchLen(data, q, i + 1) > best
  }

  /** The search through one chain: the longest match in the 32K window, the latest on a tie. */
  method FindMatch(data: seq<Byte>, i: nat, bucket: seq<nat>, ghost quality: nat)
    returns (best: nat, loc: Option<nat>)
    requires i < |data| && Chain(bucket, i, quality)
    ensures loc.Some? ==> Longest(data, i, bucket, loc.value, best)
    ensures loc.None? ==> best == 3 && NoneLong(data, i, bucket)
  {
    best, loc := 3, None;
    for j := 0 to |bucket|
      invariant loc.Some? ==> Longest(data, i, bucket[..j], loc.value, best)
      invariant loc.None? ==> best == 3 && NoneLong(data, i, bucket[..j])
    {
      assert bucket[..j + 1] == bucket[..j] + [bucket[j]];
      if bucket[j] > i - 32768 {
        var d := CountMatch(data, bucket[j], i);
        if d >= best {
          best, loc := d, Some(bucket[j]);
        }
      }
    }
    assert bucket[..|bucket|] == bucket;
  }

  /** Lazy matching: whether the chain of the next position holds a strictly longer match. */
  method BetterNext(data: seq<Byte>, i: nat, bucket: seq<nat>, best: nat, ghost quality: nat) returns (better: bool)
    requires i + 1 <= |data| && Chain(bucket, i + 1, quality)
    ensures better <==> LongerNext(data, i, bucket, best)
  {
    for j := 0 to |bucket|
      invariant !LongerNext(data, i, bucket[..j], best)
    {
      assert bucket[..j + 1] == bucket[..j] + [bucket[j]];
      if bucket[j] > i - 32767 {
        var e := CountMatch(data, bucket[j], i + 1);
        if e > best {
          assert bucket[j] in bucket;
          return true;
        }
      }
    }
    assert bucket[..|bucket|] == bucket;
    better := false;
  }

  /** The table with position i at the end of chain h, of which a full one has lost its older half. */
  function Recorded(table: seq<seq<nat>>, h: nat, i: nat, quality: nat): (r: seq<seq<nat>>)
    requires h < |table|
    ensures |r| == |table|
  {
    var kept := if |table[h]| == 2 * quality then table[h][quality..] else table[h];
    table[h := kept + [i]]
  }

  /** Records position i in its chain, dropping the older half of a full chain first. */
  method Record(table: array<seq<nat>>, h: nat, i: nat, quality: nat)
    requires h < ZHASH && quality > 0 && Chains(table[..], i, quality)
    modifies table
    ensures Chains(table[..], i + 1, quality)
    ensures table[..] == Recorded(old(table[..]), h, i, quality)
  {
    assert Chain(table[..][h], i, quality);
    ChainsLater(table[..], i, i + 1, quality);
    if |table[h]| == 2 * quality {
      table[h] := table[h][quality..];
    }
    table[h] := table[h] + [i];
    forall k | 0 <= k < ZHASH ensures Chain(table[..][k], i + 1, quality) {
      if k != h {
        assert table[..][k] == old(table[..])[k];
        assert Chain(old(table[..])[k], i + 1, quality);
      }
    }
  }

  /** Scans the length table for the symbol of a match length. */
  method LengthIndex(best: nat) returns (j: nat)
    requires 3 <= best <= 258
    ensures j <= 28 && LENGTHC[j] <= best < LENGTHC[j + 1]
  {
    j := 0;
    while best > LENGTHC[j + 1] - 1
      invariant j <= 28 && LENGTHC[j] <= best
      decreases 28 - j
    {
      j := j + 1;
    }
  }

  method DistIndex(d: nat) returns (j: nat)
    requires 1 <= d <= 32767
    ensures j <= 29 && DISTC[j] <= d < DISTC[j + 1]
  {
    j := 0;
    while d > DISTC[j + 1] - 1
      invariant j <= 29 && DISTC[j] <= d
      decreases 29 - j
    {
      j := j + 1;
    }
  }

  method EmitLength(bs: Stream, best: nat) returns (ghost s: nat)
    requires bs.Valid() && 3 <= best <= 258
    modifies bs
    ensures bs.Valid() && bs.capacity >= old(bs.capacity)
    ensures 257 <= s <= 285 && LengthBase(s) <= best < LengthBase(s) + Pow2(LengthExtra(s))
    ensures bs.Contents() == old(bs.Contents()) + SymbolBits(s) + LsbBits(best - LengthBase(s), LengthExtra(s))
  {
    hide Pow2, LengthBase, LengthExtra, LsbBits, SymbolBits, BitsOf;
    var j := LengthIndex(best);
    LengthTable(j);
    s := 257 + j;
    bs.AddSymbol(j + 257);
    ghost var before := bs.Contents();
    if LENGTHEB[j] != 0 {
      bs.Add(best - LENGTHC[j], LENGTHEB[j]);
    } else {
      assert before + [] == before;
    }
  }

  method EmitDistance(bs: Stream, d: nat) returns (ghost c: nat)
    requires bs.Valid() && 1 <= d <= 32767
    modifies bs
    ensures bs.Valid() && bs.capacity >= old(bs.capacity)
    ensures c <= 29 && DistBase(c) <= d < DistBase(c) + Pow2(DistExtra(c))
    ensures bs.Contents() == old(bs.Contents()) + MsbBits(c, 5) + LsbBits(d - DistBase(c), DistExtra(c))
  {
    hide Pow2, DistBase, DistExtra, LsbBits, MsbBits, BitsOf;
    var j := DistIndex(d);
    DistTable(j);
    c := j;
    bs.AddReversed(j, 5);
    ghost var before := bs.Contents();
    if DISTEB[j] != 0 {
      bs.Add(d - DISTC[j], DISTEB[j]);
    } else {
      assert before + [] == before;
    }
  }

  /** Writes a back reference; t is the token whose bits were written. */
  method EmitMatch(bs: Stream, best: nat, d: nat, ghost n: nat) returns (ghost t: Token)
    requires bs.Valid() && 3 <= best <= 258 && 1 <= d <= 32767 && d <= n
    modifies bs
    ensures bs.Valid() && bs.capacity >= old(bs.capacity)
    ensures t.Match? && t.len == best && t.dist == d && t.Fits(n)
    ensures bs.Contents() == old(bs.Contents()) + t.Bits(n)
  {
    hide Pow2, LengthBase, LengthExtra, DistBase, DistExtra, LsbBits, MsbBits, SymbolBits, BitsOf;
    ghost var s := EmitLength(bs, best);
    ghost var c := EmitDistance(bs, d);
    t := Match(best, s, d, c);
    Associate4(old(bs.Contents()), SymbolBits(s), LsbBits(best - LengthBase(s), LengthExtra(s)), MsbBits(c, 5),
               LsbBits(d - DistBase(c), DistExtra(c)));
  }

  lemma MatchIsText(data: seq<Byte>, p: nat, i: nat)
    requires p < i <= |data|
    ensures var n := MatchLen(data, p, i); CopyBack(data[..i], n, i - p) == data[..i + n]
  {
    var limit := if |data| - i < 258 then |data| - i else 258;
    hide Agreement, CopyBack;
    AgreementMeans(data, p, i, limit);
    var n := MatchLen(data, p, i);
    assert data[p..p + n] == data[i..i + n];
    CopyBackIsText(data, i, n, i - p);
  }

  /** The choice at position i: the longest match of its chain, unless there is none or the chain of the next
      position has a longer one there. */
  ghost predicate Chosen(data: seq<Byte>, i: nat, before: seq<seq<nat>>, after: seq<seq<nat>>, best: nat,
      loc: Option<nat>)
    requires i + 3 < |data| && |before| == |after| == ZHASH
  {
    var here, next := before[ChainIndex(data, i)], after[ChainIndex(data, i + 1)];
    match loc
    case Some(p) => Longest(data, i, here, p, best) && !LongerNext(data, i, next, best)
    case None =>
      NoneLong(data, i, here) || exists p :: Longest(data, i, here, p, best) && LongerNext(data, i, next, best)
  }

  /** The match to use at position i, if any, after looking one position ahead; records position i. */
  method ChooseMatch(data: seq<Byte>, i: nat, quality: nat, table: array<seq<nat>>)
    returns (best: nat, loc: Option<nat>)
    requires i + 3 < |data| && quality > 0 && Chains(table[..], i, quality)
    modifies table
    ensures Chains(table[..], i + 1, quality)
    ensures table[..] == Recorded(old(table[..]), ChainIndex(data, i), i, quality)
    ensures Chosen(data, i, old(table[..]), table[..], best, loc)
  {
    hide ChainIndex, Longest, NoneLong, LongerNext, Recorded;
    var h := ChainIndex(data, i);
    assert Chain(table[..][h], i, quality);
    best, loc := FindMatch(data, i, table[h], quality);
    Record(table, h, i, quality);
    if loc.Some? {
      h := ChainIndex(data, i + 1);
      assert Chain(table[..][h], i + 1, quality);
      var better := BetterNext(data, i, table[h], best, quality);
      if better {
        loc := None;
      }
    }
  }

  lemma ChosenIsMatch(data: seq<Byte>, i: nat, before: seq<seq<nat>>, after: seq<seq<nat>>, best: nat, loc: Option<nat>)
    requires i + 3 < |data| && |before| == |after| == ZHASH && Chosen(data, i, before, after, best, loc)
    ensures loc.Some? ==> loc.value < i && i - loc.value <= 32767 && 3 <= best == MatchLen(data, loc.value, i)
  {
    hide ChainIndex, LongerNext, NoneLong;
  }

  // ---------- Which tokens are written ----------

  /** The hash table after these tokens: every position at which one began is recorded, but for the last three
      bytes. */
  function TableAfter(data: seq<Byte>, quality: nat, ts: seq<Token>): (table: seq<seq<nat>>)
    requires WellFormed(ts)
    ensures |table| == ZHASH
  {
    if ts == [] then seq(ZHASH, _ => [])
    else
      var init := ts[..|ts| - 1];
      var table, i := TableAfter(data, quality, init), |Expand(init)|;
      if i + 3 < |data| then Recorded(table, ChainIndex(data, i), i, quality) else table
  }

  /** The token of position i: the chosen match, or a literal when there is none; always a literal in the last three
      bytes. */
  ghost predicate TokenChosen(data: seq<Byte>, i: nat, before: seq<seq<nat>>, after: seq<seq<nat>>, t: Token)
    requires i < |data| && |before| == |after| == ZHASH
  {
    if i + 3 < |data| then
      exists best, loc :: Chosen(data, i, before, after, best, loc) && IsChoice(data, i, best, loc, t)
    else
      t == Literal(data[i])
  }

  predicate IsChoice(data: seq<Byte>, i: nat, best: nat, loc: Option<nat>, t: Token)
    requires i < |data|
  {
    match loc
    case Some(p) => t.Match? && t.len == best && p < i && t.dist == i - p
    case None => t == Literal(data[i])
  }

  /** Every token is the one chosen at its position. */
  ghost predicate AllChosen(data: seq<Byte>, quality: nat, ts: seq<Token>)
    requires WellFormed(ts)
  {
    ts == [] ||
    var init := ts[..|ts| - 1];
    && AllChosen(data, quality, init) && |Expand(init)| < |data|
    && TokenChosen(data, |Expand(init)|, TableAfter(data, quality, init), TableAfter(data, quality, ts), ts[|ts| - 1])
  }

  /** One more token, found with the table before it. */
  lemma OneMoreChosen(data: seq<Byte>, quality: nat, ts: seq<Token>, t: Token, i: nat, after: seq<seq<nat>>)
    requires WellFormed(ts) && AllChosen(data, quality, ts) && i == |Expand(ts)| < |data| && t.Fits(i)
    requires var before := TableAfter(data, quality, ts);
             && after == (if i + 3 < |data| then Recorded(before, ChainIndex(data, i), i, quality) else before)
             && |after| == ZHASH && TokenChosen(data, i, before, after, t)
    ensures WellFormed(ts + [t]) && AllChosen(data, quality, ts + [t]) && TableAfter(data, quality, ts + [t]) == after
  {
    hide TokenChosen, Recorded, ChainIndex;
    assert (ts + [t])[..|ts|] == ts;
  }

  method EmitLiteral(data: seq<Byte>, i: nat, bs: Stream) returns (ghost t: Token)
    requires i < |data| && bs.Valid()
    modifies bs
    ensures bs.Valid() && bs.capacity >= old(bs.capacity) && t == Literal(data[i])
    ensures t.Fits(i) && t.Extend(data[..i]) == data[..i + 1]
    ensures bs.Contents() == old(bs.Contents()) + t.Bits(i)
  {
    bs.AddSymbol(data[i]);
    t := Literal(data[i]);
    assert data[..i] + [data[i]] == data[..i + 1];
  }

  /** Writes the bytes from position i on as one back reference or one literal. */
  method EmitToken(data: seq<Byte>, i: nat, best: nat, loc: Option<nat>, bs: Stream) returns (next: nat, ghost t: Token)
    requires i < |data| && bs.Valid()
    requires loc.Some? ==> loc.value < i && i - loc.value <= 32767 && 3 <= best == MatchLen(data, loc.value, i)
    modifies bs
    ensures i < next <= |data| && bs.Valid() && bs.capacity >= old(bs.capacity) && IsChoice(data, i, best, loc, t)
    ensures t.Fits(i) && t.Extend(data[..i]) == data[..next]
    ensures bs.Contents() == old(bs.Contents()) + t.Bits(i)
  {
    if loc.Some? {
      MatchIsText(data, loc.value, i);
      t := EmitMatch(bs, best, i - loc.value, i);
      next := i + best;
    } else {
      t := EmitLiteral(data, i, bs);
      next := i + 1;
    }
  }

  lemma AppendToken(ts: seq<Token>, t: Token, head: seq<bool>)
    requires WellFormed(ts) && t.Fits(|Expand(ts)|)
    ensures WellFormed(ts + [t]) && Expand(ts + [t]) == t.Extend(Expand(ts))
    ensures head + TokensBits(ts + [t]) == head + TokensBits(ts) + t.Bits(|Expand(ts)|)
  {
    assert (ts + [t])[..|ts|] == ts;
    var a, b := TokensBits(ts), t.Bits(|Expand(ts)|);
    assert TokensBits(ts + [t]) == a + b;
    Associate(head, a, b);
  }

  /** The tokens written so far stand for the first i bytes, and their bits follow head. */
  ghost predicate Written(bs: Stream, data: seq<Byte>, i: nat, ts: seq<Token>, head: seq<bool>)
    reads bs
  {
    && i <= |data| && bs.Valid()
    && WellFormed(ts) && Expand(ts) == data[..i]
    && bs.Contents() == head + TokensBits(ts)
  }

  /** The main loop: all but the last bytes, with the match finder. */
  method EncodeMatches(data: seq<Byte>, quality: nat, bs: Stream) returns (i: nat, ghost ts: seq<Token>)
    requires quality > 0 && bs.Valid()
    modifies bs
    ensures Written(bs, data, i, ts, old(bs.Contents())) && bs.capacity >= old(bs.capacity)
    ensures |data| <= i + 3 && AllChosen(data, quality, ts)
  {
    hide Chosen, Recorded, ChainIndex, TableAfter, AllChosen, IsChoice, TokenChosen;
    var table := new seq<nat>[ZHASH](_ => []);
    ghost var head := bs.Contents();
    i, ts := 0, [];
    assert head + [] == head;
    NoTokens(data, quality);
    assert table[..] == TableAfter(data, quality, []);
    while i + 3 < |data|
      invariant WellFormed(ts) && AllChosen(data, quality, ts) && table[..] == TableAfter(data, quality, ts)
      invariant fresh(table) && Chains(table[..], i, quality)
      invariant Written(bs, data, i, ts, head) && bs.capacity >= old(bs.capacity)
      decreases |data| - i
    {
      ghost var before := table[..];
      var best, loc := ChooseMatch(data, i, quality, table);
      ghost var chains := table[..];
      ChosenIsMatch(data, i, before, chains, best, loc);
      ghost var t;
      var next;
      next, t := EmitToken(data, i, best, loc, bs);
      ChoiceChosen(data, i, before, chains, best, loc, t);
      OneMoreChosen(data, quality, ts, t, i, chains);
      AppendToken(ts, t, head);
      ChainsLater(chains, i + 1, next, quality);
      assert table[..] == chains;
      ts := ts + [t];
      i := next;
    }
  }

  lemma NoTokens(data: seq<Byte>, quality: nat)
    ensures AllChosen(data, quality, []) && TableAfter(data, quality, []) == seq(ZHASH, _ => [])
  {
  }

  lemma ChoiceChosen(data: seq<Byte>, i: nat, before: seq<seq<nat>>, after: seq<seq<nat>>, best: nat, loc: Option<nat>,
      t: Token)
    requires i + 3 < |data| && |before| == |after| == ZHASH
    requires Chosen(data, i, before, after, best, loc) && IsChoice(data, i, best, loc, t)
    ensures TokenChosen(data, i, before, after, t)
  {
  }

  lemma LiteralChosen(data: seq<Byte>, i: nat, table: seq<seq<nat>>)
    requires i < |data| <= i + 3 && |table| == ZHASH
    ensures TokenChosen(data, i, table, table, Literal(data[i]))
  {
  }

  /** The whole input as the tokens of one fixed-code block, without its end-of-block symbol. */
  method EncodeTokens(data: seq<Byte>, quality: nat, bs: Stream) returns (ghost ts: seq<Token>)
    requires quality > 0 && bs.Valid()
    modifies bs
    ensures Written(bs, data, |data|, ts, old(bs.Contents())) && bs.capacity >= old(bs.capacity)
    ensures AllChosen(data, quality, ts)
  {
    hide TableAfter, AllChosen, TokenChosen, Recorded, ChainIndex;
    ghost var head := bs.Contents();
    var i;
    i, ts := EncodeMatches(data, quality, bs);
    while i < |data|
      invariant Written(bs, data, i, ts, head) && bs.capacity >= old(bs.capacity)
      invariant |data| <= i + 3 && AllChosen(data, quality, ts)
    {
      ghost var t := EmitLiteral(data, i, bs);
      LiteralChosen(data, i, TableAfter(data, quality, ts));
      OneMoreChosen(data, quality, ts, t, i, TableAfter(data, quality, ts));
      AppendToken(ts, t, head);
      ts := ts + [t];
      i := i + 1;
    }
  }

  /** The stored fallback, written over the compressed bytes in the allocation they already have. */
  method StoreInstead(data: seq<Byte>, bs: Stream)
    requires bs.BufferValid() && |bs.out| >= 2 && bs.out[..2] == HEADER
    requires bs.capacity > |data| + 2 + 5 * ((|data| + 32766) / 32767)
    modifies bs
    ensures bs.BufferValid() && bs.out == HEADER + Stored(data)
  {
    hide Stored;
    bs.Truncate(2);
    ghost var goal := HEADER + Stored(data);
    var j := 0;
    assert data[0..] == data;
    while j < |data|
      invariant j <= |data| && bs.BufferValid()
      invariant bs.out + Stored(data[j..]) == goal && bs.capacity > |goal|
    {
      var blocklen := |data| - j;
      if blocklen > 32767 { blocklen := 32767; }
      ghost var before := bs.out;
      PushHeader(bs, |data| - j == blocklen, blocklen);
      StoredStep(data[j..], blocklen, before);
      assert data[j..][..blocklen] == data[j..j + blocklen];
      assert data[j..][blocklen..] == data[j + blocklen..];
      assert bs.capacity > |goal| >= |bs.out| + blocklen;
      bs.CopyIn(data[j..j + blocklen]);
      j := j + blocklen;
    }
    assert data[j..] == [];
    StoredNothing();
    assert bs.out + [] == bs.out;
  }

  lemma StoredNothing()
    ensures Stored([]) == []
  {
  }

  lemma NotBytes(n: nat)
    requires n <= 0x7FFF
    ensures var inverse := -(n as int) - 1;
            inverse % 256 == (0xFFFF - n) % 256 && inverse / 256 % 256 == (0xFFFF - n) / 256
    ensures n / 256 % 256 == n / 256
  {
    var inverse := -(n as int) - 1;
    assert inverse == (0xFFFF - n) - 256 * 256;
  }

  /** The five bytes before a stored block's data: final flag, LEN, and NLEN as the complement of LEN. */
  method PushHeader(bs: Stream, last: bool, blocklen: nat)
    requires bs.BufferValid() && blocklen <= 0x7FFF
    modifies bs`out, bs`capacity
    ensures bs.BufferValid() && bs.capacity >= old(bs.capacity)
    ensures bs.out == old(bs.out) + StoredHead(last, blocklen)
  {
    var inverse := -(blocklen as int) - 1;
    NotBytes(blocklen);
    bs.Push(if last then 1 else 0);
    bs.Push(blocklen % 256);
    bs.Push(blocklen / 256 % 256);
    bs.Push(inverse % 256);
    bs.Push(inverse / 256 % 256);
  }

  lemma StoredUnfold(rest: seq<Byte>, n: nat)
    requires 0 < n <= |rest| && n == if |rest| > 32767 then 32767 else |rest|
    ensures Stored(rest) == StoredBytes(|rest| == n, rest[..n]) + Stored(rest[n..])
  {
    if n == |rest| {
      assert rest[..n] == rest && rest[n..] == [];
      assert StoredBytes(true, rest) + [] == StoredBytes(true, rest);
    }
  }

  lemma StoredStep(rest: seq<Byte>, n: nat, before: seq<Byte>)
    requires 0 < n <= |rest| && n == if |rest| > 32767 then 32767 else |rest|
    ensures before + Stored(rest) == before + StoredHead(|rest| == n, n) + rest[..n] + Stored(rest[n..])
  {
    StoredUnfold(rest, n);
    var head := StoredHead(|rest| == n, n);
    Associate(before, head + rest[..n], Stored(rest[n..]));
    Associate(before, head, rest[..n]);
  }

  /** The size the format guarantees: the stored form, with its header and checksum. */
  function MaxSize(n: nat): nat {
    n + 6 + 5 * ((n + 32766) / 32767)
  }

  lemma SameParts<T>(a: seq<T>, b: seq<T>, c: seq<T>, d: seq<T>)
    requires a + b == c + d && |a| == |c|
    ensures a == c && b == d
  {
    assert a == (a + b)[..|a|] == c;
    assert b == (a + b)[|a|..] == d;
  }

  lemma SplitPrefix(out: seq<Byte>, head: seq<Byte>, bits: seq<bool>)
    requires BitsOf(out) == BitsOf(head) + bits
    ensures |out| >= |head| && out == head + out[|head|..] && BitsOf(out[|head|..]) == bits
  {
    hide BitsOf, BytesOf;
    var headBits := BitsOf(head);
    assert |headBits + bits| == |headBits| + |bits|;
    var first, rest := out[..|head|], out[|head|..];
    assert out == first + rest;
    BitsOfConcat(first, rest);
    SameParts(BitsOf(first), BitsOf(rest), BitsOf(head), bits);
    BytesOfBitsOf(first);
    BytesOfBitsOf(head);
  }

  /** Header bytes, then BFINAL = 1 and BTYPE = 1. */
  method StartBlock(bs: Stream)
    requires bs.Valid() && bs.out == [] && bs.bitcount == 0
    modifies bs
    ensures bs.Valid() && bs.Contents() == BitsOf(HEADER) + ([true] + LsbBits(1, 2))
  {
    hide BitsOf, LsbBits, Pow2;
    bs.Push(0x78);
    bs.Push(0x5e);
    assert bs.out == HEADER;
    ghost var head := BitsOf(HEADER);
    assert bs.Contents() == head + [] == head;
    SmallFields();
    bs.Add(1, 1);
    bs.Add(1, 2);
    Associate(head, [true], LsbBits(1, 2));
  }

  lemma SmallFields()
    ensures 1 < Pow2(1) && 1 < Pow2(2) && LsbBits(1, 1) == [true]
  {
    Pow2Values();
    assert LsbBits(1, 1) == [true] + LsbBits(0, 0);
  }

  /** The bytes of one final block with the fixed codes (BFINAL = 1, BTYPE = 1): the tokens chosen, the end of the
      block, and zero bits up to the next byte. */
  ghost predicate FixedForm(data: seq<Byte>, quality: nat, body: seq<Byte>) {
    exists ts, pad ::
      && WellFormed(ts) && Expand(ts) == data && AllChosen(data, quality, ts)
      && |pad| < 8 && (forall i :: 0 <= i < |pad| ==> !pad[i])
      && BitsOf(body) == BlockOfTokens(ts, pad)
  }

  function BlockOfTokens(ts: seq<Token>, pad: seq<bool>): seq<bool>
    requires WellFormed(ts)
  {
    [true] + LsbBits(1, 2) + TokensBits(ts) + SymbolBits(256) + pad
  }

  /** The fixed-code form: header, one final block, padding. */
  method CompressFixed(data: seq<Byte>, quality: nat, bs: Stream) returns (ghost body: seq<Byte>)
    requires quality > 0 && bs.Valid() && bs.out == [] && bs.bitcount == 0
    modifies bs
    ensures bs.BufferValid() && bs.out == HEADER + body && |body| >= 2 && FixedForm(data, quality, body)
    ensures Decompress(HEADER + (body + AdlerBytes(data))) == Some(data)
  {
    ghost var head, flags := BitsOf(HEADER), [true] + LsbBits(1, 2);
    StartBlock(bs);
    ghost var ts := EncodeTokens(data, quality, bs);
    assert data[..|data|] == data;
    bs.AddSymbol(256);
    ghost var pad := bs.Pad();
    ghost var bits := flags + TokensBits(ts) + SymbolBits(256) + pad;
    Associate4(head, flags, TokensBits(ts), SymbolBits(256), pad);
    SplitPrefix(bs.out, HEADER, bits);
    body := bs.out[2..];
    assert |SymbolBits(256)| == 7;
    assert 8 * |body| == |bits| >= 10;
    assert FixedForm(data, quality, body) by { assert bits == BlockOfTokens(ts, pad); }
    FixedStreamDecodes(body, ts, pad);
  }

  method AppendChecksum(data: seq<Byte>, bs: Stream)
    requires bs.BufferValid()
    modifies bs
    ensures bs.out == old(bs.out) + AdlerBytes(data)
  {
    hide AdlerA, AdlerB;
    var s1, s2 := Adler32(data);
    HighByte(s1);
    HighByte(s2);
    bs.Push(s2 / 256 % 256);
    bs.Push(s2 % 256);
    bs.Push(s1 / 256 % 256);
    bs.Push(s1 % 256);
  }

  lemma HighByte(s: nat)
    requires s < 0x1_0000
    ensures s / 256 % 256 == s / 256
  {
  }

  lemma StoredVerdict(data: seq<Byte>)
    ensures Decompress(HEADER + (Stored(data) + AdlerBytes(data))) == Some(data) <==> data != []
  {
    if data == [] {
      EmptyStreamFails();
    } else {
      StoredStreamDecodes(data);
    }
  }

  /** The result for a fixed-code form: that form, or the stored one when it is longer than that would be. */
  function Packed(data: seq<Byte>, body: seq<Byte>): seq<Byte> {
    HEADER + (if 2 + |body| > |data| + 2 + (|data| + 32766) / 32767 * 5 then Stored(data) else body) + AdlerBytes(data)
  }

  /** `stbi_zlib_compress`. Any quality below 5 counts as 5. The stream is a valid encoding of
      the data in all cases but one: for no data at all the fallback writes no block. */
  method Compress(data: seq<Byte>, quality: int) returns (z: seq<Byte>)
    ensures Decompress(z) == Some(data) <==> data != []
    ensures |z| <= MaxSize(|data|)
    ensures exists body :: FixedForm(data, if quality < 5 then 5 else quality, body) && z == Packed(data, body)
  {
    hide FixedForm;
    var bs := new Stream();
    ghost var fixed := CompressFixed(data, if quality < 5 then 5 else quality, bs);
    ghost var body := fixed;
    if |bs.out| > |data| + 2 + (|data| + 32766) / 32767 * 5 {
      StoreInstead(data, bs);
      body := Stored(data);
      StoredVerdict(data);
    }
    AppendChecksum(data, bs);
    z := bs.out;
    Associate(HEADER, body, AdlerBytes(data));
    assert z == Packed(data, fixed);
  }
}
