/** The compressor's Adler-32: sums kept in 32-bit registers and reduced once per 5552 bytes. */
module Adler {
  import opened Bits
  import opened Inflate

  const BASE := 65521
  const BLOCK := 5552
  const WORD := 0x1_0000_0000

  /** The largest value the second sum can reach after i bytes of a block. */
  function Peak(i: nat): nat {
    if i == 0 then BASE - 1 else Peak(i - 1) + (BASE - 1) + 255 * i
  }

  lemma {:induction false} PeakClosed(i: nat)
    ensures 2 * Peak(i) == 2 * (BASE - 1) * (i + 1) + 255 * i * (i + 1)
  {
    if i != 0 {
      PeakClosed(i - 1);
      assert 255 * (i - 1) * i + 2 * 255 * i == 255 * i * (i + 1);
    }
  }

  lemma {:induction false} PeakMonotone(i: nat, j: nat)
    requires i <= j
    ensures Peak(i) <= Peak(j)
    decreases j - i
  {
    if i < j {
      PeakMonotone(i + 1, j);
    }
  }

  /** The block size is exactly small enough: no sum over one block leaves 32 bits. */
  lemma PeakFits(i: nat)
    requires i <= BLOCK
    ensures Peak(i) < WORD
  {
    PeakClosed(BLOCK);
    PeakMonotone(i, BLOCK);
  }

  lemma SumMod(x: nat, y: nat)
    ensures (x + y) % BASE == (x % BASE + y % BASE) % BASE == (x % BASE + y) % BASE
  {
  }

  lemma AdlerStep(data: seq<Byte>, k: nat, s1: nat, s2: nat)
    requires k < |data| && s1 % BASE == AdlerA(data[..k]) && s2 % BASE == AdlerB(data[..k])
    ensures (s1 + data[k]) % BASE == AdlerA(data[..k + 1])
    ensures (s2 + (s1 + data[k])) % BASE == AdlerB(data[..k + 1])
  {
    assert data[..k + 1][..k] == data[..k];
    SumMod(s1, data[k]);
    SumMod(s2, s1 + data[k]);
  }

  lemma NoWrap(x: nat)
    requires x < WORD
    ensures x % WORD == x
  {
  }

  /** The sums over data[j..j+n], taken without reducing them. */
  method SumBlock(data: seq<Byte>, j: nat, n: nat, a: nat, b: nat) returns (s1: nat, s2: nat)
    requires j + n <= |data| && n <= BLOCK
    requires a == AdlerA(data[..j]) && b == AdlerB(data[..j])
    ensures s1 % BASE == AdlerA(data[..j + n]) && s2 % BASE == AdlerB(data[..j + n])
  {
    s1, s2 := a, b;
    for i := 0 to n
      invariant s1 % BASE == AdlerA(data[..j + i]) && s2 % BASE == AdlerB(data[..j + i])
      invariant s1 <= BASE - 1 + 255 * i && s2 <= Peak(i)
    {
      PeakFits(i + 1);
      AdlerStep(data, j + i, s1, s2);
      NoWrap(s1 + data[j + i]);
      NoWrap(s2 + (s1 + data[j + i]));
      assert data[..j + i + 1] == data[..j + (i + 1)];
      s1 := (s1 + data[j + i]) % WORD;
      s2 := (s2 + s1) % WORD;
    }
  }

  /** The checksum loop, with its short block first. */
  method Adler32(data: seq<Byte>) returns (s1: nat, s2: nat)
    ensures s1 == AdlerA(data) && s2 == AdlerB(data)
  {
    s1, s2 := 1, 0;
    var j, blocklen := 0, |data| % BLOCK;
    while j < |data|
      invariant j <= |data|
      invariant (j == 0 && blocklen == |data| % BLOCK) || (blocklen == BLOCK && (|data| - j) % BLOCK == 0)
      invariant s1 == AdlerA(data[..j]) && s2 == AdlerB(data[..j])
      decreases |data| - j, if blocklen == 0 then 1 else 0
    {
      s1, s2 := SumBlock(data, j, blocklen, s1, s2);
      s1 := s1 % BASE;
      s2 := s2 % BASE;
      j := j + blocklen;
      blocklen := BLOCK;
    }
    assert data[..j] == data;
  }
}
