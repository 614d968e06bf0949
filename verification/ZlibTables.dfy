/** The compressor's length and distance tables, and that they are the standard's. */
module ZlibTables {
  import opened Bits
  import opened Inflate

  const LENGTHC: seq<nat> := [
    3, 4, 5, 6, 7, 8, 9, 10, 11, 13, 15, 17, 19, 23, 27, 31, 35, 43, 51, 59, 67, 83, 99, 115, 131, 163, 195, 227,
    258, 259]
  const LENGTHEB: seq<nat> := [
    0, 0, 0, 0, 0, 0, 0, 0, 1, 1, 1, 1, 2, 2, 2, 2, 3, 3, 3, 3, 4, 4, 4, 4, 5, 5, 5, 5, 0]
  const DISTC: seq<nat> := [
    1, 2, 3, 4, 5, 7, 9, 13, 17, 25, 33, 49, 65, 97, 129, 193, 257, 385, 513, 769, 1025, 1537, 2049, 3073, 4097, 6145,
    8193, 12289, 16385, 24577, 32768]
  const DISTEB: seq<nat> := [
    0, 0, 0, 0, 1, 1, 2, 2, 3, 3, 4, 4, 5, 5, 6, 6, 7, 7, 8, 8, 9, 9, 10, 10, 11, 11, 12, 12, 13, 13]

  // The tables, row by row: within a row of equal extra bits the bases are equally spaced.

  const POWERS: seq<nat> := [1, 2, 4, 8, 16, 32, 64, 128, 256, 512, 1024, 2048, 4096, 8192]

  lemma PowersTable(e: nat)
    requires e <= 13
    ensures POWERS[e] == Pow2(e)
  {
    Pow2Values();
  }

  lemma LengthRow(e: nat, m: nat)
    requires 1 <= e <= 5 && m <= 4 && (e < 5 || m < 4)
    ensures LENGTHC[4 * e + 4 + m] == 3 + (4 + m) * POWERS[e]
  {
  }

  lemma LengthGap(j: nat)
    requires j <= 28
    ensures LENGTHC[j + 1] <= LENGTHC[j] + POWERS[LengthExtra(257 + j)]
  {
    if 8 <= j < 27 {
      var e, m := (j - 4) / 4, (j - 4) % 4;
      LengthRow(e, m);
      LengthRow(e, m + 1);
    }
  }

  lemma LengthExtraTable(j: nat)
    requires j <= 28
    ensures LENGTHEB[j] == LengthExtra(257 + j)
  {
  }

  lemma LengthBaseTable(j: nat)
    requires j <= 28
    ensures LENGTHC[j] == LengthBase(257 + j)
  {
    if 8 <= j < 28 {
      var e, m := (j - 4) / 4, (j - 4) % 4;
      LengthRow(e, m);
      PowersTable(e);
    }
  }

  /** The encoder's length tables are the standard's, and consecutive ranges leave no gap. */
  lemma LengthTable(j: nat)
    requires j <= 28
    ensures LENGTHC[j] == LengthBase(257 + j) && LENGTHEB[j] == LengthExtra(257 + j)
    ensures LENGTHC[j + 1] <= LENGTHC[j] + Pow2(LENGTHEB[j])
  {
    LengthBaseTable(j);
    LengthExtraTable(j);
    LengthGap(j);
    PowersTable(LENGTHEB[j]);
  }

  lemma DistRow(e: nat, m: nat)
    requires 1 <= e <= 13 && m < 2
    ensures DISTC[2 * e + 2 + m] == 1 + (2 + m) * POWERS[e]
  {
  }

  lemma DistRangesMeet(c: nat)
    requires c >= 4
    ensures DistBase(c + 1) == DistBase(c) + Pow2(DistExtra(c))
  {
    var p := Pow2(DistExtra(c));
    if c % 2 == 0 {
      assert DistExtra(c + 1) == DistExtra(c);
    } else {
      assert DistExtra(c + 1) == DistExtra(c) + 1;
    }
  }

  lemma DistExtraTable(j: nat)
    requires j <= 29
    ensures DISTEB[j] == DistExtra(j)
  {
  }

  lemma DistBaseTable(j: nat)
    requires j <= 29
    ensures DISTC[j] == DistBase(j)
  {
    if j >= 4 {
      var e, m := j / 2 - 1, j % 2;
      DistRow(e, m);
      PowersTable(e);
    }
  }

  /** The encoder's distance tables are the standard's, and consecutive ranges leave no gap. */
  lemma DistTable(j: nat)
    requires j <= 29
    ensures DISTC[j] == DistBase(j) && DISTEB[j] == DistExtra(j)
    ensures DISTC[j + 1] <= DISTC[j] + Pow2(DISTEB[j])
  {
    DistExtraTable(j);
    DistBaseTable(j);
    if 4 <= j < 29 {
      DistBaseTable(j + 1);
      DistRangesMeet(j);
    } else {
      assert DISTC[30] == 32768;
      PowersTable(DISTEB[j]);
    }
  }
}
