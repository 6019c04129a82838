/** The ordered-dither threshold tables of snag/snag_nochunking.c:73-127 and
    the facts about them that the dither relies on. */
module Bayer {

  /** A table entry.  Every entry the source lists lies in [0, 254]; the
      bound is checked entry by entry when the constants are declared. */
  type Level = v: int | 0 <= v <= 254

  /** 2x2 table, "Color levels: 5". */
  const BAYER2X2: seq<seq<Level>> := [
    [ 51, 206],
    [153, 102]]

  /** 3x3 table, "Color levels: 10" (the commented-out alternative rows are
      not part of the program). */
  const BAYER3X3: seq<seq<Level>> := [
    [ 75, 150, 225],
    [ 50, 125, 200],
    [ 25, 100, 175]]

  /** 4x4 table, "Color levels: 17". */
  const BAYER4X4: seq<seq<Level>> := [
    [ 15, 195,  60, 240],
    [135,  75, 180, 120],
    [ 45, 225,  30, 210],
    [165, 105, 150,  90]]

  /** 8x8 table, "Color levels: 65". */
  const BAYER8X8: seq<seq<Level>> := [
    [  0, 128,  32, 160,   8, 136,  40, 168],
    [192,  64, 224,  96, 200,  72, 232, 104],
    [ 48, 176,  16, 144,  56, 184,  24, 152],
    [240, 112, 208,  80, 248, 120, 216,  88],
    [ 12, 140,  44, 172,   4, 132,  36, 164],
    [204,  76, 236, 108, 196,  68, 228, 100],
    [ 60, 188,  28, 156,  52, 180,  20, 148],
    [252, 124, 220,  92, 244, 116, 212,  84]]

  /** 16x16 table, "Color levels: 256". */
  const BAYER16X16: seq<seq<Level>> := [
    [  0, 191,  48, 239,  12, 203,  60, 251,   3, 194,  51, 242,  15, 206,  63, 254],
    [127,  64, 175, 112, 139,  76, 187, 124, 130,  67, 178, 115, 142,  79, 190, 127],
    [ 32, 223,  16, 207,  44, 235,  28, 219,  35, 226,  19, 210,  47, 238,  31, 222],
    [159,  96, 143,  80, 171, 108, 155,  92, 162,  99, 146,  83, 174, 111, 158,  95],
    [  8, 199,  56, 247,   4, 195,  52, 243,  11, 202,  59, 250,   7, 198,  55, 246],
    [135,  72, 183, 120, 131,  68, 179, 116, 138,  75, 186, 123, 134,  71, 182, 119],
    [ 40, 231,  24, 215,  36, 227,  20, 211,  43, 234,  27, 218,  39, 230,  23, 214],
    [167, 104, 151,  88, 163, 100, 147,  84, 170, 107, 154,  91, 166, 103, 150,  87],
    [  2, 193,  50, 241,  14, 205,  62, 253,   1, 192,  49, 240,  13, 204,  61, 252],
    [129,  66, 177, 114, 141,  78, 189, 126, 128,  65, 176, 113, 140,  77, 188, 125],
    [ 34, 225,  18, 209,  46, 237,  30, 221,  33, 224,  17, 208,  45, 236,  29, 220],
    [161,  98, 145,  82, 173, 110, 157,  94, 160,  97, 144,  81, 172, 109, 156,  93],
    [ 10, 201,  58, 249,   6, 197,  54, 245,   9, 200,  57, 248,   5, 196,  53, 244],
    [137,  74, 185, 122, 133,  70, 181, 118, 136,  73, 184, 121, 132,  69, 180, 117],
    [ 42, 233,  26, 217,  38, 229,  22, 213,  41, 232,  25, 216,  37, 228,  21, 212],
    [169, 106, 153,  90, 165, 102, 149,  86, 168, 105, 152,  89, 164, 101, 148,  85]]

  /** `t` is an n-by-n table. */
  predicate Square(t: seq<seq<Level>>, n: nat)
  {
    |t| == n && forall i :: 0 <= i < n ==> |t[i]| == n
  }

  /** No value occurs at two positions of the n-by-n table `t`.  For a table
      with no 0 entry this gives n*n + 1 distinct dither patterns over gray
      0..255; a 0 entry is 1 at every gray, so the all-black pattern is then
      out of reach. */
  ghost predicate DistinctEntries(t: seq<seq<Level>>, n: nat)
    requires Square(t, n)
  {
    forall i1, j1, i2, j2 ::
      0 <= i1 < n && 0 <= j1 < n && 0 <= i2 < n && 0 <= j2 < n && t[i1][j1] == t[i2][j2]
      ==> i1 == i2 && j1 == j2
  }

  lemma TablesAreSquare()
    ensures Square(BAYER2X2, 2) && Square(BAYER3X3, 3) && Square(BAYER4X4, 4)
    ensures Square(BAYER8X8, 8) && Square(BAYER16X16, 16)
  {
  }

  lemma SmallTablesDistinct()
    ensures Square(BAYER2X2, 2) && DistinctEntries(BAYER2X2, 2)
    ensures Square(BAYER3X3, 3) && DistinctEntries(BAYER3X3, 3)
    ensures Square(BAYER4X4, 4) && DistinctEntries(BAYER4X4, 4)
  {
  }

  /** Which 4x4 quadrant of the 8x8 table an entry lies in, as read off
      `entry % 16`. */
  function QuadrantKey(qi: int, qj: int): int
  {
    4 * qi + (if qi == qj then 0 else 8)
  }

  lemma QuadrantKeyInjective(a1: int, b1: int, a2: int, b2: int)
    requires 0 <= a1 < 2 && 0 <= b1 < 2 && 0 <= a2 < 2 && 0 <= b2 < 2
    requires QuadrantKey(a1, b1) == QuadrantKey(a2, b2)
    ensures a1 == a2 && b1 == b2
  {
  }

  /** Entries of the 8x8 table, taken modulo 16, identify their quadrant. */
  lemma Residue8()
    ensures forall i, j :: 0 <= i < 8 && 0 <= j < 8 ==> BAYER8X8[i][j] % 16 == QuadrantKey(i / 4, j / 4)
  {
  }

  /** No value occurs twice within the 4x4 block of `t` whose top-left
      corner is (r, c). */
  ghost predicate BlockDistinct(t: seq<seq<Level>>, r: nat, c: nat)
    requires Square(t, 8) && r <= 4 && c <= 4
  {
    forall i1, j1, i2, j2 ::
      r <= i1 < r + 4 && c <= j1 < c + 4 && r <= i2 < r + 4 && c <= j2 < c + 4 && t[i1][j1] == t[i2][j2]
      ==> i1 == i2 && j1 == j2
  }

  lemma Quadrant8TopLeft()
    ensures Square(BAYER8X8, 8) && BlockDistinct(BAYER8X8, 0, 0)
  {
  }

  lemma Quadrant8TopRight()
    ensures Square(BAYER8X8, 8) && BlockDistinct(BAYER8X8, 0, 4)
  {
  }

  lemma Quadrant8BottomLeft()
    ensures Square(BAYER8X8, 8) && BlockDistinct(BAYER8X8, 4, 0)
  {
  }

  lemma Quadrant8BottomRight()
    ensures Square(BAYER8X8, 8) && BlockDistinct(BAYER8X8, 4, 4)
  {
  }

  /** Two equal entries in one quadrant of an 8x8 table whose quadrants are
      internally distinct sit at the same position. */
  lemma SameQuadrantSamePosition(t: seq<seq<Level>>, i1: nat, j1: nat, i2: nat, j2: nat)
    requires Square(t, 8)
    requires BlockDistinct(t, 0, 0) && BlockDistinct(t, 0, 4)
    requires BlockDistinct(t, 4, 0) && BlockDistinct(t, 4, 4)
    requires i1 < 8 && j1 < 8 && i2 < 8 && j2 < 8
    requires i1 / 4 == i2 / 4 && j1 / 4 == j2 / 4
    requires t[i1][j1] == t[i2][j2]
    ensures i1 == i2 && j1 == j2
  {
    var r, c := 4 * (i1 / 4), 4 * (j1 / 4);
    assert r <= i1 < r + 4 && r <= i2 < r + 4;
    assert c <= j1 < c + 4 && c <= j2 < c + 4;
    assert BlockDistinct(t, r, c);
  }

  /** An 8x8 table whose entries identify their quadrant modulo 16 and are
      distinct within each quadrant has distinct entries. */
  lemma DistinctFromQuadrants(t: seq<seq<Level>>)
    requires Square(t, 8)
    requires forall i, j :: 0 <= i < 8 && 0 <= j < 8 ==> t[i][j] % 16 == QuadrantKey(i / 4, j / 4)
    requires BlockDistinct(t, 0, 0) && BlockDistinct(t, 0, 4)
    requires BlockDistinct(t, 4, 0) && BlockDistinct(t, 4, 4)
    ensures DistinctEntries(t, 8)
  {
    forall i1, j1, i2, j2 |
      0 <= i1 < 8 && 0 <= j1 < 8 && 0 <= i2 < 8 && 0 <= j2 < 8 && t[i1][j1] == t[i2][j2]
      ensures i1 == i2 && j1 == j2
    {
      QuadrantKeyInjective(i1 / 4, j1 / 4, i2 / 4, j2 / 4);
      SameQuadrantSamePosition(t, i1, j1, i2, j2);
    }
  }

  /** The 64 entries of the 8x8 table are pairwise distinct: equal entries
      share a residue, hence a quadrant, and are distinct within it. */
  lemma Table8Distinct()
    ensures Square(BAYER8X8, 8) && DistinctEntries(BAYER8X8, 8)
  {
    Residue8();
    Quadrant8TopLeft();
    Quadrant8TopRight();
    Quadrant8BottomLeft();
    Quadrant8BottomRight();
    DistinctFromQuadrants(BAYER8X8);
  }

  /** The 16x16 table does not have distinct entries: 127 occurs twice in
      its second row, so it cannot give the 256 levels its comment claims. */
  lemma Table16HasDuplicate()
    ensures Square(BAYER16X16, 16) && !DistinctEntries(BAYER16X16, 16)
  {
    assert BAYER16X16[1][0] == BAYER16X16[1][15] == 127;
  }

  /** Where the tables hold 0: only the top-left entry of the 8x8 and 16x16
      tables; the 2x2, 3x3 and 4x4 tables have no zero entry. */
  lemma ZeroEntries()
    ensures forall i, j :: 0 <= i < 2 && 0 <= j < 2 ==> BAYER2X2[i][j] != 0
    ensures forall i, j :: 0 <= i < 3 && 0 <= j < 3 ==> BAYER3X3[i][j] != 0
    ensures forall i, j :: 0 <= i < 4 && 0 <= j < 4 ==> BAYER4X4[i][j] != 0
    ensures forall i, j :: 0 <= i < 8 && 0 <= j < 8 ==> (BAYER8X8[i][j] == 0 <==> i == 0 && j == 0)
    ensures forall i, j :: 0 <= i < 16 && 0 <= j < 16 ==> (BAYER16X16[i][j] == 0 <==> i == 0 && j == 0)
  {
  }
}
