/** The per-pixel dither decision of snag/snag_nochunking.c:489-510: the
    method is chosen by comparing the configured name with "2x2", "3x3",
    "4x4", "8x8" and "16x16"; any other name uses the fixed threshold 140. */
module SnagDither {
  import opened Bayer

  datatype Method = Bayer2x2 | Bayer3x3 | Bayer4x4 | Bayer8x8 | Bayer16x16 | Fixed

  /** The cut-off used when the name matches no table. */
  const FIXED_THRESHOLD: int := 140

  /** Width of the destination panel, the divisor of `pixel % 400`. */
  const WIDTH: nat := 400

  /** Pixels per frame: the loop bound `pixel < 96000` (400 x 240). */
  const PIXELS: nat := 96000

  /** The `strcmp` chain selecting the method. */
  function MethodOf(name: string): (m: Method)
    ensures m == Bayer2x2 <==> name == "2x2"
    ensures m == Bayer3x3 <==> name == "3x3"
    ensures m == Bayer4x4 <==> name == "4x4"
    ensures m == Bayer8x8 <==> name == "8x8"
    ensures m == Bayer16x16 <==> name == "16x16"
    ensures m == Fixed <==> name !in {"2x2", "3x3", "4x4", "8x8", "16x16"}
  {
    if name == "2x2" then Bayer2x2
    else if name == "3x3" then Bayer3x3
    else if name == "4x4" then Bayer4x4
    else if name == "8x8" then Bayer8x8
    else if name == "16x16" then Bayer16x16
    else Fixed
  }

  /** Side length of the method's table. */
  function Size(m: Method): (n: nat)
    requires m != Fixed
    ensures Square(Table(m), n)
  {
    TablesAreSquare();
    match m
    case Bayer2x2 => 2
    case Bayer3x3 => 3
    case Bayer4x4 => 4
    case Bayer8x8 => 8
    case Bayer16x16 => 16
  }

  function Table(m: Method): seq<seq<Level>>
    requires m != Fixed
  {
    match m
    case Bayer2x2 => BAYER2X2
    case Bayer3x3 => BAYER3X3
    case Bayer4x4 => BAYER4X4
    case Bayer8x8 => BAYER8X8
    case Bayer16x16 => BAYER16X16
  }

  /** `uint8_t col = pixel % 400`: the column, truncated to 8 bits. */
  function Column(pixel: nat): (c: nat)
    ensures c < 256
    ensures (pixel % WIDTH - c) % 256 == 0
  {
    (pixel % WIDTH) % 256
  }

  /** `uint8_t row = pixel / 400`: the row, truncated to 8 bits. */
  function Row(pixel: nat): (r: nat)
    ensures r < 256
    ensures (pixel / WIDTH - r) % 256 == 0
  {
    (pixel / WIDTH) % 256
  }

  /** The threshold compared with the gray value at (row, col). */
  function ThresholdAt(m: Method, row: nat, col: nat): (t: int)
    ensures 0 <= t <= 254
    ensures m == Fixed ==> t == FIXED_THRESHOLD
  {
    if m == Fixed then FIXED_THRESHOLD
    else
      var n := Size(m);
      Table(m)[row % n][col % n]
  }

  /** `newbit = (grayscale < T ? 0 : 1)`: a tie with the threshold gives 1. */
  function NewBit(m: Method, gray: int, pixel: nat): (b: bv8)
    requires 0 <= gray <= 255
    ensures b == 0 || b == 1
    ensures b == 1 <==> gray >= ThresholdAt(m, Row(pixel), Column(pixel))
  {
    if gray < ThresholdAt(m, Row(pixel), Column(pixel)) then 0 else 1
  }

  /** For a fixed method and position, raising the gray value never turns a
      1 into a 0. */
  lemma NewBitMonotone(m: Method, g1: int, g2: int, pixel: nat)
    requires 0 <= g1 <= g2 <= 255
    ensures NewBit(m, g1, pixel) == 1 ==> NewBit(m, g2, pixel) == 1
  {
  }

  /** Full white gives 1 at every position, for every method. */
  lemma WhiteIsAllOnes(m: Method, pixel: nat)
    ensures NewBit(m, 255, pixel) == 1
  {
  }

  /** Full black gives 1 exactly where the table entry is 0: at the top-left
      cell of each 8x8 or 16x16 tile, and nowhere for the other methods. */
  lemma BlackOnlyAtZeroEntries(m: Method, pixel: nat)
    ensures NewBit(m, 0, pixel) == 1 <==>
      (m == Bayer8x8 || m == Bayer16x16) && Row(pixel) % Size(m) == 0 && Column(pixel) % Size(m) == 0
  {
    ZeroEntries();
    TablesAreSquare();
  }

  /** The 0 entry of the 8x8 and 16x16 tables makes pixel 0 white at every
      gray, so under those methods no gray value gives an all-black
      pattern: 8x8 reaches 64 patterns, not the 65 levels its comment
      names. */
  lemma ZeroEntryNeverBlack(m: Method, gray: int)
    requires m == Bayer8x8 || m == Bayer16x16
    requires 0 <= gray <= 255
    ensures NewBit(m, gray, 0) == 1
  {
    assert ThresholdAt(m, Row(0), Column(0)) == 0;
  }

  /** Truncating the row and column to 8 bits keeps their residues modulo
      any n that divides 256. */
  lemma TruncationKeepsResidue(pixel: nat, n: nat)
    requires pixel < PIXELS
    requires n == 2 || n == 4 || n == 8 || n == 16
    ensures Column(pixel) % n == (pixel % WIDTH) % n
    ensures Row(pixel) % n == (pixel / WIDTH) % n
  {
    ResidueOfTruncation(pixel % WIDTH, n);
    ResidueOfTruncation(pixel / WIDTH, n);
  }

  /** `(x % 256) % n == x % n` when n divides 256, for x below 512 (the
      column is below 400 and the row below 240). */
  lemma ResidueOfTruncation(x: nat, n: nat)
    requires x < 512
    requires n == 2 || n == 4 || n == 8 || n == 16
    ensures (x % 256) % n == x % n
  {
    if x >= 256 {
      var y := x - 256;
      assert x % 256 == y;
      if n == 2 {
        assert y % 2 == x % 2;
      } else if n == 4 {
        assert y % 4 == x % 4;
      } else if n == 8 {
        assert y % 8 == x % 8;
      } else {
        assert y % 16 == x % 16;
      }
    }
  }

  /** For the 2x2, 4x4, 8x8 and 16x16 methods the bit depends only on the
      true row and the true column modulo the table size, so the pattern
      repeats every n rows and every n columns despite the truncation. */
  lemma NewBitPeriodic(m: Method, gray: int, p: nat, q: nat)
    requires m == Bayer2x2 || m == Bayer4x4 || m == Bayer8x8 || m == Bayer16x16
    requires 0 <= gray <= 255
    requires p < PIXELS && q < PIXELS
    requires (p / WIDTH) % Size(m) == (q / WIDTH) % Size(m)
    requires (p % WIDTH) % Size(m) == (q % WIDTH) % Size(m)
    ensures NewBit(m, gray, p) == NewBit(m, gray, q)
  {
    TruncationKeepsResidue(p, Size(m));
    TruncationKeepsResidue(q, Size(m));
  }

  /** The 3x3 method does not have that property: pixels 3 and 258 lie in
      row 0 at columns 3 and 258, both divisible by 3, yet column 258 is
      truncated to 2 and a gray of 100 gives different bits. */
  lemma ThreeByThreeBreaksAtTruncation()
    ensures (3 / WIDTH) % 3 == (258 / WIDTH) % 3 && (3 % WIDTH) % 3 == (258 % WIDTH) % 3
    ensures NewBit(Bayer3x3, 100, 3) == 1 && NewBit(Bayer3x3, 100, 258) == 0
  {
    assert Column(258) == 2;
  }
}
