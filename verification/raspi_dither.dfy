/** The five-band 2x2 dither of raspi2fb/raspi2fb.c (421-465).  The gray
    value selects a band; inside the two middle-dark bands the parity of the
    column and of the shifted row decide between black (0) and white (255). */
module RaspiDither {

  import SnagDither

  /** The panel is 400 pixels wide in both variants. */
  const WIDTH: nat := SnagDither.WIDTH

  /** `uint8_t row = pixel / 400 + 1`: the row is counted from 1 and
      truncated to 8 bits. */
  function Row(pixel: nat): (r: nat)
    ensures r < 256
    ensures (pixel / WIDTH + 1 - r) % 256 == 0
  {
    (pixel / WIDTH + 1) % 256
  }

  /** `colMod = column % 2`, where `uint8_t column = pixel % 400` is the
      same truncated column as in snag. */
  function ColMod(pixel: nat): (m: nat)
    ensures m < 2
  {
    SnagDither.Column(pixel) % 2
  }

  /** `rowMod = row % 2`. */
  function RowMod(pixel: nat): (m: nat)
    ensures m < 2
  {
    Row(pixel) % 2
  }

  lemma Mod256KeepsParity(x: nat)
    ensures (x % 256) % 2 == x % 2
  {
    var q := x / 256;
    assert x == 2 * (128 * q) + x % 256;
  }

  /** Counting rows from 1 flips their parity, and the truncation to 8 bits
      keeps it. */
  lemma ShiftedRowParity(r: nat)
    ensures ((r + 1) % 256) % 2 == 1 <==> r % 2 == 0
  {
    Mod256KeepsParity(r + 1);
  }

  /** The 8-bit truncations never change a parity: the column parity is the
      true column's, and because the row is counted from 1 the row parity
      is 1 on true rows 0, 2, 4, ... */
  lemma ParityOfPosition(pixel: nat)
    ensures ColMod(pixel) == (pixel % WIDTH) % 2
    ensures RowMod(pixel) == 1 <==> (pixel / WIDTH) % 2 == 0
  {
    var c, r := pixel % WIDTH, pixel / WIDTH;
    Mod256KeepsParity(c);
    ShiftedRowParity(r);
    assert ColMod(pixel) == (c % 256) % 2;
    assert RowMod(pixel) == ((r + 1) % 256) % 2;
  }

  /** Which of the five gray bands the ladder selects: 0 black, 1 dark,
      2 midtone, 3 light, 4 white. */
  function Band(gray: int): (k: nat)
    ensures k <= 4
    ensures k == 0 <==> gray <= 60
    ensures k == 4 <==> gray > 194
  {
    if gray <= 60 then 0
    else if gray <= 97 then 1
    else if gray <= 158 then 2
    else if gray <= 194 then 3
    else 4
  }

  /** The `if`/`else if` ladder, starting from `onebit = 255`. */
  function Ladder(gray: int, colMod: nat, rowMod: nat): (b: bv8)
    requires colMod < 2 && rowMod < 2
    ensures b == 0 || b == 255
    ensures gray <= 60 ==> b == 0
    ensures gray > 194 ==> b == 255
  {
    if gray <= 60 then 0
    else if gray <= 97 then
      (if colMod == 0 || rowMod == 0 then 0 else 255)
    else if gray <= 158 then
      (if (colMod == 0 && rowMod == 1) || (colMod == 1 && rowMod == 0) then 0 else 255)
    else if gray <= 194 then
      (if colMod == 1 && rowMod == 0 then 0 else 255)
    else 255
  }

  function BlackAt(gray: int, colMod: nat, rowMod: nat): nat
    requires colMod < 2 && rowMod < 2
  {
    if Ladder(gray, colMod, rowMod) == 0 then 1 else 0
  }

  /** Number of black cells in one 2x2 parity cell. */
  function BlackCount(gray: int): nat
  {
    BlackAt(gray, 0, 0) + BlackAt(gray, 0, 1) + BlackAt(gray, 1, 0) + BlackAt(gray, 1, 1)
  }

  /** Across the five bands a 2x2 cell holds 4, 3, 2, 1 and 0 black cells. */
  lemma BlackCountByBand(gray: int)
    ensures BlackCount(gray) == 4 - Band(gray)
  {
  }

  /** The black cells of each band are among those of the band below, so
      raising the gray value never turns a white cell black. */
  lemma LadderMonotone(g1: int, g2: int, colMod: nat, rowMod: nat)
    requires g1 <= g2
    requires colMod < 2 && rowMod < 2
    ensures Ladder(g1, colMod, rowMod) == 255 ==> Ladder(g2, colMod, rowMod) == 255
  {
  }

  /** The dithered byte at a device index for a given gray value.  Through
      the truncations it is the ladder at the parities of the true column
      and of the true row, the latter flipped by the `+ 1`. */
  function OneBit(gray: int, pixel: nat): (b: bv8)
    ensures b == 0 || b == 255
    ensures b == Ladder(gray, (pixel % WIDTH) % 2, if (pixel / WIDTH) % 2 == 0 then 1 else 0)
  {
    ParityOfPosition(pixel);
    Ladder(gray, ColMod(pixel), RowMod(pixel))
  }
}
