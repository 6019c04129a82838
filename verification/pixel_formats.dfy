/** Decoding of the 16-bit RGB565 source pixel used by both snag variants
    (`convertPixel` in snag/snag_nochunking.c, `convertPixel16` in
    snag_bullseye/snag.c).  The C code works on `uint16_t`/`uint8_t` with
    shifts, masks and `|`; the model uses `bv16` so that every operator means
    exactly what it means in C.  All intermediate values fit in 16 bits, so
    no truncation is hidden. */
module Rgb565 {

  /** The three expanded 8-bit channels of one pixel (held in 16-bit words,
      as `convertPixel` does). */
  datatype Channels = Channels(red: bv16, green: bv16, blue: bv16)

  /** Bits 15..11: the 5-bit red code, the pixel divided by 2^11. */
  function RedCode(p: bv16): (c: bv16)
    ensures c < 32
    ensures c == p / 2048
  {
    (p >> 11) & 0x1F
  }

  /** Bits 10..5: the 6-bit green code, the pixel divided by 2^5 and
      reduced modulo 2^6. */
  function GreenCode(p: bv16): (c: bv16)
    ensures c < 64
    ensures c == (p / 32) % 64
  {
    (p >> 5) & 0x3F
  }

  /** Bits 4..0: the 5-bit blue code, the pixel modulo 2^5. */
  function BlueCode(p: bv16): (c: bv16)
    ensures c < 32
    ensures c == p % 32
  {
    p & 0x1F
  }

  /** Packs three codes back into a pixel: the inverse of the extraction. */
  function Pack(r: bv16, g: bv16, b: bv16): (p: bv16)
    requires r < 32 && g < 64 && b < 32
    ensures RedCode(p) == r && GreenCode(p) == g && BlueCode(p) == b
  {
    (r << 11) | (g << 5) | b
  }

  /** The three extracted fields partition the pixel: nothing is lost. */
  lemma CodesRecompose(p: bv16)
    ensures Pack(RedCode(p), GreenCode(p), BlueCode(p)) == p
  {
  }

  /** 5-bit to 8-bit expansion by bit replication: `(c << 3) | (c >> 2)`.
      The top five bits of the result are the code itself. */
  function Expand5(c: bv16): (v: bv16)
    requires c < 32
    ensures v < 256
    ensures v >> 3 == c
    ensures c == 0 ==> v == 0
    ensures c == 31 ==> v == 255
  {
    (c << 3) | (c >> 2)
  }

  /** 6-bit to 8-bit expansion by bit replication: `(c << 2) | (c >> 4)`. */
  function Expand6(c: bv16): (v: bv16)
    requires c < 64
    ensures v < 256
    ensures v >> 2 == c
    ensures c == 0 ==> v == 0
    ensures c == 63 ==> v == 255
  {
    (c << 2) | (c >> 4)
  }

  lemma Expand5StrictlyIncreasing(a: bv16, b: bv16)
    requires a < b < 32
    ensures Expand5(a) < Expand5(b)
  {
  }

  lemma Expand6StrictlyIncreasing(a: bv16, b: bv16)
    requires a < b < 64
    ensures Expand6(a) < Expand6(b)
  {
  }

  /** The channels `convertPixel`/`convertPixel16` produce.  Every channel
      fits in 8 bits and shifting it right recovers the extracted code. */
  function Decode(p: bv16): (ch: Channels)
    ensures ch.red < 256 && ch.green < 256 && ch.blue < 256
    ensures ch.red >> 3 == RedCode(p)
    ensures ch.green >> 2 == GreenCode(p)
    ensures ch.blue >> 3 == BlueCode(p)
  {
    Channels(Expand5(RedCode(p)), Expand6(GreenCode(p)), Expand5(BlueCode(p)))
  }

  /** Decoding loses no information: distinct pixels give distinct channels. */
  lemma DecodeInjective(p: bv16, q: bv16)
    requires Decode(p) == Decode(q)
    ensures p == q
  {
    CodesRecompose(p);
    CodesRecompose(q);
  }
}

/** Decoding used by raspi2fb/raspi2fb.c: the first byte of each 16-bit
    source pixel is read as an RGB332 value.  C computes in `int` and stores
    into `uint8_t`; a `bv8` shift drops exactly the bits the store drops, so
    the `bv8` expressions below equal the stored C values. */
module Rgb332 {

  datatype Channels = Channels(red: bv8, green: bv8, blue: bv8)

  /** Bits 7..5: the byte divided by 2^5. */
  function RedCode(b: bv8): (c: bv8)
    ensures c < 8
    ensures c == b / 32
  {
    (b >> 5) & 0x07
  }

  /** Bits 4..2: the byte divided by 2^2 and reduced modulo 2^3. */
  function GreenCode(b: bv8): (c: bv8)
    ensures c < 8
    ensures c == (b / 4) % 8
  {
    (b >> 2) & 0x07
  }

  /** Bits 1..0: the byte modulo 2^2. */
  function BlueCode(b: bv8): (c: bv8)
    ensures c < 4
    ensures c == b % 4
  {
    b & 0x03
  }

  function Pack(r: bv8, g: bv8, b: bv8): (p: bv8)
    requires r < 8 && g < 8 && b < 4
    ensures RedCode(p) == r && GreenCode(p) == g && BlueCode(p) == b
  {
    (r << 5) | (g << 2) | b
  }

  lemma CodesRecompose(x: bv8)
    ensures Pack(RedCode(x), GreenCode(x), BlueCode(x)) == x
  {
  }

  /** 3-bit to 8-bit expansion: `(c << 5) | (c << 2) | (c >> 1)`. */
  function Expand3(c: bv8): (v: bv8)
    requires c < 8
    ensures v >> 5 == c
    ensures c == 0 ==> v == 0
    ensures c == 7 ==> v == 255
  {
    (c << 5) | (c << 2) | (c >> 1)
  }

  lemma Expand3StrictlyIncreasing(a: bv8, b: bv8)
    requires a < b < 8
    ensures Expand3(a) < Expand3(b)
  {
  }

  /** The blue code times 85, as stored into `uint8_t blue`. */
  function ScaleBlue(c: bv8): (v: bv8)
    requires c < 4
    ensures v == 0 || v == 85 || v == 170 || v == 255
    ensures v / 85 == c
  {
    c * 85
  }

  /** The second blue step `(v << 6) | (v << 4) | (v << 2) | v` stored into
      `uint8_t`: the identity on the four values `ScaleBlue` can produce. */
  function ReplicateBlue(v: bv8): (w: bv8)
    ensures v == 0 || v == 85 || v == 170 || v == 255 ==> w == v
  {
    (v << 6) | (v << 4) | (v << 2) | v
  }

  /** The channels raspi2fb computes from the first byte of a pixel. */
  function Decode(first: bv8): (ch: Channels)
    ensures ch.red >> 5 == RedCode(first)
    ensures ch.green >> 5 == GreenCode(first)
    ensures ch.blue == 0 || ch.blue == 85 || ch.blue == 170 || ch.blue == 255
    ensures ch.blue / 85 == BlueCode(first)
  {
    Channels(Expand3(RedCode(first)), Expand3(GreenCode(first)), ReplicateBlue(ScaleBlue(BlueCode(first))))
  }

  /** Distinct first bytes give distinct channels. */
  lemma DecodeInjective(x: bv8, y: bv8)
    requires Decode(x) == Decode(y)
    ensures x == y
  {
    CodesRecompose(x);
    CodesRecompose(y);
  }
}
