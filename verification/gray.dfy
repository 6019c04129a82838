/** Grayscale reduction.  Each variant evaluates a weighted sum of the three
    8-bit channels in `double` and converts it to an integer; the floating
    point weights are not modelled.  A `LumaFn` stands for "the integer the
    C conversion produces from the weighted sum of (red, green, blue)", and
    each variant then applies its own store or clamp, modelled here exactly. */
module Gray {

  type LumaFn = (int, int, int) -> int

  /** `g > 255 ? 255 : g` (snag/snag_nochunking.c:467, raspi2fb/raspi2fb.c:422):
      the result is the smaller of the input and 255. */
  function ClampHigh(x: int): (g: int)
    ensures g <= 255 && g <= x
    ensures g == x || g == 255
  {
    if x > 255 then 255 else x
  }

  /** Storing an integer into `uint16_t`: reduction modulo 2^16. */
  function ToU16(x: int): (r: int)
    ensures 0 <= r < 0x1_0000
    ensures (x - r) % 0x1_0000 == 0
  {
    x % 0x1_0000
  }

  /** Storing an integer into `uint8_t`: reduction modulo 2^8. */
  function ToU8(x: int): (r: int)
    ensures 0 <= r < 0x100
    ensures (x - r) % 0x100 == 0
  {
    x % 0x100
  }

  /** A value already in range is stored unchanged. */
  lemma StoreKeepsInRange(x: int)
    ensures 0 <= x < 0x100 ==> ToU8(x) == x
    ensures 0 <= x < 0x1_0000 ==> ToU16(x) == x
  {
  }
}
