/** The capture loop of snag_bullseye/snag.c (314-374).  The screen is read
    with `memcpy` into the front buffer, compared pixel by pixel with the
    back buffer in a 240 x 50 x 8 traversal, every changed pixel is stored to
    the device as 1 (gray above 127) or 0, and the "flip" then makes the back
    pointer equal to the front pointer. */
module Bullseye {
  import opened Rgb565
  import opened Gray
  import opened Buffers
  import opened SnagDither
  import SnagFrame

  /** Rows, bytes per row of the 1-bit panel, bits per byte. */
  const HEIGHT: nat := 240
  const BYTES_PER_ROW: nat := 50
  const BITS: nat := 8

  /** The loop visits 240 * 50 * 8 = `PIXELS` pixels, the same 96000 as
      snag; the `pixels` value computed from the device geometry is never
      used. */

  /** `convertPixel16`: the RGB565 decode followed by `(uint8_t)` of the
      luma.  A luma in 0..255 passes through; anything else wraps. */
  function ConvertPixel16(luma: LumaFn, p: bv16): (g: int)
    ensures 0 <= g <= 255
    ensures var ch := Decode(p);
      var y := luma(ch.red as int, ch.green as int, ch.blue as int);
      (0 <= y <= 255 ==> g == y) && (y - g) % 256 == 0
  {
    var ch := Decode(p);
    ToU8(luma(ch.red as int, ch.green as int, ch.blue as int))
  }

  /** `gray > 127 ? 1 : 0`: the threshold is strict. */
  function Threshold(gray: int): (b: bv8)
    ensures b == 0 || b == 1
    ensures b == 1 <==> gray > 127
  {
    if gray > 127 then 1 else 0
  }

  /** The byte stored for a changed source pixel. */
  function Target(luma: LumaFn, p: bv16): (b: bv8)
    ensures b == 0 || b == 1
    ensures b == 1 <==> ConvertPixel16(luma, p) > 127
  {
    Threshold(ConvertPixel16(luma, p))
  }

  /** Index reached by the traversal at loop counters (y, x, bit). */
  function Visit(y: nat, x: nat, bit: nat): nat
  {
    y * (BYTES_PER_ROW * BITS) + x * BITS + bit
  }

  /** Every index below 96000 is visited, at exactly one triple of
      counters. */
  lemma TraversalCovers(p: nat)
    requires p < PIXELS
    ensures p / 400 < HEIGHT && (p % 400) / 8 < BYTES_PER_ROW && p % 8 < BITS
    ensures Visit(p / 400, (p % 400) / 8, p % 8) == p
  {
    var y, r := p / 400, p % 400;
    assert p == 400 * y + r;
    assert r == 8 * (r / 8) + r % 8;
    assert r % 8 == p % 8 by {
      assert p == 8 * (50 * y + r / 8) + r % 8;
    }
  }

  /** Distinct counter triples visit distinct indices, all below 96000, and
      a later triple (in loop order) visits a larger index. */
  lemma TraversalOrdered(y1: nat, x1: nat, b1: nat, y2: nat, x2: nat, b2: nat)
    requires y1 < HEIGHT && x1 < BYTES_PER_ROW && b1 < BITS
    requires y2 < HEIGHT && x2 < BYTES_PER_ROW && b2 < BITS
    ensures Visit(y1, x1, b1) < PIXELS
    ensures (y1, x1, b1) != (y2, x2, b2) ==> Visit(y1, x1, b1) != Visit(y2, x2, b2)
    ensures (y1 < y2 || (y1 == y2 && x1 < x2) || (y1 == y2 && x1 == x2 && b1 < b2)) ==>
      Visit(y1, x1, b1) < Visit(y2, x2, b2)
  {
  }

  /** Reference definition of the device after one pass. */
  function Committed(luma: LumaFn, front: seq<bv16>, back: seq<bv16>, device: seq<bv8>): seq<bv8>
    requires |front| >= PIXELS && |back| >= PIXELS
  {
    seq(|device|, i requires 0 <= i < |device| =>
      if i < PIXELS && front[i] != back[i] then Target(luma, front[i]) else device[i])
  }

  /** Reference definition of the stored indices: every changed pixel. */
  function Changed(front: seq<bv16>, back: seq<bv16>): set<nat>
    requires |front| >= PIXELS && |back| >= PIXELS
  {
    set i: nat | i < PIXELS && front[i] != back[i]
  }

  /** What the traversal has done once `pixel` indices are behind it. */
  predicate Processed(luma: LumaFn, front: seq<bv16>, back: seq<bv16>, device: seq<bv8>,
                      dev: seq<bv8>, writes: set<nat>, pixel: nat)
    requires |front| >= PIXELS && |back| >= PIXELS && pixel <= PIXELS
  {
    |dev| == |device|
    && (forall i | 0 <= i < |device| ::
          dev[i] == if i < pixel && front[i] != back[i] then Target(luma, front[i]) else device[i])
    && writes == set i: nat | i < pixel && front[i] != back[i]
  }

  /** The three nested loops `y < 240`, `x < 50`, `bit < 8` with the running
      `pixel` counter. */
  method CommitFrame(luma: LumaFn, front: seq<bv16>, back: seq<bv16>, device: seq<bv8>)
    returns (dev: seq<bv8>, writes: set<nat>)
    requires |front| >= PIXELS && |back| >= PIXELS && |device| >= PIXELS
    ensures dev == Committed(luma, front, back, device)
    ensures writes == Changed(front, back)
  {
    dev := device;
    writes := {};
    var pixel: nat := 0;
    var y: nat := 0;
    while y < HEIGHT
      invariant y <= HEIGHT && pixel == Visit(y, 0, 0)
      invariant Processed(luma, front, back, device, dev, writes, pixel)
    {
      var x: nat := 0;
      while x < BYTES_PER_ROW
        invariant x <= BYTES_PER_ROW && pixel == Visit(y, x, 0)
        invariant Processed(luma, front, back, device, dev, writes, pixel)
      {
        var bit: nat := 0;
        while bit < BITS
          invariant bit <= BITS && pixel == Visit(y, x, bit)
          invariant Processed(luma, front, back, device, dev, writes, pixel)
        {
          if front[pixel] != back[pixel] {
            var gray := ConvertPixel16(luma, front[pixel]);
            if gray > 127 {
              dev := dev[pixel := 1];
            } else {
              dev := dev[pixel := 0];
            }
            writes := writes + {pixel};
          }
          pixel := pixel + 1;
          bit := bit + 1;
        }
        x := x + 1;
      }
      y := y + 1;
    }
  }

  datatype State = State(buffers: Pair<bv16>, device: seq<bv8>)

  /** Both buffers and the device hold a whole frame; the pointers may be
      aliased. */
  predicate Valid(s: State)
  {
    |s.buffers.a| >= PIXELS && |s.buffers.b| >= PIXELS && |s.device| >= PIXELS
  }

  datatype Outcome = Outcome(state: State, writes: set<nat>)

  /** A whole frame: `memcpy` into the front buffer, the traversal, the
      flip.  With distinct pointers every changed pixel is stored whatever
      the device holds; once aliased, nothing is. */
  function Frame(luma: LumaFn, s: State, capture: seq<bv16>): (o: Outcome)
    requires Valid(s) && |capture| >= PIXELS
    ensures Valid(o.state)
    ensures o.state.buffers.Aliased()
    ensures o.state.buffers.Previous() == capture && o.state.buffers.Current() == capture
    ensures |o.state.device| == |s.device|
    ensures !s.buffers.Aliased() ==> forall i | 0 <= i < PIXELS ::
      i in o.writes <==> capture[i] != s.buffers.Previous()[i]
    ensures s.buffers.Aliased() ==> o.writes == {}
    ensures forall i | i in o.writes :: i < PIXELS && o.state.device[i] == Target(luma, capture[i])
    ensures forall i | 0 <= i < |s.device| && i !in o.writes :: o.state.device[i] == s.device[i]
  {
    var filled := s.buffers.Fill(capture);
    var back := filled.Previous();
    Outcome(State(filled.Alias(), Committed(luma, capture, back, s.device)), Changed(capture, back))
  }

  /** What is stored does not depend on what the device held. */
  lemma StoresIgnoreDevice(luma: LumaFn, s: State, d: seq<bv8>, capture: seq<bv16>)
    requires Valid(s) && |d| >= PIXELS && |capture| >= PIXELS
    ensures Frame(luma, s, capture).writes == Frame(luma, s.(device := d), capture).writes
    ensures forall i | i in Frame(luma, s, capture).writes ::
      Frame(luma, s, capture).state.device[i] == Frame(luma, s.(device := d), capture).state.device[i]
  {
  }

  /** Before the first frame: the back buffer is zeroed, the front buffer
      holds whatever `malloc` returned, and the device is NOT cleared (its
      `memset` is commented out). */
  function Init(device0: seq<bv8>, backLen: nat, frontRest: seq<bv16>): (s: State)
    requires |device0| >= PIXELS && backLen >= PIXELS && |frontRest| >= PIXELS
    ensures Valid(s) && !s.buffers.Aliased()
    ensures s.device == device0
    ensures |s.buffers.Previous()| == backLen
    ensures forall i | 0 <= i < backLen :: s.buffers.Previous()[i] == 0
  {
    State(Pair(seq(backLen, _ => 0), frontRest, A, B), device0)
  }

  /** Frame 1: a pixel whose source value is 0 equals the zeroed back
      buffer and is not stored, so the device keeps whatever it showed
      before the program started; every other pixel is stored. */
  lemma FirstFrame(luma: LumaFn, device0: seq<bv8>, backLen: nat, frontRest: seq<bv16>, capture: seq<bv16>)
    requires |device0| >= PIXELS && backLen >= PIXELS && |frontRest| >= PIXELS
    requires |capture| >= PIXELS
    ensures var o := Frame(luma, Init(device0, backLen, frontRest), capture);
      (forall i | 0 <= i < PIXELS :: i in o.writes <==> capture[i] != 0)
      && (forall i | 0 <= i < PIXELS && capture[i] == 0 :: o.state.device[i] == device0[i])
      && (forall i | 0 <= i < PIXELS && capture[i] != 0 :: o.state.device[i] == Target(luma, capture[i]))
  {
  }

  /** The loop body applied to a sequence of captures. */
  function Run(luma: LumaFn, s: State, captures: seq<seq<bv16>>): (t: State)
    requires Valid(s) && SnagFrame.WholeFrames(captures)
    ensures Valid(t)
    ensures |t.device| == |s.device|
    ensures |captures| > 0 ==> t.buffers.Aliased() && t.buffers.Current() == captures[|captures| - 1]
    decreases |captures|
  {
    if |captures| == 0 then s
    else Run(luma, Frame(luma, s, captures[0]).state, captures[1..])
  }

  /** Once the pointers are aliased the device never changes again. */
  lemma {:induction false} AliasedRunFreezesDevice(luma: LumaFn, s: State, captures: seq<seq<bv16>>)
    requires Valid(s) && SnagFrame.WholeFrames(captures)
    requires s.buffers.Aliased()
    ensures Run(luma, s, captures).device == s.device
    decreases |captures|
  {
    if |captures| > 0 {
      var t := Frame(luma, s, captures[0]).state;
      assert t.device == s.device;
      AliasedRunFreezesDevice(luma, t, captures[1..]);
    }
  }

  /** From frame 2 on no pixel is stored: after any run of at least one
      frame the device is exactly what frame 1 left, whatever the later
      captures show. */
  lemma {:induction false} OnlyFirstFrameStores(luma: LumaFn, s: State, captures: seq<seq<bv16>>)
    requires Valid(s) && SnagFrame.WholeFrames(captures) && |captures| > 0
    ensures Run(luma, s, captures).device == Frame(luma, s, captures[0]).state.device
  {
    AliasedRunFreezesDevice(luma, Frame(luma, s, captures[0]).state, captures[1..]);
  }
}
