/** One iteration of the capture loop of raspi2fb/raspi2fb.c (391-485).  The
    buffers are byte arrays: the capture holds two bytes per source pixel,
    and only the first of the two is decoded.  The dithered byte is compared
    with the byte at the same index of the previous RAW capture, not with
    the device, and the device byte is stored whenever the two differ. */
module RaspiFrame {
  import opened Rgb332
  import opened Gray
  import opened RaspiDither
  import opened Buffers

  /** The luma of the `double` expression and `pixels = xres * yres`. */
  datatype Config = Config(luma: LumaFn, pixels: nat)

  /** `int grayscale = (int)(<luma>)` followed by the clamp to 255. */
  function GrayOf(luma: LumaFn, first: bv8): (g: int)
    ensures g <= 255
    ensures var ch := Decode(first);
      var y := luma(ch.red as int, ch.green as int, ch.blue as int);
      (y <= 255 ==> g == y) && (y > 255 ==> g == 255)
  {
    var ch := Decode(first);
    ClampHigh(luma(ch.red as int, ch.green as int, ch.blue as int))
  }

  /** The dithered byte of device index `pixel`, from capture byte `2*pixel`. */
  function Target(cfg: Config, capture: seq<bv8>, pixel: nat): (b: bv8)
    requires 2 * pixel < |capture|
    ensures b == 0 || b == 255
    ensures GrayOf(cfg.luma, capture[2 * pixel]) <= 60 ==> b == 0
    ensures GrayOf(cfg.luma, capture[2 * pixel]) > 194 ==> b == 255
    ensures b == Ladder(GrayOf(cfg.luma, capture[2 * pixel]), (pixel % WIDTH) % 2,
                        if (pixel / WIDTH) % 2 == 0 then 1 else 0)
  {
    OneBit(GrayOf(cfg.luma, capture[2 * pixel]), pixel)
  }

  /** Reference definition of the device after one pass. */
  function Committed(cfg: Config, cur: seq<bv8>, prev: seq<bv8>, device: seq<bv8>): seq<bv8>
    requires |cur| >= 2 * cfg.pixels && |prev| >= cfg.pixels
  {
    seq(|device|, i requires 0 <= i < |device| =>
      if i < cfg.pixels && Target(cfg, cur, i) != prev[i] then Target(cfg, cur, i) else device[i])
  }

  /** Reference definition of the indices the pass stores to. */
  function Written(cfg: Config, cur: seq<bv8>, prev: seq<bv8>): set<nat>
    requires |cur| >= 2 * cfg.pixels && |prev| >= cfg.pixels
  {
    set i: nat | i < cfg.pixels && Target(cfg, cur, i) != prev[i]
  }

  /** The `for (pixel = 0; pixel < pixels; pixel++)` loop with its three
      pointers: `new_pixel` advances two bytes per pixel, `old_pixel` and
      `fb1_pixel` one byte. */
  method CommitFrame(cfg: Config, cur: seq<bv8>, prev: seq<bv8>, device: seq<bv8>)
    returns (dev: seq<bv8>, writes: set<nat>)
    requires |cur| >= 2 * cfg.pixels && |prev| >= cfg.pixels && |device| >= cfg.pixels
    ensures dev == Committed(cfg, cur, prev, device)
    ensures writes == Written(cfg, cur, prev)
  {
    dev := device;
    writes := {};
    var newPixel, oldPixel, fbPixel := 0, 0, 0;
    var pixel: nat := 0;
    while pixel < cfg.pixels
      invariant pixel <= cfg.pixels
      invariant newPixel == 2 * pixel && oldPixel == pixel && fbPixel == pixel
      invariant |dev| == |device|
      invariant forall i | 0 <= i < |device| ::
        dev[i] == if i < pixel && Target(cfg, cur, i) != prev[i] then Target(cfg, cur, i) else device[i]
      invariant writes == set i: nat | i < pixel && Target(cfg, cur, i) != prev[i]
    {
      var onebit := OneBit(GrayOf(cfg.luma, cur[newPixel]), pixel);
      if onebit != prev[oldPixel] {
        dev := dev[fbPixel := onebit];
        writes := writes + {fbPixel};
      }
      newPixel := newPixel + 2;
      oldPixel := oldPixel + 1;
      fbPixel := fbPixel + 1;
      pixel := pixel + 1;
    }
  }

  datatype State = State(buffers: Pair<bv8>, device: seq<bv8>)

  predicate Valid(cfg: Config, s: State)
  {
    !s.buffers.Aliased()
    && |s.buffers.a| >= 2 * cfg.pixels && |s.buffers.b| >= 2 * cfg.pixels
    && |s.device| >= cfg.pixels
  }

  datatype Outcome = Outcome(state: State, writes: set<nat>)

  /** A whole frame: capture into `new_data`, the pass, the exchange. */
  function Frame(cfg: Config, s: State, capture: seq<bv8>): (o: Outcome)
    requires Valid(cfg, s) && |capture| >= 2 * cfg.pixels
    ensures Valid(cfg, o.state)
    ensures o.state.buffers.Previous() == capture
    ensures o.state.buffers.Current() == s.buffers.Previous()
    ensures |o.state.device| == |s.device|
    ensures forall i | 0 <= i < cfg.pixels ::
      i in o.writes <==> Target(cfg, capture, i) != s.buffers.Previous()[i]
    ensures forall i | i in o.writes :: i < cfg.pixels && o.state.device[i] == Target(cfg, capture, i)
    ensures forall i | 0 <= i < |s.device| && i !in o.writes :: o.state.device[i] == s.device[i]
  {
    var filled := s.buffers.Fill(capture);
    var prev := filled.Previous();
    Outcome(State(filled.Exchange(), Committed(cfg, capture, prev, s.device)),
            Written(cfg, capture, prev))
  }

  /** Only the first byte of each source pixel is read: two captures that
      agree on every even byte give the same device and the same stores. */
  lemma OnlyFirstBytesRead(cfg: Config, s: State, c1: seq<bv8>, c2: seq<bv8>)
    requires Valid(cfg, s) && |c1| >= 2 * cfg.pixels && |c2| >= 2 * cfg.pixels
    requires forall i | 0 <= i < cfg.pixels :: c1[2 * i] == c2[2 * i]
    ensures Frame(cfg, s, c1).state.device == Frame(cfg, s, c2).state.device
    ensures Frame(cfg, s, c1).writes == Frame(cfg, s, c2).writes
  {
    var d1 := Frame(cfg, s, c1).state.device;
    var d2 := Frame(cfg, s, c2).state.device;
    assert forall i | 0 <= i < cfg.pixels :: Target(cfg, c1, i) == Target(cfg, c2, i);
    assert |d1| == |d2|;
    forall i | 0 <= i < |d1|
      ensures d1[i] == d2[i]
    {
    }
  }

  /** Before the first frame: the whole device is zeroed and the first
      `oldFill` bytes of `old_data` are zeroed (`line_length * yres`); the
      rest of both buffers holds whatever `malloc` returned. */
  function Init(cfg: Config, deviceLen: nat, oldFill: nat, oldRest: seq<bv8>, newRest: seq<bv8>): (s: State)
    requires deviceLen >= cfg.pixels
    requires |oldRest| >= 2 * cfg.pixels && |newRest| >= 2 * cfg.pixels
    ensures Valid(cfg, s)
    ensures |s.device| == deviceLen
    ensures forall i | 0 <= i < deviceLen :: s.device[i] == 0
    ensures |s.buffers.Previous()| == |oldRest|
    ensures forall i | 0 <= i < oldFill && i < |oldRest| :: s.buffers.Previous()[i] == 0
    ensures forall i | oldFill <= i < |oldRest| :: s.buffers.Previous()[i] == oldRest[i]
  {
    State(Pair(seq(|oldRest|, i requires 0 <= i < |oldRest| => if i < oldFill then 0 else oldRest[i]),
               newRest, A, B),
          seq(deviceLen, _ => 0))
  }

  /** Frame 1 mirrors the screen on every index the zeroing of `old_data`
      covered: a dithered 0 matches both the zero old byte and the zeroed
      device, and a 255 is stored. */
  lemma FirstFrameMirrors(cfg: Config, deviceLen: nat, oldFill: nat, oldRest: seq<bv8>,
                          newRest: seq<bv8>, capture: seq<bv8>)
    requires deviceLen >= cfg.pixels
    requires |oldRest| >= 2 * cfg.pixels && |newRest| >= 2 * cfg.pixels
    requires |capture| >= 2 * cfg.pixels
    ensures var o := Frame(cfg, Init(cfg, deviceLen, oldFill, oldRest, newRest), capture);
      forall i | 0 <= i < cfg.pixels && i < oldFill :: o.state.device[i] == Target(cfg, capture, i)
  {
  }

  /** Every capture of a run holds two bytes per device pixel. */
  predicate WholeFrames(cfg: Config, captures: seq<seq<bv8>>)
  {
    forall k | 0 <= k < |captures| :: |captures[k]| >= 2 * cfg.pixels
  }

  /** The loop body applied to a sequence of captures.  The exchange makes
      the last capture the previous frame and hands the buffer of the one
      before it to the next capture. */
  function Run(cfg: Config, s: State, captures: seq<seq<bv8>>): (t: State)
    requires Valid(cfg, s) && WholeFrames(cfg, captures)
    ensures Valid(cfg, t)
    ensures |t.device| == |s.device|
    ensures |captures| > 0 ==> t.buffers.Previous() == captures[|captures| - 1]
    ensures |captures| == 1 ==> t.buffers.Current() == s.buffers.Previous()
    ensures |captures| > 1 ==> t.buffers.Current() == captures[|captures| - 2]
    decreases |captures|
  {
    if |captures| == 0 then s
    else Run(cfg, Frame(cfg, s, captures[0]).state, captures[1..])
  }

  /** Device bytes at or beyond `pixels` are never stored, however long the
      run. */
  lemma {:induction false} RunKeepsTail(cfg: Config, s: State, captures: seq<seq<bv8>>)
    requires Valid(cfg, s) && WholeFrames(cfg, captures)
    ensures forall i | cfg.pixels <= i < |s.device| :: Run(cfg, s, captures).device[i] == s.device[i]
    decreases |captures|
  {
    if |captures| > 0 {
      var t := Frame(cfg, s, captures[0]).state;
      RunKeepsTail(cfg, t, captures[1..]);
    }
  }

  /** The luma `(2r + 7g + b) / 10`: the source's weights 0.2, 0.7, 0.1 in
      integer arithmetic.  The lemma below only needs black to map below 61
      and white above 194, which the `double` sum does as well. */
  function SampleLuma(): LumaFn
  {
    (r: int, g: int, b: int) => (2 * r + 7 * g + b) / 10
  }

  /** Comparing against the previous raw capture leaves the device stale.
      With two device pixels: frame 1 captures bytes FF FF 00 00, so pixel 1
      dithers to 0 and device byte 1 stays 0; frame 2 captures FF FF FF FF,
      so pixel 1 dithers to 255, but the byte it is compared with is old
      byte 1, the second byte of frame 1's pixel 0, which is also 255: no
      store happens and the device keeps 0 where the screen is white. */
  lemma StaleDeviceAfterSecondFrame(oldRest: seq<bv8>, newRest: seq<bv8>)
    requires |oldRest| == 4 && |newRest| == 4
    ensures var cfg := Config(SampleLuma(), 2);
      var f1 := [0xFF, 0xFF, 0x00, 0x00];
      var f2 := [0xFF, 0xFF, 0xFF, 0xFF];
      var s1 := Frame(cfg, Init(cfg, 2, 4, oldRest, newRest), f1).state;
      var s2 := Frame(cfg, s1, f2).state;
      Target(cfg, f2, 1) == 255 && s2.device[1] == 0
  {
    var cfg := Config(SampleLuma(), 2);
    var f1: seq<bv8> := [0xFF, 0xFF, 0x00, 0x00];
    var f2: seq<bv8> := [0xFF, 0xFF, 0xFF, 0xFF];
    assert Decode(0x00) == Channels(0, 0, 0);
    assert Decode(0xFF) == Channels(255, 255, 255);
    assert Target(cfg, f1, 1) == 0;
    assert Target(cfg, f2, 1) == 255;
  }
}
