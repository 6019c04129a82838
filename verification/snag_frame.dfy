/** One iteration of the capture loop of snag/snag_nochunking.c (453-524):
    compare every one of the 96000 new source pixels with the one captured
    the frame before; where they differ, decode, reduce to gray, dither and
    write the device byte if it differs from the dithered bit; finally
    exchange the two capture buffers. */
module SnagFrame {
  import opened Rgb565
  import opened Gray
  import opened Bayer
  import opened SnagDither
  import opened Buffers

  /** `memset(old_data, 1, ...)` sets every byte to 1, so every 16-bit entry
      it covers reads 0x0101. */
  const SENTINEL: bv16 := 0x0101

  /** What the frame depends on besides its data: the dither method chosen
      by `-b` and the luma the `double` expression produces. */
  datatype Config = Config(dither: Method, luma: LumaFn)

  /** `uint16_t grayscale = <luma>` followed by the clamp to 255.  An
      in-range luma passes through; one that fits 16 bits but exceeds 255
      saturates. */
  function GrayOf(luma: LumaFn, p: bv16): (g: int)
    ensures 0 <= g <= 255
    ensures var ch := Decode(p);
      var y := luma(ch.red as int, ch.green as int, ch.blue as int);
      (0 <= y <= 255 ==> g == y) && (0x100 <= y < 0x1_0000 ==> g == 255)
  {
    var ch := Decode(p);
    ClampHigh(ToU16(luma(ch.red as int, ch.green as int, ch.blue as int)))
  }

  /** The bit the frame wants at device index `pixel` for source value `p`. */
  function Target(cfg: Config, p: bv16, pixel: nat): (b: bv8)
    ensures b == 0 || b == 1
    ensures b == 1 <==> GrayOf(cfg.luma, p) >= ThresholdAt(cfg.dither, Row(pixel), Column(pixel))
  {
    NewBit(cfg.dither, GrayOf(cfg.luma, p), pixel)
  }

  /** Reference definition of the device after one pass: every changed
      pixel below 96000 holds its target bit, every other byte is kept. */
  function Committed(cfg: Config, cur: seq<bv16>, prev: seq<bv16>, device: seq<bv8>): seq<bv8>
    requires |cur| >= PIXELS && |prev| >= PIXELS
  {
    seq(|device|, i requires 0 <= i < |device| =>
      if i < PIXELS && cur[i] != prev[i] then Target(cfg, cur[i], i) else device[i])
  }

  /** Reference definition of the indices the pass stores to: changed pixels
      whose target bit differs from the device byte. */
  function Written(cfg: Config, cur: seq<bv16>, prev: seq<bv16>, device: seq<bv8>): set<nat>
    requires |cur| >= PIXELS && |prev| >= PIXELS && |device| >= PIXELS
  {
    set i: nat | i < PIXELS && cur[i] != prev[i] && Target(cfg, cur[i], i) != device[i]
  }

  /** The `for (pixel = 0; pixel < 96000; pixel++)` loop.  `new_pixel` and
      `old_pixel` advance with `pixel`, so both read entry `pixel`; the
      device byte is read before any store to it. */
  method CommitFrame(cfg: Config, cur: seq<bv16>, prev: seq<bv16>, device: seq<bv8>)
    returns (dev: seq<bv8>, writes: set<nat>)
    requires |cur| >= PIXELS && |prev| >= PIXELS && |device| >= PIXELS
    ensures dev == Committed(cfg, cur, prev, device)
    ensures writes == Written(cfg, cur, prev, device)
  {
    dev := device;
    writes := {};
    var pixel: nat := 0;
    while pixel < PIXELS
      invariant pixel <= PIXELS
      invariant |dev| == |device|
      invariant forall i | 0 <= i < |device| ::
        dev[i] == if i < pixel && cur[i] != prev[i] then Target(cfg, cur[i], i) else device[i]
      invariant writes == set i: nat | i < pixel && cur[i] != prev[i] && Target(cfg, cur[i], i) != device[i]
    {
      if cur[pixel] != prev[pixel] {
        var newbit := Target(cfg, cur[pixel], pixel);
        var oldbit := dev[pixel];
        if newbit != oldbit {
          dev := dev[pixel := newbit];
          writes := writes + {pixel};
        }
      }
      pixel := pixel + 1;
    }
  }

  /** Capture buffers and device between frames. */
  datatype State = State(buffers: Pair<bv16>, device: seq<bv8>)

  /** The two pointers differ and every array holds a whole frame. */
  predicate Valid(s: State)
  {
    !s.buffers.Aliased()
    && |s.buffers.a| >= PIXELS && |s.buffers.b| >= PIXELS && |s.device| >= PIXELS
  }

  datatype Outcome = Outcome(state: State, writes: set<nat>)

  /** A whole frame: capture into `new_data`, the pass, the exchange. */
  function Frame(cfg: Config, s: State, capture: seq<bv16>): (o: Outcome)
    requires Valid(s) && |capture| >= PIXELS
    ensures Valid(o.state)
    ensures o.state.buffers.Previous() == capture
    ensures o.state.buffers.Current() == s.buffers.Previous()
    ensures |o.state.device| == |s.device|
    ensures forall i | 0 <= i < PIXELS && capture[i] != s.buffers.Previous()[i] ::
      o.state.device[i] == Target(cfg, capture[i], i)
    ensures forall i | 0 <= i < |s.device| && i !in o.writes :: o.state.device[i] == s.device[i]
    ensures forall i | i in o.writes ::
      i < PIXELS && capture[i] != s.buffers.Previous()[i] && o.state.device[i] != s.device[i]
  {
    var filled := s.buffers.Fill(capture);
    var prev := filled.Previous();
    Outcome(State(filled.Exchange(), Committed(cfg, capture, prev, s.device)),
            Written(cfg, capture, prev, s.device))
  }

  /** The device shows the dithered image of the capture now held as the
      previous frame. */
  predicate Mirrors(cfg: Config, s: State)
    requires Valid(s)
  {
    forall i | 0 <= i < PIXELS :: s.device[i] == Target(cfg, s.buffers.Previous()[i], i)
  }

  /** After a frame the device mirrors the capture exactly when, at every
      pixel the change test skipped, the device already held its target. */
  lemma MirrorsAfterFrame(cfg: Config, s: State, capture: seq<bv16>)
    requires Valid(s) && |capture| >= PIXELS
    ensures Mirrors(cfg, Frame(cfg, s, capture).state) <==>
      forall i | 0 <= i < PIXELS && capture[i] == s.buffers.Previous()[i] ::
        s.device[i] == Target(cfg, capture[i], i)
  {
    var t := Frame(cfg, s, capture).state;
    if Mirrors(cfg, t) {
      forall i | 0 <= i < PIXELS && capture[i] == s.buffers.Previous()[i]
        ensures s.device[i] == Target(cfg, capture[i], i)
      {
        assert t.device[i] == Target(cfg, t.buffers.Previous()[i], i);
      }
    }
  }

  /** A mirrored device stays mirrored: skipping unchanged pixels is safe
      as long as the device already showed the previous capture. */
  lemma FramePreservesMirror(cfg: Config, s: State, capture: seq<bv16>)
    requires Valid(s) && |capture| >= PIXELS
    requires Mirrors(cfg, s)
    ensures Mirrors(cfg, Frame(cfg, s, capture).state)
  {
    MirrorsAfterFrame(cfg, s, capture);
  }

  /** Capturing the same screen twice: the second frame stores nothing and
      leaves the device as it was. */
  lemma RepeatedCaptureWritesNothing(cfg: Config, s: State, capture: seq<bv16>)
    requires Valid(s) && |capture| >= PIXELS
    ensures var t := Frame(cfg, s, capture).state;
      Frame(cfg, t, capture).writes == {} && Frame(cfg, t, capture).state.device == t.device
  {
  }

  /** The state before the first frame.  `chunks` device bytes are zeroed
      (`memset(fb1_data, 0, chunks)`), the first `oldFill` entries of
      `old_data` hold the sentinel (the byte count of the memset, halved),
      and every other entry holds whatever `malloc` returned. */
  function Init(device0: seq<bv8>, chunks: nat, oldFill: nat, oldRest: seq<bv16>, newRest: seq<bv16>): (s: State)
    requires |device0| >= PIXELS && |oldRest| >= PIXELS && |newRest| >= PIXELS
    ensures Valid(s)
    ensures forall i | 0 <= i < PIXELS && i < oldFill :: s.buffers.Previous()[i] == SENTINEL
    ensures |s.device| == |device0|
    ensures forall i | 0 <= i < chunks && i < |device0| :: s.device[i] == 0
    ensures forall i | chunks <= i < |device0| :: s.device[i] == device0[i]
  {
    State(Pair(seq(|oldRest|, i requires 0 <= i < |oldRest| => if i < oldFill then SENTINEL else oldRest[i]),
               newRest, A, B),
          seq(|device0|, i requires 0 <= i < |device0| => if i < chunks then 0 else device0[i]))
  }

  /** Frame 1: among the sentinel-covered pixels only those whose capture is
      not 0x0101 are processed; those that equal it keep the initial device
      byte, which need not be their target. */
  lemma FirstFrame(cfg: Config, device0: seq<bv8>, chunks: nat, oldFill: nat,
                   oldRest: seq<bv16>, newRest: seq<bv16>, capture: seq<bv16>)
    requires |device0| >= PIXELS && |oldRest| >= PIXELS && |newRest| >= PIXELS
    requires |capture| >= PIXELS
    ensures var s := Init(device0, chunks, oldFill, oldRest, newRest);
      var o := Frame(cfg, s, capture);
      (forall i | i in o.writes && i < oldFill :: capture[i] != SENTINEL)
      && (forall i | 0 <= i < PIXELS && i < oldFill && capture[i] == SENTINEL :: o.state.device[i] == s.device[i])
      && (forall i | 0 <= i < PIXELS && i < oldFill && capture[i] != SENTINEL ::
            o.state.device[i] == Target(cfg, capture[i], i))
  {
  }

  /** The luma `0.299 * red + 0.587 * green + 0.114 * blue` in integer
      arithmetic.  It is not the `double` expression everywhere (at 0x0841,
      gray (8, 8, 8), the `double` sum falls just below 8), but it agrees
      with it at 0x0101, where both give 19.696 and store 19, the only
      pixel it is used at. */
  function SourceLuma(): LumaFn
  {
    (r: int, g: int, b: int) => (299 * r + 587 * g + 114 * b) / 1000
  }

  /** 0x0101 decodes to red 0, green 32, blue 8, whose luma 19.696 is stored
      as gray 19. */
  lemma SentinelGray()
    ensures Decode(SENTINEL) == Channels(0, 32, 8)
    ensures GrayOf(SourceLuma(), SENTINEL) == 19
  {
    assert Decode(SENTINEL) == Channels(0, 32, 8);
  }

  /** The 0x0101 sentinel can leave a stale bit behind.  Under the default
      "4x4" method the threshold at pixel 0 is 15, so a screen showing
      0x0101 there (gray 19) wants a 1; the zeroed device holds 0, but the
      pixel equals the sentinel and is never processed, so after frame 1 the
      device does not mirror the screen. */
  lemma SentinelLeavesStaleBit(device0: seq<bv8>, oldRest: seq<bv16>, newRest: seq<bv16>, capture: seq<bv16>)
    requires |device0| == PIXELS && |oldRest| == PIXELS && |newRest| == PIXELS
    requires |capture| == PIXELS && capture[0] == SENTINEL
    ensures var cfg := Config(MethodOf("4x4"), SourceLuma());
      var o := Frame(cfg, Init(device0, PIXELS, PIXELS, oldRest, newRest), capture);
      Target(cfg, capture[0], 0) == 1 && o.state.device[0] == 0 && !Mirrors(cfg, o.state)
  {
    var cfg := Config(MethodOf("4x4"), SourceLuma());
    SentinelGray();
    assert ThresholdAt(Bayer4x4, Row(0), Column(0)) == 15;
    FirstFrame(cfg, device0, PIXELS, PIXELS, oldRest, newRest, capture);
  }

  /** Every capture of a run holds a whole frame. */
  predicate WholeFrames(captures: seq<seq<bv16>>)
  {
    forall k | 0 <= k < |captures| :: |captures[k]| >= PIXELS
  }

  /** The loop body applied to a sequence of captures. */
  function Run(cfg: Config, s: State, captures: seq<seq<bv16>>): (t: State)
    requires Valid(s) && WholeFrames(captures)
    ensures Valid(t)
    ensures |t.device| == |s.device|
    ensures |captures| > 0 ==> t.buffers.Previous() == captures[|captures| - 1]
    decreases |captures|
  {
    if |captures| == 0 then s
    else Run(cfg, Frame(cfg, s, captures[0]).state, captures[1..])
  }

  /** Once the device mirrors a capture it mirrors every later one: after
      any run it shows the dithered image of the last capture. */
  lemma {:induction false} RunPreservesMirror(cfg: Config, s: State, captures: seq<seq<bv16>>)
    requires Valid(s) && WholeFrames(captures)
    requires Mirrors(cfg, s)
    ensures Mirrors(cfg, Run(cfg, s, captures))
    ensures |captures| > 0 ==> forall i | 0 <= i < PIXELS ::
      Run(cfg, s, captures).device[i] == Target(cfg, captures[|captures| - 1][i], i)
    decreases |captures|
  {
    if |captures| > 0 {
      FramePreservesMirror(cfg, s, captures[0]);
      RunPreservesMirror(cfg, Frame(cfg, s, captures[0]).state, captures[1..]);
    }
  }
}
