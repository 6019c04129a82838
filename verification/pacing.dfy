/** Frame pacing shared by the three variants: the `--fps` rule
    (snag/snag_nochunking.c:219-229, raspi2fb/raspi2fb.c:150-159,
    snag_bullseye/snag.c:151-158), and the tail of the capture loop that
    exits after one frame under `--once` or otherwise sleeps for the rest of
    the frame (snag/snag_nochunking.c:528-546, raspi2fb/raspi2fb.c:489-507,
    snag_bullseye/snag.c:361-373).  The clock is an input: each iteration
    comes with the `run` flag read at its top and its measured duration. */
module Pacing {

  const USEC_PER_SEC: int := 1000000

  /** C integer division, which truncates toward zero. */
  function CDiv(a: int, b: int): (q: int)
    requires b != 0
    ensures a >= 0 && b > 0 ==> q * b <= a < (q + 1) * b
  {
    if (a >= 0) == (b > 0) then
      (if a >= 0 then a / b else (-a) / (-b))
    else
      -((if a >= 0 then a else -a) / (if b > 0 then b else -b))
  }

  /** `fps` and `frameDuration` (microseconds per frame). */
  datatype Rate = Rate(fps: int, frameDuration: int)

  /** The initial values: `DEFAULT_FPS` (30 for snag and raspi2fb, 10 for
      the bullseye snag) and `1000000 / fps`. */
  function DefaultRate(defaultFps: int): (r: Rate)
    requires defaultFps > 0
    ensures r.fps == defaultFps
    ensures r.frameDuration * defaultFps <= USEC_PER_SEC < (r.frameDuration + 1) * defaultFps
  {
    Rate(defaultFps, CDiv(USEC_PER_SEC, defaultFps))
  }

  datatype FpsOutcome = Applied(rate: Rate) | DivideByZero

  /** One `-f <fps>` option.  A positive value sets the frame duration to
      the whole microseconds per frame; any other value leaves the duration
      and recomputes `fps` from it, which divides by zero if an earlier
      option above 1000000 made the duration 0. */
  function ApplyFps(r: Rate, fps: int): (o: FpsOutcome)
    ensures fps > 0 ==> (o.Applied? && o.rate.fps == fps
      && o.rate.frameDuration * fps <= USEC_PER_SEC < (o.rate.frameDuration + 1) * fps)
    ensures fps <= 0 && r.frameDuration > 0 ==> (o.Applied?
      && o.rate.frameDuration == r.frameDuration
      && o.rate.fps * r.frameDuration <= USEC_PER_SEC < (o.rate.fps + 1) * r.frameDuration)
    ensures o == DivideByZero <==> fps <= 0 && r.frameDuration == 0
  {
    if fps > 0 then Applied(Rate(fps, CDiv(USEC_PER_SEC, fps)))
    else if r.frameDuration == 0 then DivideByZero
    else Applied(Rate(CDiv(USEC_PER_SEC, r.frameDuration), r.frameDuration))
  }

  /** The default rate never divides by zero: its duration is positive. */
  lemma DefaultNeverDividesByZero(defaultFps: int, fps: int)
    requires 0 < defaultFps <= USEC_PER_SEC
    ensures DefaultRate(defaultFps).frameDuration > 0
    ensures ApplyFps(DefaultRate(defaultFps), fps) != DivideByZero
  {
    var d := DefaultRate(defaultFps).frameDuration;
    if d <= 0 {
      assert false;
    }
  }

  /** An fps above 1000000 makes the duration 0, after which an fps that
      is not positive divides by zero. */
  lemma HugeFpsThenZeroDividesByZero(r: Rate, f1: int, f2: int)
    requires f1 > USEC_PER_SEC && f2 <= 0
    ensures ApplyFps(r, f1).rate.frameDuration == 0
    ensures ApplyFps(ApplyFps(r, f1).rate, f2) == DivideByZero
  {
    QuotientOfSmaller(USEC_PER_SEC, f1);
    assert ApplyFps(r, f1) == Applied(Rate(f1, 0));
  }

  lemma QuotientOfSmaller(a: int, b: int)
    requires 0 <= a < b
    ensures CDiv(a, b) == 0
  {
    assert CDiv(a, b) == a / b;
  }

  /** What the tail of one iteration does after the frame. */
  datatype Pause = NoSleep | Sleep(usec: int)

  /** `if (elapsed.tv_sec == 0 && elapsed.tv_usec < frameDuration)
      usleep(frameDuration - elapsed.tv_usec)`; `timersub` keeps the
      microseconds in 0..999999.  The sleep tops the frame up to exactly
      one frame duration. */
  function SleepFor(elapsedSec: int, elapsedUsec: int, frameDuration: int): (p: Pause)
    requires 0 <= elapsedUsec < USEC_PER_SEC
    ensures p.Sleep? <==> elapsedSec == 0 && elapsedUsec < frameDuration
    ensures p.Sleep? ==> 0 < p.usec <= frameDuration && elapsedUsec + p.usec == frameDuration
  {
    if elapsedSec == 0 && elapsedUsec < frameDuration then Sleep(frameDuration - elapsedUsec)
    else NoSleep
  }

  /** One iteration as observed from outside: the `run` flag at the top of
      the loop and the measured duration of the frame. */
  datatype Tick = Tick(run: bool, elapsedSec: int, elapsedUsec: int)

  predicate WellTimed(ticks: seq<Tick>)
  {
    forall k | 0 <= k < |ticks| :: 0 <= ticks[k].elapsedUsec < USEC_PER_SEC
  }

  /** What an iteration that ran a frame did next. */
  datatype Step = Exit | Paced(pause: Pause)

  /** Length of the leading run of iterations whose `run` flag is set. */
  function LeadingRuns(ticks: seq<Tick>): (n: nat)
    ensures n <= |ticks|
    ensures forall k | 0 <= k < n :: ticks[k].run
    ensures n < |ticks| ==> !ticks[n].run
  {
    if |ticks| == 0 || !ticks[0].run then 0 else 1 + LeadingRuns(ticks[1..])
  }

  /** `while (run) { frame; if (once) break; pace }` over the observed
      iterations: one step per frame run. */
  function Loop(once: bool, ticks: seq<Tick>, frameDuration: int): (steps: seq<Step>)
    requires WellTimed(ticks)
    ensures once ==> steps == if |ticks| > 0 && ticks[0].run then [Exit] else []
    ensures !once ==> |steps| == LeadingRuns(ticks)
    ensures !once ==> forall k | 0 <= k < |steps| ::
      steps[k] == Paced(SleepFor(ticks[k].elapsedSec, ticks[k].elapsedUsec, frameDuration))
  {
    if |ticks| == 0 || !ticks[0].run then []
    else if once then [Exit]
    else [Paced(SleepFor(ticks[0].elapsedSec, ticks[0].elapsedUsec, frameDuration))]
         + Loop(once, ticks[1..], frameDuration)
  }

  /** With `--once` the loop runs at most one frame and exits before any
      timing is looked at: the measured durations make no difference. */
  lemma OnceIgnoresTiming(ticks1: seq<Tick>, ticks2: seq<Tick>, fd1: int, fd2: int)
    requires WellTimed(ticks1) && WellTimed(ticks2)
    requires |ticks1| > 0 && |ticks2| > 0 && ticks1[0].run == ticks2[0].run
    ensures Loop(true, ticks1, fd1) == Loop(true, ticks2, fd2)
    ensures |Loop(true, ticks1, fd1)| <= 1
  {
  }

  /** Without `--once`, no step ever sleeps longer than one frame, and a
      frame that took a whole second or more is never followed by a sleep. */
  lemma {:induction false} SleepsBounded(ticks: seq<Tick>, frameDuration: int)
    requires WellTimed(ticks)
    ensures forall k | 0 <= k < |Loop(false, ticks, frameDuration)| ::
      match Loop(false, ticks, frameDuration)[k]
      case Paced(Sleep(u)) => 0 < u <= frameDuration && ticks[k].elapsedSec == 0
      case Paced(NoSleep) => ticks[k].elapsedSec != 0 || ticks[k].elapsedUsec >= frameDuration
      case Exit => false
  {
    var steps := Loop(false, ticks, frameDuration);
    forall k | 0 <= k < |steps|
      ensures match steps[k]
        case Paced(Sleep(u)) => 0 < u <= frameDuration && ticks[k].elapsedSec == 0
        case Paced(NoSleep) => ticks[k].elapsedSec != 0 || ticks[k].elapsedUsec >= frameDuration
        case Exit => false
    {
      var p := SleepFor(ticks[k].elapsedSec, ticks[k].elapsedUsec, frameDuration);
      assert steps[k] == Paced(p);
    }
  }
}
