/** The two spawn counters of the frame loop, `timerTick` (autonomous
    launches, period `timerTotal`) and `limiterTick` (launches at the
    pointer, period `limiterTotal`). */
module Timers {

  const TimerTotal: int := 25
  const LimiterTotal: int := 5

  /** The counter after one frame, and whether that frame launched. */
  datatype Tick = Tick(next: int, fired: bool)

  /** One frame of a counter: at or past its period it launches and resets
      when `enabled` (for `timerTick`, the pointer is up; for `limiterTick`,
      it is down) and otherwise waits; below its period it counts up. */
  function TimerStep(tick: int, total: int, enabled: bool): (r: Tick)
    ensures r.fired <==> tick >= total && enabled
    ensures r.fired ==> r.next == 0
    ensures !r.fired ==> r.next == if tick < total then tick + 1 else tick
    ensures 0 <= tick <= total ==> 0 <= r.next <= total
  {
    if tick >= total then
      if enabled then Tick(0, true) else Tick(tick, false)
    else
      Tick(tick + 1, false)
  }

  /** The counter and the number of launches after a run of frames, one
      `enabled` flag per frame. */
  datatype Run = Run(tick: int, launches: nat)

  function RunFrames(tick: int, total: int, enabled: seq<bool>): Run
    decreases |enabled|
  {
    if |enabled| == 0 then Run(tick, 0)
    else
      var t := TimerStep(tick, total, enabled[0]);
      var rest := RunFrames(t.next, total, enabled[1..]);
      Run(rest.tick, rest.launches + if t.fired then 1 else 0)
  }

  /** Whatever the pointer does, a counter stays within [0, period]. */
  lemma {:induction false} RunStaysInRange(tick: int, total: int, enabled: seq<bool>)
    requires 0 <= tick <= total
    ensures 0 <= RunFrames(tick, total, enabled).tick <= total
    decreases |enabled|
  {
    if |enabled| > 0 {
      RunStaysInRange(TimerStep(tick, total, enabled[0]).next, total, enabled[1..]);
    }
  }

  /** While it stays enabled, a counter launches once every `total + 1`
      frames: `n` frames from `tick` split into `launches` full periods and
      the counter's final reading. */
  lemma {:induction false} PeriodicWhileEnabled(tick: int, total: int, enabled: seq<bool>)
    requires 0 <= tick <= total
    requires forall k :: 0 <= k < |enabled| ==> enabled[k]
    ensures var r := RunFrames(tick, total, enabled);
      r.launches * (total + 1) + r.tick == tick + |enabled| && 0 <= r.tick <= total
    decreases |enabled|
  {
    if |enabled| > 0 {
      if tick < total {
        PeriodicWhileEnabled(tick + 1, total, enabled[1..]);
      } else {
        PeriodicWhileEnabled(0, total, enabled[1..]);
        var r := RunFrames(0, total, enabled[1..]);
        assert (r.launches + 1) * (total + 1) == r.launches * (total + 1) + (total + 1);
      }
    }
  }

  /** While it stays disabled, a counter never launches and climbs to its
      period, where it waits. */
  lemma {:induction false} StallWhileDisabled(tick: int, total: int, enabled: seq<bool>)
    requires 0 <= tick <= total
    requires forall k :: 0 <= k < |enabled| ==> !enabled[k]
    ensures RunFrames(tick, total, enabled).launches == 0
    ensures RunFrames(tick, total, enabled).tick == if tick + |enabled| < total then tick + |enabled| else total
    decreases |enabled|
  {
    if |enabled| > 0 {
      StallWhileDisabled(TimerStep(tick, total, false).next, total, enabled[1..]);
    }
  }

  /** With the pointer never held, the autonomous counter started at 0
      launches exactly once every 26 frames, and the pointer counter never
      launches. */
  lemma AutonomousEvery26(held: seq<bool>)
    requires forall k :: 0 <= k < |held| ==> !held[k]
    ensures RunFrames(0, TimerTotal, seq(|held|, k requires 0 <= k < |held| => !held[k])).launches == |held| / 26
    ensures RunFrames(0, TimerTotal, seq(|held|, k requires 0 <= k < |held| => !held[k])).tick == |held| % 26
    ensures RunFrames(0, LimiterTotal, held).launches == 0
  {
    PeriodicWhileEnabled(0, TimerTotal, seq(|held|, k requires 0 <= k < |held| => !held[k]));
    StallWhileDisabled(0, LimiterTotal, held);
  }
}
