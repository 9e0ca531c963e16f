/**
 * `Frame_Controller` (core.h, core.cpp): turns the raw timer readings of the
 * game loop into a number of fixed simulation steps per frame.  Each call of
 * `update_time` clamps the time elapsed since the last call, snaps it to a
 * known display period when it is close enough, averages it over a history
 * of four frames (carrying the remainder of the average forward so that no
 * tick is lost), adds it to an accumulator and takes as many whole steps of
 * `tick_per_step` ticks as the accumulator holds, in multiples of
 * `step_multiplicity` and never more than `step_maximum`.
 *
 * The `u64` counters are unbounded naturals here, and the floating-point
 * tolerance `tick_snapping_error` is the exact fraction
 * `errorNum / errorDen`.
 */
module FrameControl {
  import opened Numerics

  /** `carray_size(history)`. */
  const HISTORY_SIZE: nat := 4
  /** `carray_size(tick_snapping)`. */
  const SNAPPING_SLOTS: nat := 8

  /** The configuration `update_time` reads and never changes. */
  datatype Timing = Timing(
    tickPerStep: nat,
    stepMultiplicity: nat,
    stepMaximum: nat,
    /** The registered periods, `tick_snapping[0 .. snapping_count)`. */
    snapping: seq<nat>,
    errorNum: nat,
    errorDen: nat)

  /** What the three `ram_assert`s of `update_time` demand, and a non-zero tolerance denominator. */
  predicate Runnable(t: Timing)
  {
    t.tickPerStep > 0 && t.stepMultiplicity > 0 && t.stepMaximum > t.stepMultiplicity && t.errorDen > 0
  }

  /** The state `update_time` advances. */
  datatype Clock = Clock(
    time: nat,
    stepCount: nat,
    accumulator: nat,
    residual: nat,
    historyIndex: nat,
    history: seq<nat>)

  predicate ClockValid(c: Clock)
  {
    |c.history| == HISTORY_SIZE && c.historyIndex < HISTORY_SIZE && c.residual < HISTORY_SIZE
  }

  /** The state of a zero-filled controller (`create`). */
  const ZERO_CLOCK: Clock := Clock(0, 0, 0, 0, 0, [0, 0, 0, 0])

  /** History, index and counters after `resync_next_step`; the step count is kept. */
  function Resynced(t: Timing, c: Clock): (r: Clock)
    ensures ClockValid(r)
    ensures r.time == 0 && r.accumulator == 0 && r.residual == 0 && r.historyIndex == 0
    ensures forall k :: 0 <= k < |r.history| ==> r.history[k] == t.tickPerStep
    ensures r.stepCount == c.stepCount
  {
    Clock(0, c.stepCount, 0, 0, 0, [t.tickPerStep, t.tickPerStep, t.tickPerStep, t.tickPerStep])
  }

  /**
   * The start and end of the elapsed interval after the resync (an unset
   * `time` is placed one step batch before `newTime`, pushing `newTime` up to
   * at least one batch) and after the rewind correction (the end never lies
   * before the start).
   */
  function Interval(t: Timing, time: nat, newTime: nat): (r: (nat, nat))
    ensures r.0 <= r.1
    ensures time != 0 ==> r.0 == time && r.1 == Max(time, newTime)
    ensures time == 0 ==> r.1 == Max(newTime, t.tickPerStep * t.stepMultiplicity)
                          && r.1 - r.0 == t.tickPerStep * t.stepMultiplicity
  {
    var batch := t.tickPerStep * t.stepMultiplicity;
    var newTime1 := if time == 0 then Max(newTime, batch) else newTime;
    var time1 := if time == 0 then newTime1 - batch else time;
    (time1, Max(time1, newTime1))
  }

  /** The elapsed ticks, clamped to `tick_per_step * step_maximum` against overshoot. */
  function RawDelta(t: Timing, time: nat, newTime: nat): nat
  {
    var interval := Interval(t, time, newTime);
    Min(interval.1 - interval.0, t.tickPerStep * t.stepMaximum)
  }

  /** `error_ratio < tick_snapping_error`: the period is within the tolerance of the delta, relative to a step. */
  predicate SnapsTo(t: Timing, period: nat, delta: nat)
  {
    Abs(period - delta) * t.errorDen < t.errorNum * t.tickPerStep
  }

  /** Frequency snapping: the first period of `periods` close enough to `delta` replaces it. */
  function Snap(t: Timing, periods: seq<nat>, delta: nat): nat
    decreases |periods|
  {
    if |periods| == 0 then delta
    else if SnapsTo(t, periods[0], delta) then periods[0]
    else Snap(t, periods[1..], delta)
  }

  /**
   * Snapping picks the first period in registration order that is within
   * the tolerance, and leaves the delta alone when none is.
   */
  lemma {:induction false} SnapFirstMatch(t: Timing, periods: seq<nat>, delta: nat)
    ensures (forall k :: 0 <= k < |periods| ==> !SnapsTo(t, periods[k], delta)) ==> Snap(t, periods, delta) == delta
    ensures (exists k :: 0 <= k < |periods| && SnapsTo(t, periods[k], delta)) ==>
              exists k :: 0 <= k < |periods| && SnapsTo(t, periods[k], delta) && Snap(t, periods, delta) == periods[k]
                          && forall j :: 0 <= j < k ==> !SnapsTo(t, periods[j], delta)
    decreases |periods|
  {
    if |periods| > 0 && !SnapsTo(t, periods[0], delta) {
      SnapFirstMatch(t, periods[1..], delta);
      assert forall k :: 1 <= k < |periods| ==> periods[k] == periods[1..][k - 1];
      if exists k :: 0 <= k < |periods| && SnapsTo(t, periods[k], delta) {
        var k :| 0 <= k < |periods| && SnapsTo(t, periods[k], delta);
        assert SnapsTo(t, periods[1..][k - 1], delta);
        var k' :| 0 <= k' < |periods[1..]| && SnapsTo(t, periods[1..][k'], delta) && Snap(t, periods[1..], delta) == periods[1..][k']
                    && forall j :: 0 <= j < k' ==> !SnapsTo(t, periods[1..][j], delta);
        assert forall j :: 1 <= j < k' + 1 ==> !SnapsTo(t, periods[j], delta);
        assert SnapsTo(t, periods[k' + 1], delta) && Snap(t, periods, delta) == periods[k' + 1];
      }
    }
  }

  /** The sum of a history, added front to back as the loop of `update_time` does. */
  function Sum(s: seq<nat>): nat
    decreases |s|
  {
    if |s| == 0 then 0 else Sum(s[..|s| - 1]) + s[|s| - 1]
  }

  /** A history of four entries sums to its four entries. */
  lemma SumOfFour(h: seq<nat>)
    requires |h| == HISTORY_SIZE
    ensures Sum(h) == h[0] + h[1] + h[2] + h[3]
  {
    assert h[..3][..2] == h[..2] && h[..2][..1] == h[..1] && h[..1][..0] == [];
    assert Sum(h[..1]) == h[0];
    assert Sum(h[..2]) == h[0] + h[1];
    assert Sum(h[..3]) == h[0] + h[1] + h[2];
  }

  /**
   * History smoothing with the tick residual: the average of the history
   * sum, plus whatever whole tick the quarters carried over from earlier
   * frames add up to; the quarters left over are the new residual.  No tick
   * is created or lost: four times the smoothed delta plus the new residual
   * is the history sum plus the old residual.
   */
  function Smooth(sum: nat, residual: nat): (r: (nat, nat))
    ensures r.1 < HISTORY_SIZE
    ensures HISTORY_SIZE * r.0 + r.1 == sum + residual
  {
    var smoothed := sum / HISTORY_SIZE;
    var carried := residual + sum % HISTORY_SIZE;
    (smoothed + carried / HISTORY_SIZE, carried % HISTORY_SIZE)
  }

  /** The whole steps an accumulator holds, rounded down to a multiple of `step_multiplicity`. */
  function Quantised(t: Timing, accumulator: nat): (n: nat)
    requires Runnable(t)
  {
    ((accumulator / t.tickPerStep) / t.stepMultiplicity) * t.stepMultiplicity
  }

  /** `update_time`: the new state and the number of steps to run. */
  function Update(t: Timing, c: Clock, newTime: nat): (r: (Clock, nat))
    requires Runnable(t) && ClockValid(c)
    ensures ClockValid(r.0)
  {
    var interval := Interval(t, c.time, newTime);
    var delta := Snap(t, t.snapping, RawDelta(t, c.time, newTime));
    var history := c.history[c.historyIndex := delta];
    var index := (c.historyIndex + 1) % HISTORY_SIZE;
    var smoothed := Smooth(Sum(history), c.residual);
    var accumulator := c.accumulator + smoothed.0;
    var n := Quantised(t, accumulator);
    if n > t.stepMaximum then
      var resync := Resynced(t, c);
      (resync.(time := interval.1, stepCount := c.stepCount + t.stepMaximum), t.stepMaximum)
    else
      (Clock(interval.1, c.stepCount + n, accumulator - n * t.tickPerStep, smoothed.1, index, history), n)
  }

  /** `Update` assembled from its intermediate values, for the in-place implementation. */
  lemma UpdateParts(t: Timing, c: Clock, newTime: nat, delta: nat, history: seq<nat>, smoothed: (nat, nat), end: nat, n: nat)
    requires Runnable(t) && ClockValid(c)
    requires end == Interval(t, c.time, newTime).1
    requires delta == Snap(t, t.snapping, RawDelta(t, c.time, newTime))
    requires history == c.history[c.historyIndex := delta]
    requires smoothed == Smooth(Sum(history), c.residual)
    requires n == Quantised(t, c.accumulator + smoothed.0)
    ensures n > t.stepMaximum ==>
              Update(t, c, newTime) == (Resynced(t, c).(time := end, stepCount := c.stepCount + t.stepMaximum), t.stepMaximum)
    ensures n <= t.stepMaximum ==>
              Update(t, c, newTime) == (Clock(end, c.stepCount + n, c.accumulator + smoothed.0 - n * t.tickPerStep, smoothed.1,
                                              (c.historyIndex + 1) % HISTORY_SIZE, history), n)
  {
  }

  /** The interval has the length one step batch right after a resync, and never more than the clamp. */
  lemma RawDeltaBounds(t: Timing, time: nat, newTime: nat)
    requires Runnable(t)
    ensures RawDelta(t, time, newTime) <= t.tickPerStep * t.stepMaximum
    ensures time == 0 ==> RawDelta(t, time, newTime) == t.tickPerStep * t.stepMultiplicity
    ensures time != 0 && newTime <= time ==> RawDelta(t, time, newTime) == 0
    ensures time != 0 && time <= newTime ==>
              RawDelta(t, time, newTime) == Min(newTime - time, t.tickPerStep * t.stepMaximum)
  {
    MulLe(t.stepMultiplicity, t.stepMaximum, t.tickPerStep);
  }

  /** `a - n * tps` where `n` is `Quantised(acc)` leaves less than one multiple of steps. */
  lemma {:induction false} QuantisedRemainder(t: Timing, accumulator: nat)
    requires Runnable(t)
    ensures Quantised(t, accumulator) % t.stepMultiplicity == 0
    ensures Quantised(t, accumulator) * t.tickPerStep <= accumulator
    ensures accumulator - Quantised(t, accumulator) * t.tickPerStep < t.tickPerStep * t.stepMultiplicity
  {
    var tps, mult := t.tickPerStep, t.stepMultiplicity;
    var q := accumulator / tps;
    var k := q / mult;
    var n := k * mult;
    assert accumulator == q * tps + accumulator % tps;
    assert q == k * mult + q % mult;
    DivModUnique(mult, k, 0);
    assert n * tps + (q % mult) * tps == q * tps by {
      assert (k * mult + q % mult) * tps == k * mult * tps + (q % mult) * tps;
    }
    assert accumulator - n * tps == (q % mult) * tps + accumulator % tps;
    MulLe(q % mult + 1, mult, tps);
    assert (q % mult + 1) * tps == (q % mult) * tps + tps;
    assert mult * tps == tps * mult;
  }

  /**
   * What a call of `update_time` promises about the steps it returns: never
   * more than `step_maximum`; either a multiple of `step_multiplicity`
   * whose ticks leave the accumulator with less than one batch, or exactly
   * `step_maximum` after a resync.  The step count grows by the steps taken.
   */
  lemma UpdateSteps(t: Timing, c: Clock, newTime: nat)
    requires Runnable(t) && ClockValid(c)
    ensures var (c', n) := Update(t, c, newTime);
      && n <= t.stepMaximum
      && c'.stepCount == c.stepCount + n
      && c'.time == Interval(t, c.time, newTime).1
      && ((&& n % t.stepMultiplicity == 0
           && c'.accumulator < t.tickPerStep * t.stepMultiplicity
           && n * t.tickPerStep + c'.accumulator
              == c.accumulator + Smooth(Sum(c.history[c.historyIndex := Snap(t, t.snapping, RawDelta(t, c.time, newTime))]), c.residual).0)
          || (n == t.stepMaximum && c' == Resynced(t, c).(time := c'.time, stepCount := c'.stepCount)))
  {
    var delta := Snap(t, t.snapping, RawDelta(t, c.time, newTime));
    var history := c.history[c.historyIndex := delta];
    var smoothed := Smooth(Sum(history), c.residual);
    QuantisedRemainder(t, c.accumulator + smoothed.0);
  }

  /** The time `update_time` leaves behind never goes backwards on a running controller. */
  lemma UpdateTimeMonotone(t: Timing, c: Clock, newTime: nat)
    requires Runnable(t) && ClockValid(c)
    ensures c.time != 0 ==> Update(t, c, newTime).0.time == Max(c.time, newTime) >= c.time
  {
  }

  /**
   * Over any run of frames, the smoothed deltas account for every tick of
   * the history sums: `SmoothedTotal` adds up what the successive calls of
   * `Smooth` hand out.
   */
  function SmoothRun(sums: seq<nat>, residual: nat): (r: (nat, nat))
    decreases |sums|
  {
    if |sums| == 0 then (0, residual)
    else
      var first := Smooth(sums[0], residual);
      var rest := SmoothRun(sums[1..], first.1);
      (first.0 + rest.0, rest.1)
  }

  function Total(s: seq<nat>): nat
    decreases |s|
  {
    if |s| == 0 then 0 else s[0] + Total(s[1..])
  }

  /**
   * The tick residual keeps smoothing exact over time: after any number of
   * frames, four times the ticks handed out plus the quarters still held is
   * the sum of all history sums plus the starting quarters, so fewer than
   * one tick is ever outstanding.
   */
  lemma {:induction false} SmoothRunConserves(sums: seq<nat>, residual: nat)
    requires residual < HISTORY_SIZE
    ensures HISTORY_SIZE * SmoothRun(sums, residual).0 + SmoothRun(sums, residual).1 == Total(sums) + residual
    ensures SmoothRun(sums, residual).1 < HISTORY_SIZE
    decreases |sums|
  {
    if |sums| > 0 {
      SmoothRunConserves(sums[1..], Smooth(sums[0], residual).1);
    }
  }

  /**
   * The history sums of the worked example (70 four times, then 40): the
   * plain integer average hands out 78 ticks and loses two, the average
   * with the residual hands out all 80.
   */
  lemma ResidualRecoversTicks()
    ensures SmoothRun([70, 70, 70, 70, 40], 0) == (80, 0)
    ensures 70 / 4 + 70 / 4 + 70 / 4 + 70 / 4 + 40 / 4 == 78
  {
  }

  /** Writing one history slot and moving the ring index on, as `update_time` does. */
  function RingWrite(history: seq<nat>, index: nat, v: nat): (r: (seq<nat>, nat))
    requires |history| == HISTORY_SIZE && index < HISTORY_SIZE
    ensures |r.0| == HISTORY_SIZE && r.1 < HISTORY_SIZE
    ensures r.1 == (index + 1) % HISTORY_SIZE && r.0 == history[index := v]
  {
    (history[index := v], (index + 1) % HISTORY_SIZE)
  }

  function RingWrites(history: seq<nat>, index: nat, vs: seq<nat>): (r: (seq<nat>, nat))
    requires |history| == HISTORY_SIZE && index < HISTORY_SIZE
    ensures |r.0| == HISTORY_SIZE && r.1 < HISTORY_SIZE
    decreases |vs|
  {
    if |vs| == 0 then (history, index)
    else
      var next := RingWrite(history, index, vs[0]);
      RingWrites(next.0, next.1, vs[1..])
  }

  /** The slot the `k`-th of a run of writes starting at `index` lands on. */
  function Slot(index: nat, k: nat): (slot: nat)
    ensures slot < HISTORY_SIZE
  {
    (index + k) % HISTORY_SIZE
  }

  /** Concatenated runs of writes compose. */
  lemma {:induction false} RingWritesSplit(history: seq<nat>, index: nat, vs: seq<nat>, ws: seq<nat>)
    requires |history| == HISTORY_SIZE && index < HISTORY_SIZE
    ensures var first := RingWrites(history, index, vs);
            RingWrites(history, index, vs + ws) == RingWrites(first.0, first.1, ws)
    decreases |vs|
  {
    if |vs| > 0 {
      assert (vs + ws)[0] == vs[0] && (vs + ws)[1..] == vs[1..] + ws;
      var next := RingWrite(history, index, vs[0]);
      RingWritesSplit(next.0, next.1, vs[1..], ws);
    } else {
      assert vs + ws == ws;
    }
  }

  /** After `n` writes the ring index has moved on by `n` slots. */
  lemma {:induction false} RingWritesIndex(history: seq<nat>, index: nat, vs: seq<nat>)
    requires |history| == HISTORY_SIZE && index < HISTORY_SIZE
    ensures RingWrites(history, index, vs).1 == (index + |vs|) % HISTORY_SIZE
    decreases |vs|
  {
    if |vs| > 0 {
      var next := RingWrite(history, index, vs[0]);
      RingWritesIndex(next.0, next.1, vs[1..]);
    }
  }

  /** A slot none of the writes lands on keeps its value. */
  lemma {:induction false} RingWritesKeep(history: seq<nat>, index: nat, vs: seq<nat>, slot: nat)
    requires |history| == HISTORY_SIZE && index < HISTORY_SIZE && slot < HISTORY_SIZE
    requires forall k: nat :: k < |vs| ==> Slot(index, k) != slot
    ensures RingWrites(history, index, vs).0[slot] == history[slot]
    decreases |vs|
  {
    if |vs| > 0 {
      var next := RingWrite(history, index, vs[0]);
      assert Slot(index, 0) != slot;
      forall k: nat | k < |vs[1..]|
        ensures Slot(next.1, k) != slot
      {
        assert Slot(index, k + 1) != slot;
      }
      RingWritesKeep(next.0, next.1, vs[1..], slot);
    }
  }

  /**
   * A spike is smoothed over exactly four frames: the delta written by one
   * call stays in the history while at most three more calls write theirs,
   * and the fourth one after it replaces it.
   */
  lemma SpikeLastsFourFrames(history: seq<nat>, index: nat, vs: seq<nat>)
    requires |history| == HISTORY_SIZE && index < HISTORY_SIZE && 1 <= |vs| <= HISTORY_SIZE + 1
    ensures |vs| <= HISTORY_SIZE ==> RingWrites(history, index, vs).0[index] == vs[0]
    ensures |vs| == HISTORY_SIZE + 1 ==> RingWrites(history, index, vs).0[index] == vs[HISTORY_SIZE]
  {
    if |vs| <= HISTORY_SIZE {
      assert vs == [vs[0]] + vs[1..];
      RingWritesSplit(history, index, [vs[0]], vs[1..]);
      var first := RingWrites(history, index, [vs[0]]);
      assert first == RingWrite(history, index, vs[0]);
      forall k: nat | k < |vs[1..]|
        ensures Slot(first.1, k) != index
      {
      }
      RingWritesKeep(first.0, first.1, vs[1..], index);
    } else {
      assert vs == vs[..HISTORY_SIZE] + [vs[HISTORY_SIZE]];
      RingWritesSplit(history, index, vs[..HISTORY_SIZE], [vs[HISTORY_SIZE]]);
      RingWritesIndex(history, index, vs[..HISTORY_SIZE]);
      var first := RingWrites(history, index, vs[..HISTORY_SIZE]);
      assert first.1 == index;
      assert RingWrites(first.0, first.1, [vs[HISTORY_SIZE]]) == RingWrite(first.0, first.1, vs[HISTORY_SIZE]);
    }
  }

  /** The configuration of the worked example: 10 ticks per step, single steps, at most four, no snapping. */
  const EXAMPLE_TIMING: Timing := Timing(10, 1, 4, [], 0, 1)

  /**
   * The worked example of the frame controller's documentation: after
   * steady 10-tick frames one frame takes 40 ticks, then four 10-tick frames
   * follow.  The calls return 1, 2, 2, 2, 1 steps, eight in all, the same as
   * without smoothing, and the state is back at rest.
   */
  lemma WorkedExample()
    ensures var c0 := Clock(1000, 0, 0, 0, 0, [10, 10, 10, 10]);
      var u1 := Update(EXAMPLE_TIMING, c0, 1040);
      var u2 := Update(EXAMPLE_TIMING, u1.0, 1050);
      var u3 := Update(EXAMPLE_TIMING, u2.0, 1060);
      var u4 := Update(EXAMPLE_TIMING, u3.0, 1070);
      var u5 := Update(EXAMPLE_TIMING, u4.0, 1080);
      && [u1.1, u2.1, u3.1, u4.1, u5.1] == [1, 2, 2, 2, 1]
      && u5.0 == Clock(1080, 8, 0, 0, 1, [10, 10, 10, 10])
  {
    // Each call is settled by `ExampleCall`; the body of `Update` is not
    // needed to chain the calls.
    hide Update;
    var c0 := Clock(1000, 0, 0, 0, 0, [10, 10, 10, 10]);
    ExampleCall(c0, 1040, Clock(1040, 1, 7, 2, 1, [40, 10, 10, 10]), 1);
    ExampleCall(Clock(1040, 1, 7, 2, 1, [40, 10, 10, 10]), 1050, Clock(1050, 3, 5, 0, 2, [40, 10, 10, 10]), 2);
    ExampleCall(Clock(1050, 3, 5, 0, 2, [40, 10, 10, 10]), 1060, Clock(1060, 5, 2, 2, 3, [40, 10, 10, 10]), 2);
    ExampleCall(Clock(1060, 5, 2, 2, 3, [40, 10, 10, 10]), 1070, Clock(1070, 7, 0, 0, 0, [40, 10, 10, 10]), 2);
    ExampleCall(Clock(1070, 7, 0, 0, 0, [40, 10, 10, 10]), 1080, Clock(1080, 8, 0, 0, 1, [10, 10, 10, 10]), 1);
  }

  /** One call of the worked example, computed from the pieces of `Update`. */
  lemma ExampleCall(c: Clock, newTime: nat, c': Clock, n: nat)
    requires ClockValid(c) && c.time > 0 && c.time <= newTime <= c.time + 40
    requires c'.history == c.history[c.historyIndex := newTime - c.time]
    requires Quantised(EXAMPLE_TIMING, c.accumulator + Smooth(c'.history[0] + c'.history[1] + c'.history[2] + c'.history[3], c.residual).0) == n <= 4
    requires c' == Clock(newTime, c.stepCount + n,
                         c.accumulator + Smooth(c'.history[0] + c'.history[1] + c'.history[2] + c'.history[3], c.residual).0 - n * 10,
                         Smooth(c'.history[0] + c'.history[1] + c'.history[2] + c'.history[3], c.residual).1,
                         (c.historyIndex + 1) % HISTORY_SIZE, c'.history)
    ensures Update(EXAMPLE_TIMING, c, newTime) == (c', n)
  {
    SumOfFour(c'.history);
  }

  /**
   * Steady frames are stable: with a history of exact steps, no residual,
   * less than a step accumulated and a frame of exactly one step (which no
   * snapping period changes), one step is taken and nothing else moves.
   */
  lemma SteadyState(t: Timing, c: Clock)
    requires Runnable(t) && ClockValid(c) && t.stepMultiplicity == 1
    requires c.time > 0 && c.residual == 0 && c.accumulator < t.tickPerStep
    requires forall k :: 0 <= k < HISTORY_SIZE ==> c.history[k] == t.tickPerStep
    requires Snap(t, t.snapping, t.tickPerStep) == t.tickPerStep
    ensures Update(t, c, c.time + t.tickPerStep).1 == 1
    ensures Update(t, c, c.time + t.tickPerStep).0
            == c.(time := c.time + t.tickPerStep, stepCount := c.stepCount + 1,
                  historyIndex := (c.historyIndex + 1) % HISTORY_SIZE)
  {
    var tps := t.tickPerStep;
    MulLe(1, t.stepMaximum, tps);
    assert RawDelta(t, c.time, c.time + tps) == tps;
    var history := c.history[c.historyIndex := tps];
    assert history == c.history;
    SumOfFour(history);
    assert Smooth(Sum(history), 0) == (tps, 0);
    DivModUnique(tps, 1, c.accumulator);
    assert Quantised(t, c.accumulator + tps) == 1;
  }

  /** `add_snapping_frequency`'s period: ticks per second divided by the frequency, rounded up. */
  function SnapPeriod(ticksPerSecond: nat, frequency: nat): (p: nat)
    requires frequency > 0
    ensures p * frequency >= ticksPerSecond
    ensures p == 0 || (p - 1) * frequency < ticksPerSecond
  {
    var q := ticksPerSecond / frequency;
    var p := q + if ticksPerSecond % frequency != 0 then 1 else 0;
    assert (q + 1) * frequency == q * frequency + frequency;
    p
  }

  /** `Frame_Controller`, updated in place by the game loop. */
  class FrameController {
    var time: nat
    var stepCount: nat
    var stepMultiplicity: nat
    var stepMaximum: nat
    var tickAccumulator: nat
    var tickResidual: nat
    var tickPerStep: nat
    var snappingCount: nat
    const tickSnapping: array<nat>
    /** `tick_snapping_error` as the fraction `errorNum / errorDen`. */
    var errorNum: nat
    var errorDen: nat
    var historyIndex: nat
    const history: array<nat>

    ghost predicate Valid()
      reads this
    {
      && tickSnapping.Length == SNAPPING_SLOTS && history.Length == HISTORY_SIZE
      && tickSnapping != history
      && snappingCount < SNAPPING_SLOTS && historyIndex < HISTORY_SIZE
      && tickResidual < HISTORY_SIZE && errorDen > 0
    }

    /** The configuration part of the controller. */
    ghost function Config(): Timing
      reads this, tickSnapping
      requires Valid()
    {
      Timing(tickPerStep, stepMultiplicity, stepMaximum, tickSnapping[..snappingCount], errorNum, errorDen)
    }

    /** The part `update_time` advances. */
    ghost function State(): Clock
      reads this, history
      requires Valid()
    {
      Clock(time, stepCount, tickAccumulator, tickResidual, historyIndex, history[..])
    }

    /** `create`: everything zero (a zero tolerance snaps nothing). */
    constructor Create()
      ensures Valid() && fresh(tickSnapping) && fresh(history)
      ensures State() == ZERO_CLOCK
      ensures Config() == Timing(0, 0, 0, [], 0, 1)
    {
      time, stepCount, stepMultiplicity, stepMaximum := 0, 0, 0, 0;
      tickAccumulator, tickResidual, tickPerStep, snappingCount := 0, 0, 0, 0;
      errorNum, errorDen, historyIndex := 0, 1, 0;
      tickSnapping := new nat[SNAPPING_SLOTS](_ => 0);
      history := new nat[HISTORY_SIZE](_ => 0);
      new;
      assert history[..] == [0, 0, 0, 0];
    }

    /**
     * `add_snapping_frequency`: appends the period of a display frequency to
     * the snapping table (the timer's tick rate is a parameter).  The source
     * asserts room for it while keeping the last slot unused.
     */
    method AddSnappingFrequency(ticksPerSecond: nat, frequency: nat)
      requires Valid() && snappingCount < SNAPPING_SLOTS - 1 && frequency > 0
      modifies this, tickSnapping
      ensures Valid()
      ensures Config() == old(Config()).(snapping := old(Config().snapping) + [SnapPeriod(ticksPerSecond, frequency)])
      ensures State() == old(State())
    {
      var period := ticksPerSecond / frequency + if ticksPerSecond % frequency != 0 then 1 else 0;
      tickSnapping[snappingCount] := period;
      snappingCount := snappingCount + 1;
      assert tickSnapping[..snappingCount] == old(tickSnapping[..snappingCount]) + [period];
    }

    /** `resync_next_step`: forget the time base and restart from a history of exact steps. */
    method ResyncNextStep()
      requires Valid()
      modifies this, history
      ensures Valid() && Config() == old(Config())
      ensures State() == Resynced(Config(), old(State()))
    {
      time, tickAccumulator, tickResidual, historyIndex := 0, 0, 0, 0;
      var ihistory := 0;
      while ihistory != HISTORY_SIZE
        invariant 0 <= ihistory <= HISTORY_SIZE
        invariant forall k :: 0 <= k < ihistory ==> history[k] == tickPerStep
        modifies history
      {
        history[ihistory] := tickPerStep;
        ihistory := ihistory + 1;
      }
      assert history[..] == [tickPerStep, tickPerStep, tickPerStep, tickPerStep];
    }

    /** The resync and anomaly correction of `update_time`: the end of the interval and its clamped length. */
    method ElapsedTicks(newTime: nat) returns (end: nat, delta: nat)
      requires Valid() && Runnable(Config())
      modifies this
      ensures Valid() && Config() == old(Config())
      ensures end == Interval(Config(), old(time), newTime).1 && delta == RawDelta(Config(), old(time), newTime)
      ensures State() == old(State()).(time := Interval(Config(), old(time), newTime).0)
    {
      end := newTime;
      // resync
      if time == 0 {
        end := Max(end, tickPerStep * stepMultiplicity);
        time := end - tickPerStep * stepMultiplicity;
      }
      // timer anomaly correction
      end := Max(time, end);
      delta := Min(end - time, tickPerStep * stepMaximum);
    }

    /** History smoothing and the tick residual of `update_time`. */
    method SmoothDelta(delta: nat) returns (smoothed: nat)
      requires Valid()
      modifies this, history
      ensures Valid() && Config() == old(Config())
      ensures (smoothed, tickResidual) == Smooth(Sum(old(history[..])[old(historyIndex) := delta]), old(tickResidual))
      ensures State() == old(State()).(residual := tickResidual, historyIndex := (old(historyIndex) + 1) % HISTORY_SIZE,
                                       history := old(history[..])[old(historyIndex) := delta])
    {
      history[historyIndex] := delta;
      historyIndex := (historyIndex + 1) % HISTORY_SIZE;
      var historySum := HistorySum();
      smoothed := historySum / HISTORY_SIZE;
      // tick residual
      var carried := tickResidual + historySum % HISTORY_SIZE;
      smoothed := smoothed + carried / HISTORY_SIZE;
      tickResidual := carried % HISTORY_SIZE;
    }

    /** The snapping loop of `update_time`: the first registered period close enough to `delta`, else `delta`. */
    method SnapDelta(delta: nat) returns (r: nat)
      requires Valid()
      ensures r == Snap(Config(), Config().snapping, delta)
    {
      var isnap := 0;
      while isnap != snappingCount
        invariant 0 <= isnap <= snappingCount
        invariant Snap(Config(), tickSnapping[isnap..snappingCount], delta) == Snap(Config(), Config().snapping, delta)
        decreases snappingCount - isnap
      {
        var period := tickSnapping[isnap];
        var snapError := Abs(period - delta);
        if snapError * errorDen < errorNum * tickPerStep {
          return period;
        }
        assert tickSnapping[isnap + 1..snappingCount] == tickSnapping[isnap..snappingCount][1..];
        isnap := isnap + 1;
      }
      r := delta;
    }

    /** The summing loop of `update_time`. */
    method HistorySum() returns (historySum: nat)
      requires Valid()
      ensures historySum == Sum(history[..])
    {
      historySum := 0;
      var ihistory := 0;
      while ihistory != HISTORY_SIZE
        invariant 0 <= ihistory <= HISTORY_SIZE
        invariant historySum == Sum(history[..ihistory])
      {
        assert history[..ihistory + 1][..ihistory] == history[..ihistory];
        historySum := historySum + history[ihistory];
        ihistory := ihistory + 1;
      }
      assert history[..HISTORY_SIZE] == history[..];
    }

    /**
     * The last part of `update_time`: adds the smoothed delta to the
     * accumulator and takes the whole steps it holds, resyncing when they
     * exceed the maximum.
     */
    method TakeSteps(smoothed: nat) returns (nsteps: nat)
      requires Valid() && Runnable(Config())
      modifies this, history
      ensures Valid() && Config() == old(Config())
      ensures stepCount == old(stepCount)
      ensures var n := Quantised(old(Config()), old(tickAccumulator) + smoothed);
        if n > old(stepMaximum) then
          && nsteps == old(stepMaximum)
          && time == 0 && tickAccumulator == 0 && tickResidual == 0 && historyIndex == 0
          && history[..] == Resynced(old(Config()), old(State())).history
        else
          && nsteps == n
          && tickAccumulator == old(tickAccumulator) + smoothed - n * old(tickPerStep)
          && time == old(time) && tickResidual == old(tickResidual) && historyIndex == old(historyIndex)
          && history[..] == old(history[..])
    {
      tickAccumulator := tickAccumulator + smoothed;
      nsteps := tickAccumulator / tickPerStep;
      nsteps := (nsteps / stepMultiplicity) * stepMultiplicity;
      if nsteps > stepMaximum {
        nsteps := stepMaximum;
        ResyncNextStep();
      } else {
        tickAccumulator := tickAccumulator - nsteps * tickPerStep;
      }
    }

    /** `update_time`: advances the clock to `newTime` and returns the steps to run. */
    method UpdateTime(newTime: nat) returns (nsteps: nat)
      requires Valid() && Runnable(Config())
      modifies this, history
      ensures Valid() && Config() == old(Config())
      ensures (State(), nsteps) == Update(old(Config()), old(State()), newTime)
    {
      // The steps are tied to `Update` through `UpdateParts`; the arithmetic
      // inside each part is not needed here.
      hide Update, Quantised, Interval, Snap, RawDelta, Smooth, Sum;
      ghost var t := Config();
      ghost var c := State();
      var newTime1, delta := ElapsedTicks(newTime);
      // frequency snapping
      delta := SnapDelta(delta);
      var smoothed := SmoothDelta(delta);
      // accumulate and count steps
      ghost var mid := State();
      nsteps := TakeSteps(smoothed);
      time := newTime1;
      stepCount := stepCount + nsteps;
      ghost var n := Quantised(t, c.accumulator + smoothed);
      UpdateParts(t, c, newTime, delta, mid.history, (smoothed, mid.residual), newTime1, n);
      if n > t.stepMaximum {
        assert State() == Resynced(t, c).(time := newTime1, stepCount := c.stepCount + t.stepMaximum);
        assert (State(), nsteps) == Update(t, c, newTime);
      } else {
        assert State() == Clock(newTime1, c.stepCount + n, c.accumulator + smoothed - n * t.tickPerStep,
                                mid.residual, mid.historyIndex, mid.history);
        assert (State(), nsteps) == Update(t, c, newTime);
      }
    }
  }
}
