/**
 * The loop of `Chip8_step` (main.cpp): the timers, how an error stops the
 * loop, and how runs compose.
 */
module Chip8Run {
  import opened Random
  import opened Chip8Spec

  /** `DT -= min(DT, d)` never makes a timer go up. */
  lemma CountDownNeverRises(t: bv8, d: bv8)
    ensures CountDown(t, d) <= t
  {
  }

  /** While the timer is at least `d`, it loses exactly `d`. */
  lemma CountDownByDecrement(t: bv8, d: bv8)
    ensures d <= t ==> CountDown(t, d) + d == t
  {
  }

  /** A decrement at least as large as the timer stops it at zero rather than wrapping. */
  lemma CountDownStopsAtZero(t: bv8, d: bv8)
    ensures t <= d ==> CountDown(t, d) == 0
  {
  }

  /**
   * An iteration on a machine whose error is set only counts the timers
   * down and stops; the error stays set, replaced by `MEMORY_OUT_OF_BOUNDS`
   * when `PC` itself is refused, and the generator is not drawn from.
   */
  lemma CycleOnError(m: Machine, decrement: nat, seed: Seed)
    requires Wf(m) && m.error != None
    ensures var r := Cycle(m, decrement, seed);
      && r.1 == seed
      && r.0 == m.(dt := CountDown(m.dt, Truncate(decrement)), st := CountDown(m.st, Truncate(decrement)),
                   error := if MemoryFault(m.pc, 2) then MemoryOutOfBounds else m.error)
  {
  }

  /** A run on a failed machine executes nothing: one timer decrement, then the loop breaks. */
  lemma RunOnError(m: Machine, count: nat, decrements: seq<nat>, seed: Seed)
    requires Wf(m) && m.error != None && 0 < count <= |decrements|
    ensures var r := Run(m, count, decrements, seed);
      && r.2 == 0 && r.1 == seed && r.0.error != None
      && r.0 == Cycle(m, decrements[0], seed).0
  {
    CycleOnError(m, decrements[0], seed);
  }

  /** A completed iteration remembers the keys as they were, so that `Fx0A` sees releases since the last instruction. */
  lemma CycleRemembersKeys(m: Machine, decrement: nat, seed: Seed)
    requires Wf(m)
    ensures var r := Cycle(m, decrement, seed);
      && r.0.keyboard == m.keyboard
      && (r.0.error == None ==> r.0.lastKeyboard == m.keyboard)
  {
  }

  /** Starting without an error, the run executes all `count` instructions exactly when it ends without an error. */
  lemma {:induction false} RunOutcome(m: Machine, count: nat, decrements: seq<nat>, seed: Seed)
    requires Wf(m) && m.error == None && |decrements| >= count
    ensures var r := Run(m, count, decrements, seed);
      r.2 == count <==> r.0.error == None
    decreases count
  {
    // Only the shape of `Run` matters here, not what an iteration does.
    hide Cycle;
    if count > 0 {
      var c := Cycle(m, decrements[0], seed);
      if c.0.error == None {
        RunOutcome(c.0, count - 1, decrements[1..], c.1);
      }
    }
  }
}
