/**
 * The DSP slots of `Audio` (engine.cpp): a fixed table of sixteen slots, each
 * with a lifecycle state, that the main thread reserves, activates,
 * deactivates and recycles.  The audio thread's own pass over the slots and
 * the parameter hand-off between the two threads are not part of this model.
 */
module Audio {

  const MAX_DSP_COUNT: nat := 16
  const CACHELINE_SIZE: nat := 64

  datatype DSPState = Available | Reserved | Active | Inactive | Destroyable

  /**
   * One `Audio_DSP`: the three parameter buffer indices (counted from one),
   * the parameter size and the distance between parameter buffers, and the
   * bytes of its allocation: three parameter buffers, then the internal
   * data.  `hasProcess` and `hasDestroy` stand for the callback pointers.
   */
  datatype DSP = DSP(
    userParam: int, transientParam: int, driverParam: int,
    paramSize: nat, paramOffset: nat, memory: seq<bv8>,
    hasProcess: bool, hasDestroy: bool)

  /** What `create_DSP` hands back: a reserved slot, or the crash when every slot is taken. */
  datatype Creation = Created(index: nat) | Crash

  /** `param_size` rounded up to a whole number of cache lines. */
  function AlignToCacheline(paramSize: nat): (a: nat)
    ensures a % CACHELINE_SIZE == 0
    ensures paramSize <= a < paramSize + CACHELINE_SIZE
  {
    paramSize / CACHELINE_SIZE * CACHELINE_SIZE + (if paramSize % CACHELINE_SIZE != 0 then CACHELINE_SIZE else 0)
  }

  /** The rounding gives the smallest multiple of a cache line that holds the parameters. */
  lemma AlignIsLeast(paramSize: nat, m: nat)
    requires m % CACHELINE_SIZE == 0 && paramSize <= m
    ensures AlignToCacheline(paramSize) <= m
  {
    var q := paramSize / CACHELINE_SIZE;
    if paramSize % CACHELINE_SIZE != 0 {
      assert q * CACHELINE_SIZE < paramSize;
      assert m / CACHELINE_SIZE > q;
      assert m == m / CACHELINE_SIZE * CACHELINE_SIZE;
    }
  }

  /** Where parameter buffer `index` (1, 2 or 3) starts in a DSP's allocation. */
  function ParamStart(dsp: DSP, index: int): (start: int)
    requires 1 <= index <= 3
    ensures start == (index - 1) * dsp.paramOffset
  {
    dsp.paramOffset * (index - 1)
  }

  /** The DSP `create_DSP` writes into its slot: indices 1, 2, 3, no callbacks, the internal data after three buffers. */
  function NewDSP(paramSize: nat, internal: seq<bv8>): (dsp: DSP)
    ensures dsp.userParam == 1 && dsp.transientParam == 2 && dsp.driverParam == 3
    ensures dsp.paramSize == paramSize && dsp.paramOffset == AlignToCacheline(paramSize)
    ensures |dsp.memory| == 3 * dsp.paramOffset + |internal|
    ensures dsp.memory[3 * dsp.paramOffset..] == internal
    ensures !dsp.hasProcess && !dsp.hasDestroy
  {
    var a := AlignToCacheline(paramSize);
    DSP(1, 2, 3, paramSize, a, seq(3 * a, _ => 0) + internal, false, false)
  }

  /**
   * The three parameter buffers of a new DSP lie inside its allocation,
   * before the internal data, and no two of them overlap.
   */
  lemma ParamBuffersDisjoint(paramSize: nat, internal: seq<bv8>, j: int, k: int)
    requires 1 <= j < k <= 3
    ensures var dsp := NewDSP(paramSize, internal);
      0 <= ParamStart(dsp, j) && ParamStart(dsp, j) + paramSize <= ParamStart(dsp, k)
      && ParamStart(dsp, k) + paramSize <= 3 * dsp.paramOffset <= |dsp.memory|
  {
    var a := AlignToCacheline(paramSize);
    assert (k - 1) * a >= j * a by { assert k - 1 >= j; }
    assert (k - 1) * a + a <= 3 * a by { assert k <= 3; }
  }

  /** The slot `create_DSP` takes: the first Available one. */
  function FirstAvailable(states: seq<DSPState>): (r: Creation)
    ensures r.Created? ==>
      r.index < |states| && states[r.index] == Available && forall k :: 0 <= k < r.index ==> states[k] != Available
    ensures r.Crash? <==> Available !in states
  {
    if states == [] then Crash
    else if states[0] == Available then Created(0)
    else match FirstAvailable(states[1..])
      case Created(i) => Created(i + 1)
      case Crash => Crash
  }

  /** What `destroy_destroyable_DSPs` leaves: every Destroyable slot Available again. */
  function Recycled(states: seq<DSPState>): (r: seq<DSPState>)
    ensures |r| == |states|
  {
    seq(|states|, k requires 0 <= k < |states| => if states[k] == Destroyable then Available else states[k])
  }

  /** After a recycling pass no slot is Destroyable, only Destroyable slots changed, and a second pass changes nothing. */
  lemma RecycledProperties(states: seq<DSPState>)
    ensures Destroyable !in Recycled(states)
    ensures forall k :: 0 <= k < |states| && states[k] != Destroyable ==> Recycled(states)[k] == states[k]
    ensures forall k :: 0 <= k < |states| && states[k] == Destroyable ==> Recycled(states)[k] == Available
    ensures Recycled(Recycled(states)) == Recycled(states)
  {
  }

  class Audio {
    var audioThreadCounter: int
    var states: array<DSPState>
    var dsps: array<DSP>

    ghost predicate Valid()
      reads this
    {
      states.Length == MAX_DSP_COUNT && dsps.Length == MAX_DSP_COUNT
    }

    /** `create_audio`: every slot Available, the audio thread counter at zero. */
    constructor()
      ensures Valid() && fresh(states) && fresh(dsps)
      ensures audioThreadCounter == 0
      ensures forall k :: 0 <= k < MAX_DSP_COUNT ==> states[k] == Available
    {
      audioThreadCounter := 0;
      states := new DSPState[MAX_DSP_COUNT](_ => Available);
      dsps := new DSP[MAX_DSP_COUNT](_ => DSP(0, 0, 0, 0, 0, [], false, false));
    }

    /**
     * `create_DSP`: reserve the first Available slot and set up its DSP, or
     * crash (and change nothing) when there is none.
     */
    method CreateDSP(paramSize: nat, internal: seq<bv8>) returns (r: Creation)
      requires Valid()
      modifies states, dsps
      ensures r == FirstAvailable(old(states[..]))
      ensures r.Crash? ==> states[..] == old(states[..]) && dsps[..] == old(dsps[..])
      ensures r.Created? ==> r.index < MAX_DSP_COUNT
      ensures r.Created? ==> states[..] == old(states[..])[r.index := Reserved]
      ensures r.Created? ==> dsps[..] == old(dsps[..])[r.index := NewDSP(paramSize, internal)]
    {
      var k := 0;
      while k != MAX_DSP_COUNT && states[k] != Available
        invariant 0 <= k <= MAX_DSP_COUNT
        invariant forall j :: 0 <= j < k ==> states[j] != Available
      {
        k := k + 1;
      }
      FirstAvailableIsFirst(states[..], k);
      if k == MAX_DSP_COUNT {
        return Crash;
      }
      states[k] := Reserved;
      dsps[k] := NewDSP(paramSize, internal);
      r := Created(k);
    }

    /** `activate_DSP`: a Reserved slot becomes Active. */
    method Activate(index: nat)
      requires Valid() && index < MAX_DSP_COUNT && states[index] == Reserved
      modifies states
      ensures states[..] == old(states[..])[index := Active]
    {
      states[index] := Active;
    }

    /**
     * `deactivate_DSP`: an Active slot becomes Inactive; the audio thread
     * counter is returned, the DSP's data dependencies staying valid until
     * the counter moves on.
     */
    method Deactivate(index: nat) returns (counter: int)
      requires Valid() && index < MAX_DSP_COUNT && states[index] == Active
      modifies states
      ensures states[..] == old(states[..])[index := Inactive]
      ensures counter == audioThreadCounter
    {
      states[index] := Inactive;
      counter := audioThreadCounter;
    }

    /** `destroy_destroyable_DSPs`: every Destroyable slot is freed and made Available. */
    method DestroyDestroyable()
      requires Valid()
      modifies states
      ensures states[..] == Recycled(old(states[..]))
    {
      var k := 0;
      while k != MAX_DSP_COUNT
        invariant 0 <= k <= MAX_DSP_COUNT
        invariant forall j :: 0 <= j < k ==> states[j] == Recycled(old(states[..]))[j]
        invariant forall j :: k <= j < MAX_DSP_COUNT ==> states[j] == old(states[j])
      {
        if states[k] == Destroyable {
          states[k] := Available;
        }
        k := k + 1;
      }
    }
  }

  /** The linear scan stopping at `k` finds what `FirstAvailable` describes. */
  lemma FirstAvailableIsFirst(states: seq<DSPState>, k: nat)
    requires k <= |states| && (k == |states| || states[k] == Available)
    requires forall j :: 0 <= j < k ==> states[j] != Available
    ensures k == |states| ==> FirstAvailable(states) == Crash
    ensures k < |states| ==> FirstAvailable(states) == Created(k)
  {
  }
}
