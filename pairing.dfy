/**
 * `update_device_listener_pairings` (engine_win32.cpp): which keyboard feeds
 * which listener.  Each listener holds the device it is paired with (or
 * `INVALID_HANDLE`), and the pass rebuilds `keyboard_to_listener`, the
 * listener index claiming each keyboard (-1 for none), in three passes over
 * the listeners: a refresh that drops vanished devices, a first phase that
 * gives unpaired listeners the most recently used free keyboard, and a
 * second phase in which persistent listeners move to a more recent one.
 */
module Pairing {
  import opened RawInput
  import opened Input

  /** The listeners' devices and `keyboard_to_listener`. */
  datatype PairState = PairState(devices: seq<Handle>, claims: seq<int>)

  /** The running best of the most-recent scan: a keyboard index (or -1) and its timestamp. */
  datatype Best = Best(index: int, timestamp: nat)

  /** Every paired listener's device is a connected keyboard's. */
  predicate Paired(keyboards: seq<Keyboard>, st: PairState)
  {
    forall l :: 0 <= l < |st.devices| && st.devices[l] != INVALID_HANDLE ==> FindKeyboard(keyboards, st.devices[l]) != -1
  }

  /** Real device handles are never `INVALID_HANDLE_VALUE`. */
  predicate RealDevices(keyboards: seq<Keyboard>)
  {
    forall k :: 0 <= k < |keyboards| ==> keyboards[k].device != INVALID_HANDLE
  }

  /** A listener's device after the refresh: unpaired when its keyboard is gone. */
  function RefreshedDevice(keyboards: seq<Keyboard>, device: Handle): (d: Handle)
    ensures d == INVALID_HANDLE || d == device
    ensures d != INVALID_HANDLE ==> FindKeyboard(keyboards, d) != -1
    ensures device != INVALID_HANDLE && FindKeyboard(keyboards, device) != -1 ==> d == device
  {
    if device != INVALID_HANDLE && FindKeyboard(keyboards, device) == -1 then INVALID_HANDLE else device
  }

  // ---- the refresh ----

  function RefreshStep(keyboards: seq<Keyboard>, st: PairState, l: nat): (r: PairState)
    requires l < |st.devices| && |st.claims| == |keyboards|
    ensures |r.devices| == |st.devices| && |r.claims| == |st.claims|
    ensures r.devices == st.devices[l := RefreshedDevice(keyboards, st.devices[l])]
  {
    if st.devices[l] == INVALID_HANDLE then st
    else
      var i := FindKeyboard(keyboards, st.devices[l]);
      if i == -1 then st.(devices := st.devices[l := INVALID_HANDLE])
      else st.(claims := st.claims[i := l])
  }

  /**
   * The refresh over the first `n` listeners: each of them that was paired
   * with a keyboard no longer connected is unpaired; the rest keep their
   * devices.
   */
  function Refreshed(keyboards: seq<Keyboard>, st: PairState, n: nat): (r: PairState)
    requires n <= |st.devices| && |st.claims| == |keyboards|
    ensures |r.devices| == |st.devices| && |r.claims| == |st.claims|
    ensures forall l :: 0 <= l < n ==> r.devices[l] == RefreshedDevice(keyboards, st.devices[l])
    ensures forall l :: n <= l < |st.devices| ==> r.devices[l] == st.devices[l]
    decreases n
  {
    if n == 0 then st else RefreshStep(keyboards, Refreshed(keyboards, st, n - 1), n - 1)
  }

  // ---- the most recent free keyboard ----

  /**
   * The scan of `keyboards[..n]` for the free keyboard with the largest
   * timestamp above `floor`, the lowest index winning ties; -1 and `floor`
   * when there is none.
   */
  function MostRecent(keyboards: seq<Keyboard>, claims: seq<int>, floor: nat, n: nat): (b: Best)
    requires n <= |keyboards| == |claims|
    ensures b.index == -1 ==>
      b.timestamp == floor && forall k :: 0 <= k < n && claims[k] == -1 ==> keyboards[k].frameTimestamp <= floor
    ensures b.index != -1 ==>
      0 <= b.index < n && claims[b.index] == -1
      && keyboards[b.index].frameTimestamp == b.timestamp > floor
      && (forall k :: 0 <= k < n && claims[k] == -1 ==> keyboards[k].frameTimestamp <= b.timestamp)
      && (forall k :: 0 <= k < b.index && claims[k] == -1 ==> keyboards[k].frameTimestamp < b.timestamp)
    decreases n
  {
    if n == 0 then Best(-1, floor)
    else
      var b := MostRecent(keyboards, claims, floor, n - 1);
      if claims[n - 1] == -1 && keyboards[n - 1].frameTimestamp > b.timestamp then Best(n - 1, keyboards[n - 1].frameTimestamp)
      else b
  }

  /** The listener takes keyboard `k`: its device becomes the keyboard's and the keyboard is claimed by it. */
  function Claim(keyboards: seq<Keyboard>, st: PairState, l: nat, k: nat): (r: PairState)
    requires l < |st.devices| && k < |keyboards| == |st.claims|
    ensures r.devices == st.devices[l := keyboards[k].device] && r.claims == st.claims[k := l]
  {
    PairState(st.devices[l := keyboards[k].device], st.claims[k := l])
  }

  predicate SeeksMostRecent(mode: PairingMode)
  {
    mode == PairingMostRecent || mode == PairingMostRecentPersistent
  }

  // ---- phase 1 ----

  /**
   * Phase 1 for listener `l`: an unpaired listener that seeks the most
   * recent keyboard takes the free keyboard with the largest non-zero
   * timestamp, if any; every other listener is left alone.
   */
  function Phase1Step(keyboards: seq<Keyboard>, modes: seq<PairingMode>, st: PairState, l: nat): (r: PairState)
    requires l < |st.devices| == |modes| && |st.claims| == |keyboards|
    ensures |r.devices| == |st.devices| && |r.claims| == |st.claims|
    ensures forall m :: 0 <= m < |st.devices| && m != l ==> r.devices[m] == st.devices[m]
    ensures st.devices[l] != INVALID_HANDLE || !SeeksMostRecent(modes[l]) ==> r == st
    ensures st.devices[l] == INVALID_HANDLE && SeeksMostRecent(modes[l]) ==>
      var b := MostRecent(keyboards, st.claims, 0, |keyboards|);
      r == if b.index == -1 then st else Claim(keyboards, st, l, b.index)
  {
    if st.devices[l] != INVALID_HANDLE then st
    else if SeeksMostRecent(modes[l]) then
      var b := MostRecent(keyboards, st.claims, 0, |keyboards|);
      if b.index != -1 then Claim(keyboards, st, l, b.index) else st
    else st
  }

  /** Phase 1 over the first `n` listeners: only unpaired listeners seeking the most recent keyboard can change. */
  function Phase1(keyboards: seq<Keyboard>, modes: seq<PairingMode>, st: PairState, n: nat): (r: PairState)
    requires n <= |st.devices| == |modes| && |st.claims| == |keyboards|
    ensures |r.devices| == |st.devices| && |r.claims| == |st.claims|
    ensures forall l :: 0 <= l < |st.devices| && (l >= n || st.devices[l] != INVALID_HANDLE || !SeeksMostRecent(modes[l])) ==>
      r.devices[l] == st.devices[l]
    decreases n
  {
    if n == 0 then st else Phase1Step(keyboards, modes, Phase1(keyboards, modes, st, n - 1), n - 1)
  }

  // ---- phase 2 ----

  /**
   * Phase 2 for listener `l`: a paired persistent listener moves to the
   * free keyboard with the largest timestamp above its current keyboard's,
   * if any, releasing the current one.
   */
  function Phase2Step(keyboards: seq<Keyboard>, modes: seq<PairingMode>, st: PairState, l: nat): (r: PairState)
    requires l < |st.devices| == |modes| && |st.claims| == |keyboards| && Paired(keyboards, st)
    ensures |r.devices| == |st.devices| && |r.claims| == |st.claims|
    ensures forall m :: 0 <= m < |st.devices| && m != l ==> r.devices[m] == st.devices[m]
    ensures st.devices[l] == INVALID_HANDLE || modes[l] != PairingMostRecentPersistent ==> r == st
    ensures st.devices[l] != INVALID_HANDLE && modes[l] == PairingMostRecentPersistent ==>
      var current := FindKeyboard(keyboards, st.devices[l]);
      var b := MostRecent(keyboards, st.claims, keyboards[current].frameTimestamp, |keyboards|);
      r == if b.index == -1 then st else Claim(keyboards, st.(claims := st.claims[current := -1]), l, b.index)
  {
    if st.devices[l] == INVALID_HANDLE then st
    else if modes[l] == PairingMostRecentPersistent then
      var current := FindKeyboard(keyboards, st.devices[l]);
      var b := MostRecent(keyboards, st.claims, keyboards[current].frameTimestamp, |keyboards|);
      if b.index != -1 then Claim(keyboards, st.(claims := st.claims[current := -1]), l, b.index) else st
    else st
  }

  /** A claim keeps every listener's device a connected keyboard's. */
  lemma ClaimPaired(keyboards: seq<Keyboard>, st: PairState, l: nat, k: nat)
    requires l < |st.devices| && k < |keyboards| == |st.claims| && Paired(keyboards, st)
    ensures Paired(keyboards, Claim(keyboards, st, l, k))
    ensures Paired(keyboards, Claim(keyboards, st.(claims := st.claims[k := -1]), l, k))
  {
    assert FindKeyboard(keyboards, keyboards[k].device) != -1;
  }

  lemma Phase1StepPaired(keyboards: seq<Keyboard>, modes: seq<PairingMode>, st: PairState, l: nat)
    requires l < |st.devices| == |modes| && |st.claims| == |keyboards| && Paired(keyboards, st)
    ensures Paired(keyboards, Phase1Step(keyboards, modes, st, l))
  {
    var b := MostRecent(keyboards, st.claims, 0, |keyboards|);
    if b.index != -1 {
      ClaimPaired(keyboards, st, l, b.index);
    }
  }

  lemma Phase2StepPaired(keyboards: seq<Keyboard>, modes: seq<PairingMode>, st: PairState, l: nat)
    requires l < |st.devices| == |modes| && |st.claims| == |keyboards| && Paired(keyboards, st)
    ensures Paired(keyboards, Phase2Step(keyboards, modes, st, l))
  {
    if st.devices[l] != INVALID_HANDLE && modes[l] == PairingMostRecentPersistent {
      var current := FindKeyboard(keyboards, st.devices[l]);
      var b := MostRecent(keyboards, st.claims, keyboards[current].frameTimestamp, |keyboards|);
      if b.index != -1 {
        ClaimPaired(keyboards, st.(claims := st.claims[current := -1]), l, b.index);
      }
    }
  }

  /** Phase 1 over the first `n` listeners, with its invariant: paired listeners stay on connected keyboards. */
  lemma {:induction false} Phase1Paired(keyboards: seq<Keyboard>, modes: seq<PairingMode>, st: PairState, n: nat)
    requires n <= |st.devices| == |modes| && |st.claims| == |keyboards| && Paired(keyboards, st)
    ensures Paired(keyboards, Phase1(keyboards, modes, st, n))
    decreases n
  {
    if n > 0 {
      Phase1Paired(keyboards, modes, st, n - 1);
      Phase1StepPaired(keyboards, modes, Phase1(keyboards, modes, st, n - 1), n - 1);
    }
  }

  /**
   * Phase 2 over the first `n` listeners: only paired persistent listeners
   * can change, an unpaired listener stays unpaired, and paired listeners
   * stay on connected keyboards.
   */
  function Phase2(keyboards: seq<Keyboard>, modes: seq<PairingMode>, st: PairState, n: nat): (r: PairState)
    requires n <= |st.devices| == |modes| && |st.claims| == |keyboards| && Paired(keyboards, st)
    ensures |r.devices| == |st.devices| && |r.claims| == |st.claims| && Paired(keyboards, r)
    ensures forall l :: 0 <= l < |st.devices| && (l >= n || st.devices[l] == INVALID_HANDLE || modes[l] != PairingMostRecentPersistent) ==>
      r.devices[l] == st.devices[l]
    decreases n
  {
    if n == 0 then st
    else
      var prev := Phase2(keyboards, modes, st, n - 1);
      Phase2StepPaired(keyboards, modes, prev, n - 1);
      Phase2Step(keyboards, modes, prev, n - 1)
  }

  /** The listeners' devices and the claims after `update_device_listener_pairings`. */
  function Pairings(keyboards: seq<Keyboard>, devices: seq<Handle>, modes: seq<PairingMode>): (r: PairState)
    requires |devices| == |modes|
    ensures |r.devices| == |devices| && |r.claims| == |keyboards| && Paired(keyboards, r)
  {
    var st0 := PairState(devices, seq(|keyboards|, _ => -1));
    var st1 := Refreshed(keyboards, st0, |devices|);
    Phase1Paired(keyboards, modes, st1, |devices|);
    var st2 := Phase1(keyboards, modes, st1, |devices|);
    Phase2(keyboards, modes, st2, |devices|)
  }

  /**
   * What pairing does to each kind of listener: a `Pairing_None` listener
   * never gains a keyboard and is unpaired when its keyboard goes away; a
   * `Pairing_Most_Recent` listener keeps its keyboard while it stays
   * connected; a `Pairing_Most_Recent_Persistent` listener ends up on a
   * connected keyboard or unpaired.
   */
  lemma PairingByMode(keyboards: seq<Keyboard>, devices: seq<Handle>, modes: seq<PairingMode>, l: nat)
    requires |devices| == |modes| && l < |devices|
    ensures var d := Pairings(keyboards, devices, modes).devices[l];
      (d == INVALID_HANDLE || FindKeyboard(keyboards, d) != -1)
      && (modes[l] == PairingNone ==> d == RefreshedDevice(keyboards, devices[l]))
      && (modes[l] == PairingMostRecent && RefreshedDevice(keyboards, devices[l]) != INVALID_HANDLE ==> d == devices[l])
  {
    var st0 := PairState(devices, seq(|keyboards|, _ => -1));
    var st1 := Refreshed(keyboards, st0, |devices|);
    Phase1Paired(keyboards, modes, st1, |devices|);
    var st2 := Phase1(keyboards, modes, st1, |devices|);
    var r := Phase2(keyboards, modes, st2, |devices|);
    assert r.devices[l] == st2.devices[l] || modes[l] == PairingMostRecentPersistent;
  }

  /**
   * In phase 1 an unpaired listener seeking the most recent keyboard stays
   * unpaired exactly when no free keyboard has been used yet, and otherwise
   * takes the most recent free keyboard, the lowest index among equals.
   */
  lemma UnpairedTakesMostRecent(keyboards: seq<Keyboard>, modes: seq<PairingMode>, st: PairState, l: nat)
    requires l < |st.devices| == |modes| && |st.claims| == |keyboards|
    requires st.devices[l] == INVALID_HANDLE && SeeksMostRecent(modes[l]) && RealDevices(keyboards)
    ensures var r := Phase1Step(keyboards, modes, st, l);
      (r.devices[l] == INVALID_HANDLE <==>
        forall k :: 0 <= k < |keyboards| && st.claims[k] == -1 ==> keyboards[k].frameTimestamp == 0)
      && (r.devices[l] != INVALID_HANDLE ==>
        exists b :: 0 <= b < |keyboards| && st.claims[b] == -1 && r.devices[l] == keyboards[b].device && r.claims[b] == l
          && (forall k :: 0 <= k < |keyboards| && st.claims[k] == -1 ==> keyboards[k].frameTimestamp <= keyboards[b].frameTimestamp)
          && (forall k :: 0 <= k < b && st.claims[k] == -1 ==> keyboards[k].frameTimestamp < keyboards[b].frameTimestamp))
  {
    var b := MostRecent(keyboards, st.claims, 0, |keyboards|);
    if b.index != -1 {
      assert keyboards[b.index].frameTimestamp > 0;
    }
  }

  /**
   * In phase 2 a listener changes keyboard only when it is persistent, and
   * then to a free keyboard more recent than its current one, which it
   * releases.
   */
  lemma PersistentMovesForward(keyboards: seq<Keyboard>, modes: seq<PairingMode>, st: PairState, l: nat)
    requires l < |st.devices| == |modes| && |st.claims| == |keyboards| && Paired(keyboards, st)
    requires RealDevices(keyboards)
    ensures var r := Phase2Step(keyboards, modes, st, l);
      r.devices[l] != st.devices[l] ==>
        modes[l] == PairingMostRecentPersistent
        && var current := FindKeyboard(keyboards, st.devices[l]);
        current != -1 && r.claims[current] == -1
        && (exists b :: 0 <= b < |keyboards| && st.claims[b] == -1 && r.devices[l] == keyboards[b].device && r.claims[b] == l
              && keyboards[b].frameTimestamp > keyboards[current].frameTimestamp)
  {
    var r := Phase2Step(keyboards, modes, st, l);
    if r.devices[l] != st.devices[l] {
      var current := FindKeyboard(keyboards, st.devices[l]);
      var b := MostRecent(keyboards, st.claims, keyboards[current].frameTimestamp, |keyboards|);
      assert b.index != current;
    }
  }

  // ---- one keyboard per listener ----

  /** Listeners that are paired have different devices. */
  predicate DistinctPaired(devices: seq<Handle>)
  {
    forall j, k :: 0 <= j < k < |devices| && devices[j] != INVALID_HANDLE ==> devices[j] != devices[k]
  }

  /** Every claim names a listener index below `n` whose device is the claimed keyboard's. */
  predicate ClaimsBelow(keyboards: seq<Keyboard>, st: PairState, n: nat)
  {
    forall k :: 0 <= k < |st.claims| && st.claims[k] != -1 ==>
      0 <= st.claims[k] < n && st.claims[k] < |st.devices| && k < |keyboards| && st.devices[st.claims[k]] == keyboards[k].device
  }

  /** Each of the first `n` listeners that is paired is the one claiming its keyboard. */
  predicate DevicesClaimed(keyboards: seq<Keyboard>, st: PairState, n: nat)
  {
    forall l :: 0 <= l < n && l < |st.devices| && st.devices[l] != INVALID_HANDLE ==>
      var k := FindKeyboard(keyboards, st.devices[l]);
      k != -1 && k < |st.claims| && st.claims[k] == l
  }

  /**
   * `keyboard_to_listener` and the listeners' devices describe one
   * matching: a keyboard is claimed by the listener paired with it, and a
   * paired listener by its keyboard.
   */
  predicate Matching(keyboards: seq<Keyboard>, st: PairState)
  {
    ClaimsBelow(keyboards, st, |st.devices|) && DevicesClaimed(keyboards, st, |st.devices|)
  }

  /** In a matching no two listeners share a keyboard. */
  lemma MatchingDistinct(keyboards: seq<Keyboard>, st: PairState)
    requires Matching(keyboards, st)
    ensures DistinctPaired(st.devices) && Paired(keyboards, st)
  {
  }

  lemma RefreshStepMatching(keyboards: seq<Keyboard>, st: PairState, n: nat)
    requires n < |st.devices| && |st.claims| == |keyboards|
    requires ClaimsBelow(keyboards, st, n) && DevicesClaimed(keyboards, st, n) && DistinctPaired(st.devices)
    ensures var r := RefreshStep(keyboards, st, n);
      ClaimsBelow(keyboards, r, n + 1) && DevicesClaimed(keyboards, r, n + 1) && DistinctPaired(r.devices)
  {
    var r := RefreshStep(keyboards, st, n);
    if st.devices[n] != INVALID_HANDLE {
      var i := FindKeyboard(keyboards, st.devices[n]);
      if i != -1 {
        forall l | 0 <= l < n && st.devices[l] != INVALID_HANDLE
          ensures FindKeyboard(keyboards, st.devices[l]) != i
        {
        }
      }
    }
  }

  /** The refresh of a pairing without shared keyboards leaves a matching over the refreshed listeners. */
  lemma {:induction false} RefreshedMatching(keyboards: seq<Keyboard>, st: PairState, n: nat)
    requires n <= |st.devices| && |st.claims| == |keyboards|
    requires DistinctPaired(st.devices) && forall k :: 0 <= k < |st.claims| ==> st.claims[k] == -1
    ensures var r := Refreshed(keyboards, st, n);
      ClaimsBelow(keyboards, r, n) && DevicesClaimed(keyboards, r, n) && DistinctPaired(r.devices)
    decreases n
  {
    // `NoClaims` starts the invariant and the step lemma carries it across
    // each listener; the definitions of the invariant are not needed here.
    hide ClaimsBelow, DevicesClaimed, DistinctPaired;
    if n == 0 {
      NoClaims(keyboards, st);
    } else {
      RefreshedMatching(keyboards, st, n - 1);
      RefreshStepMatching(keyboards, Refreshed(keyboards, st, n - 1), n - 1);
    }
  }

  /** With no keyboard claimed, no listener is claimed yet. */
  lemma NoClaims(keyboards: seq<Keyboard>, st: PairState)
    requires forall k :: 0 <= k < |st.claims| ==> st.claims[k] == -1
    ensures ClaimsBelow(keyboards, st, 0) && DevicesClaimed(keyboards, st, 0)
  {
  }

  /** Claiming a free keyboard for an unpaired listener keeps a matching. */
  lemma ClaimMatching(keyboards: seq<Keyboard>, st: PairState, l: nat, b: nat)
    requires l < |st.devices| && b < |keyboards| == |st.claims| && Matching(keyboards, st)
    requires DistinctDevices(keyboards) && RealDevices(keyboards) && st.claims[b] == -1
    requires st.devices[l] == INVALID_HANDLE
    ensures Matching(keyboards, Claim(keyboards, st, l, b))
  {
    FindOwnDevice(keyboards, b);
    var r := Claim(keyboards, st, l, b);
    forall k | 0 <= k < |st.claims| && st.claims[k] != -1 ensures st.claims[k] != l {
    }
    assert ClaimsBelow(keyboards, r, |r.devices|);
  }

  /** Moving a paired listener from its keyboard to a free one keeps a matching. */
  lemma MoveMatching(keyboards: seq<Keyboard>, st: PairState, l: nat, b: nat)
    requires l < |st.devices| && b < |keyboards| == |st.claims| && Matching(keyboards, st)
    requires DistinctDevices(keyboards) && RealDevices(keyboards) && st.claims[b] == -1
    requires st.devices[l] != INVALID_HANDLE
    ensures Matching(keyboards, Claim(keyboards, st.(claims := st.claims[FindKeyboard(keyboards, st.devices[l]) := -1]), l, b))
  {
    var cur := FindKeyboard(keyboards, st.devices[l]);
    var r := Claim(keyboards, st.(claims := st.claims[cur := -1]), l, b);
    forall k | 0 <= k < |r.claims| && r.claims[k] != -1
      ensures 0 <= r.claims[k] < |r.devices| && r.devices[r.claims[k]] == keyboards[k].device
    {
    }
    forall m | 0 <= m < |r.devices| && r.devices[m] != INVALID_HANDLE
      ensures FindKeyboard(keyboards, r.devices[m]) != -1 && r.claims[FindKeyboard(keyboards, r.devices[m])] == m
    {
      if m == l {
        FindOwnDevice(keyboards, b);
      } else {
        assert FindKeyboard(keyboards, r.devices[m]) != b && FindKeyboard(keyboards, r.devices[m]) != cur;
      }
    }
  }

  lemma Phase1StepMatching(keyboards: seq<Keyboard>, modes: seq<PairingMode>, st: PairState, l: nat)
    requires l < |st.devices| == |modes| && |st.claims| == |keyboards| && Matching(keyboards, st)
    requires DistinctDevices(keyboards) && RealDevices(keyboards)
    ensures Matching(keyboards, Phase1Step(keyboards, modes, st, l))
  {
    if st.devices[l] == INVALID_HANDLE && SeeksMostRecent(modes[l]) {
      var b := MostRecent(keyboards, st.claims, 0, |keyboards|);
      if b.index != -1 {
        ClaimMatching(keyboards, st, l, b.index);
      }
    }
  }

  lemma Phase2StepMatching(keyboards: seq<Keyboard>, modes: seq<PairingMode>, st: PairState, l: nat)
    requires l < |st.devices| == |modes| && |st.claims| == |keyboards| && Matching(keyboards, st)
    requires DistinctDevices(keyboards) && RealDevices(keyboards)
    ensures Paired(keyboards, st) && Matching(keyboards, Phase2Step(keyboards, modes, st, l))
  {
    MatchingDistinct(keyboards, st);
    if st.devices[l] != INVALID_HANDLE && modes[l] == PairingMostRecentPersistent {
      var current := FindKeyboard(keyboards, st.devices[l]);
      var b := MostRecent(keyboards, st.claims, keyboards[current].frameTimestamp, |keyboards|);
      if b.index != -1 {
        MoveMatching(keyboards, st, l, b.index);
      }
    }
  }

  lemma {:induction false} Phase1Matching(keyboards: seq<Keyboard>, modes: seq<PairingMode>, st: PairState, n: nat)
    requires n <= |st.devices| == |modes| && |st.claims| == |keyboards| && Matching(keyboards, st)
    requires DistinctDevices(keyboards) && RealDevices(keyboards)
    ensures Matching(keyboards, Phase1(keyboards, modes, st, n))
    decreases n
  {
    // The step lemmas carry the matching across each listener; the
    // definitions of a matching and of a step are not needed here.
    hide Matching, Phase1Step, MostRecent;
    if n > 0 {
      Phase1Matching(keyboards, modes, st, n - 1);
      Phase1StepMatching(keyboards, modes, Phase1(keyboards, modes, st, n - 1), n - 1);
    }
  }

  lemma {:induction false} Phase2Matching(keyboards: seq<Keyboard>, modes: seq<PairingMode>, st: PairState, n: nat)
    requires n <= |st.devices| == |modes| && |st.claims| == |keyboards| && Matching(keyboards, st)
    requires DistinctDevices(keyboards) && RealDevices(keyboards)
    ensures Paired(keyboards, st) && Matching(keyboards, Phase2(keyboards, modes, st, n))
    decreases n
  {
    // The step lemmas carry the matching across each listener; the
    // definitions of a matching and of a step are not needed here.
    hide Matching, Paired, Phase2Step, MostRecent, FindKeyboard;
    MatchingDistinct(keyboards, st);
    if n > 0 {
      Phase2Matching(keyboards, modes, st, n - 1);
      Phase2StepMatching(keyboards, modes, Phase2(keyboards, modes, st, n - 1), n - 1);
    }
  }

  /**
   * Pairing keeps one keyboard per listener from frame to frame: when no
   * two listeners shared a keyboard before, the claims and the devices
   * afterwards form a matching, so again no two listeners share one.
   */
  lemma PairingsMatching(keyboards: seq<Keyboard>, devices: seq<Handle>, modes: seq<PairingMode>)
    requires |devices| == |modes| && DistinctPaired(devices)
    requires DistinctDevices(keyboards) && RealDevices(keyboards)
    ensures var r := Pairings(keyboards, devices, modes);
      Matching(keyboards, r) && DistinctPaired(r.devices)
  {
    var st0 := PairState(devices, seq(|keyboards|, _ => -1));
    RefreshedMatching(keyboards, st0, |devices|);
    var st1 := Refreshed(keyboards, st0, |devices|);
    Phase1Paired(keyboards, modes, st1, |devices|);
    Phase1Matching(keyboards, modes, st1, |devices|);
    var st2 := Phase1(keyboards, modes, st1, |devices|);
    Phase2Matching(keyboards, modes, st2, |devices|);
    MatchingDistinct(keyboards, Pairings(keyboards, devices, modes));
  }

  // ---- the imperative pass ----

  /** The timestamp scan of both phases. */
  method ScanMostRecent(keyboards: seq<Keyboard>, claims: array<int>, floor: nat) returns (b: Best)
    requires claims.Length == |keyboards|
    ensures b == MostRecent(keyboards, claims[..], floor, |keyboards|)
  {
    var timestamp := floor;
    var index := -1;
    var ikeyb := 0;
    while ikeyb != |keyboards|
      invariant 0 <= ikeyb <= |keyboards|
      invariant Best(index, timestamp) == MostRecent(keyboards, claims[..], floor, ikeyb)
    {
      if claims[ikeyb] == -1 && keyboards[ikeyb].frameTimestamp > timestamp {
        timestamp := keyboards[ikeyb].frameTimestamp;
        index := ikeyb;
      }
      ikeyb := ikeyb + 1;
    }
    b := Best(index, timestamp);
  }

  /** The reset and the refresh loop. */
  method RefreshPairings(keyboards: seq<Keyboard>, devices: array<Handle>, claims: array<int>)
    requires devices != claims && claims.Length == |keyboards|
    modifies devices, claims
    ensures PairState(devices[..], claims[..]) ==
      Refreshed(keyboards, PairState(old(devices[..]), seq(|keyboards|, _ => -1)), devices.Length)
  {
    var ikeyb := 0;
    while ikeyb != claims.Length
      invariant 0 <= ikeyb <= claims.Length && devices[..] == old(devices[..])
      invariant forall k :: 0 <= k < ikeyb ==> claims[k] == -1
    {
      claims[ikeyb] := -1;
      ikeyb := ikeyb + 1;
    }
    ghost var st0 := PairState(devices[..], claims[..]);
    assert st0 == PairState(old(devices[..]), seq(|keyboards|, _ => -1));
    var ilist := 0;
    while ilist != devices.Length
      invariant 0 <= ilist <= devices.Length
      invariant PairState(devices[..], claims[..]) == Refreshed(keyboards, st0, ilist)
    {
      if devices[ilist] != INVALID_HANDLE {
        var index := SearchKeyboardByDevice(keyboards, devices[ilist]);
        if index == -1 {
          devices[ilist] := INVALID_HANDLE;
        } else {
          claims[index] := ilist;
        }
      }
      ilist := ilist + 1;
    }
  }

  /** Phase 1 for listener `ilist`, the body of the phase 1 loop. */
  method PairOne(keyboards: seq<Keyboard>, devices: array<Handle>, modes: seq<PairingMode>, claims: array<int>, ilist: nat)
    requires devices != claims && claims.Length == |keyboards| && devices.Length == |modes| && ilist < devices.Length
    modifies devices, claims
    ensures PairState(devices[..], claims[..]) == Phase1Step(keyboards, modes, PairState(old(devices[..]), old(claims[..])), ilist)
  {
    if devices[ilist] == INVALID_HANDLE && SeeksMostRecent(modes[ilist]) {
      var b := ScanMostRecent(keyboards, claims, 0);
      if b.index != -1 {
        devices[ilist] := keyboards[b.index].device;
        claims[b.index] := ilist;
      }
    }
  }

  /** The phase 1 loop. */
  method PairUnpaired(keyboards: seq<Keyboard>, devices: array<Handle>, modes: seq<PairingMode>, claims: array<int>)
    requires devices != claims && claims.Length == |keyboards| && devices.Length == |modes|
    modifies devices, claims
    ensures PairState(devices[..], claims[..]) == Phase1(keyboards, modes, PairState(old(devices[..]), old(claims[..])), |modes|)
  {
    ghost var st := PairState(devices[..], claims[..]);
    var ilist := 0;
    while ilist != devices.Length
      invariant 0 <= ilist <= devices.Length
      invariant PairState(devices[..], claims[..]) == Phase1(keyboards, modes, st, ilist)
    {
      PairOne(keyboards, devices, modes, claims, ilist);
      ilist := ilist + 1;
    }
  }

  /** Phase 2 for listener `ilist`, the body of the phase 2 loop. */
  method MoveOne(keyboards: seq<Keyboard>, devices: array<Handle>, modes: seq<PairingMode>, claims: array<int>, ilist: nat)
    requires devices != claims && claims.Length == |keyboards| && devices.Length == |modes| && ilist < devices.Length
    requires Paired(keyboards, PairState(devices[..], claims[..]))
    modifies devices, claims
    ensures PairState(devices[..], claims[..]) == Phase2Step(keyboards, modes, PairState(old(devices[..]), old(claims[..])), ilist)
  {
    if devices[ilist] != INVALID_HANDLE && modes[ilist] == PairingMostRecentPersistent {
      var current := SearchKeyboardByDevice(keyboards, devices[ilist]);
      var b := ScanMostRecent(keyboards, claims, keyboards[current].frameTimestamp);
      if b.index != -1 {
        claims[current] := -1;
        claims[b.index] := ilist;
        devices[ilist] := keyboards[b.index].device;
      }
    }
  }

  /** The phase 2 loop. */
  method MovePersistent(keyboards: seq<Keyboard>, devices: array<Handle>, modes: seq<PairingMode>, claims: array<int>)
    requires devices != claims && claims.Length == |keyboards| && devices.Length == |modes|
    requires Paired(keyboards, PairState(devices[..], claims[..]))
    modifies devices, claims
    ensures PairState(devices[..], claims[..]) == Phase2(keyboards, modes, PairState(old(devices[..]), old(claims[..])), |modes|)
  {
    ghost var st := PairState(devices[..], claims[..]);
    var ilist := 0;
    while ilist != devices.Length
      invariant 0 <= ilist <= devices.Length
      invariant PairState(devices[..], claims[..]) == Phase2(keyboards, modes, st, ilist)
    {
      MoveOne(keyboards, devices, modes, claims, ilist);
      ilist := ilist + 1;
    }
  }

  /**
   * `update_device_listener_pairings`: `devices` holds each listener's
   * device and `claims` is `keyboard_to_listener`, one entry per keyboard.
   */
  method UpdateDeviceListenerPairings(keyboards: seq<Keyboard>, devices: array<Handle>, modes: seq<PairingMode>, claims: array<int>)
    requires devices != claims && claims.Length == |keyboards| && devices.Length == |modes|
    modifies devices, claims
    ensures PairState(devices[..], claims[..]) == Pairings(keyboards, old(devices[..]), modes)
  {
    RefreshPairings(keyboards, devices, claims);
    ghost var st1 := PairState(devices[..], claims[..]);
    PairUnpaired(keyboards, devices, modes, claims);
    Phase1Paired(keyboards, modes, st1, |modes|);
    MovePersistent(keyboards, devices, modes, claims);
  }
}
