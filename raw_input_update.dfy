/**
 * `update_listener_states` and `update_input` (engine_win32.cpp): once a
 * frame, the keyboards are reconciled with the device list, paired with the
 * listeners, and every paired listener's actions take the button states of
 * its keyboard's keys.
 */
module RawInputUpdate {
  import opened Input
  import opened RawInput
  import opened Pairing

  /** The scancode bound `update_listener_states` asserts, as written: at most the key count. */
  predicate ScancodeCheckAsWritten(scancode: nat)
  {
    scancode <= KEY_COUNT
  }

  /**
   * The assertion as written lets scancode 255 through, which is one past
   * the last of a keyboard's 255 keys; the model requires scancodes below
   * the key count instead.
   */
  lemma ScancodeCheckOffByOne(kb: Keyboard, action: Action)
    requires |kb.keys| == KEY_COUNT && action.scancode == KEY_COUNT
    ensures ScancodeCheckAsWritten(action.scancode) && action.scancode >= |kb.keys|
    ensures !ScancodesBelow([action], |kb.keys|)
  {
    assert !ScancodesBelow([action], |kb.keys|) by {
      assert [action][0].scancode == |kb.keys|;
    }
  }

  /** The last of the first `n` keyboards that `claims` gives to listener `l`, or -1. */
  function LastClaim(claims: seq<int>, l: int, n: nat): (k: int)
    requires n <= |claims|
    ensures k == -1 ==> forall j :: 0 <= j < n ==> claims[j] != l
    ensures k != -1 ==> 0 <= k < n && claims[k] == l && forall j :: k < j < n ==> claims[j] != l
    decreases n
  {
    if n == 0 then -1 else if claims[n - 1] == l then n - 1 else LastClaim(claims, l, n - 1)
  }

  /** In a matching, the keyboard claiming a paired listener is the one it is paired with. */
  lemma LastClaimOfMatching(keyboards: seq<Keyboard>, st: PairState, l: nat)
    requires Matching(keyboards, st) && |st.claims| == |keyboards| && l < |st.devices|
    requires DistinctDevices(keyboards) && RealDevices(keyboards)
    ensures var k := LastClaim(st.claims, l, |st.claims|);
      (k == -1 <==> st.devices[l] == INVALID_HANDLE)
      && (k != -1 ==> k == FindKeyboard(keyboards, st.devices[l]))
  {
    var k := LastClaim(st.claims, l, |st.claims|);
    if k != -1 {
      FindOwnDevice(keyboards, k);
    }
  }

  /** In a matching every claim is -1 or a listener index. */
  lemma ClaimsInRange(keyboards: seq<Keyboard>, st: PairState)
    requires Matching(keyboards, st)
    ensures forall k :: 0 <= k < |st.claims| ==> -1 <= st.claims[k] < |st.devices|
  {
  }

  /** The listeners are distinct objects over distinct action tables and buffers. */
  ghost predicate Separate(listeners: seq<Listener>)
    reads set l | 0 <= l < |listeners| :: listeners[l]
    reads set l | 0 <= l < |listeners| :: listeners[l].actions
  {
    forall i, j :: 0 <= i < j < |listeners| ==>
      listeners[i] != listeners[j] && listeners[i].actions != listeners[j].actions
      && listeners[i].actions.buffer != listeners[j].actions.buffer
  }

  /**
   * What the first `n` keyboards of `update_listener_states` leave in
   * listener `l`'s table: the keys of the last of them claiming it, if any.
   */
  function ListenerState(keyboards: seq<Keyboard>, claims: seq<int>, l: int, n: nat, actions: seq<Action>): (r: seq<Action>)
    requires n <= |claims| == |keyboards| && WellFormed(keyboards) && ScancodesBelow(actions, KEY_COUNT)
    ensures |r| == |actions| && ScancodesBelow(r, KEY_COUNT)
    ensures LastClaim(claims, l, n) == -1 ==> r == actions
    ensures LastClaim(claims, l, n) != -1 ==> r == Keyed(actions, keyboards[LastClaim(claims, l, n)].keys)
  {
    var k := LastClaim(claims, l, n);
    if k == -1 then actions else Keyed(actions, keyboards[k].keys)
  }

  /** One more keyboard: its listener's table takes its keys, every other listener's is as before. */
  lemma ListenerStateStep(keyboards: seq<Keyboard>, claims: seq<int>, l: int, n: nat, actions: seq<Action>)
    requires n < |claims| == |keyboards| && WellFormed(keyboards) && ScancodesBelow(actions, KEY_COUNT)
    ensures claims[n] != l ==> ListenerState(keyboards, claims, l, n + 1, actions) == ListenerState(keyboards, claims, l, n, actions)
    ensures claims[n] == l ==>
      ListenerState(keyboards, claims, l, n + 1, actions) == Keyed(ListenerState(keyboards, claims, l, n, actions), keyboards[n].keys)
  {
    var previous := LastClaim(claims, l, n);
    if claims[n] == l && previous != -1 {
      KeyedLatestWins(actions, keyboards[previous].keys, keyboards[n].keys);
    }
  }

  /** The listeners' action tables. */
  ghost function Tables(listeners: seq<Listener>): (r: seq<seq<Action>>)
    reads set l | 0 <= l < |listeners| :: listeners[l]
    reads set l | 0 <= l < |listeners| :: listeners[l].actions
    reads set l | 0 <= l < |listeners| :: listeners[l].actions.buffer
    requires forall l :: 0 <= l < |listeners| ==> listeners[l].Valid()
    ensures |r| == |listeners| && forall l :: 0 <= l < |listeners| ==> r[l] == listeners[l].Actions()
  {
    if listeners == [] then [] else [listeners[0].Actions()] + Tables(listeners[1..])
  }

  /**
   * `update_listener_states`: for each keyboard claimed by a listener,
   * every action of that listener takes the state of the key at its
   * scancode.  Every listener's scancodes must index the key table.
   */
  method UpdateListenerStates(keyboards: seq<Keyboard>, claims: array<int>, listeners: seq<Listener>)
    requires WellFormed(keyboards) && claims.Length == |keyboards|
    requires forall k :: 0 <= k < claims.Length ==> -1 <= claims[k] < |listeners|
    requires Separate(listeners)
    requires forall l :: 0 <= l < |listeners| ==> listeners[l].Valid() && ScancodesBelow(listeners[l].Actions(), KEY_COUNT)
    modifies set l | 0 <= l < |listeners| :: listeners[l].actions.buffer
    ensures forall l :: 0 <= l < |listeners| ==>
      listeners[l].Valid() && listeners[l].Actions() == ListenerState(keyboards, claims[..], l, claims.Length, old(listeners[l].Actions()))
  {
    // The loop only passes these facts along to its step; their
    // definitions are not needed here.
    hide ListenerState, Separate, ScancodesBelow, LastClaim, Keyed, Listener.Valid, Listener.Actions;
    ghost var before := Tables(listeners);
    var claimed := claims[..];
    var ikeyb := 0;
    while ikeyb != |keyboards|
      invariant 0 <= ikeyb <= |keyboards|
      invariant Separate(listeners)
      invariant forall l :: 0 <= l < |listeners| ==>
        listeners[l].Valid() && listeners[l].Actions() == ListenerState(keyboards, claimed, l, ikeyb, before[l])
    {
      KeyboardStep(keyboards, claimed, ikeyb, listeners, before);
      ikeyb := ikeyb + 1;
    }
  }

  /** The pass for keyboard `ikeyb`: the listener claiming it, if any, takes its keys. */
  method KeyboardStep(keyboards: seq<Keyboard>, claims: seq<int>, ikeyb: nat, listeners: seq<Listener>, ghost before: seq<seq<Action>>)
    requires WellFormed(keyboards) && ikeyb < |keyboards| == |claims| && -1 <= claims[ikeyb] < |listeners|
    requires Separate(listeners) && |before| == |listeners|
    requires forall l :: 0 <= l < |listeners| ==> ScancodesBelow(before[l], KEY_COUNT)
    requires forall l :: 0 <= l < |listeners| ==>
      listeners[l].Valid() && listeners[l].Actions() == ListenerState(keyboards, claims, l, ikeyb, before[l])
    modifies set l | 0 <= l < |listeners| :: listeners[l].actions.buffer
    ensures forall l :: 0 <= l < |listeners| ==>
      listeners[l].Valid() && listeners[l].Actions() == ListenerState(keyboards, claims, l, ikeyb + 1, before[l])
  {
    var index := claims[ikeyb];
    if index != -1 {
      ApplyToListener(keyboards, claims, ikeyb, listeners);
    }
    forall l | 0 <= l < |listeners|
      ensures listeners[l].Actions() == ListenerState(keyboards, claims, l, ikeyb + 1, before[l])
    {
      ListenerStateStep(keyboards, claims, l, ikeyb, before[l]);
    }
  }

  /** One keyboard's step of `update_listener_states`: its listener takes its keys, the others are untouched. */
  method ApplyToListener(keyboards: seq<Keyboard>, claims: seq<int>, ikeyb: nat, listeners: seq<Listener>)
    requires WellFormed(keyboards) && ikeyb < |keyboards| == |claims| && 0 <= claims[ikeyb] < |listeners|
    requires Separate(listeners) && forall l :: 0 <= l < |listeners| ==> listeners[l].Valid()
    requires ScancodesBelow(listeners[claims[ikeyb]].Actions(), KEY_COUNT)
    modifies listeners[claims[ikeyb]].actions.buffer
    ensures forall l :: 0 <= l < |listeners| ==> listeners[l].Valid()
    ensures forall l :: 0 <= l < |listeners| && l != claims[ikeyb] ==> listeners[l].Actions() == old(listeners[l].Actions())
    ensures listeners[claims[ikeyb]].Actions() == Keyed(old(listeners[claims[ikeyb]].Actions()), keyboards[ikeyb].keys)
  {
    var listener := listeners[claims[ikeyb]];
    listener.ApplyKeys(keyboards[ikeyb].keys);
  }

  /** No device list entry carries `INVALID_HANDLE_VALUE`. */
  predicate RealEntries(devices: seq<DeviceEntry>)
  {
    forall e :: 0 <= e < |devices| ==> devices[e].handle != INVALID_HANDLE
  }

  /** Reconciling real keyboards against real entries leaves real keyboards. */
  lemma ReconciledReal(keyboards: seq<Keyboard>, devices: seq<DeviceEntry>)
    requires DistinctDevices(keyboards) && RealDevices(keyboards) && RealEntries(devices)
    ensures RealDevices(Reconciled(keyboards, devices))
  {
    if devices != [] {
      ReconciledProperties(keyboards, devices);
      var r := Reconciled(keyboards, devices);
      forall k | 0 <= k < |r| ensures r[k].device != INVALID_HANDLE {
        assert InList(devices, r[k].device);
      }
    }
  }

  /**
   * What a listener's table shows after a frame: an unpaired listener's is
   * unchanged, a paired listener's holds its own keyboard's keys.
   */
  predicate SeesOwnKeyboard(keyboards: seq<Keyboard>, device: Handle, before: seq<Action>, after: seq<Action>)
  {
    if device == INVALID_HANDLE then after == before
    else
      var k := FindKeyboard(keyboards, device);
      0 <= k < |keyboards| && ScancodesBelow(before, |keyboards[k].keys|) && after == Keyed(before, keyboards[k].keys)
  }

  /** Through a matching, `update_listener_states` shows each listener its own keyboard. */
  lemma SeesOwnKeyboardOfMatching(keyboards: seq<Keyboard>, st: PairState, l: nat, before: seq<Action>, after: seq<Action>)
    requires Matching(keyboards, st) && |st.claims| == |keyboards| && l < |st.devices|
    requires WellFormed(keyboards) && DistinctDevices(keyboards) && RealDevices(keyboards)
    requires ScancodesBelow(before, KEY_COUNT) && after == ListenerState(keyboards, st.claims, l, |st.claims|, before)
    ensures SeesOwnKeyboard(keyboards, st.devices[l], before, after)
  {
    LastClaimOfMatching(keyboards, st, l);
  }

  /**
   * The pairing step of `update_input`: a fresh `keyboard_to_listener`,
   * filled by `update_device_listener_pairings`.
   */
  method PairListeners(keyboards: seq<Keyboard>, listenerDevices: array<Handle>, modes: seq<PairingMode>) returns (claims: array<int>)
    requires DistinctDevices(keyboards) && RealDevices(keyboards)
    requires listenerDevices.Length == |modes| && DistinctPaired(listenerDevices[..])
    modifies listenerDevices
    ensures fresh(claims) && claims.Length == |keyboards|
    ensures PairState(listenerDevices[..], claims[..]) == Pairings(keyboards, old(listenerDevices[..]), modes)
    ensures Matching(keyboards, PairState(listenerDevices[..], claims[..])) && DistinctPaired(listenerDevices[..])
  {
    claims := new int[|keyboards|];
    PairingsMatching(keyboards, listenerDevices[..], modes);
    UpdateDeviceListenerPairings(keyboards, listenerDevices, modes, claims);
  }

  /**
   * The listener step of `update_input`: `update_listener_states` over a
   * matching shows each paired listener its own keyboard.
   */
  method ShowKeyboards(keyboards: seq<Keyboard>, claims: array<int>, listeners: seq<Listener>, ghost devices: seq<Handle>)
    requires WellFormed(keyboards) && DistinctDevices(keyboards) && RealDevices(keyboards)
    requires claims.Length == |keyboards| && |devices| == |listeners| && Matching(keyboards, PairState(devices, claims[..]))
    requires Separate(listeners)
    requires forall l :: 0 <= l < |listeners| ==> listeners[l].Valid() && ScancodesBelow(listeners[l].Actions(), KEY_COUNT)
    modifies set l | 0 <= l < |listeners| :: listeners[l].actions.buffer
    ensures forall l :: 0 <= l < |listeners| ==>
      listeners[l].Valid() && SeesOwnKeyboard(keyboards, devices[l], old(listeners[l].Actions()), listeners[l].Actions())
  {
    ghost var p := PairState(devices, claims[..]);
    ClaimsInRange(keyboards, p);
    UpdateListenerStates(keyboards, claims, listeners);
    forall l | 0 <= l < |listeners|
      ensures SeesOwnKeyboard(keyboards, devices[l], old(listeners[l].Actions()), listeners[l].Actions())
    {
      SeesOwnKeyboardOfMatching(keyboards, p, l, old(listeners[l].Actions()), listeners[l].Actions());
    }
  }

  /**
   * A frame of `update_input`: the keyboards are reconciled with the
   * device list, the listeners are paired and take their keyboards' keys,
   * and the frame counter moves on.  `listenerDevices` holds the
   * listeners' `device` fields and `modes` their pairing modes.  When no
   * two listeners shared a keyboard before, none do after, and each paired
   * listener shows its own keyboard's keys.
   */
  method UpdateInput(state: RawInputState, devices: seq<DeviceEntry>, failed: bool,
                     listenerDevices: array<Handle>, listeners: seq<Listener>, modes: seq<PairingMode>)
    requires state.Valid() && RealDevices(state.keyboards) && RealEntries(devices)
    requires listenerDevices.Length == |listeners| == |modes| && DistinctPaired(listenerDevices[..])
    requires Separate(listeners)
    requires forall l :: 0 <= l < |listeners| ==> listeners[l].Valid() && ScancodesBelow(listeners[l].Actions(), KEY_COUNT)
    requires forall l :: 0 <= l < |listeners| ==> modes[l] == listeners[l].pairingMode
    modifies state, listenerDevices, set l | 0 <= l < |listeners| :: listeners[l].actions.buffer
    ensures state.Valid() && RealDevices(state.keyboards) && state.frameCounter == old(state.frameCounter) + 1
    ensures state.keyboards == if failed then old(state.keyboards) else Reconciled(old(state.keyboards), devices)
    ensures listenerDevices[..] == Pairings(state.keyboards, old(listenerDevices[..]), modes).devices
    ensures DistinctPaired(listenerDevices[..])
    ensures forall l :: 0 <= l < |listeners| ==>
      listeners[l].Valid() && SeesOwnKeyboard(state.keyboards, listenerDevices[l], old(listeners[l].Actions()), listeners[l].Actions())
  {
    // The steps below are chained through their contracts; the
    // definitions these name are not needed here.
    hide Pairings, DistinctPaired, Matching, SeesOwnKeyboard, ScancodesBelow, Separate, Reconciled, WellFormed, DistinctDevices, RealDevices;
    if !failed {
      ReconciledReal(state.keyboards, devices);
    }
    state.UpdateConnectedDevices(devices, failed);
    // `update_input` moves the counter on last; only key events read it,
    // so moving it on before the listener passes changes nothing
    state.EndFrame();
    var keyboards := state.keyboards;
    var claims := PairListeners(keyboards, listenerDevices, modes);
    ShowKeyboards(keyboards, claims, listeners, listenerDevices[..]);
  }
}
