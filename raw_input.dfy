/**
 * The RawInput keyboards of the Win32 input layer (engine_win32.cpp): the
 * table from the sixteen keys of the RAM keypad to keyboard scancodes, the
 * connected keyboards with the state of their 255 keys, their
 * reconciliation against the system's device list, the key transitions of a
 * WM_INPUT message, and the copy of key states into listeners' actions.
 */
module RawInput {
  import Input

  /** A device handle; `INVALID_HANDLE` is `INVALID_HANDLE_VALUE`. */
  type Handle = int
  const INVALID_HANDLE: Handle := -1

  /** The length of `Keyboard_RawInput::keys` and of the scancode table. */
  const KEY_COUNT: nat := 255
  const NO_SCANCODE: bv8 := 0xFF

  /** `RI_KEY_MAKE` and `RI_KEY_BREAK`, the key flags of a RAWKEYBOARD record. */
  const RI_KEY_MAKE: nat := 0
  const RI_KEY_BREAK: nat := 1

  /** The scancodes of RAMK_1 … RAMK_V, in the order of `RAM_Key`. */
  const RAM_KEY_SCANCODES: seq<bv8> := [2, 3, 4, 5, 16, 17, 18, 19, 30, 31, 32, 33, 44, 45, 46, 47]
  const RAM_KEY_COUNT: nat := 16

  /** `Keyboard_RawInput`. */
  datatype Keyboard = Keyboard(device: Handle, frameTimestamp: nat, keys: seq<Input.Button>)

  /** One entry of `GetRawInputDeviceList`: a handle and whether it is a RIM_TYPEKEYBOARD device. */
  datatype DeviceEntry = DeviceEntry(handle: Handle, isKeyboard: bool)

  predicate WellFormed(keyboards: seq<Keyboard>)
  {
    forall k :: 0 <= k < |keyboards| ==> |keyboards[k].keys| == KEY_COUNT
  }

  /** No two keyboards share a device. */
  predicate DistinctDevices(keyboards: seq<Keyboard>)
  {
    forall j, k :: 0 <= j < k < |keyboards| ==> keyboards[j].device != keyboards[k].device
  }

  // ---- the scancode table ----

  /** `create_input`'s table: 0xFF everywhere, then the scancode of each RAM key at its index. */
  method CreateScancodeTable() returns (table: array<bv8>)
    ensures fresh(table) && table.Length == KEY_COUNT
    ensures forall k :: 0 <= k < RAM_KEY_COUNT ==> table[k] == RAM_KEY_SCANCODES[k]
    ensures forall k :: RAM_KEY_COUNT <= k < KEY_COUNT ==> table[k] == NO_SCANCODE
  {
    table := new bv8[KEY_COUNT](_ => NO_SCANCODE);
    var key := 0;
    while key != RAM_KEY_COUNT
      invariant 0 <= key <= RAM_KEY_COUNT
      invariant forall k :: 0 <= k < key ==> table[k] == RAM_KEY_SCANCODES[k]
      invariant forall k :: key <= k < KEY_COUNT ==> table[k] == NO_SCANCODE
    {
      table[key] := RAM_KEY_SCANCODES[key];
      key := key + 1;
    }
  }

  /** `RAMKey_to_scancode`: the key must index the table and have a scancode. */
  method RAMKeyToScancode(table: array<bv8>, key: nat) returns (scancode: nat)
    requires key < table.Length && table[key] != NO_SCANCODE
    ensures scancode == table[key] as nat && scancode < KEY_COUNT
  {
    scancode := table[key] as nat;
  }

  /** Each scancode below the next one. */
  predicate Ascending(s: seq<bv8>)
  {
    forall i :: 0 <= i < |s| - 1 ==> s[i] < s[i + 1]
  }

  lemma {:induction false} AscendingIsStrictlySorted(s: seq<bv8>, j: nat, k: nat)
    requires Ascending(s) && j < k < |s|
    ensures s[j] < s[k]
    decreases k - j
  {
    if j + 1 < k {
      AscendingIsStrictlySorted(s, j + 1, k);
    }
  }

  /** The sixteen RAM keys have sixteen different scancodes, each a valid key index. */
  lemma ScancodesDistinct()
    ensures |RAM_KEY_SCANCODES| == RAM_KEY_COUNT
    ensures forall j, k :: 0 <= j < k < RAM_KEY_COUNT ==> RAM_KEY_SCANCODES[j] < RAM_KEY_SCANCODES[k]
    ensures forall k :: 0 <= k < RAM_KEY_COUNT ==> RAM_KEY_SCANCODES[k] != NO_SCANCODE && (RAM_KEY_SCANCODES[k] as nat) < KEY_COUNT
  {
    // one case per keypad row keeps the constant lookups small
    forall i | 0 <= i < RAM_KEY_COUNT - 1 ensures RAM_KEY_SCANCODES[i] < RAM_KEY_SCANCODES[i + 1] {
      if i < 8 {
        if i < 4 {} else {}
      } else {
        if i < 12 {} else {}
      }
    }
    forall j, k | 0 <= j < k < RAM_KEY_COUNT ensures RAM_KEY_SCANCODES[j] < RAM_KEY_SCANCODES[k] {
      AscendingIsStrictlySorted(RAM_KEY_SCANCODES, j, k);
    }
  }

  /** Every RAM key passes both of `RAMKey_to_scancode`'s assertions in the table `create_input` builds. */
  lemma EveryRAMKeyHasScancode(table: seq<bv8>, key: nat)
    requires |table| == KEY_COUNT && forall k :: 0 <= k < RAM_KEY_COUNT ==> table[k] == RAM_KEY_SCANCODES[k]
    requires key < RAM_KEY_COUNT
    ensures key < |table| && table[key] != NO_SCANCODE && (table[key] as nat) < KEY_COUNT
  {
    ScancodesDistinct();
  }

  // ---- finding keyboards ----

  /** The index of the first keyboard on `device`, or -1. */
  function FindKeyboard(keyboards: seq<Keyboard>, device: Handle): (r: int)
    ensures -1 <= r < |keyboards|
    ensures r == -1 <==> forall k :: 0 <= k < |keyboards| ==> keyboards[k].device != device
    ensures r != -1 ==>
      keyboards[r].device == device && forall k :: 0 <= k < r ==> keyboards[k].device != device
  {
    if keyboards == [] then -1
    else if keyboards[0].device == device then 0
    else var r := FindKeyboard(keyboards[1..], device); if r == -1 then -1 else r + 1
  }

  /** With distinct devices, the keyboard found for a keyboard's own device is that keyboard. */
  lemma FindOwnDevice(keyboards: seq<Keyboard>, k: nat)
    requires DistinctDevices(keyboards) && k < |keyboards|
    ensures FindKeyboard(keyboards, keyboards[k].device) == k
  {
  }

  /** `search_keyboard_by_device`. */
  method SearchKeyboardByDevice(keyboards: seq<Keyboard>, device: Handle) returns (index: int)
    ensures index == FindKeyboard(keyboards, device)
  {
    index := 0;
    while index != |keyboards|
      invariant 0 <= index <= |keyboards|
      invariant forall k :: 0 <= k < index ==> keyboards[k].device != device
    {
      if keyboards[index].device == device {
        FindKeyboardAt(keyboards, device, index);
        return;
      }
      index := index + 1;
    }
    index := -1;
  }

  lemma FindKeyboardAt(keyboards: seq<Keyboard>, device: Handle, i: nat)
    requires i < |keyboards| && keyboards[i].device == device
    requires forall k :: 0 <= k < i ==> keyboards[k].device != device
    ensures FindKeyboard(keyboards, device) == i
  {
  }

  /** `search_device_in_list`: whether a handle is in the device list. */
  method SearchDeviceInList(devices: seq<DeviceEntry>, handle: Handle) returns (index: int)
    ensures -1 <= index < |devices|
    ensures index == -1 <==> !InList(devices, handle)
    ensures index != -1 ==> devices[index].handle == handle
  {
    index := 0;
    while index != |devices|
      invariant 0 <= index <= |devices|
      invariant forall k :: 0 <= k < index ==> devices[k].handle != handle
    {
      if devices[index].handle == handle {
        return;
      }
      index := index + 1;
    }
    index := -1;
  }

  predicate InList(devices: seq<DeviceEntry>, handle: Handle)
  {
    exists k :: 0 <= k < |devices| && devices[k].handle == handle
  }

  // ---- reconciliation ----

  /** A keyboard as `create_Keyboard_RawInput` makes it, on a device. */
  function NewKeyboard(device: Handle): (kb: Keyboard)
    ensures kb.device == device && kb.frameTimestamp == 0 && |kb.keys| == KEY_COUNT
    ensures forall k :: 0 <= k < KEY_COUNT ==> kb.keys[k] == Input.Button(0, 0)
  {
    Keyboard(device, 0, seq(KEY_COUNT, _ => Input.Button(0, 0)))
  }

  /** The keyboards still in the device list, in their order. */
  function Connected(keyboards: seq<Keyboard>, devices: seq<DeviceEntry>): (r: seq<Keyboard>)
    ensures |r| <= |keyboards|
    ensures forall k :: 0 <= k < |r| ==> InList(devices, r[k].device)
    ensures forall k :: 0 <= k < |r| ==> r[k] in keyboards
  {
    if keyboards == [] then []
    else
      var rest := Connected(keyboards[1..], devices);
      if InList(devices, keyboards[0].device) then [keyboards[0]] + rest else rest
  }

  /** The keyboards after the connection pass over `devices[from..]`. */
  function WithNewKeyboards(keyboards: seq<Keyboard>, devices: seq<DeviceEntry>, from: nat): (r: seq<Keyboard>)
    requires from <= |devices|
    ensures |keyboards| <= |r| && r[..|keyboards|] == keyboards
    decreases |devices| - from
  {
    if from == |devices| then keyboards
    else
      var d := devices[from];
      var next := if d.isKeyboard && FindKeyboard(keyboards, d.handle) == -1 then keyboards + [NewKeyboard(d.handle)] else keyboards;
      assert next[..|keyboards|] == keyboards;
      var r := WithNewKeyboards(next, devices, from + 1);
      assert r[..|keyboards|] == r[..|next|][..|keyboards|];
      r
  }

  /** The keyboards `update_connected_devices_RawInput` leaves, given the device list. */
  function Reconciled(keyboards: seq<Keyboard>, devices: seq<DeviceEntry>): seq<Keyboard>
  {
    if devices == [] then keyboards else WithNewKeyboards(Connected(keyboards, devices), devices, 0)
  }

  /**
   * The connection pass keeps the devices distinct, and afterwards every
   * keyboard device of `devices[from..]` has a keyboard; every keyboard it
   * adds is a new keyboard on a listed keyboard device.
   */
  lemma {:induction false} NewKeyboardsProperties(keyboards: seq<Keyboard>, devices: seq<DeviceEntry>, from: nat)
    requires from <= |devices| && DistinctDevices(keyboards)
    ensures var r := WithNewKeyboards(keyboards, devices, from);
      DistinctDevices(r)
      && (forall k :: from <= k < |devices| && devices[k].isKeyboard ==> FindKeyboard(r, devices[k].handle) != -1)
      && (forall k :: |keyboards| <= k < |r| ==>
            r[k] == NewKeyboard(r[k].device) && exists d :: from <= d < |devices| && devices[d].isKeyboard && devices[d].handle == r[k].device)
  {
    NewKeyboardsDistinct(keyboards, devices, from);
    NewKeyboardsCover(keyboards, devices, from);
    NewKeyboardsListed(keyboards, devices, from);
  }

  /** The connection pass adds only devices that have no keyboard, so the devices stay distinct. */
  lemma {:induction false} NewKeyboardsDistinct(keyboards: seq<Keyboard>, devices: seq<DeviceEntry>, from: nat)
    requires from <= |devices| && DistinctDevices(keyboards)
    ensures DistinctDevices(WithNewKeyboards(keyboards, devices, from))
    decreases |devices| - from
  {
    if from < |devices| {
      var d := devices[from];
      if d.isKeyboard && FindKeyboard(keyboards, d.handle) == -1 {
        var next := keyboards + [NewKeyboard(d.handle)];
        forall j, k | 0 <= j < k < |next| ensures next[j].device != next[k].device {
          if k == |keyboards| {
            assert next[j] == keyboards[j];
          } else {
            assert next[j] == keyboards[j] && next[k] == keyboards[k];
          }
        }
        NewKeyboardsDistinct(next, devices, from + 1);
      } else {
        NewKeyboardsDistinct(keyboards, devices, from + 1);
      }
    }
  }

  /** One step of the connection pass: the keyboard device at `from` is added when it has no keyboard yet. */
  lemma NewKeyboardsStep(keyboards: seq<Keyboard>, devices: seq<DeviceEntry>, from: nat)
    requires from <= |devices|
    ensures from == |devices| ==> WithNewKeyboards(keyboards, devices, from) == keyboards
    ensures from < |devices| ==>
      var d := devices[from];
      var next := if d.isKeyboard && FindKeyboard(keyboards, d.handle) == -1 then keyboards + [NewKeyboard(d.handle)] else keyboards;
      WithNewKeyboards(keyboards, devices, from) == WithNewKeyboards(next, devices, from + 1)
  {
  }

  /** After the pass every keyboard device from `from` on has a keyboard. */
  lemma {:induction false} NewKeyboardsCover(keyboards: seq<Keyboard>, devices: seq<DeviceEntry>, from: nat)
    requires from <= |devices|
    ensures var r := WithNewKeyboards(keyboards, devices, from);
      forall k :: from <= k < |devices| && devices[k].isKeyboard ==> FindKeyboard(r, devices[k].handle) != -1
    decreases |devices| - from
  {
    // The pass is followed one device at a time through `NewKeyboardsStep`;
    // the body of `WithNewKeyboards` is not needed here.
    hide WithNewKeyboards;
    if from < |devices| {
      var d := devices[from];
      var added := d.isKeyboard && FindKeyboard(keyboards, d.handle) == -1;
      var next := if added then keyboards + [NewKeyboard(d.handle)] else keyboards;
      NewKeyboardsStep(keyboards, devices, from);
      NewKeyboardsCover(next, devices, from + 1);
      var r := WithNewKeyboards(next, devices, from + 1);
      if d.isKeyboard {
        if added {
          assert next[|keyboards|] == NewKeyboard(d.handle);
        }
        FoundInPrefix(next, r, d.handle);
      }
    }
  }

  /** Every keyboard the pass appends is a new keyboard on a listed keyboard device. */
  lemma {:induction false} NewKeyboardsListed(keyboards: seq<Keyboard>, devices: seq<DeviceEntry>, from: nat)
    requires from <= |devices|
    ensures var r := WithNewKeyboards(keyboards, devices, from);
      forall k :: |keyboards| <= k < |r| ==>
        r[k] == NewKeyboard(r[k].device) && exists d :: from <= d < |devices| && devices[d].isKeyboard && devices[d].handle == r[k].device
    decreases |devices| - from
  {
    // The pass is followed one device at a time through `NewKeyboardsStep`;
    // the body of `WithNewKeyboards` is not needed here.
    hide WithNewKeyboards, FindKeyboard;
    NewKeyboardsStep(keyboards, devices, from);
    if from < |devices| {
      var d := devices[from];
      var added := d.isKeyboard && FindKeyboard(keyboards, d.handle) == -1;
      var next := if added then keyboards + [NewKeyboard(d.handle)] else keyboards;
      NewKeyboardsListed(next, devices, from + 1);
      var r := WithNewKeyboards(next, devices, from + 1);
      forall k | |keyboards| <= k < |r|
        ensures r[k] == NewKeyboard(r[k].device)
        ensures exists e :: from <= e < |devices| && devices[e].isKeyboard && devices[e].handle == r[k].device
      {
        if k < |next| {
          assert r[k] == r[..|next|][k] == next[k] == NewKeyboard(d.handle);
          assert devices[from].isKeyboard && devices[from].handle == r[k].device;
        } else {
          var e :| from + 1 <= e < |devices| && devices[e].isKeyboard && devices[e].handle == r[k].device;
          assert from <= e;
        }
      }
    }
  }

  /** A device found among the first keyboards is found in the whole list. */
  lemma FoundInPrefix(keyboards: seq<Keyboard>, r: seq<Keyboard>, h: Handle)
    requires |keyboards| <= |r| && r[..|keyboards|] == keyboards && FindKeyboard(keyboards, h) != -1
    ensures FindKeyboard(r, h) != -1
  {
    var i := FindKeyboard(keyboards, h);
    assert r[i] == r[..|keyboards|][i];
  }

  lemma TailDistinct(keyboards: seq<Keyboard>)
    requires keyboards != [] && DistinctDevices(keyboards)
    ensures DistinctDevices(keyboards[1..])
    ensures forall k :: 0 <= k < |keyboards| - 1 ==> keyboards[1..][k].device != keyboards[0].device
  {
    var tail := keyboards[1..];
    forall j, k | 0 <= j < k < |tail| ensures tail[j].device != tail[k].device {
      assert tail[j] == keyboards[j + 1] && tail[k] == keyboards[k + 1];
    }
  }

  /** Dropping unlisted keyboards keeps the devices distinct. */
  lemma {:induction false} ConnectedDistinct(keyboards: seq<Keyboard>, devices: seq<DeviceEntry>)
    requires DistinctDevices(keyboards)
    ensures DistinctDevices(Connected(keyboards, devices))
  {
    if keyboards != [] {
      var tail := keyboards[1..];
      TailDistinct(keyboards);
      ConnectedDistinct(tail, devices);
      var rest := Connected(tail, devices);
      forall j | 0 <= j < |rest| ensures rest[j].device != keyboards[0].device {
        var t :| 0 <= t < |tail| && tail[t] == rest[j];
      }
      ConsDistinct(keyboards[0], rest);
    }
  }

  lemma ConsDistinct(head: Keyboard, rest: seq<Keyboard>)
    requires DistinctDevices(rest) && forall j :: 0 <= j < |rest| ==> rest[j].device != head.device
    ensures DistinctDevices([head] + rest)
  {
    var r := [head] + rest;
    forall j, k | 0 <= j < k < |r| ensures r[j].device != r[k].device {
      assert r[k] == rest[k - 1];
      if j > 0 {
        assert r[j] == rest[j - 1];
      }
    }
  }

  /** A keyboard whose device is listed survives the drop. */
  lemma {:induction false} ConnectedKeeps(keyboards: seq<Keyboard>, devices: seq<DeviceEntry>, k: nat)
    requires k < |keyboards| && InList(devices, keyboards[k].device)
    ensures keyboards[k] in Connected(keyboards, devices)
  {
    var r := Connected(keyboards, devices);
    if k == 0 {
      assert r[0] == keyboards[0];
    } else {
      var tail := keyboards[1..];
      assert keyboards[k] == tail[k - 1];
      ConnectedKeeps(tail, devices, k - 1);
      var rest := Connected(tail, devices);
      var i :| 0 <= i < |rest| && rest[i] == keyboards[k];
      if InList(devices, keyboards[0].device) {
        assert r[i + 1] == rest[i];
      }
    }
  }

  /**
   * After reconciliation against a non-empty device list, only listed
   * devices have keyboards, every listed keyboard device has one, no device
   * has two, and a keyboard that stayed connected keeps its keys and
   * timestamp.
   */
  lemma ReconciledProperties(keyboards: seq<Keyboard>, devices: seq<DeviceEntry>)
    requires DistinctDevices(keyboards) && devices != []
    ensures var r := Reconciled(keyboards, devices);
      DistinctDevices(r)
      && (forall k :: 0 <= k < |r| ==> InList(devices, r[k].device))
      && (forall d :: 0 <= d < |devices| && devices[d].isKeyboard ==> FindKeyboard(r, devices[d].handle) != -1)
      && (forall k :: 0 <= k < |keyboards| && InList(devices, keyboards[k].device) ==>
            keyboards[k] in r)
  {
    var kept := Connected(keyboards, devices);
    ConnectedDistinct(keyboards, devices);
    NewKeyboardsProperties(kept, devices, 0);
    var r := Reconciled(keyboards, devices);
    forall k | 0 <= k < |r| ensures InList(devices, r[k].device) {
      if k < |kept| {
        assert r[k] == r[..|kept|][k];
      } else {
        var e :| 0 <= e < |devices| && devices[e].isKeyboard && devices[e].handle == r[k].device;
      }
    }
    forall k | 0 <= k < |keyboards| && InList(devices, keyboards[k].device) ensures keyboards[k] in r {
      ConnectedKeeps(keyboards, devices, k);
      var i :| 0 <= i < |kept| && kept[i] == keyboards[k];
      assert r[i] == r[..|kept|][i];
    }
  }

  // ---- key transitions ----

  /** A key after a MAKE (`down` 1) or BREAK (`down` 0): one more transition exactly when the state changes. */
  function Pressed(key: Input.Button, down: int): (r: Input.Button)
    ensures r.down == down
    ensures r.transitionCount == key.transitionCount + (if key.down != down then 1 else 0)
  {
    Input.Button(down, key.transitionCount + (if key.down != down then 1 else 0))
  }

  /** A key after a run of MAKE/BREAK states. */
  function AfterEvents(key: Input.Button, downs: seq<int>): Input.Button
    decreases |downs|
  {
    if downs == [] then key else AfterEvents(Pressed(key, downs[0]), downs[1..])
  }

  /** The number of times a run of states differs from the state before it. */
  function Changes(down: int, downs: seq<int>): (n: nat)
    ensures n <= |downs|
    decreases |downs|
  {
    if downs == [] then 0 else (if downs[0] != down then 1 else 0) + Changes(downs[0], downs[1..])
  }

  /**
   * Within a frame, which starts with every count at zero, a key's
   * transition count is the number of state changes it saw, and its state
   * the last one reported.
   */
  lemma {:induction false} TransitionCount(key: Input.Button, downs: seq<int>)
    ensures AfterEvents(key, downs).transitionCount == key.transitionCount + Changes(key.down, downs)
    ensures AfterEvents(key, downs).down == if downs == [] then key.down else downs[|downs| - 1]
    decreases |downs|
  {
    if downs != [] {
      TransitionCount(Pressed(key, downs[0]), downs[1..]);
    }
  }

  /** One step of the scan over `keyboards[i..]`. */
  lemma ConnectedUnfold(keyboards: seq<Keyboard>, i: nat, devices: seq<DeviceEntry>)
    requires i < |keyboards|
    ensures Connected(keyboards[i..], devices) ==
      (if InList(devices, keyboards[i].device) then [keyboards[i]] else []) + Connected(keyboards[i + 1..], devices)
  {
    assert keyboards[i..][1..] == keyboards[i + 1..];
  }

  /** Reconciliation keeps every keyboard with its 255 keys. */
  lemma ReconciledWellFormed(keyboards: seq<Keyboard>, devices: seq<DeviceEntry>)
    requires WellFormed(keyboards) && DistinctDevices(keyboards)
    ensures WellFormed(Reconciled(keyboards, devices))
  {
    if devices != [] {
      var kept := Connected(keyboards, devices);
      ConnectedDistinct(keyboards, devices);
      NewKeyboardsProperties(kept, devices, 0);
      var r := Reconciled(keyboards, devices);
      forall k | 0 <= k < |r| ensures |r[k].keys| == KEY_COUNT {
        if k < |kept| {
          assert r[k] == r[..|kept|][k];
          assert kept[k] in keyboards;
        }
      }
    }
  }

  /** The disconnection loop: a keyboard whose device is not in the list is removed in place. */
  method DropDisconnected(keyboards: seq<Keyboard>, devices: seq<DeviceEntry>) returns (kbs: seq<Keyboard>)
    ensures kbs == Connected(keyboards, devices)
  {
    kbs := keyboards;
    var ikeyb := 0;
    while ikeyb < |kbs|
      invariant 0 <= ikeyb <= |kbs|
      invariant kbs[..ikeyb] + Connected(kbs[ikeyb..], devices) == Connected(keyboards, devices)
    {
      var found := SearchDeviceInList(devices, kbs[ikeyb].device);
      if found == -1 {
        DropRemove(kbs, ikeyb, devices);
        kbs := kbs[..ikeyb] + kbs[ikeyb + 1..];
      } else {
        DropKeep(kbs, ikeyb, devices);
        ikeyb := ikeyb + 1;
      }
    }
    DropDone(kbs, devices);
  }

  /** A listed keyboard at the scan position joins the kept prefix. */
  lemma DropKeep(kbs: seq<Keyboard>, i: nat, devices: seq<DeviceEntry>)
    requires i < |kbs| && InList(devices, kbs[i].device)
    ensures kbs[..i + 1] + Connected(kbs[i + 1..], devices) == kbs[..i] + Connected(kbs[i..], devices)
  {
    // The one unfolding needed comes from `ConnectedUnfold`; the bodies of
    // `InList` and `Connected` are not needed here.
    hide InList, Connected;
    ConnectedUnfold(kbs, i, devices);
    var rest := Connected(kbs[i + 1..], devices);
    assert kbs[..i + 1] == kbs[..i] + [kbs[i]];
    assert kbs[..i] + [kbs[i]] + rest == kbs[..i] + ([kbs[i]] + rest);
  }

  /** An unlisted keyboard at the scan position is dropped without changing the result. */
  lemma DropRemove(kbs: seq<Keyboard>, i: nat, devices: seq<DeviceEntry>)
    requires i < |kbs| && !InList(devices, kbs[i].device)
    ensures var next := kbs[..i] + kbs[i + 1..];
      next[..i] + Connected(next[i..], devices) == kbs[..i] + Connected(kbs[i..], devices)
  {
    ConnectedUnfold(kbs, i, devices);
    var next := kbs[..i] + kbs[i + 1..];
    assert next[..i] == kbs[..i] && next[i..] == kbs[i + 1..];
  }

  lemma DropDone(kbs: seq<Keyboard>, devices: seq<DeviceEntry>)
    ensures kbs[..|kbs|] + Connected(kbs[|kbs|..], devices) == kbs
  {
    assert kbs[|kbs|..] == [];
  }

  /** A keyboard at the start of a frame's message pump: every key keeps its state and has no transitions. */
  function ClearedTransitions(kb: Keyboard): (r: Keyboard)
    ensures r.device == kb.device && r.frameTimestamp == kb.frameTimestamp && |r.keys| == |kb.keys|
    ensures forall k :: 0 <= k < |r.keys| ==> r.keys[k] == Input.Button(kb.keys[k].down, 0)
  {
    kb.(keys := seq(|kb.keys|, k requires 0 <= k < |kb.keys| => Input.Button(kb.keys[k].down, 0)))
  }

  /** The key state an event's flags give: `RI_KEY_MAKE` is down, `RI_KEY_BREAK` up; other flags are ignored. */
  predicate IsKeyTransition(flags: nat)
  {
    flags == RI_KEY_MAKE || flags == RI_KEY_BREAK
  }

  /**
   * Within a frame, the transitions a key shows are the changes of state
   * among that frame's events: the pump starts each frame from cleared
   * counts and each event goes through `Pressed`.
   */
  lemma FrameTransitions(kb: Keyboard, scancode: nat, downs: seq<int>)
    requires scancode < |kb.keys|
    ensures var key := AfterEvents(ClearedTransitions(kb).keys[scancode], downs);
      key.transitionCount == Changes(kb.keys[scancode].down, downs)
      && key.down == if downs == [] then kb.keys[scancode].down else downs[|downs| - 1]
  {
    TransitionCount(ClearedTransitions(kb).keys[scancode], downs);
  }

  /** The inner loop of the pump's reset: every key's transition count zeroed, its state kept. */
  method ClearKeys(keys: seq<Input.Button>) returns (cleared: seq<Input.Button>)
    ensures |cleared| == |keys|
    ensures forall k :: 0 <= k < |keys| ==> cleared[k] == Input.Button(keys[k].down, 0)
  {
    cleared := keys;
    var ikey := 0;
    while ikey != |keys|
      invariant 0 <= ikey <= |keys| == |cleared|
      invariant forall k :: 0 <= k < ikey ==> cleared[k] == Input.Button(keys[k].down, 0)
      invariant forall k :: ikey <= k < |keys| ==> cleared[k] == keys[k]
    {
      cleared := cleared[ikey := cleared[ikey].(transitionCount := 0)];
      ikey := ikey + 1;
    }
  }

  class RawInputState {
    var keyboards: seq<Keyboard>
    var frameCounter: nat

    ghost predicate Valid()
      reads this
    {
      WellFormed(keyboards) && DistinctDevices(keyboards)
    }

    /** `create_input`'s state: no keyboards, frame zero. */
    constructor()
      ensures Valid() && keyboards == [] && frameCounter == 0
    {
      keyboards := [];
      frameCounter := 0;
    }

    /**
     * The reconciliation of `update_connected_devices_RawInput`: with
     * `failed`, the device list query failed and nothing changes; an empty
     * list also changes nothing.  Otherwise unlisted keyboards are removed
     * and listed keyboard devices without a keyboard get a new one.
     */
    method UpdateConnectedDevices(devices: seq<DeviceEntry>, failed: bool)
      requires Valid()
      modifies this
      ensures Valid() && frameCounter == old(frameCounter)
      ensures keyboards == if failed then old(keyboards) else Reconciled(old(keyboards), devices)
    {
      if failed || devices == [] {
        return;
      }
      RemoveDisconnected(devices);
      AddConnected(devices);
    }

    /** The disconnection pass: keyboards whose device is not in the list are removed, the others keep their order. */
    method RemoveDisconnected(devices: seq<DeviceEntry>)
      requires Valid()
      modifies this
      ensures Valid() && frameCounter == old(frameCounter)
      ensures keyboards == Connected(old(keyboards), devices)
    {
      var kbs := DropDisconnected(keyboards, devices);
      ConnectedDistinct(keyboards, devices);
      forall k | 0 <= k < |kbs| ensures |kbs[k].keys| == KEY_COUNT {
        assert kbs[k] in keyboards;
      }
      keyboards := kbs;
    }

    /** The connection pass: each listed keyboard device without a keyboard gets a new one at the end. */
    method AddConnected(devices: seq<DeviceEntry>)
      requires Valid()
      modifies this
      ensures Valid() && frameCounter == old(frameCounter)
      ensures keyboards == WithNewKeyboards(old(keyboards), devices, 0)
    {
      ghost var kept := keyboards;
      var idevice := 0;
      while idevice != |devices|
        invariant 0 <= idevice <= |devices| && frameCounter == old(frameCounter)
        invariant WithNewKeyboards(keyboards, devices, idevice) == WithNewKeyboards(kept, devices, 0)
      {
        var d := devices[idevice];
        if d.isKeyboard {
          var index := SearchKeyboardByDevice(keyboards, d.handle);
          if index == -1 {
            keyboards := keyboards + [NewKeyboard(d.handle)];
          }
        }
        idevice := idevice + 1;
      }
      NewKeyboardsProperties(kept, devices, 0);
      forall k | 0 <= k < |keyboards| ensures |keyboards[k].keys| == KEY_COUNT {
        if k < |kept| {
          assert keyboards[k] == keyboards[..|kept|][k];
        }
      }
    }

    /** The start of the message pump: every key of every keyboard has its transition count zeroed. */
    method ResetTransitions()
      requires Valid()
      modifies this
      ensures Valid() && frameCounter == old(frameCounter) && |keyboards| == |old(keyboards)|
      ensures forall k :: 0 <= k < |keyboards| ==> keyboards[k] == ClearedTransitions(old(keyboards)[k])
    {
      var ikeyb := 0;
      while ikeyb != |keyboards|
        invariant 0 <= ikeyb <= |keyboards| == |old(keyboards)| && frameCounter == old(frameCounter)
        invariant forall k :: 0 <= k < ikeyb ==> keyboards[k] == ClearedTransitions(old(keyboards)[k])
        invariant forall k :: ikeyb <= k < |keyboards| ==> keyboards[k] == old(keyboards)[k]
      {
        var kb := keyboards[ikeyb];
        var keys := ClearKeys(kb.keys);
        keyboards := keyboards[ikeyb := kb.(keys := keys)];
        ikeyb := ikeyb + 1;
      }
      forall k | 0 <= k < |keyboards| ensures |keyboards[k].keys| == KEY_COUNT {
      }
      forall j, k | 0 <= j < k < |keyboards| ensures keyboards[j].device != keyboards[k].device {
        assert keyboards[j].device == old(keyboards)[j].device;
      }
    }

    /**
     * A `WM_INPUT` keyboard event: on a known keyboard, a make or break
     * event sets the key's state, counting a transition when it changes,
     * and stamps the keyboard with the current frame; anything else changes
     * nothing.  The scancode must be a key index on a known keyboard.
     */
    method KeyEvent(device: Handle, scancode: nat, flags: nat)
      requires Valid() && (FindKeyboard(keyboards, device) != -1 ==> scancode < KEY_COUNT)
      modifies this
      ensures Valid() && frameCounter == old(frameCounter) && |keyboards| == |old(keyboards)|
      ensures var i := FindKeyboard(old(keyboards), device);
        (i == -1 || !IsKeyTransition(flags) ==> keyboards == old(keyboards))
        && (i != -1 && IsKeyTransition(flags) ==>
          (forall k :: 0 <= k < |keyboards| && k != i ==> keyboards[k] == old(keyboards)[k])
          && keyboards[i].device == device && keyboards[i].frameTimestamp == frameCounter
          && keyboards[i].keys == old(keyboards)[i].keys[scancode := Pressed(old(keyboards)[i].keys[scancode], if flags == RI_KEY_MAKE then 1 else 0)])
    {
      var index := SearchKeyboardByDevice(keyboards, device);
      if index != -1 && IsKeyTransition(flags) {
        var kb := keyboards[index];
        var down := if flags == RI_KEY_MAKE then 1 else 0;
        var keys := kb.keys[scancode := Pressed(kb.keys[scancode], down)];
        keyboards := keyboards[index := Keyboard(kb.device, frameCounter, keys)];
        forall j, k | 0 <= j < k < |keyboards| ensures keyboards[j].device != keyboards[k].device {
          assert keyboards[j].device == old(keyboards)[j].device && keyboards[k].device == old(keyboards)[k].device;
        }
      }
    }

    /** The end of `update_input`: the frame counter moves on. */
    method EndFrame()
      requires Valid()
      modifies this
      ensures Valid() && keyboards == old(keyboards) && frameCounter == old(frameCounter) + 1
    {
      frameCounter := frameCounter + 1;
    }
  }
}
