/**
 * `Input::Listener` (engine.cpp): a table of named actions, each bound to a
 * scancode and holding the state of its button.  Names are C strings: the
 * registration checks compare name pointers, the status query compares the
 * characters.
 */
module Input {
  import DynamicArray

  datatype DeviceType = DeviceNone | DeviceKeyboard
  datatype ControlType = ControlNone | ControlButton
  datatype PairingMode = PairingNone | PairingMostRecent | PairingMostRecentPersistent

  /** `Input::Button`. */
  datatype Button = Button(down: int, transitionCount: int)

  /**
   * `Control_Data`: a button, or storage that nothing initialised (what
   * `create_Control_Data` leaves for a type it does not know).
   */
  datatype ControlData = ButtonData(button: Button) | Uninitialised

  /** A `const char*`: where the string lives and the characters it points to. */
  datatype Name = Name(address: nat, text: string)

  datatype Action = Action(name: Name, controlType: ControlType, scancode: nat, data: ControlData)

  /** `create_Control_Data`: a released button with no transitions; any other type is reported and left uninitialised. */
  function CreateControlData(controlType: ControlType): (r: (ControlData, bool))
    ensures r.1 <==> controlType != ControlButton
    ensures !r.1 ==> r.0 == ButtonData(Button(0, 0))
    ensures r.1 ==> r.0 == Uninitialised
  {
    if controlType == ControlButton then (ButtonData(Button(0, 0)), false) else (Uninitialised, true)
  }

  /** The zeroed `Control_Data` that `get_action_status` returns for an unknown name. */
  const EMPTY_DATA: ControlData := ButtonData(Button(0, 0))

  /** The index of the first action whose name is the same pointer as `name`. */
  function FindByAddress(actions: seq<Action>, address: nat): (r: int)
    ensures -1 <= r < |actions|
    ensures r == -1 <==> forall k :: 0 <= k < |actions| ==> actions[k].name.address != address
    ensures r != -1 ==>
      actions[r].name.address == address && forall k :: 0 <= k < r ==> actions[k].name.address != address
  {
    if actions == [] then -1
    else if actions[0].name.address == address then 0
    else var r := FindByAddress(actions[1..], address); if r == -1 then -1 else r + 1
  }

  /** The index of the first action whose name has the same characters as `text`. */
  function FindByText(actions: seq<Action>, text: string): (r: int)
    ensures -1 <= r < |actions|
    ensures r == -1 <==> forall k :: 0 <= k < |actions| ==> actions[k].name.text != text
    ensures r != -1 ==>
      actions[r].name.text == text && forall k :: 0 <= k < r ==> actions[k].name.text != text
  {
    if actions == [] then -1
    else if actions[0].name.text == text then 0
    else var r := FindByText(actions[1..], text); if r == -1 then -1 else r + 1
  }

  /** `remove_swap(index)` on a table: the last action takes the removed one's place. */
  function RemoveSwapped(actions: seq<Action>, index: nat): (r: seq<Action>)
    requires index < |actions|
    ensures |r| == |actions| - 1
  {
    if index == |actions| - 1 then actions[..index]
    else actions[..|actions| - 1][index := actions[|actions| - 1]]
  }

  /** Removing by swap takes out exactly the one action and keeps every other. */
  lemma RemoveSwappedMultiset(actions: seq<Action>, index: nat)
    requires index < |actions|
    ensures multiset(RemoveSwapped(actions, index)) == multiset(actions) - multiset{actions[index]}
  {
    var n := |actions| - 1;
    assert actions == actions[..n] + [actions[n]];
    if index < n {
      var front := actions[..n];
      assert front == front[..index] + [front[index]] + front[index + 1..];
      var r := RemoveSwapped(actions, index);
      assert r == front[..index] + [actions[n]] + front[index + 1..];
    }
  }

  /** Every name pointer is registered at most once (what `register_action`'s assertion keeps). */
  predicate DistinctAddresses(actions: seq<Action>)
  {
    forall j, k :: 0 <= j < k < |actions| ==> actions[j].name.address != actions[k].name.address
  }

  /** Unregistering a name from a table of distinct names leaves it unregistered and the others distinct. */
  lemma UnregisteredIsGone(actions: seq<Action>, address: nat)
    requires DistinctAddresses(actions) && FindByAddress(actions, address) != -1
    ensures var r := RemoveSwapped(actions, FindByAddress(actions, address));
      FindByAddress(r, address) == -1 && DistinctAddresses(r)
  {
    var i := FindByAddress(actions, address);
    var r := RemoveSwapped(actions, i);
    var n := |actions| - 1;
    forall k | 0 <= k < |r| ensures r[k].name.address != address {
      if k == i {
        assert r[k] == actions[n];
      } else {
        assert r[k] == actions[k];
      }
    }
    forall j, k | 0 <= j < k < |r| ensures r[j].name.address != r[k].name.address {
      var oj := if j == i then n else j;
      var ok := if k == i then n else k;
      assert r[j] == actions[oj] && r[k] == actions[ok];
    }
  }

  /** The button state a keyboard's keys give an action: the key at its scancode. */
  function KeyedAction(action: Action, keys: seq<Button>): (r: Action)
    requires action.scancode < |keys|
    ensures r.name == action.name && r.controlType == action.controlType && r.scancode == action.scancode
    ensures r.data == ButtonData(keys[action.scancode])
  {
    action.(data := ButtonData(keys[action.scancode]))
  }

  /** Every action's scancode is below `n`. */
  predicate ScancodesBelow(actions: seq<Action>, n: nat)
  {
    forall k :: 0 <= k < |actions| ==> actions[k].scancode < n
  }

  /** A table after a keyboard's keys are applied: every action holds the key at its scancode. */
  function Keyed(actions: seq<Action>, keys: seq<Button>): (r: seq<Action>)
    requires ScancodesBelow(actions, |keys|)
    ensures |r| == |actions| && ScancodesBelow(r, |keys|)
    ensures forall k :: 0 <= k < |r| ==> r[k] == KeyedAction(actions[k], keys)
  {
    seq(|actions|, k requires 0 <= k < |actions| => KeyedAction(actions[k], keys))
  }

  /** Applying a second keyboard's keys overrides the first: only the latest keyboard shows. */
  lemma KeyedLatestWins(actions: seq<Action>, first: seq<Button>, second: seq<Button>)
    requires ScancodesBelow(actions, |first|) && ScancodesBelow(actions, |second|)
    ensures ScancodesBelow(Keyed(actions, first), |second|)
    ensures Keyed(Keyed(actions, first), second) == Keyed(actions, second)
  {
    var once := Keyed(actions, first);
    assert forall k :: 0 <= k < |once| ==> once[k].scancode == actions[k].scancode;
  }

  class Listener {
    const actions: DynamicArray.ArrayRaw<Action>
    var deviceType: DeviceType
    var pairingMode: PairingMode

    ghost predicate Valid()
      reads this, actions
    {
      actions.Valid()
    }

    ghost function Actions(): seq<Action>
      reads this, actions, actions.buffer
      requires Valid()
    {
      actions.Contents()
    }

    /** An empty listener of the given device type and pairing mode. */
    constructor(deviceType: DeviceType, pairingMode: PairingMode)
      ensures Valid() && fresh(actions) && fresh(actions.buffer)
      ensures Actions() == [] && this.deviceType == deviceType && this.pairingMode == pairingMode
    {
      actions := new DynamicArray.ArrayRaw.Create();
      this.deviceType := deviceType;
      this.pairingMode := pairingMode;
    }

    /**
     * `register_action`: appends the action with freshly created control
     * data; the name pointer may not be registered already.  `unknownType`
     * reports `create_Control_Data`'s error.
     */
    method RegisterAction(name: Name, controlType: ControlType, scancode: nat) returns (unknownType: bool)
      requires Valid() && FindByAddress(Actions(), name.address) == -1
      modifies actions, actions.buffer
      ensures Valid()
      ensures Actions() == old(Actions()) + [Action(name, controlType, scancode, CreateControlData(controlType).0)]
      ensures unknownType == CreateControlData(controlType).1
    {
      var created := CreateControlData(controlType);
      actions.Push(Action(name, controlType, scancode, created.0));
      unknownType := created.1;
    }

    /**
     * `unregister_action`: the first action with the same name pointer is
     * removed by swapping the last action into its place; an unknown name is
     * reported and changes nothing.
     */
    method UnregisterAction(name: Name) returns (unknown: bool)
      requires Valid()
      modifies actions, actions.buffer
      ensures Valid()
      ensures unknown <==> FindByAddress(old(Actions()), name.address) == -1
      ensures unknown ==> Actions() == old(Actions())
      ensures !unknown ==> Actions() == RemoveSwapped(old(Actions()), FindByAddress(old(Actions()), name.address))
    {
      var n := actions.Size();
      var i := 0;
      while i != n
        invariant Valid() && actions.buffer == old(actions.buffer) && Actions() == old(Actions())
        invariant 0 <= i <= n == |Actions()|
        invariant forall k :: 0 <= k < i ==> Actions()[k].name.address != name.address
      {
        var action := actions.Get(i);
        if action.name.address == name.address {
          FindByAddressAt(Actions(), name.address, i);
          actions.RemoveSwap(i);
          return false;
        }
        i := i + 1;
      }
      unknown := true;
    }

    /**
     * `get_action_status`: the data of the first action whose name has the
     * same characters; an unknown name is reported and gets zeroed data.
     */
    method GetActionStatus(text: string) returns (data: ControlData, unknown: bool)
      requires Valid()
      ensures var i := FindByText(Actions(), text);
        (unknown <==> i == -1) && data == (if i == -1 then EMPTY_DATA else Actions()[i].data)
    {
      var n := actions.Size();
      var i := 0;
      while i != n
        invariant 0 <= i <= n == |Actions()|
        invariant forall k :: 0 <= k < i ==> Actions()[k].name.text != text
      {
        var action := actions.Get(i);
        if action.name.text == text {
          FindByTextAt(Actions(), text, i);
          return action.data, false;
        }
        i := i + 1;
      }
      return EMPTY_DATA, true;
    }

    /**
     * The inner loop of `update_listener_states`: every action's button
     * takes the state of the key at its scancode.
     */
    method ApplyKeys(keys: seq<Button>)
      requires Valid() && forall k :: 0 <= k < |Actions()| ==> Actions()[k].scancode < |keys|
      modifies actions.buffer
      ensures Valid()
      ensures |Actions()| == |old(Actions())|
      ensures forall k :: 0 <= k < |Actions()| ==> Actions()[k] == KeyedAction(old(Actions())[k], keys)
      ensures ScancodesBelow(old(Actions()), |keys|) && Actions() == Keyed(old(Actions()), keys)
    {
      var n := actions.Size();
      var i := 0;
      while i != n
        invariant Valid() && actions.buffer == old(actions.buffer)
        invariant 0 <= i <= n == |Actions()|
        invariant forall k :: 0 <= k < i ==> Actions()[k] == KeyedAction(old(Actions())[k], keys)
        invariant forall k :: i <= k < n ==> Actions()[k] == old(Actions())[k]
      {
        var action := actions.Get(i);
        actions.Put(i, KeyedAction(action, keys));
        i := i + 1;
      }
    }
  }

  lemma FindByAddressAt(actions: seq<Action>, address: nat, i: nat)
    requires i < |actions| && actions[i].name.address == address
    requires forall k :: 0 <= k < i ==> actions[k].name.address != address
    ensures FindByAddress(actions, address) == i
  {
  }

  lemma FindByTextAt(actions: seq<Action>, text: string, i: nat)
    requires i < |actions| && actions[i].name.text == text
    requires forall k :: 0 <= k < i ==> actions[k].name.text != text
    ensures FindByText(actions, text) == i
  {
  }

  /** Registering a fresh name keeps the names distinct, and the new action is the one found for it. */
  lemma RegisterKeepsDistinct(actions: seq<Action>, action: Action)
    requires DistinctAddresses(actions) && FindByAddress(actions, action.name.address) == -1
    ensures DistinctAddresses(actions + [action])
    ensures FindByAddress(actions + [action], action.name.address) == |actions|
  {
    var r := actions + [action];
    FindByAddressAt(r, action.name.address, |actions|);
  }
}
