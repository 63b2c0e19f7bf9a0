/** The shortcut recogniser of the built-in search override
    (AppSource/Palladium.Builtin/SearchOverride/WindowsKeyboard.cs). Every low-level keyboard
    event is first decided on the state before it (propagate or block, simulate a reserved
    key press or not, schedule the shortcut's callback or not) and only then folded into
    the state: which modifier groups are down and whether the trigger key is held.
    Scheduling the callback is recorded as a counter of scheduled callbacks. */
module BuiltinKeyboard {

  // Virtual key codes of the modifiers.
  const VK_LWIN: nat := 0x5B
  const VK_RWIN: nat := 0x5C
  const VK_LSHIFT: nat := 0xA0
  const VK_RSHIFT: nat := 0xA1
  const VK_LCONTROL: nat := 0xA2
  const VK_RCONTROL: nat := 0xA3
  const VK_LMENU: nat := 0xA4
  const VK_RMENU: nat := 0xA5

  const VK_S: nat := 0x53

  const WM_KEYDOWN: int := 0x0100
  const WM_KEYUP: int := 0x0101

  /** The `Modifiers` flag set, one bit per modifier group. */
  type Modifiers = bv8

  const NoModifiers: Modifiers := 0
  const Windows: Modifiers := 1
  const Shift: Modifiers := 2
  const Control: Modifiers := 4
  const Alt: Modifiers := 8

  /** The group bit of a key code, the left and right keys alike; no bit for any other code. */
  function ModifierGroup(keyCode: nat): (g: Modifiers)
    ensures g == NoModifiers || g == Windows || g == Shift || g == Control || g == Alt
    ensures g != NoModifiers <==> VK_LWIN <= keyCode <= VK_RWIN || VK_LSHIFT <= keyCode <= VK_RMENU
  {
    if keyCode == VK_LWIN || keyCode == VK_RWIN then Windows
    else if keyCode == VK_LSHIFT || keyCode == VK_RSHIFT then Shift
    else if keyCode == VK_LCONTROL || keyCode == VK_RCONTROL then Control
    else if keyCode == VK_LMENU || keyCode == VK_RMENU then Alt
    else NoModifiers
  }

  /** The left and right key of each pair belong to the same group, and the groups differ. */
  lemma LeftAndRightShareGroup()
    ensures ModifierGroup(VK_LWIN) == ModifierGroup(VK_RWIN) == Windows
    ensures ModifierGroup(VK_LSHIFT) == ModifierGroup(VK_RSHIFT) == Shift
    ensures ModifierGroup(VK_LCONTROL) == ModifierGroup(VK_RCONTROL) == Control
    ensures ModifierGroup(VK_LMENU) == ModifierGroup(VK_RMENU) == Alt
  {
  }

  /** Whether the modifiers down are exactly the group of `keyCode`. */
  function IsSingleModifierPressed(modifiers: Modifiers, keyCode: nat): (r: bool)
    ensures r <==> ModifierGroup(keyCode) != NoModifiers && modifiers == ModifierGroup(keyCode)
  {
    if keyCode == VK_LWIN || keyCode == VK_RWIN then modifiers == Windows
    else if keyCode == VK_LSHIFT || keyCode == VK_RSHIFT then modifiers == Shift
    else if keyCode == VK_LCONTROL || keyCode == VK_RCONTROL then modifiers == Control
    else if keyCode == VK_LMENU || keyCode == VK_RMENU then modifiers == Alt
    else false
  }

  /** What to do with an event: `PropagateEvent` false blocks it from the rest of the hook
      chain; `SimulateKeypress` asks for a reserved key press afterwards. */
  datatype ProcessedKey = ProcessedKey(PropagateEvent: bool, SimulateKeypress: bool)

  const Propagate: ProcessedKey := ProcessedKey(true, false)
  const Block: ProcessedKey := ProcessedKey(false, false)

  /** The decision on one event, and whether the callback is scheduled with it. */
  datatype Decision = Decision(Result: ProcessedKey, Schedule: bool)

  datatype KeyboardState = KeyboardState(KeyIsPressed: bool, Modifiers: Modifiers)

  const InitialState: KeyboardState := KeyboardState(false, NoModifiers)

  /** The decision on an event, taken on the state before it. The callback is scheduled
      only for a fresh key-down of the key while exactly the modifier's group is down, and
      that event is blocked; a key press is simulated only for a key-up of the modifier
      while the key is held, and that event still propagates; codes other than the key and
      the modifier always propagate. */
  function DecideAction(s: KeyboardState, keyState: int, eventKeyCode: nat, key: nat, modifier: nat): (d: Decision)
    ensures d.Schedule <==> keyState == WM_KEYDOWN && eventKeyCode == key && eventKeyCode != modifier
                            && !s.KeyIsPressed && IsSingleModifierPressed(s.Modifiers, modifier)
    ensures d.Schedule ==> d.Result == Block
    ensures !d.Result.PropagateEvent <==>
              keyState == WM_KEYDOWN
              && ((eventKeyCode == modifier && IsSingleModifierPressed(s.Modifiers, modifier))
                  || (eventKeyCode == key && eventKeyCode != modifier
                      && (s.KeyIsPressed || IsSingleModifierPressed(s.Modifiers, modifier))))
    ensures d.Result.SimulateKeypress <==> keyState == WM_KEYUP && eventKeyCode == modifier && s.KeyIsPressed
    ensures d.Result.SimulateKeypress ==> d.Result.PropagateEvent
    ensures eventKeyCode != key && eventKeyCode != modifier ==> d == Decision(Propagate, false)
  {
    if keyState == WM_KEYDOWN then
      if eventKeyCode == modifier then
        if IsSingleModifierPressed(s.Modifiers, modifier) then Decision(Block, false)
        else Decision(Propagate, false)
      else if eventKeyCode == key then
        if s.KeyIsPressed then Decision(Block, false)
        else if IsSingleModifierPressed(s.Modifiers, modifier) then Decision(Block, true)
        else Decision(Propagate, false)
      else Decision(Propagate, false)
    else if keyState == WM_KEYUP && eventKeyCode == modifier && s.KeyIsPressed then
      Decision(ProcessedKey(true, true), false)
    else Decision(Propagate, false)
  }

  /** The state after an event: the key is marked held on its key-down while exactly the
      modifier's group is down and released on its key-up; any other code sets its group
      bit on key-down and clears it on key-up. */
  function Updated(s: KeyboardState, keyState: int, eventKeyCode: nat, key: nat, modifier: nat): (r: KeyboardState)
    ensures r.KeyIsPressed && !s.KeyIsPressed ==>
              keyState == WM_KEYDOWN && eventKeyCode == key && IsSingleModifierPressed(s.Modifiers, modifier)
  {
    if keyState == WM_KEYDOWN then
      if eventKeyCode == key then
        if IsSingleModifierPressed(s.Modifiers, modifier) then s.(KeyIsPressed := true) else s
      else s.(Modifiers := s.Modifiers | ModifierGroup(eventKeyCode))
    else if keyState == WM_KEYUP then
      if eventKeyCode == key then s.(KeyIsPressed := false)
      else s.(Modifiers := s.Modifiers & !ModifierGroup(eventKeyCode))
    else s
  }

  /** Events of the key never touch the modifier set; other events touch only their own
      group bit and never the key flag. */
  lemma UpdatedFrame(s: KeyboardState, keyState: int, eventKeyCode: nat, key: nat, modifier: nat)
    ensures var t := Updated(s, keyState, eventKeyCode, key, modifier);
            (eventKeyCode == key ==> t.Modifiers == s.Modifiers)
            && (eventKeyCode != key ==>
                  t.KeyIsPressed == s.KeyIsPressed
                  && t.Modifiers & !ModifierGroup(eventKeyCode) == s.Modifiers & !ModifierGroup(eventKeyCode))
  {
  }

  /** The key stays held until its own key-up. */
  lemma HeldUntilKeyUp(s: KeyboardState, keyState: int, eventKeyCode: nat, key: nat, modifier: nat)
    requires s.KeyIsPressed
    ensures (Updated(s, keyState, eventKeyCode, key, modifier).KeyIsPressed
             <==> !(keyState == WM_KEYUP && eventKeyCode == key))
  {
  }

  /** A low-level keyboard event: its message and the virtual key code. */
  datatype KeyEvent = KeyEvent(KeyState: int, Code: nat)

  /** The state after a run of events. */
  function Final(s: KeyboardState, events: seq<KeyEvent>, key: nat, modifier: nat): KeyboardState
    decreases |events|
  {
    if |events| == 0 then s
    else Final(Updated(s, events[0].KeyState, events[0].Code, key, modifier), events[1..], key, modifier)
  }

  /** How many callbacks a run of events schedules. */
  function Fired(s: KeyboardState, events: seq<KeyEvent>, key: nat, modifier: nat): nat
    decreases |events|
  {
    if |events| == 0 then 0
    else
      (if DecideAction(s, events[0].KeyState, events[0].Code, key, modifier).Schedule then 1 else 0)
      + Fired(Updated(s, events[0].KeyState, events[0].Code, key, modifier), events[1..], key, modifier)
  }

  /** The decisions on a run of events, in order. */
  function Decisions(s: KeyboardState, events: seq<KeyEvent>, key: nat, modifier: nat): (r: seq<ProcessedKey>)
    ensures |r| == |events|
    decreases |events|
  {
    if |events| == 0 then []
    else
      [DecideAction(s, events[0].KeyState, events[0].Code, key, modifier).Result]
      + Decisions(Updated(s, events[0].KeyState, events[0].Code, key, modifier), events[1..], key, modifier)
  }

  /** The event that schedules the callback leaves the key held. */
  lemma FiringHoldsKey(s: KeyboardState, keyState: int, eventKeyCode: nat, key: nat, modifier: nat)
    requires DecideAction(s, keyState, eventKeyCode, key, modifier).Schedule
    ensures Updated(s, keyState, eventKeyCode, key, modifier).KeyIsPressed
  {
  }

  /** While the key is held, no run of events without the key's key-up schedules another
      callback, and the key stays held. */
  lemma {:induction false} NoRefireWhileHeld(s: KeyboardState, events: seq<KeyEvent>, key: nat, modifier: nat)
    requires s.KeyIsPressed
    requires forall i :: 0 <= i < |events| ==> !(events[i].KeyState == WM_KEYUP && events[i].Code == key)
    ensures Fired(s, events, key, modifier) == 0
    ensures Final(s, events, key, modifier).KeyIsPressed
    decreases |events|
  {
    if |events| > 0 {
      HeldUntilKeyUp(s, events[0].KeyState, events[0].Code, key, modifier);
      NoRefireWhileHeld(Updated(s, events[0].KeyState, events[0].Code, key, modifier), events[1..], key, modifier);
    }
  }

  /** A modifier code outside the eight modifier keys never lets the shortcut fire. */
  lemma {:induction false} UnknownModifierNeverFires(s: KeyboardState, events: seq<KeyEvent>, key: nat, modifier: nat)
    requires ModifierGroup(modifier) == NoModifiers
    ensures Fired(s, events, key, modifier) == 0
    decreases |events|
  {
    if |events| > 0 {
      UnknownModifierNeverFires(Updated(s, events[0].KeyState, events[0].Code, key, modifier), events[1..], key, modifier);
    }
  }

  /** Events of codes other than the key and the modifier all propagate without simulating. */
  lemma {:induction false} OtherCodesPropagate(s: KeyboardState, events: seq<KeyEvent>, key: nat, modifier: nat)
    requires forall i :: 0 <= i < |events| ==> events[i].Code != key && events[i].Code != modifier
    ensures forall i :: 0 <= i < |events| ==> Decisions(s, events, key, modifier)[i] == Propagate
    ensures Fired(s, events, key, modifier) == 0
    decreases |events|
  {
    if |events| > 0 {
      OtherCodesPropagate(Updated(s, events[0].KeyState, events[0].Code, key, modifier), events[1..], key, modifier);
    }
  }

  /** Windows+S, held and pressed again: the first S fires and is blocked, the repeated S is
      blocked without firing, releasing S lets the next S fire again, and releasing the
      Windows key while S is held asks for a simulated key press. */
  lemma WindowsSScenario()
    ensures var events := [KeyEvent(WM_KEYDOWN, VK_LWIN), KeyEvent(WM_KEYDOWN, VK_S), KeyEvent(WM_KEYDOWN, VK_S),
                           KeyEvent(WM_KEYUP, VK_S), KeyEvent(WM_KEYDOWN, VK_S), KeyEvent(WM_KEYUP, VK_LWIN)];
            Fired(InitialState, events, VK_S, VK_LWIN) == 2
            && Decisions(InitialState, events, VK_S, VK_LWIN)
               == [Propagate, Block, Block, Propagate, Block, ProcessedKey(true, true)]
            && Final(InitialState, events, VK_S, VK_LWIN) == KeyboardState(true, NoModifiers)
  {
    var events := [KeyEvent(WM_KEYDOWN, VK_LWIN), KeyEvent(WM_KEYDOWN, VK_S), KeyEvent(WM_KEYDOWN, VK_S),
                   KeyEvent(WM_KEYUP, VK_S), KeyEvent(WM_KEYDOWN, VK_S), KeyEvent(WM_KEYUP, VK_LWIN)];
    var states := [InitialState, KeyboardState(false, Windows), KeyboardState(true, Windows),
                   KeyboardState(true, Windows), KeyboardState(false, Windows), KeyboardState(true, Windows),
                   KeyboardState(true, NoModifiers)];
    var k := 6;
    while k > 0
      invariant 0 <= k <= 6
      invariant Final(states[k], events[k..], VK_S, VK_LWIN) == KeyboardState(true, NoModifiers)
      invariant Fired(states[k], events[k..], VK_S, VK_LWIN) == [2, 2, 1, 1, 1, 0, 0][k]
      invariant Decisions(states[k], events[k..], VK_S, VK_LWIN)
                == [Propagate, Block, Block, Propagate, Block, ProcessedKey(true, true)][k..]
    {
      k := k - 1;
      assert events[k..][1..] == events[k + 1..];
      assert Updated(states[k], events[k].KeyState, events[k].Code, VK_S, VK_LWIN) == states[k + 1];
      assert DecideAction(states[k], events[k].KeyState, events[k].Code, VK_S, VK_LWIN).Schedule == (k == 1 || k == 4);
    }
  }

  /** The keyboard hook's state: the key flag and the modifier set of
      `ShortcutKeyboardState`, and the callbacks scheduled so far. */
  class WindowsKeyboard {
    var KeyIsPressed: bool
    var Modifiers: Modifiers
    var ScheduledCallbacks: nat

    function State(): KeyboardState
      reads this
    {
      KeyboardState(KeyIsPressed, Modifiers)
    }

    constructor()
      ensures State() == InitialState && ScheduledCallbacks == 0
    {
      KeyIsPressed := false;
      Modifiers := NoModifiers;
      ScheduledCallbacks := 0;
    }

    method SetModifierPressed(keyCode: nat)
      modifies this
      ensures Modifiers == old(Modifiers) | ModifierGroup(keyCode)
      ensures KeyIsPressed == old(KeyIsPressed) && ScheduledCallbacks == old(ScheduledCallbacks)
    {
      if keyCode == VK_LWIN || keyCode == VK_RWIN {
        Modifiers := Modifiers | Windows;
      } else if keyCode == VK_LSHIFT || keyCode == VK_RSHIFT {
        Modifiers := Modifiers | Shift;
      } else if keyCode == VK_LCONTROL || keyCode == VK_RCONTROL {
        Modifiers := Modifiers | Control;
      } else if keyCode == VK_LMENU || keyCode == VK_RMENU {
        Modifiers := Modifiers | Alt;
      }
    }

    method SetModifierUnpressed(keyCode: nat)
      modifies this
      ensures Modifiers == old(Modifiers) & !ModifierGroup(keyCode)
      ensures KeyIsPressed == old(KeyIsPressed) && ScheduledCallbacks == old(ScheduledCallbacks)
    {
      if keyCode == VK_LWIN || keyCode == VK_RWIN {
        Modifiers := Modifiers & !Windows;
      } else if keyCode == VK_LSHIFT || keyCode == VK_RSHIFT {
        Modifiers := Modifiers & !Shift;
      } else if keyCode == VK_LCONTROL || keyCode == VK_RCONTROL {
        Modifiers := Modifiers & !Control;
      } else if keyCode == VK_LMENU || keyCode == VK_RMENU {
        Modifiers := Modifiers & !Alt;
      }
    }

    method UpdateState(keyState: int, eventKeyCode: nat, key: nat, modifier: nat)
      modifies this
      ensures State() == Updated(old(State()), keyState, eventKeyCode, key, modifier)
      ensures ScheduledCallbacks == old(ScheduledCallbacks)
    {
      if keyState == WM_KEYDOWN {
        if eventKeyCode == key {
          if IsSingleModifierPressed(Modifiers, modifier) {
            KeyIsPressed := true;
          }
        } else {
          SetModifierPressed(eventKeyCode);
        }
      } else if keyState == WM_KEYUP {
        if eventKeyCode == key {
          KeyIsPressed := false;
        } else {
          SetModifierUnpressed(eventKeyCode);
        }
      }
    }

    /** Decides on the event from the state before it, schedules the callback if the
        decision says so, then updates the state. */
    method ProcessKey(keyState: int, eventKeyCode: nat, key: nat, modifier: nat) returns (result: ProcessedKey)
      modifies this
      ensures var d := DecideAction(old(State()), keyState, eventKeyCode, key, modifier);
              result == d.Result && ScheduledCallbacks == old(ScheduledCallbacks) + (if d.Schedule then 1 else 0)
      ensures State() == Updated(old(State()), keyState, eventKeyCode, key, modifier)
    {
      var d := DecideAction(State(), keyState, eventKeyCode, key, modifier);
      if d.Schedule {
        ScheduledCallbacks := ScheduledCallbacks + 1;
      }
      UpdateState(keyState, eventKeyCode, key, modifier);
      result := d.Result;
    }

    /** Removing the hook forgets every key and modifier held. */
    method UnsetHook()
      modifies this
      ensures State() == InitialState
      ensures ScheduledCallbacks == old(ScheduledCallbacks)
    {
      KeyIsPressed := false;
      Modifiers := NoModifiers;
    }
  }
}
