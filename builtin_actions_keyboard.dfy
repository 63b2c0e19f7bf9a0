/** The two-flag shortcut recogniser of the search override action
    (AppSource/Palladium.BuiltinActions/SearchOverride/WindowsKeyboard.cs). It remembers
    whether the modifier and whether the trigger key are held, blocks the events that
    complete or repeat the shortcut and schedules the callback once per press of the key.
    Scheduling the callback is recorded as a counter of scheduled callbacks. */
module BuiltinActionsKeyboard {

  const WM_KEYDOWN: int := 0x0100
  const WM_KEYUP: int := 0x0101

  datatype ShortcutKeyboardState = ShortcutKeyboardState(KeyIsPressed: bool, ModifierIsPressed: bool)

  const InitialState: ShortcutKeyboardState := ShortcutKeyboardState(false, false)

  /** What one event does: whether it propagates along the hook chain, whether the
      callback is scheduled, and the flags afterwards. */
  datatype Outcome = Outcome(Propagate: bool, Schedule: bool, Next: ShortcutKeyboardState)

  /** The effect of one event on the flags, branch for branch as the hook handles it. */
  function Step(s: ShortcutKeyboardState, keyState: int, eventKeyCode: nat, key: nat, modifier: nat): (o: Outcome)
    ensures !o.Propagate ==> keyState == WM_KEYDOWN
    ensures o.Next.KeyIsPressed && !s.KeyIsPressed ==> o.Schedule
  {
    if keyState == WM_KEYDOWN then
      if eventKeyCode == modifier then
        if s.ModifierIsPressed then Outcome(false, false, s)
        else Outcome(true, false, s.(ModifierIsPressed := true))
      else if eventKeyCode == key then
        if s.KeyIsPressed then Outcome(false, false, s)
        else if s.ModifierIsPressed then Outcome(false, true, s.(KeyIsPressed := true))
        else Outcome(true, false, s)
      else Outcome(true, false, s)
    else if keyState == WM_KEYUP then
      if eventKeyCode == key then Outcome(true, false, s.(KeyIsPressed := false))
      else if eventKeyCode == modifier then Outcome(true, false, s.(ModifierIsPressed := false))
      else Outcome(true, false, s)
    else Outcome(true, false, s)
  }

  /** Codes other than the key and the modifier propagate and change nothing. */
  lemma UnrelatedCodesPropagate(s: ShortcutKeyboardState, keyState: int, eventKeyCode: nat, key: nat, modifier: nat)
    requires eventKeyCode != key && eventKeyCode != modifier
    ensures Step(s, keyState, eventKeyCode, key, modifier) == Outcome(true, false, s)
  {
  }

  /** The callback is scheduled exactly for a key-down of the key (when it is not also the
      modifier) while the modifier is held and the key is not; that event is blocked and
      marks the key held. */
  lemma ScheduleExactly(s: ShortcutKeyboardState, keyState: int, eventKeyCode: nat, key: nat, modifier: nat)
    ensures var o := Step(s, keyState, eventKeyCode, key, modifier);
            o.Schedule <==> keyState == WM_KEYDOWN && eventKeyCode == key && key != modifier
                            && s.ModifierIsPressed && !s.KeyIsPressed
    ensures var o := Step(s, keyState, eventKeyCode, key, modifier);
            o.Schedule ==> !o.Propagate && o.Next == s.(KeyIsPressed := true)
  {
  }

  /** Repeated key-downs of the held modifier, or of the held key, are blocked and schedule nothing. */
  lemma RepeatsBlocked(s: ShortcutKeyboardState, eventKeyCode: nat, key: nat, modifier: nat)
    requires (eventKeyCode == modifier && s.ModifierIsPressed)
             || (eventKeyCode == key && key != modifier && s.KeyIsPressed)
    ensures Step(s, WM_KEYDOWN, eventKeyCode, key, modifier) == Outcome(false, false, s)
  {
  }

  /** The key pressed without the modifier propagates and is not marked held. */
  lemma KeyWithoutModifier(s: ShortcutKeyboardState, key: nat, modifier: nat)
    requires key != modifier && !s.ModifierIsPressed && !s.KeyIsPressed
    ensures Step(s, WM_KEYDOWN, key, key, modifier) == Outcome(true, false, s)
  {
  }

  /** Every key-up propagates, schedules nothing and clears the flag of its code, the
      key's before the modifier's. */
  lemma KeyUpsPropagate(s: ShortcutKeyboardState, eventKeyCode: nat, key: nat, modifier: nat)
    ensures var o := Step(s, WM_KEYUP, eventKeyCode, key, modifier);
            o.Propagate && !o.Schedule
            && (eventKeyCode == key ==> o.Next == s.(KeyIsPressed := false))
            && (eventKeyCode != key && eventKeyCode == modifier ==> o.Next == s.(ModifierIsPressed := false))
  {
  }

  /** A low-level keyboard event: its message and the virtual key code. */
  datatype KeyEvent = KeyEvent(KeyState: int, Code: nat)

  function Final(s: ShortcutKeyboardState, events: seq<KeyEvent>, key: nat, modifier: nat): ShortcutKeyboardState
    decreases |events|
  {
    if |events| == 0 then s
    else Final(Step(s, events[0].KeyState, events[0].Code, key, modifier).Next, events[1..], key, modifier)
  }

  /** How many callbacks a run of events schedules. */
  function Fired(s: ShortcutKeyboardState, events: seq<KeyEvent>, key: nat, modifier: nat): nat
    decreases |events|
  {
    if |events| == 0 then 0
    else
      var o := Step(s, events[0].KeyState, events[0].Code, key, modifier);
      (if o.Schedule then 1 else 0) + Fired(o.Next, events[1..], key, modifier)
  }

  /** The value returned for each event of a run: true to propagate. */
  function Results(s: ShortcutKeyboardState, events: seq<KeyEvent>, key: nat, modifier: nat): (r: seq<bool>)
    ensures |r| == |events|
    decreases |events|
  {
    if |events| == 0 then []
    else
      var o := Step(s, events[0].KeyState, events[0].Code, key, modifier);
      [o.Propagate] + Results(o.Next, events[1..], key, modifier)
  }

  /** While the key is held, nothing fires again until the key's own key-up. */
  lemma {:induction false} NoRefireWhileHeld(s: ShortcutKeyboardState, events: seq<KeyEvent>, key: nat, modifier: nat)
    requires s.KeyIsPressed
    requires forall i :: 0 <= i < |events| ==> !(events[i].KeyState == WM_KEYUP && events[i].Code == key)
    ensures Fired(s, events, key, modifier) == 0
    ensures Final(s, events, key, modifier).KeyIsPressed
    decreases |events|
  {
    if |events| > 0 {
      NoRefireWhileHeld(Step(s, events[0].KeyState, events[0].Code, key, modifier).Next, events[1..], key, modifier);
    }
  }

  /** When the key is its own modifier the modifier branch always wins: nothing ever fires,
      and once the code has gone down every later key-down of it is blocked, since its
      key-up clears only the key flag. */
  lemma {:induction false} KeyAsModifierNeverFires(s: ShortcutKeyboardState, events: seq<KeyEvent>, code: nat)
    ensures Fired(s, events, code, code) == 0
    ensures s.ModifierIsPressed ==> Final(s, events, code, code).ModifierIsPressed
    ensures s.ModifierIsPressed ==> forall i :: 0 <= i < |events| && events[i] == KeyEvent(WM_KEYDOWN, code)
                                      ==> !Results(s, events, code, code)[i]
    decreases |events|
  {
    if |events| > 0 {
      var next := Step(s, events[0].KeyState, events[0].Code, code, code).Next;
      KeyAsModifierNeverFires(next, events[1..], code);
      if s.ModifierIsPressed {
        assert next.ModifierIsPressed;
        forall i | 0 <= i < |events| && events[i] == KeyEvent(WM_KEYDOWN, code)
          ensures !Results(s, events, code, code)[i]
        {
          if i > 0 {
            assert events[1..][i - 1] == events[i];
          }
        }
      }
    }
  }

  /** Modifier, key, a held repeat of both, release of the key and a second press: the
      callback is scheduled twice, and only the events that complete or repeat the
      shortcut are blocked. */
  lemma HoldReleaseAndPressAgain(key: nat, modifier: nat)
    requires key != modifier
    ensures var events := [KeyEvent(WM_KEYDOWN, modifier), KeyEvent(WM_KEYDOWN, key), KeyEvent(WM_KEYDOWN, modifier),
                           KeyEvent(WM_KEYDOWN, key), KeyEvent(WM_KEYUP, key), KeyEvent(WM_KEYDOWN, key),
                           KeyEvent(WM_KEYUP, key)];
            Fired(InitialState, events, key, modifier) == 2
            && Results(InitialState, events, key, modifier) == [true, false, false, false, true, false, true]
            && Final(InitialState, events, key, modifier) == ShortcutKeyboardState(false, true)
  {
    var events := [KeyEvent(WM_KEYDOWN, modifier), KeyEvent(WM_KEYDOWN, key), KeyEvent(WM_KEYDOWN, modifier),
                   KeyEvent(WM_KEYDOWN, key), KeyEvent(WM_KEYUP, key), KeyEvent(WM_KEYDOWN, key),
                   KeyEvent(WM_KEYUP, key)];
    var held := ShortcutKeyboardState(true, true);
    var modifierOnly := ShortcutKeyboardState(false, true);
    var states := [InitialState, modifierOnly, held, held, held, modifierOnly, held, modifierOnly];
    var k := 7;
    while k > 0
      invariant 0 <= k <= 7
      invariant Final(states[k], events[k..], key, modifier) == modifierOnly
      invariant Fired(states[k], events[k..], key, modifier) == [2, 2, 1, 1, 1, 1, 0, 0][k]
      invariant Results(states[k], events[k..], key, modifier) == [true, false, false, false, true, false, true][k..]
    {
      k := k - 1;
      assert events[k..][1..] == events[k + 1..];
      assert Step(states[k], events[k].KeyState, events[k].Code, key, modifier).Next == states[k + 1];
      assert Step(states[k], events[k].KeyState, events[k].Code, key, modifier).Schedule == (k == 1 || k == 5);
    }
  }

  /** The keyboard hook's flags and the callbacks scheduled so far. */
  class WindowsKeyboard {
    var KeyIsPressed: bool
    var ModifierIsPressed: bool
    var ScheduledCallbacks: nat

    function State(): ShortcutKeyboardState
      reads this
    {
      ShortcutKeyboardState(KeyIsPressed, ModifierIsPressed)
    }

    constructor()
      ensures State() == InitialState && ScheduledCallbacks == 0
    {
      KeyIsPressed := false;
      ModifierIsPressed := false;
      ScheduledCallbacks := 0;
    }

    /** Handles one event; true lets it propagate along the hook chain. */
    method ProcessKeyBlocking(keyState: int, eventKeyCode: nat, key: nat, modifier: nat) returns (propagate: bool)
      modifies this
      ensures var o := Step(old(State()), keyState, eventKeyCode, key, modifier);
              propagate == o.Propagate && State() == o.Next
              && ScheduledCallbacks == old(ScheduledCallbacks) + (if o.Schedule then 1 else 0)
    {
      if keyState == WM_KEYDOWN {
        if eventKeyCode == modifier {
          if ModifierIsPressed {
            return false;
          }
          ModifierIsPressed := true;
        } else if eventKeyCode == key {
          if KeyIsPressed {
            return false;
          }
          if ModifierIsPressed {
            KeyIsPressed := true;
            ScheduledCallbacks := ScheduledCallbacks + 1;
            return false;
          }
        }
      } else if keyState == WM_KEYUP {
        if eventKeyCode == key {
          KeyIsPressed := false;
        } else if eventKeyCode == modifier {
          ModifierIsPressed := false;
        }
      }
      return true;
    }

    /** Removing the hook forgets both flags. */
    method UnsetHook()
      modifies this
      ensures State() == InitialState
      ensures ScheduledCallbacks == old(ScheduledCallbacks)
    {
      KeyIsPressed := false;
      ModifierIsPressed := false;
    }
  }
}
