/** The older tabs service (AppSource/Palladium.Actions/TabService.cs): tabs are added to a
    target tab control, and single-instance actions are registered under their `OnStart`
    delegate rather than their identifier. Delegates are named by numbers, tab items by the
    number of their creation. Exceptions are modelled as an error result. */
module LegacyTabs {
  import opened Wrappers
  import opened Guids

  /** An action whose `OnStart` delegate, if not null, is named by a number. */
  datatype LegacyAction = LegacyAction(guid: Guid, emoji: Option<string>, title: Option<string>,
                                       canOpenMultiple: bool, onStart: Option<nat>)

  datatype TabItem = TabItem(id: nat, header: string)

  /** `InvalidOperationException` (no target), `ArgumentNullException` (a null dictionary
      key) and `NullReferenceException` (invoking a null delegate). */
  datatype StartError = TargetNotSet | NullKey | NullStart

  /** The registry, the target's items and selected item, the next tab's number, and the
      delegates invoked so far with the tab each was given. */
  datatype LegacyState = LegacyState(registry: map<nat, TabItem>, items: seq<TabItem>, selected: Option<TabItem>,
                                     nextTabId: nat, started: seq<(nat, nat)>)

  datatype Outcome = Outcome(state: LegacyState, error: Option<StartError>)

  function OrEmpty(s: Option<string>): string {
    if s.Some? then s.value else ""
  }

  function Header(a: LegacyAction): string {
    OrEmpty(a.emoji) + " " + OrEmpty(a.title)
  }

  /** `HandleStartAction`, with or without a target. */
  function LegacyStart(s: LegacyState, hasTarget: bool, a: LegacyAction): (r: Outcome)
    ensures r.error.Some? && r.error.value != NullStart ==> r.state == s
    ensures r.error.None? ==> r.state.selected.Some?
    ensures |s.started| <= |r.state.started| <= |s.started| + 1
  {
    if !hasTarget then Outcome(s, Some(TargetNotSet))
    else if !a.canOpenMultiple && a.onStart.None? then Outcome(s, Some(NullKey))
    else if !a.canOpenMultiple && a.onStart.value in s.registry then
      Outcome(s.(selected := Some(s.registry[a.onStart.value])), None)
    else
      var t := TabItem(s.nextTabId, Header(a));
      var added := s.(items := s.items + [t], selected := Some(t), nextTabId := s.nextTabId + 1,
                      registry := if a.canOpenMultiple then s.registry else s.registry[a.onStart.value := t]);
      if a.onStart.None? then Outcome(added, Some(NullStart))
      else Outcome(added.(started := added.started + [(a.onStart.value, t.id)]), None)
  }

  /** Every registered tab is among the target's items, and tab numbers are below the next. */
  predicate Valid(s: LegacyState) {
    (forall t :: t in s.items ==> t.id < s.nextTabId)
    && (forall d :: d in s.registry ==> s.registry[d] in s.items)
  }

  // ---------------------------------------------------------------------------------
  // Properties
  // ---------------------------------------------------------------------------------

  /** Without a target the call fails and changes nothing. */
  lemma NoTargetChangesNothing(s: LegacyState, a: LegacyAction)
    ensures LegacyStart(s, false, a) == Outcome(s, Some(TargetNotSet))
  {
  }

  /** A single-instance action without `OnStart` fails on the registry lookup, before any
      change. */
  lemma NullKeyChangesNothing(s: LegacyState, a: LegacyAction)
    requires !a.canOpenMultiple && a.onStart.None?
    ensures LegacyStart(s, true, a) == Outcome(s, Some(NullKey))
  {
  }

  /** Starting a single-instance action whose delegate is registered only changes the
      selected item. */
  lemma RegisteredOnlySelects(s: LegacyState, a: LegacyAction)
    requires !a.canOpenMultiple && a.onStart.Some? && a.onStart.value in s.registry
    ensures var o := LegacyStart(s, true, a);
            o.error.None? && o.state.items == s.items && o.state.registry == s.registry
            && o.state.started == s.started && o.state.selected == Some(s.registry[a.onStart.value])
  {
  }

  /** Otherwise one new item is appended and selected, then `OnStart` is invoked with it. A
      new single-instance tab is registered under its delegate. */
  lemma OpensOneTab(s: LegacyState, a: LegacyAction)
    requires Valid(s)
    requires a.canOpenMultiple || (a.onStart.Some? && a.onStart.value !in s.registry)
    ensures var o := LegacyStart(s, true, a);
            |o.state.items| == |s.items| + 1 && o.state.items[..|s.items|] == s.items
            && var t := o.state.items[|s.items|];
               t !in s.items && t.header == Header(a) && o.state.selected == Some(t)
               && o.state.registry == (if a.canOpenMultiple then s.registry else s.registry[a.onStart.value := t])
               && (a.onStart.Some? ==> o.error.None? && o.state.started == s.started + [(a.onStart.value, t.id)])
  {
    var t := TabItem(s.nextTabId, Header(a));
    assert LegacyStart(s, true, a).state.items == s.items + [t];
    assert (s.items + [t])[|s.items|] == t && (s.items + [t])[..|s.items|] == s.items;
    assert forall u :: u in s.items ==> u.id < t.id;
  }

  /** A multi-instance action without `OnStart` gets its tab added and selected, and the
      call then fails when it invokes the missing delegate. */
  lemma NullStartFailsAfterAdding(s: LegacyState, a: LegacyAction)
    requires a.canOpenMultiple && a.onStart.None?
    ensures var o := LegacyStart(s, true, a);
            o.error == Some(NullStart) && |o.state.items| == |s.items| + 1 && o.state.selected.Some?
  {
  }

  lemma StartKeepsValid(s: LegacyState, hasTarget: bool, a: LegacyAction)
    requires Valid(s)
    ensures Valid(LegacyStart(s, hasTarget, a).state)
  {
    var r := LegacyStart(s, hasTarget, a).state;
    if r.items != s.items {
      var t := TabItem(s.nextTabId, Header(a));
      assert r.items == s.items + [t];
      forall d | d in r.registry
        ensures r.registry[d] in r.items
      {
        if a.canOpenMultiple || d != a.onStart.value {
          assert r.registry[d] == s.registry[d];
        }
      }
    }
  }

  /** A single-instance action started twice has one tab. */
  lemma SingleInstance(s: LegacyState, a: LegacyAction)
    requires !a.canOpenMultiple
    ensures var once := LegacyStart(s, true, a).state;
            LegacyStart(once, true, a).state.items == once.items
  {
  }

  // ---------------------------------------------------------------------------------
  // The objects
  // ---------------------------------------------------------------------------------

  class TabControl {
    var Items: seq<TabItem>
    var SelectedItem: Option<TabItem>

    constructor()
      ensures Items == [] && SelectedItem == None
    {
      Items := [];
      SelectedItem := None;
    }
  }

  class LegacyTabsService {
    var registeredActions: map<nat, TabItem>
    var Target: TabControl?
    var nextTabId: nat
    /** The delegates invoked so far, with the number of the tab each was given. */
    var Started: seq<(nat, nat)>

    function State(): LegacyState
      reads this, Target
    {
      LegacyState(registeredActions, if Target == null then [] else Target.Items,
                  if Target == null then None else Target.SelectedItem, nextTabId, Started)
    }

    constructor()
      ensures Target == null && registeredActions == map[] && nextTabId == 0 && Started == []
    {
      registeredActions := map[];
      Target := null;
      nextTabId := 0;
      Started := [];
    }

    method HandleStartAction(action: LegacyAction) returns (error: Option<StartError>)
      modifies this, Target
      ensures Target == old(Target)
      ensures var o := LegacyStart(old(State()), old(Target) != null, action);
              State() == o.state && error == o.error
    {
      if Target == null {
        return Some(TargetNotSet);
      }
      if !action.canOpenMultiple && action.onStart.None? {
        return Some(NullKey);
      }
      if !action.canOpenMultiple && action.onStart.value in registeredActions {
        // change selected tab
        Target.SelectedItem := Some(registeredActions[action.onStart.value]);
        return None;
      }
      // add new tab
      var newTab := TabItem(nextTabId, Header(action));
      nextTabId := nextTabId + 1;
      Target.Items := Target.Items + [newTab];
      Target.SelectedItem := Some(newTab);
      if !action.canOpenMultiple {
        registeredActions := registeredActions[action.onStart.value := newTab];
      }
      // invoke action
      if action.onStart.None? {
        return Some(NullStart);
      }
      Started := Started + [(action.onStart.value, newTab.id)];
      return None;
    }
  }

  /** A single-instance action started twice on a target: one tab, selected, and the
      delegate invoked once. */
  method StartTwice() returns (items: seq<TabItem>, selected: Option<TabItem>, started: seq<(nat, nat)>)
    ensures items == [TabItem(0, " Test")] && selected == Some(TabItem(0, " Test")) && started == [(7, 0)]
  {
    var service := new LegacyTabsService();
    var control := new TabControl();
    service.Target := control;
    var action := LegacyAction(1, None, Some("Test"), false, Some(7));
    assert Header(action) == " Test";
    var t := TabItem(0, " Test");
    var first := service.HandleStartAction(action);
    assert service.registeredActions == map[7 := t];
    assert control.Items == [t] && service.Started == [(7, 0)];
    var second := service.HandleStartAction(action);
    items := control.Items;
    selected := control.SelectedItem;
    started := service.Started;
  }
}
