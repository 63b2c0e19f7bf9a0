/** The tabs service (AppSource/Palladium.Actions/TabsService.cs): starting an action opens a
    tab for it, unless the action allows a single tab and already has one, which is then
    selected instead; closing a tab disposes its content and forgets the registration.
    Tab items are objects: each is named here by the number of its creation. The content
    control's content is what the action's `OnStart` puts into it. */
module Tabs {
  import opened Wrappers
  import opened Guids

  /** The content a tab's content control ends up holding. */
  datatype Content = NoContent | DisposableContent(id: nat) | OtherContent

  /** An action: its identifier, emoji and title (either may be null), whether several tabs
      may be opened for it, and its `OnStart` callback, if any, given by the content it sets. */
  datatype ActionDescription = ActionDescription(guid: Guid, emoji: Option<string>, title: Option<string>,
                                                 canOpenMultiple: bool, onStart: Option<Content>)

  datatype Tab = Tab(id: nat, header: string, actionGuid: Guid, content: Content)

  /** The service: the registered single-instance tabs, the open tabs, every tab sent as the
      current tab, the next tab's number, every tab created (each tab's close command
      remembers its tab), and the contents disposed and tabs started so far. */
  datatype Service = Service(registry: map<Guid, Tab>, tabs: seq<Tab>, selections: seq<Tab>, nextTabId: nat,
                             created: map<nat, Tab>, disposed: seq<nat>, started: seq<nat>)

  function Initial(): Service {
    Service(map[], [], [], 0, map[], [], [])
  }

  /** String interpolation shows null as nothing. */
  function OrEmpty(s: Option<string>): string {
    if s.Some? then s.value else ""
  }

  function Header(a: ActionDescription): (h: string)
    ensures |h| == |OrEmpty(a.emoji)| + 1 + |OrEmpty(a.title)|
    ensures h[|OrEmpty(a.emoji)|] == ' '
  {
    OrEmpty(a.emoji) + " " + OrEmpty(a.title)
  }

  /** `HandleStartAction`. */
  function Start(s: Service, a: ActionDescription): (r: Service)
    ensures |r.selections| == |s.selections| + 1 && r.selections[..|s.selections|] == s.selections
    ensures |s.tabs| <= |r.tabs| <= |s.tabs| + 1 && r.tabs[..|s.tabs|] == s.tabs
    ensures r.disposed == s.disposed
  {
    if !a.canOpenMultiple && a.guid in s.registry then
      s.(selections := s.selections + [s.registry[a.guid]])
    else
      var t := Tab(s.nextTabId, Header(a), a.guid, if a.onStart.Some? then a.onStart.value else NoContent);
      s.(tabs := s.tabs + [t], selections := s.selections + [t], nextTabId := s.nextTabId + 1,
         created := s.created[t.id := t],
         registry := if a.canOpenMultiple then s.registry else s.registry[a.guid := t],
         started := if a.onStart.Some? then s.started + [t.id] else s.started)
  }

  /** `Collection.Remove`: the first tab with that identity is removed, if any. */
  function RemoveFirst(tabs: seq<Tab>, id: nat): seq<Tab> {
    if tabs == [] then []
    else if tabs[0].id == id then tabs[1..]
    else [tabs[0]] + RemoveFirst(tabs[1..], id)
  }

  /** The close command of tab `t`. */
  function Close(s: Service, t: Tab): (r: Service)
    ensures t.actionGuid !in r.registry
    ensures r.selections == s.selections && r.created == s.created && r.nextTabId == s.nextTabId
            && r.started == s.started
  {
    s.(disposed := if t.content.DisposableContent? then s.disposed + [t.content.id] else s.disposed,
       tabs := RemoveFirst(s.tabs, t.id),
       registry := s.registry - {t.actionGuid})
  }

  predicate UniqueIds(tabs: seq<Tab>) {
    forall i, j :: 0 <= i < j < |tabs| ==> tabs[i].id != tabs[j].id
  }

  /** Tabs are distinct objects created by the service; every registered tab is open and
      belongs to the action it is registered for. */
  predicate Valid(s: Service) {
    UniqueIds(s.tabs)
    && (forall t :: t in s.tabs ==> t.id in s.created && s.created[t.id] == t)
    && (forall id :: id in s.created ==> id < s.nextTabId)
    && (forall g :: g in s.registry ==> s.registry[g] in s.tabs && s.registry[g].actionGuid == g)
  }

  // ---------------------------------------------------------------------------------
  // Properties
  // ---------------------------------------------------------------------------------

  lemma InitialIsValid()
    ensures Valid(Initial())
  {
  }

  /** Removing the first tab with an identity keeps the others, and removes every tab with
      that identity when identities are unique. */
  lemma {:induction false} RemoveFirstMembers(tabs: seq<Tab>, id: nat)
    requires UniqueIds(tabs)
    ensures forall t :: t in RemoveFirst(tabs, id) <==> t in tabs && t.id != id
  {
    if tabs != [] {
      RemoveFirstMembers(tabs[1..], id);
      if tabs[0].id == id {
        forall t | t in tabs[1..]
          ensures t.id != id
        {
          var k :| 0 <= k < |tabs[1..]| && tabs[1..][k] == t;
          assert tabs[k + 1] == t;
        }
      }
      assert forall t :: t in tabs <==> t == tabs[0] || t in tabs[1..];
    }
  }

  /** Removal takes one tab away when one has the identity, and none otherwise. */
  lemma {:induction false} RemoveFirstLength(tabs: seq<Tab>, id: nat)
    ensures |RemoveFirst(tabs, id)| == if exists t :: t in tabs && t.id == id then |tabs| - 1 else |tabs|
  {
    if tabs != [] {
      RemoveFirstLength(tabs[1..], id);
      if tabs[0].id != id {
        assert forall t :: t in tabs <==> t == tabs[0] || t in tabs[1..];
      } else {
        assert tabs[0] in tabs;
      }
    }
  }

  /** Removal keeps identities unique. */
  lemma {:induction false} RemoveFirstUnique(tabs: seq<Tab>, id: nat)
    requires UniqueIds(tabs)
    ensures UniqueIds(RemoveFirst(tabs, id))
  {
    if tabs != [] && tabs[0].id != id {
      RemoveFirstUnique(tabs[1..], id);
      RemoveFirstMembers(tabs[1..], id);
      var r := RemoveFirst(tabs, id);
      var rest := RemoveFirst(tabs[1..], id);
      forall i, j | 0 <= i < j < |r|
        ensures r[i].id != r[j].id
      {
        if i == 0 {
          assert r[j] == rest[j - 1] && rest[j - 1] in rest;
          var k :| 0 <= k < |tabs[1..]| && tabs[1..][k] == r[j];
          assert tabs[k + 1] == r[j];
        } else {
          assert r[i] == rest[i - 1] && r[j] == rest[j - 1];
        }
      }
    }
  }

  lemma {:induction false} RemoveAppendedLast(tabs: seq<Tab>, t: Tab)
    requires forall u :: u in tabs ==> u.id != t.id
    ensures RemoveFirst(tabs + [t], t.id) == tabs
  {
    if tabs == [] {
      assert RemoveFirst([t], t.id) == [t][1..];
    } else {
      assert (tabs + [t])[1..] == tabs[1..] + [t];
      RemoveAppendedLast(tabs[1..], t);
      assert tabs == [tabs[0]] + tabs[1..];
    }
  }

  /** Starting a single-instance action that already has a tab only selects that tab: no
      tab is added and `OnStart` is not called. */
  lemma StartRegisteredOnlySelects(s: Service, a: ActionDescription)
    requires !a.canOpenMultiple && a.guid in s.registry
    ensures var r := Start(s, a);
            r.tabs == s.tabs && r.registry == s.registry && r.started == s.started && r.disposed == s.disposed
            && r.selections == s.selections + [s.registry[a.guid]]
  {
  }

  /** Otherwise exactly one new tab is appended and selected, headed with the emoji and the
      title; `OnStart` is called once for it if there is one; it is registered when the
      action is single-instance, and the registry is untouched otherwise. */
  lemma StartOpensOneTab(s: Service, a: ActionDescription)
    requires Valid(s) && (a.canOpenMultiple || a.guid !in s.registry)
    ensures var r := Start(s, a);
            |r.tabs| == |s.tabs| + 1 && r.tabs[..|s.tabs|] == s.tabs
            && var t := r.tabs[|s.tabs|];
               t !in s.tabs && t.header == Header(a) && t.actionGuid == a.guid
               && r.selections == s.selections + [t]
               && r.started == (if a.onStart.Some? then s.started + [t.id] else s.started)
               && r.registry == (if a.canOpenMultiple then s.registry else s.registry[a.guid := t])
  {
    var t := Tab(s.nextTabId, Header(a), a.guid, if a.onStart.Some? then a.onStart.value else NoContent);
    assert Start(s, a).tabs == s.tabs + [t];
    assert (s.tabs + [t])[|s.tabs|] == t && (s.tabs + [t])[..|s.tabs|] == s.tabs;
    assert forall u :: u in s.tabs ==> u.id < t.id;
  }

  lemma StartKeepsValid(s: Service, a: ActionDescription)
    requires Valid(s)
    ensures Valid(Start(s, a))
  {
    if a.canOpenMultiple || a.guid !in s.registry {
      var r := Start(s, a);
      var t := Tab(s.nextTabId, Header(a), a.guid, if a.onStart.Some? then a.onStart.value else NoContent);
      assert r.tabs == s.tabs + [t];
      assert r.registry == if a.canOpenMultiple then s.registry else s.registry[a.guid := t];
      forall i, j | 0 <= i < j < |r.tabs|
        ensures r.tabs[i].id != r.tabs[j].id
      {
        if j == |s.tabs| {
          assert r.tabs[i] in s.tabs;
        }
      }
      forall g | g in r.registry
        ensures r.registry[g] in r.tabs && r.registry[g].actionGuid == g
      {
        if g != a.guid || a.canOpenMultiple {
          assert r.registry[g] == s.registry[g];
        }
      }
    }
  }

  /** Closing a tab of this service keeps every registration pointing at an open tab. */
  lemma CloseKeepsValid(s: Service, t: Tab)
    requires Valid(s) && t.id in s.created && s.created[t.id] == t
    ensures Valid(Close(s, t))
  {
    RemoveFirstMembers(s.tabs, t.id);
    RemoveFirstUnique(s.tabs, t.id);
    var r := Close(s, t);
    forall g | g in r.registry
      ensures r.registry[g] in r.tabs && r.registry[g].actionGuid == g
    {
      var u := s.registry[g];
      assert u.id in s.created && s.created[u.id] == u;
    }
  }

  /** Closing disposes a disposable content, removes the tab and forgets the action's
      registration; the other open tabs stay, in order. */
  lemma CloseRemovesTab(s: Service, t: Tab)
    requires Valid(s) && t.id in s.created && s.created[t.id] == t
    ensures var r := Close(s, t);
            t !in r.tabs && (forall u :: u in r.tabs <==> u in s.tabs && u != t)
            && t.actionGuid !in r.registry
            && r.disposed == (if t.content.DisposableContent? then s.disposed + [t.content.id] else s.disposed)
    ensures t in s.tabs ==> |Close(s, t).tabs| == |s.tabs| - 1
  {
    RemoveFirstMembers(s.tabs, t.id);
    RemoveFirstLength(s.tabs, t.id);
    forall u | u in s.tabs && u.id == t.id
      ensures u == t
    {
      assert s.created[u.id] == u;
    }
  }

  /** A single-instance action never gets a second tab from starting it again. */
  lemma SingleInstance(s: Service, a: ActionDescription)
    requires Valid(s) && !a.canOpenMultiple
    ensures Start(Start(s, a), a).tabs == Start(s, a).tabs
    ensures var r := Start(Start(s, a), a); r.selections[|r.selections| - 1] == r.registry[a.guid]
  {
  }

  /** Opening a tab for an unregistered action and closing it restores the open tabs and
      the registry. */
  lemma StartThenClose(s: Service, a: ActionDescription)
    requires Valid(s) && a.guid !in s.registry
    ensures var r := Start(s, a);
            var c := Close(r, r.tabs[|s.tabs|]);
            c.tabs == s.tabs && c.registry == s.registry
  {
    var r := Start(s, a);
    var t := r.tabs[|s.tabs|];
    forall u | u in s.tabs
      ensures u.id != t.id
    {
      assert u.id in s.created;
    }
    RemoveAppendedLast(s.tabs, t);
  }

  // ---------------------------------------------------------------------------------
  // The service object
  // ---------------------------------------------------------------------------------

  class TabsService {
    var registeredActions: map<Guid, Tab>
    var Tabs: seq<Tab>
    /** Everything sent on the `CurrentTab` replay subject, in order. */
    var currentTab: seq<Tab>
    var nextTabId: nat
    var created: map<nat, Tab>
    var Disposed: seq<nat>
    var Started: seq<nat>

    function State(): Service
      reads this
    {
      Service(registeredActions, Tabs, currentTab, nextTabId, created, Disposed, Started)
    }

    constructor()
      ensures State() == Initial()
    {
      registeredActions := map[];
      Tabs := [];
      currentTab := [];
      nextTabId := 0;
      created := map[];
      Disposed := [];
      Started := [];
    }

    method HandleStartAction(action: ActionDescription)
      modifies this
      ensures State() == Start(old(State()), action)
    {
      if !action.canOpenMultiple && action.guid in registeredActions {
        // change selected tab
        currentTab := currentTab + [registeredActions[action.guid]];
      } else {
        // add new tab
        var content := NoContent;
        var newTab := Tab(nextTabId, Header(action), action.guid, content);
        if action.onStart.Some? {
          newTab := newTab.(content := action.onStart.value);
        }
        nextTabId := nextTabId + 1;
        created := created[newTab.id := newTab];
        Tabs := Tabs + [newTab];
        currentTab := currentTab + [newTab];
        if !action.canOpenMultiple {
          registeredActions := registeredActions[action.guid := newTab];
        }
        // invoke action
        if action.onStart.Some? {
          Started := Started + [newTab.id];
        }
      }
    }

    /** The close command of `tab`. */
    method CloseTab(tab: Tab)
      modifies this
      ensures State() == Close(old(State()), tab)
    {
      if tab.content.DisposableContent? {
        Disposed := Disposed + [tab.content.id];
      }
      Tabs := RemoveFirst(Tabs, tab.id);
      registeredActions := registeredActions - {tab.actionGuid};
    }
  }

  /** Opening a tab whose content is disposable and closing it disposes the content and
      leaves no tab. */
  method AddAndRemove() returns (count: nat, disposed: seq<nat>)
    ensures count == 0 && disposed == [1]
  {
    var service := new TabsService();
    var action := ActionDescription(0x710F4DED_98D5_4044_BA81_C4A687486A7F, None, Some("Test"), false,
                                    Some(DisposableContent(1)));
    service.HandleStartAction(action);
    assert |service.Tabs| == 1;
    var tab := service.Tabs[0];
    service.CloseTab(tab);
    count := |service.Tabs|;
    disposed := service.Disposed;
  }
}
