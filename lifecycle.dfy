/** The lifecycle activator of a view model
    (AppSource/Palladium.ExtensionFunctions/Lifecycle/ILifecycleAwareViewModel.cs): blocks
    registered with `WhenAttached` run once, when the view model is set on a view, and hand
    disposables to the activator's `WhenDetached` composite, which is disposed when the view
    model is removed. A block is modelled by the disposables it hands over; disposables are
    named by numbers, and disposing one is recorded in a log. */
module Lifecycle {

  /** A registered block: its identity and the disposables it adds to `WhenDetached`. */
  datatype Block = Block(id: nat, adds: seq<nat>)

  /** An activator: the registered blocks, the composite (its items and whether it is
      disposed), and what has happened so far (blocks invoked, disposables disposed). */
  datatype Activator = Activator(blocks: seq<Block>, items: seq<nat>, isDisposed: bool,
                                 invoked: seq<Block>, disposed: seq<nat>)

  function Fresh(): Activator {
    Activator([], [], false, [], [])
  }

  // ---------------------------------------------------------------------------------
  // The operations, on values
  // ---------------------------------------------------------------------------------

  /** `CompositeDisposable.Add`: a disposed composite disposes the item at once. */
  function AddDisposable(a: Activator, d: nat): Activator {
    if a.isDisposed then a.(disposed := a.disposed + [d]) else a.(items := a.items + [d])
  }

  function AddAll(a: Activator, ds: seq<nat>): Activator {
    if ds == [] then a else AddDisposable(AddAll(a, ds[..|ds| - 1]), ds[|ds| - 1])
  }

  /** A block invoked with the composite adds its disposables to it. */
  function Invoke(a: Activator, b: Block): Activator {
    AddAll(a.(invoked := a.invoked + [b]), b.adds)
  }

  function RunBlocks(a: Activator, bs: seq<Block>): Activator {
    if bs == [] then a else Invoke(RunBlocks(a, bs[..|bs| - 1]), bs[|bs| - 1])
  }

  /** `RunWhenAttached`: every registered block is invoked in order, then the list is cleared. */
  function Attach(a: Activator): (r: Activator)
    ensures r.blocks == [] && r.isDisposed == a.isDisposed
  {
    RunBlocksEffect(a, a.blocks);
    RunBlocks(a, a.blocks).(blocks := [])
  }

  /** `CompositeDisposable.Dispose`: the first call marks the composite disposed and
      disposes its items in order; later calls do nothing. */
  function DisposeComposite(a: Activator): Activator {
    if a.isDisposed then a else a.(items := [], isDisposed := true, disposed := a.disposed + a.items)
  }

  /** `CompositeDisposable.Clear`: the items are disposed in order and removed. */
  function ClearComposite(a: Activator): Activator {
    a.(items := [], disposed := a.disposed + a.items)
  }

  /** `RunWhenDetached`: dispose the composite, then clear it. */
  function Detach(a: Activator): (r: Activator)
    ensures r.items == [] && r.isDisposed && r.blocks == a.blocks && r.invoked == a.invoked
  {
    ClearComposite(DisposeComposite(a))
  }

  /** `WhenAttached`: the block is appended to the registered blocks. */
  function Register(a: Activator, b: Block): (r: Activator)
    ensures |r.blocks| == |a.blocks| + 1 && r.blocks[|a.blocks|] == b
    ensures r.invoked == a.invoked && r.items == a.items && r.disposed == a.disposed
  {
    a.(blocks := a.blocks + [b])
  }

  /** All disposables handed over by the given blocks, in order. */
  function AddsOf(bs: seq<Block>): seq<nat> {
    if bs == [] then [] else AddsOf(bs[..|bs| - 1]) + bs[|bs| - 1].adds
  }

  // ---------------------------------------------------------------------------------
  // Properties
  // ---------------------------------------------------------------------------------

  /** Adding disposables keeps them, in order, while the composite is live, and disposes
      them at once, in order, once it is disposed; nothing else changes. */
  lemma {:induction false} AddAllEffect(a: Activator, ds: seq<nat>)
    ensures var r := AddAll(a, ds);
            r.blocks == a.blocks && r.invoked == a.invoked && r.isDisposed == a.isDisposed
            && (if a.isDisposed then r.items == a.items && r.disposed == a.disposed + ds
                else r.items == a.items + ds && r.disposed == a.disposed)
  {
    if ds != [] {
      var init := ds[..|ds| - 1];
      AddAllEffect(a, init);
      assert ds == init + [ds[|ds| - 1]];
    }
  }

  lemma AppendAssociates(x: seq<nat>, y: seq<nat>, z: seq<nat>)
    ensures x + (y + z) == x + y + z
  {
  }

  lemma {:induction false} AddsOfAppend(xs: seq<Block>, ys: seq<Block>)
    ensures AddsOf(xs + ys) == AddsOf(xs) + AddsOf(ys)
  {
    if ys == [] {
      assert xs + ys == xs;
    } else {
      var init := ys[..|ys| - 1];
      assert (xs + ys)[..|xs + ys| - 1] == xs + init;
      assert (xs + ys)[|xs + ys| - 1] == ys[|ys| - 1];
      AddsOfAppend(xs, init);
    }
  }

  /** Running blocks invokes each of them once, in order, and the composite receives
      everything they hand over, in order, or disposes it at once if it is disposed. */
  lemma {:induction false} RunBlocksEffect(a: Activator, bs: seq<Block>)
    ensures var r := RunBlocks(a, bs);
            r.blocks == a.blocks && r.invoked == a.invoked + bs && r.isDisposed == a.isDisposed
            && (if a.isDisposed then r.items == a.items && r.disposed == a.disposed + AddsOf(bs)
                else r.items == a.items + AddsOf(bs) && r.disposed == a.disposed)
  {
    if bs != [] {
      var init := bs[..|bs| - 1];
      var last := bs[|bs| - 1];
      RunBlocksEffect(a, init);
      var before := RunBlocks(a, init);
      AddAllEffect(before.(invoked := before.invoked + [last]), last.adds);
      assert bs == init + [last];
    }
  }

  /** Attaching invokes every registered block exactly once, in registration order, and
      leaves no block registered. */
  lemma AttachRunsEachBlockOnce(a: Activator)
    ensures Attach(a).invoked == a.invoked + a.blocks && Attach(a).blocks == [] && Attach(a).isDisposed == a.isDisposed
    ensures !a.isDisposed ==> Attach(a).items == a.items + AddsOf(a.blocks) && Attach(a).disposed == a.disposed
  {
    RunBlocksEffect(a, a.blocks);
  }

  /** A second attach with no new registration invokes nothing and changes nothing. */
  lemma AttachAgainRunsNothing(a: Activator)
    ensures Attach(Attach(a)) == Attach(a)
  {
    RunBlocksEffect(a, a.blocks);
  }

  /** A block registered after the view model was attached runs at the next attach, alone. */
  lemma LateBlockRunsAtNextAttach(a: Activator, b: Block)
    ensures Attach(Register(Attach(a), b)).invoked == a.invoked + a.blocks + [b]
  {
    RunBlocksEffect(a, a.blocks);
    RunBlocksEffect(Register(Attach(a), b), [b]);
  }

  /** Every disposable a block handed over is either still in the composite or has been
      disposed, in the order the blocks handed them over; a disposed composite is empty. */
  ghost predicate Accounted(a: Activator) {
    AddsOf(a.invoked) == a.disposed + a.items && (a.isDisposed ==> a.items == [])
  }

  lemma AttachKeepsAccounted(a: Activator)
    requires Accounted(a)
    ensures Accounted(Attach(a))
  {
    RunBlocksEffect(a, a.blocks);
    AddsOfAppend(a.invoked, a.blocks);
    if a.isDisposed {
      assert a.disposed + AddsOf(a.blocks) + [] == a.disposed + AddsOf(a.blocks);
    } else {
      AppendAssociates(a.disposed, a.items, AddsOf(a.blocks));
    }
  }

  /** What can happen to an activator: a block is registered, or the view model is set
      on a view or removed from it. */
  datatype Event = Registered(b: Block) | SetOnView | RemovedFromView

  function Step(a: Activator, e: Event): Activator {
    match e
    case Registered(b) => Register(a, b)
    case SetOnView => Attach(a)
    case RemovedFromView => Detach(a)
  }

  function Replay(a: Activator, es: seq<Event>): Activator {
    if es == [] then a else Step(Replay(a, es[..|es| - 1]), es[|es| - 1])
  }

  /** Whatever happens to a new activator, every disposable handed over is kept or has
      been disposed, once, in order. */
  lemma {:induction false} ReplayKeepsAccounted(es: seq<Event>)
    ensures Accounted(Replay(Fresh(), es))
  {
    if es != [] {
      ReplayKeepsAccounted(es[..|es| - 1]);
      var a := Replay(Fresh(), es[..|es| - 1]);
      if es[|es| - 1].SetOnView? {
        AttachKeepsAccounted(a);
      }
    }
  }

  /** Whatever happened before, removing the view model disposes every disposable any of
      its blocks ever handed over, each once and in order, and leaves nothing held. */
  lemma EverythingDisposedOnRemoval(es: seq<Event>)
    ensures var a := Replay(Fresh(), es + [RemovedFromView]);
            a.items == [] && a.disposed == AddsOf(a.invoked)
  {
    ReplayKeepsAccounted(es);
    assert (es + [RemovedFromView])[..|es|] == es;
  }

  /** Detaching disposes every disposable any block ever handed over, each once and in
      order, and leaves the composite empty; detaching again disposes nothing more. */
  lemma DetachDisposesEverything(a: Activator)
    requires Accounted(a)
    ensures Detach(a).items == [] && Detach(a).isDisposed && Detach(a).disposed == AddsOf(a.invoked)
    ensures Detach(Detach(a)) == Detach(a)
  {
  }

  /** After a detach the composite stays disposed: what a block registered and run later
      hands over is disposed at once instead of being kept. */
  lemma AddedAfterDetachDisposedAtOnce(a: Activator, b: Block)
    ensures var r := Attach(Register(Detach(a), b));
            r.items == [] && r.disposed == Detach(a).disposed + AddsOf(Detach(a).blocks) + b.adds
  {
    var d := Detach(a);
    var registered := Register(d, b);
    assert d.isDisposed && d.items == [];
    RunBlocksEffect(registered, registered.blocks);
    AddsOfAppend(d.blocks, [b]);
    assert AddsOf([b]) == AddsOf([]) + b.adds;
  }

  // ---------------------------------------------------------------------------------
  // The activator
  // ---------------------------------------------------------------------------------

  /** `LifecycleActivator`, with its `WhenDetached` composite folded into its fields: the
      composite is created with the activator and belongs to it alone. */
  class LifecycleActivator {
    var WhenAttachedBlocks: seq<Block>
    /** The items of `WhenDetached`. */
    var items: seq<nat>
    /** Whether `WhenDetached` has been disposed. */
    var isDisposed: bool
    /** The blocks invoked so far, in order. */
    var Invoked: seq<Block>
    /** The disposables disposed so far, in order. */
    var Disposed: seq<nat>

    function State(): Activator
      reads this
    {
      Activator(WhenAttachedBlocks, items, isDisposed, Invoked, Disposed)
    }

    constructor()
      ensures State() == Fresh()
    {
      WhenAttachedBlocks := [];
      items := [];
      isDisposed := false;
      Invoked := [];
      Disposed := [];
    }

    /** `LifecycleCallbacks.WhenAttached`: registers a block. */
    method WhenAttached(b: Block)
      modifies this
      ensures State() == Register(old(State()), b)
    {
      WhenAttachedBlocks := WhenAttachedBlocks + [b];
    }

    /** `WhenDetached.Add`. */
    method AddToWhenDetached(d: nat)
      modifies this
      ensures State() == AddDisposable(old(State()), d)
    {
      if isDisposed {
        Disposed := Disposed + [d];
      } else {
        items := items + [d];
      }
    }

    /** `block.Invoke(WhenDetached)`: the block adds its disposables one by one. */
    method InvokeBlock(b: Block)
      modifies this
      ensures State() == Invoke(old(State()), b)
    {
      Invoked := Invoked + [b];
      ghost var start := State();
      for j := 0 to |b.adds|
        invariant State() == AddAll(start, b.adds[..j])
      {
        assert b.adds[..j + 1][..j] == b.adds[..j];
        AddToWhenDetached(b.adds[j]);
      }
      assert b.adds[..|b.adds|] == b.adds;
    }

    method RunWhenAttached()
      modifies this
      ensures State() == Attach(old(State()))
    {
      var blocks := WhenAttachedBlocks;
      for i := 0 to |blocks|
        invariant State() == RunBlocks(old(State()), blocks[..i])
      {
        assert blocks[..i + 1][..i] == blocks[..i];
        InvokeBlock(blocks[i]);
      }
      assert blocks[..|blocks|] == blocks;
      RunBlocksEffect(old(State()), blocks);
      WhenAttachedBlocks := [];
    }

    /** Disposes the items of `WhenDetached` in order and removes them. */
    method DisposeItems()
      modifies this
      ensures State() == ClearComposite(old(State()))
    {
      for i := 0 to |items|
        invariant WhenAttachedBlocks == old(WhenAttachedBlocks) && items == old(items)
        invariant Disposed == old(Disposed) + items[..i]
        invariant isDisposed == old(isDisposed) && Invoked == old(Invoked)
      {
        Disposed := Disposed + [items[i]];
      }
      assert items[..|items|] == items;
      items := [];
    }

    method RunWhenDetached()
      modifies this
      ensures State() == Detach(old(State()))
    {
      // WhenDetached.Dispose()
      if !isDisposed {
        isDisposed := true;
        DisposeItems();
      }
      // WhenDetached.Clear()
      DisposeItems();
    }
  }

  /** The handler of a view's data-context changes: the previous view model is detached,
      then the current one attached; a missing side is skipped. */
  method OnViewModelChanged(previous: LifecycleActivator?, current: LifecycleActivator?)
    modifies previous, current
    ensures previous != null && previous != current ==> previous.State() == Detach(old(previous.State()))
    ensures current != null && current != previous ==> current.State() == Attach(old(current.State()))
    ensures current != null && current == previous ==> current.State() == Attach(Detach(old(current.State())))
  {
    if previous != null {
      previous.RunWhenDetached();
    }
    if current != null {
      current.RunWhenAttached();
    }
  }

  /** A view model set on a view, replaced by another, then set again: its block runs once,
      what the block handed over is disposed when it is replaced, and the second setting
      runs nothing. */
  method ReattachScenario() returns (invoked: seq<Block>, disposed: seq<nat>)
    ensures invoked == [Block(1, [10, 11])] && disposed == [10, 11]
  {
    var first := new LifecycleActivator();
    var second := new LifecycleActivator();
    first.WhenAttached(Block(1, [10, 11]));
    OnViewModelChanged(null, first);
    OnViewModelChanged(first, second);
    OnViewModelChanged(second, first);
    var registered := Register(Fresh(), Block(1, [10, 11]));
    AttachRunsEachBlockOnce(registered);
    assert AddsOf([Block(1, [10, 11])]) == AddsOf([]) + [10, 11];
    var attached := Attach(registered);
    assert attached == Activator([], [10, 11], false, [Block(1, [10, 11])], []);
    assert Detach(attached) == Activator([], [], true, [Block(1, [10, 11])], [10, 11]);
    assert Attach(Detach(attached)) == Detach(attached);
    invoked := first.Invoked;
    disposed := first.Disposed;
  }
}
