/** Two observable operators (AppSource/Palladium.ExtensionFunctions/ObservableExtensions.cs):
    `PairWithPrevious`, a scan pairing every value with the one before it, and
    `BufferWithToggle`, a gate that queues what its source emits while locked and releases
    the queue, in arrival order, when unlocked. The gate's downstream observer is the
    sequence of notifications it has been sent. */
module ObservableExtensions {
  import opened Wrappers
  import opened Rx

  // ---------------------------------------------------------------------------------
  // PairWithPrevious
  // ---------------------------------------------------------------------------------

  /** `Scan`: the running accumulation after each input. */
  function Scan<A, T>(seed: A, f: (A, T) -> A, xs: seq<T>): (r: seq<A>)
    ensures |r| == |xs|
  {
    if |xs| == 0 then [] else var a := f(seed, xs[0]); [a] + Scan(a, f, xs[1..])
  }

  function PairStep<T>(acc: (T, T), current: T): (T, T) {
    (acc.1, current)
  }

  /** Every value paired with its predecessor; the first one with `defaultValue`. */
  function PairWithPrevious<T>(xs: seq<T>, defaultValue: T): seq<(T, T)> {
    Scan((defaultValue, defaultValue), PairStep, xs)
  }

  lemma {:induction false} ScanPairs<T>(seed: (T, T), xs: seq<T>)
    ensures var r := Scan(seed, PairStep, xs);
            |r| == |xs|
            && (|xs| > 0 ==> r[0] == (seed.1, xs[0]))
            && forall i :: 0 < i < |xs| ==> r[i] == (xs[i - 1], xs[i])
    decreases |xs|
  {
    if |xs| > 1 {
      var a := PairStep(seed, xs[0]);
      ScanPairs(a, xs[1..]);
      var r := Scan(seed, PairStep, xs);
      assert r[1..] == Scan(a, PairStep, xs[1..]);
      forall i | 1 < i < |xs|
        ensures r[i] == (xs[i - 1], xs[i])
      {
        assert r[i] == Scan(a, PairStep, xs[1..])[i - 1];
      }
    }
  }

  /** One pair per input: the first pair's previous value is the default, every later
      pair carries the input before it. */
  lemma PairWithPreviousPairs<T>(xs: seq<T>, defaultValue: T)
    ensures var r := PairWithPrevious(xs, defaultValue);
            |r| == |xs|
            && (|xs| > 0 ==> r[0] == (defaultValue, xs[0]))
            && forall i :: 0 < i < |xs| ==> r[i] == (xs[i - 1], xs[i])
  {
    ScanPairs((defaultValue, defaultValue), xs);
  }

  // ---------------------------------------------------------------------------------
  // BufferWithToggle
  // ---------------------------------------------------------------------------------

  /** A queued notification: a value, an error (with the default value) or a completion
      (with the default value). */
  datatype BufferedItem<T> = BufferedItem(Value: T, Exception: Option<string>, IsCompleted: bool)

  /** What releasing one queued item sends downstream: the completion or the error if the
      item holds one, and then, in every case, the item's value. */
  function Released<T>(item: BufferedItem<T>): (r: seq<Notification<T>>)
    ensures 1 <= |r| <= 2 && r[|r| - 1] == Notification.OnNext(item.Value)
    ensures |r| == 2 <==> item.IsCompleted || item.Exception.Some?
  {
    (if item.IsCompleted then [Notification.OnCompleted]
     else if item.Exception.Some? then [Notification.OnError(item.Exception.value)]
     else [])
    + [Notification.OnNext(item.Value)]
  }

  /** What releasing a queue sends downstream, item after item. */
  function Flush<T>(queue: seq<BufferedItem<T>>): (r: seq<Notification<T>>)
    ensures |queue| <= |r| <= 2 * |queue|
  {
    if |queue| == 0 then [] else Flush(queue[..|queue| - 1]) + Released(queue[|queue| - 1])
  }

  lemma FlushAppend<T>(queue: seq<BufferedItem<T>>, item: BufferedItem<T>)
    ensures Flush(queue + [item]) == Flush(queue) + Released(item)
  {
    assert (queue + [item])[..|queue|] == queue;
  }

  lemma FlushStep<T>(queue: seq<BufferedItem<T>>, i: nat)
    requires i < |queue|
    ensures Flush(queue[..i + 1]) == Flush(queue[..i]) + Released(queue[i])
  {
    assert queue[..i + 1] == queue[..i] + [queue[i]];
    FlushAppend(queue[..i], queue[i]);
  }

  predicate OnlyValues<T>(queue: seq<BufferedItem<T>>) {
    forall i :: 0 <= i < |queue| ==> !queue[i].IsCompleted && queue[i].Exception.None?
  }

  function QueuedValues<T>(queue: seq<BufferedItem<T>>): (r: seq<T>)
    ensures |r| == |queue|
    ensures forall i :: 0 <= i < |queue| ==> r[i] == queue[i].Value
  {
    if |queue| == 0 then [] else QueuedValues(queue[..|queue| - 1]) + [queue[|queue| - 1].Value]
  }

  /** A queue of plain values is released as exactly those values, in arrival order. */
  lemma {:induction false} FlushOfValues<T>(queue: seq<BufferedItem<T>>)
    requires OnlyValues(queue)
    ensures Flush(queue) == OnNexts(QueuedValues(queue))
  {
    if |queue| > 0 {
      var init := queue[..|queue| - 1];
      FlushOfValues(init);
      assert QueuedValues(queue) == QueuedValues(init) + [queue[|queue| - 1].Value];
      OnNextsAppend(QueuedValues(init), [queue[|queue| - 1].Value]);
    }
  }

  /** A queued completion is released as the completion followed by a default value, and a
      queued error as the error followed by a default value. */
  lemma ReleasedStopQuirk<T>(defaultValue: T, error: string)
    ensures Flush([BufferedItem(defaultValue, None, true)])
            == [Notification.OnCompleted, Notification.OnNext(defaultValue)]
    ensures Flush([BufferedItem(defaultValue, Some(error), false)])
            == [Notification.OnError(error), Notification.OnNext(defaultValue)]
  {
    assert [BufferedItem(defaultValue, None, true)][..0] == [];
    assert [BufferedItem(defaultValue, Some(error), false)][..0] == [];
  }

  /** The gate's state: whether it is unlocked, the queue, and what it has sent downstream. */
  datatype Gate<T> = Gate(Unlocked: bool, Queue: seq<BufferedItem<T>>, Output: seq<Notification<T>>)

  /** What reaches the gate: a notification of the source, or a new toggle value. */
  datatype Input<T> = Source(n: Notification<T>) | Toggle(unlocked: bool)

  /** The queued form of a source notification. */
  function Queued<T>(n: Notification<T>, defaultValue: T): BufferedItem<T> {
    match n
    case OnNext(v) => BufferedItem(v, None, false)
    case OnError(e) => BufferedItem(defaultValue, Some(e), false)
    case OnCompleted => BufferedItem(defaultValue, None, true)
  }

  /** The gate after one input: a locked gate queues what the source sends and an
      unlocked one passes it on; unlocking releases and empties the queue, locking only
      closes the gate, and a toggle to the current state does nothing. */
  function Feed<T>(g: Gate<T>, input: Input<T>, defaultValue: T): (r: Gate<T>)
    ensures |g.Output| <= |r.Output| && r.Output[..|g.Output|] == g.Output
    ensures r.Unlocked == (if input.Toggle? then input.unlocked else g.Unlocked)
    ensures (g.Unlocked ==> g.Queue == []) ==> (r.Unlocked ==> r.Queue == [])
  {
    match input
    case Source(n) =>
      if !g.Unlocked then g.(Queue := g.Queue + [Queued(n, defaultValue)])
      else g.(Output := g.Output + [n])
    case Toggle(b) =>
      if b == g.Unlocked then g
      else if b then Gate(true, [], g.Output + Flush(g.Queue))
      else g.(Unlocked := false)
  }

  function Run<T>(g: Gate<T>, inputs: seq<Input<T>>, defaultValue: T): Gate<T>
    decreases |inputs|
  {
    if |inputs| == 0 then g else Run(Feed(g, inputs[0], defaultValue), inputs[1..], defaultValue)
  }

  /** An open gate never holds a queue. */
  lemma {:induction false} OpenGateIsEmpty<T>(g: Gate<T>, inputs: seq<Input<T>>, defaultValue: T)
    requires g.Unlocked ==> g.Queue == []
    ensures var h := Run(g, inputs, defaultValue); h.Unlocked ==> h.Queue == []
    decreases |inputs|
  {
    if |inputs| > 0 {
      OpenGateIsEmpty(Feed(g, inputs[0], defaultValue), inputs[1..], defaultValue);
    }
  }

  /** The values the source sends, in order. */
  function SourceValues<T>(inputs: seq<Input<T>>): seq<T> {
    if |inputs| == 0 then []
    else (if inputs[0].Source? && inputs[0].n.OnNext? then [inputs[0].n.value] else []) + SourceValues(inputs[1..])
  }

  predicate NoStops<T>(inputs: seq<Input<T>>) {
    forall i :: 0 <= i < |inputs| && inputs[i].Source? ==> inputs[i].n.OnNext?
  }

  /** What the gate has sent followed by what it still holds, as values. */
  function SentThenHeld<T>(g: Gate<T>): seq<T> {
    Values(g.Output) + QueuedValues(g.Queue)
  }

  /** One input without a stop moves its value, if any, to the end of what has been sent
      followed by what is held. */
  lemma FeedKeepsOrder<T>(g: Gate<T>, input: Input<T>, defaultValue: T)
    requires g.Unlocked ==> g.Queue == []
    requires OnlyValues(g.Queue) && (input.Source? ==> input.n.OnNext?)
    ensures var next := Feed(g, input, defaultValue);
            (next.Unlocked ==> next.Queue == [])
            && OnlyValues(next.Queue)
            && SentThenHeld(next) == SentThenHeld(g) + (if input.Source? then [input.n.value] else [])
  {
    var next := Feed(g, input, defaultValue);
    match input {
      case Source(n) =>
        if !g.Unlocked {
          assert next.Queue == g.Queue + [BufferedItem(n.value, None, false)];
          assert QueuedValues(next.Queue) == QueuedValues(g.Queue) + [n.value];
        } else {
          ValuesAppend(g.Output, [n]);
        }
      case Toggle(b) =>
        if b != g.Unlocked && b {
          FlushOfValues(g.Queue);
          ValuesAppend(g.Output, Flush(g.Queue));
          ValuesOfOnNexts(QueuedValues(g.Queue));
        }
    }
  }

  /** Without completions or errors, the gate loses, duplicates and reorders nothing: what
      it has sent followed by what it still holds is exactly what the source sent. */
  lemma {:induction false} NothingLostOrReordered<T>(g: Gate<T>, inputs: seq<Input<T>>, defaultValue: T)
    requires g.Unlocked ==> g.Queue == []
    requires OnlyValues(g.Queue) && NoStops(inputs)
    ensures var h := Run(g, inputs, defaultValue);
            OnlyValues(h.Queue) && SentThenHeld(h) == SentThenHeld(g) + SourceValues(inputs)
    decreases |inputs|
  {
    if |inputs| > 0 {
      var next := FeedStep(g, inputs, defaultValue);
      NothingLostOrReordered(next, inputs[1..], defaultValue);
      SourceValuesStep(SentThenHeld(g), SentThenHeld(next), SentThenHeld(Run(next, inputs[1..], defaultValue)), inputs);
    }
  }

  lemma FeedStep<T>(g: Gate<T>, inputs: seq<Input<T>>, defaultValue: T) returns (next: Gate<T>)
    requires |inputs| > 0 && (g.Unlocked ==> g.Queue == [])
    requires OnlyValues(g.Queue) && NoStops(inputs)
    ensures next == Feed(g, inputs[0], defaultValue) && Run(g, inputs, defaultValue) == Run(next, inputs[1..], defaultValue)
    ensures (next.Unlocked ==> next.Queue == []) && OnlyValues(next.Queue) && NoStops(inputs[1..])
    ensures inputs[0].Source? ==> inputs[0].n.OnNext?
    ensures SentThenHeld(next) == SentThenHeld(g) + (if inputs[0].Source? then [inputs[0].n.value] else [])
  {
    next := Feed(g, inputs[0], defaultValue);
    FeedKeepsOrder(g, inputs[0], defaultValue);
    NoStopsTail(inputs);
  }

  lemma SourceValuesStep<T>(before: seq<T>, middle: seq<T>, after: seq<T>, inputs: seq<Input<T>>)
    requires |inputs| > 0 && (inputs[0].Source? ==> inputs[0].n.OnNext?)
    requires middle == before + (if inputs[0].Source? then [inputs[0].n.value] else [])
    requires after == middle + SourceValues(inputs[1..])
    ensures after == before + SourceValues(inputs)
  {
    assert SourceValues(inputs) == (if inputs[0].Source? then [inputs[0].n.value] else []) + SourceValues(inputs[1..]);
  }

  lemma NoStopsTail<T>(inputs: seq<Input<T>>)
    requires |inputs| > 0 && NoStops(inputs)
    ensures NoStops(inputs[1..])
  {
    forall i | 0 <= i < |inputs| - 1 && inputs[1..][i].Source?
      ensures inputs[1..][i].n.OnNext?
    {
      assert inputs[1..][i] == inputs[i + 1];
    }
  }

  /** The relock scenario: a value arrives locked, the gate is unlocked then locked again,
      a second value arrives; only the first has been sent, and unlocking again sends the
      second after it. */
  lemma RelockScenario<T>(v1: T, v2: T, defaultValue: T)
    ensures var start := Gate(false, [], []);
            var inputs := [Input.Source(Notification.OnNext(v1)), Toggle(true), Toggle(false),
                           Input.Source(Notification.OnNext(v2))];
            Run(start, inputs, defaultValue).Output == [Notification.OnNext(v1)]
            && Run(start, inputs + [Toggle(true)], defaultValue).Output
               == [Notification.OnNext(v1), Notification.OnNext(v2)]
  {
    var s1, t1, t2, s2 := Input.Source(Notification.OnNext(v1)), Toggle(true), Toggle(false), Input.Source(Notification.OnNext(v2));
    var item1, item2 := BufferedItem(v1, None, false), BufferedItem(v2, None, false);
    var g1 := Gate(false, [item1], []);
    var g2 := Gate(true, [], [Notification.OnNext(v1)]);
    var g3 := Gate(false, [], [Notification.OnNext(v1)]);
    var g4 := Gate(false, [item2], [Notification.OnNext(v1)]);
    var g5 := Gate(true, [], [Notification.OnNext(v1), Notification.OnNext(v2)]);
    OneValueFlushed(item1);
    OneValueFlushed(item2);
    assert Feed(Gate(false, [], []), s1, defaultValue) == g1;
    assert Feed(g1, t1, defaultValue) == g2;
    assert Feed(g2, t2, defaultValue) == g3;
    assert Feed(g3, s2, defaultValue) == g4;
    assert Feed(g4, Toggle(true), defaultValue) == g5;
    var all := [s1, t1, t2, s2, Toggle(true)];
    assert all == [s1, t1, t2, s2] + [Toggle(true)];
    assert Run(g5, all[5..], defaultValue) == g5;
    assert Run(g4, all[4..], defaultValue) == g5;
    assert Run(g3, all[3..], defaultValue) == g5;
    assert Run(g2, all[2..], defaultValue) == g5;
    assert Run(g1, all[1..], defaultValue) == g5;
    var inputs := [s1, t1, t2, s2];
    assert Run(g4, inputs[4..], defaultValue) == g4;
    assert Run(g3, inputs[3..], defaultValue) == g4;
    assert Run(g2, inputs[2..], defaultValue) == g4;
    assert Run(g1, inputs[1..], defaultValue) == g4;
  }

  lemma OneValueFlushed<T>(item: BufferedItem<T>)
    requires item.Exception.None? && !item.IsCompleted
    ensures Flush([item]) == [Notification.OnNext(item.Value)]
  {
    assert [item][..0] == [];
  }




  /** The gate of one subscription: it starts locked with an empty queue. */
  class BufferWithToggle<T> {
    var unlocked: bool
    var queue: seq<BufferedItem<T>>
    /** What the downstream observer has been sent. */
    var Output: seq<Notification<T>>
    /** `default(T)`, sent with released completions and errors. */
    const defaultValue: T

    function State(): Gate<T>
      reads this
    {
      Gate(unlocked, queue, Output)
    }

    constructor(defaultValue: T)
      ensures State() == Gate(false, [], []) && this.defaultValue == defaultValue
    {
      this.defaultValue := defaultValue;
      unlocked := false;
      queue := [];
      Output := [];
    }

    method OnNext(value: T)
      modifies this
      ensures !old(unlocked) ==> queue == old(queue) + [BufferedItem(value, None, false)] && Output == old(Output)
      ensures old(unlocked) ==> Output == old(Output) + [Notification.OnNext(value)] && queue == old(queue)
      ensures unlocked == old(unlocked)
      ensures State() == Feed(old(State()), Input.Source(Notification.OnNext(value)), defaultValue)
    {
      if !unlocked {
        queue := queue + [BufferedItem(value, None, false)];
      } else {
        Output := Output + [Notification.OnNext(value)];
      }
    }

    method OnError(exception: string)
      modifies this
      ensures !old(unlocked) ==> queue == old(queue) + [BufferedItem(defaultValue, Some(exception), false)]
                                 && Output == old(Output)
      ensures old(unlocked) ==> Output == old(Output) + [Notification.OnError(exception)] && queue == old(queue)
      ensures unlocked == old(unlocked)
      ensures State() == Feed(old(State()), Input.Source(Notification.OnError(exception)), defaultValue)
    {
      if !unlocked {
        queue := queue + [BufferedItem(defaultValue, Some(exception), false)];
      } else {
        Output := Output + [Notification.OnError(exception)];
      }
    }

    method OnCompleted()
      modifies this
      ensures !old(unlocked) ==> queue == old(queue) + [BufferedItem(defaultValue, None, true)] && Output == old(Output)
      ensures old(unlocked) ==> Output == old(Output) + [Notification.OnCompleted] && queue == old(queue)
      ensures unlocked == old(unlocked)
      ensures State() == Feed(old(State()), Input.Source(Notification.OnCompleted), defaultValue)
    {
      if !unlocked {
        queue := queue + [BufferedItem(defaultValue, None, true)];
      } else {
        Output := Output + [Notification.OnCompleted];
      }
    }

    /** A new toggle value: unlocking releases the queue in arrival order and empties it,
        locking closes the gate, and the current state again changes nothing. */
    method Toggle(newUnlockedState: bool)
      modifies this
      ensures newUnlockedState == old(unlocked) ==> State() == old(State())
      ensures newUnlockedState && !old(unlocked) ==>
                unlocked && queue == [] && Output == old(Output) + Flush(old(queue))
      ensures !newUnlockedState && old(unlocked) ==> !unlocked && queue == old(queue) && Output == old(Output)
      ensures State() == Feed(old(State()), Input.Toggle(newUnlockedState), defaultValue)
    {
      if newUnlockedState == unlocked {
        return;
      }
      if newUnlockedState {
        for i := 0 to |queue|
          invariant queue == old(queue) && unlocked == old(unlocked)
          invariant Output == old(Output) + Flush(queue[..i])
        {
          var bufferedItem := queue[i];
          if bufferedItem.IsCompleted {
            Output := Output + [Notification.OnCompleted];
          } else if bufferedItem.Exception.Some? {
            Output := Output + [Notification.OnError(bufferedItem.Exception.value)];
          }
          Output := Output + [Notification.OnNext(bufferedItem.Value)];
          FlushStep(queue, i);
        }
        assert queue[..|queue|] == queue;
        queue := [];
        unlocked := true;
      } else {
        unlocked := false;
      }
    }
  }
}
