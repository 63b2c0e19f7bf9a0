/** A subject that also keeps the first values it is given and replays them to every
    later subscriber (AppSource/Palladium.ExtensionFunctions/ReplayFirstValuesSubject.cs).
    The inner plain subject is modelled by its stop notification and by what each of its
    observers has received, observers being numbered in subscription order. */
module ReplayFirstValues {
  import opened Wrappers
  import opened Rx

  function Min(a: nat, b: nat): nat {
    if a < b then a else b
  }

  /** Every observer's deliveries, each extended by one notification. */
  function AppendToAll<T>(received: seq<seq<Notification<T>>>, n: Notification<T>): (r: seq<seq<Notification<T>>>)
    ensures |r| == |received|
    ensures forall i :: 0 <= i < |r| ==> r[i] == received[i] + [n]
  {
    seq(|received|, i requires 0 <= i < |received| => received[i] + [n])
  }

  class ReplayFirstValuesSubject<T(0)> {
    const repeatCount: nat
    const items: array<T>
    var itemsCount: nat
    var isTerminated: bool
    /** The notification that stopped the inner subject, if any. */
    var stopped: Option<Notification<T>>
    /** What each observer of the inner subject has received. */
    var Received: seq<seq<Notification<T>>>
    /** The values given to `OnNext` before termination. */
    ghost var Pushed: seq<T>

    /** The buffer holds the first values pushed before termination, up to `repeatCount`,
        in push order; the subject stops exactly when it terminates. */
    ghost predicate Valid()
      reads this, items
    {
      items.Length == repeatCount
      && itemsCount == Min(|Pushed|, repeatCount)
      && items[..itemsCount] == Pushed[..itemsCount]
      && (isTerminated <==> stopped.Some?)
      && (stopped.Some? ==> !stopped.value.OnNext?)
    }

    function Buffered(): seq<T>
      reads this, items
      requires itemsCount <= items.Length
    {
      items[..itemsCount]
    }

    constructor(repeatCount: nat)
      ensures Valid() && fresh(items)
      ensures this.repeatCount == repeatCount && Pushed == [] && Received == [] && !isTerminated
    {
      this.repeatCount := repeatCount;
      items := new T[repeatCount];
      itemsCount := 0;
      isTerminated := false;
      stopped := None;
      Received := [];
      Pushed := [];
    }

    /** The inner subject's `OnNext`, `OnError` and `OnCompleted`: forwarded to every
        observer until the subject has stopped, and the first stop is remembered. */
    method SubjectNotify(n: Notification<T>)
      modifies this
      ensures Received == if old(stopped).Some? then old(Received) else AppendToAll(old(Received), n)
      ensures stopped == if old(stopped).None? && !n.OnNext? then Some(n) else old(stopped)
      ensures itemsCount == old(itemsCount) && isTerminated == old(isTerminated) && Pushed == old(Pushed)
    {
      if stopped.None? {
        Received := AppendToAll(Received, n);
        if !n.OnNext? {
          stopped := Some(n);
        }
      }
    }

    method OnCompleted()
      requires Valid()
      modifies this
      ensures Valid() && isTerminated
      ensures Buffered() == old(Buffered()) && Pushed == old(Pushed)
      ensures Received == if old(stopped).Some? then old(Received) else AppendToAll(old(Received), Notification.OnCompleted)
      ensures stopped == if old(stopped).Some? then old(stopped) else Some(Notification.OnCompleted)
    {
      isTerminated := true;
      SubjectNotify(Notification.OnCompleted);
    }

    method OnError(error: string)
      requires Valid()
      modifies this
      ensures Valid() && isTerminated
      ensures Buffered() == old(Buffered()) && Pushed == old(Pushed)
      ensures Received == if old(stopped).Some? then old(Received) else AppendToAll(old(Received), Notification.OnError(error))
      ensures stopped == if old(stopped).Some? then old(stopped) else Some(Notification.OnError(error))
    {
      isTerminated := true;
      SubjectNotify(Notification.OnError(error));
    }

    /** Keeps the value if the subject is live and the buffer has room, and forwards it to
        the current observers either way. */
    method OnNext(value: T)
      requires Valid()
      modifies this, items
      ensures Valid() && isTerminated == old(isTerminated)
      ensures Pushed == old(Pushed) + (if old(isTerminated) then [] else [value])
      ensures Buffered() == old(Buffered()) + (if !old(isTerminated) && old(itemsCount) < repeatCount then [value] else [])
      ensures Received == if old(isTerminated) then old(Received) else AppendToAll(old(Received), Notification.OnNext(value))
      ensures stopped == old(stopped)
    {
      if !isTerminated && itemsCount < repeatCount {
        items[itemsCount] := value;
        itemsCount := itemsCount + 1;
      }
      if !isTerminated {
        Pushed := Pushed + [value];
      }
      SubjectNotify(Notification.OnNext(value));
    }

    /** Replays the buffered values to the new observer, then subscribes it to the inner
        subject, which at once signals its stop if it has stopped. */
    method Subscribe() returns (observer: nat)
      requires Valid()
      modifies this
      ensures Valid()
      ensures observer == |old(Received)| && |Received| == observer + 1
      ensures Received[..observer] == old(Received)
      ensures Received[observer] == OnNexts(Buffered()) + (if stopped.Some? then [stopped.value] else [])
      ensures itemsCount == old(itemsCount) && isTerminated == old(isTerminated) && stopped == old(stopped)
      ensures Pushed == old(Pushed)
    {
      observer := |Received|;
      Received := Received + [[]];
      for i := 0 to itemsCount
        invariant |Received| == observer + 1 && Received[..observer] == old(Received)
        invariant Received[observer] == OnNexts(items[..i])
        invariant itemsCount == old(itemsCount) && isTerminated == old(isTerminated) && stopped == old(stopped)
        invariant Pushed == old(Pushed)
      {
        assert items[..i + 1] == items[..i] + [items[i]];
        OnNextsAppend(items[..i], [items[i]]);
        Received := Received[observer := Received[observer] + [Notification.OnNext(items[i])]];
      }
      if stopped.Some? {
        Received := Received[observer := Received[observer] + [stopped.value]];
      }
    }
  }

  /** The buffer never holds more than `repeatCount` values and is exactly the first of
      the values pushed before termination. */
  lemma BufferIsFirstValues<T(0)>(s: ReplayFirstValuesSubject<T>)
    requires s.Valid()
    ensures 0 <= s.itemsCount <= s.repeatCount
    ensures s.Buffered() == s.Pushed[..Min(|s.Pushed|, s.repeatCount)]
  {
  }

  /** An early subscriber receives the first value live and a later one receives it replayed. */
  method EarlyAndLateSubscribers() returns (early: seq<Notification<int>>, late: seq<Notification<int>>)
    ensures early == [Notification.OnNext(1)] && late == [Notification.OnNext(1)]
  {
    var subject := new ReplayFirstValuesSubject<int>(1);
    var first := subject.Subscribe();
    subject.OnNext(1);
    var second := subject.Subscribe();
    early, late := subject.Received[first], subject.Received[second];
  }

  /** A subscriber arriving after completion still receives the first value, followed by
      the completion; a value sent after the completion is ignored. */
  method SubscriberAfterCompletion() returns (received: seq<Notification<int>>)
    ensures received == [Notification.OnNext(1), Notification.OnCompleted]
  {
    var subject := new ReplayFirstValuesSubject<int>(1);
    subject.OnNext(1);
    subject.OnCompleted();
    subject.OnNext(2);
    var o := subject.Subscribe();
    assert OnNexts([1]) == [Notification.OnNext(1)];
    received := subject.Received[o];
  }

  /** A subscriber arriving after an error still receives the first value, followed by the
      error. */
  method SubscriberAfterError() returns (received: seq<Notification<int>>)
    ensures received == [Notification.OnNext(1), Notification.OnError("failure")]
  {
    var subject := new ReplayFirstValuesSubject<int>(1);
    subject.OnNext(1);
    subject.OnError("failure");
    var o := subject.Subscribe();
    assert OnNexts([1]) == [Notification.OnNext(1)];
    received := subject.Received[o];
  }
}
