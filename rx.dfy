/** Reactive notifications as an observer receives them. An observer is modelled by the
    sequence of notifications delivered to it. */
module Rx {

  datatype Notification<+T> = OnNext(value: T) | OnError(error: string) | OnCompleted

  /** The `OnNext` notifications of some values, in order. */
  function OnNexts<T>(values: seq<T>): (r: seq<Notification<T>>)
    ensures |r| == |values|
    ensures forall i :: 0 <= i < |values| ==> r[i] == OnNext(values[i])
  {
    if |values| == 0 then [] else [OnNext(values[0])] + OnNexts(values[1..])
  }

  lemma OnNextsAppend<T>(a: seq<T>, b: seq<T>)
    ensures OnNexts(a + b) == OnNexts(a) + OnNexts(b)
  {
  }

  /** The values carried by the `OnNext` notifications, in order. */
  function Values<T>(ns: seq<Notification<T>>): seq<T> {
    if |ns| == 0 then []
    else (if ns[0].OnNext? then [ns[0].value] else []) + Values(ns[1..])
  }

  lemma {:induction false} ValuesAppend<T>(a: seq<Notification<T>>, b: seq<Notification<T>>)
    ensures Values(a + b) == Values(a) + Values(b)
  {
    if |a| > 0 {
      assert (a + b)[1..] == a[1..] + b;
      ValuesAppend(a[1..], b);
    } else {
      assert a + b == b;
    }
  }

  /** Reading the values back from their notifications gives the values. */
  lemma {:induction false} ValuesOfOnNexts<T>(values: seq<T>)
    ensures Values(OnNexts(values)) == values
  {
    if |values| > 0 {
      assert OnNexts(values)[1..] == OnNexts(values[1..]);
      ValuesOfOnNexts(values[1..]);
    }
  }
}
