/** `InvokeHelper.InvokeStream`: pull from the handler's sequence and, after each
    element arrives, stop without error if cancellation has been requested;
    otherwise pass the element on. */
module Streaming {
  import opened Wrappers
  import opened Runtime

  /** What the enumeration yields from position `i` of the handler's sequence on.
      `cancelled(k)` is `ct.IsCancellationRequested` as read after element `k` arrived. */
  function YieldFrom(produced: seq<Value>, cancelled: nat -> bool, i: nat): (r: seq<Value>)
    requires i <= |produced|
    ensures r <= produced[i..]
    ensures forall k :: i <= k < i + |r| ==> !cancelled(k)
    ensures i + |r| < |produced| ==> cancelled(i + |r|)
    decreases |produced| - i
  {
    if i == |produced| || cancelled(i) then []
    else [produced[i]] + YieldFrom(produced, cancelled, i + 1)
  }

  /** The yielded elements: the handler's elements up to, and not including, the
      first one after which cancellation was observed. */
  function InvokeStream(produced: seq<Value>, cancelled: nat -> bool): (r: seq<Value>)
    ensures r <= produced
    ensures forall k :: 0 <= k < |r| ==> !cancelled(k)
    ensures |r| < |produced| ==> cancelled(|r|)
  {
    YieldFrom(produced, cancelled, 0)
  }

  /** The whole of `InvokeStream<TRequest, TResponse>`: the handler is resolved
      once (a missing one throws from `GetRequiredService`) and its `Handle` is
      enumerated once. */
  function StreamRequest(p: Provider, requestType: TypeId, responseType: TypeId, request: Message,
                         ct: CancellationToken, cancelled: nat -> bool): (r: Result<seq<Value>, Error>)
    ensures r.Failure? <==> GetServices(p, StreamHandlerOf(requestType, responseType)) == []
    ensures r.Failure? ==> r.error == NoServiceRegistered(StreamHandlerOf(requestType, responseType))
    ensures r.Success? ==>
              var h := GetRequiredService(p, StreamHandlerOf(requestType, responseType)).value;
              r.value <= p.code.stream(h)(request, ct)
  {
    match GetRequiredService(p, StreamHandlerOf(requestType, responseType))
    case Failure(e) => Failure(e)
    case Success(h) => Success(InvokeStream(p.code.stream(h)(request, ct), cancelled))
  }

  /** The three clauses of `InvokeStream`'s contract pin its result down. */
  lemma InvokeStreamUnique(produced: seq<Value>, cancelled: nat -> bool, r: seq<Value>)
    requires r <= produced
    requires forall k :: 0 <= k < |r| ==> !cancelled(k)
    requires |r| < |produced| ==> cancelled(|r|)
    ensures r == InvokeStream(produced, cancelled)
  {
    var q := InvokeStream(produced, cancelled);
    var lq: nat, lr: nat := |q|, |r|;
    assert lq < lr ==> !cancelled(lq);
    assert lr < lq ==> !cancelled(lr);
  }

  /** Without cancellation every element is yielded, in order. */
  lemma NeverCancelledYieldsAll(produced: seq<Value>, cancelled: nat -> bool)
    requires forall k :: 0 <= k < |produced| ==> !cancelled(k)
    ensures InvokeStream(produced, cancelled) == produced
  {
    var r := InvokeStream(produced, cancelled);
    var n: nat := |r|;
    assert n < |produced| ==> !cancelled(n);
  }

  /** Cancellation first observed after element `k` arrived: exactly the elements
      before it are yielded, and element `k` itself is dropped. */
  lemma CancelledDropsFetched(produced: seq<Value>, cancelled: nat -> bool, k: nat)
    requires k < |produced| && cancelled(k)
    requires forall j :: 0 <= j < k ==> !cancelled(j)
    ensures InvokeStream(produced, cancelled) == produced[..k]
    ensures |InvokeStream(produced, cancelled)| == k
  {
    var r := InvokeStream(produced, cancelled);
    var n: nat := |r|;
    assert n < k ==> cancelled(n);
  }

  /** A handler counting 0, 1, 2, ... with cancellation requested once three
      elements were consumed: exactly 0, 1, 2 reach the caller. */
  lemma CancelAfterThree(n: nat)
    requires n > 3
    ensures InvokeStream(seq(n, i => Value(i)), k => k >= 3) == [Value(0), Value(1), Value(2)]
  {
    var produced := seq(n, i => Value(i));
    CancelledDropsFetched(produced, k => k >= 3, 3);
    assert produced[..3] == [Value(0), Value(1), Value(2)];
  }
}
