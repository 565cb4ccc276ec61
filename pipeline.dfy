/** `InvokeRequest` (identical in PipelineHelper and InvokeHelper): resolve the
    handler and the behaviors for one (request type, response type) pair, order
    the behaviors, wrap them around the handler call from the last to the first,
    and run the composed delegate once. */
module Pipeline {
  import opened Wrappers
  import opened Sequences
  import opened Runtime
  import opened Ordering

  /** The composed delegate: either the handler call itself, or a behavior
      wrapped around the delegate it receives as `next`. */
  datatype Chain = Handler | Wrap(outer: Behavior, next: Chain)

  /** The behaviors of a delegate, outermost first. */
  function Layers(c: Chain): seq<Behavior> {
    match c
    case Handler => []
    case Wrap(b, next) => [b] + Layers(next)
  }

  /** The delegate whose layers, outermost first, are `bs`. */
  function Nest(bs: seq<Behavior>): Chain {
    if bs == [] then Handler else Wrap(bs[0], Nest(bs[1..]))
  }

  lemma {:induction false} LayersOfNest(bs: seq<Behavior>)
    ensures Layers(Nest(bs)) == bs
  {
    if bs != [] {
      LayersOfNest(bs[1..]);
    }
  }

  lemma {:induction false} NestOfLayers(c: Chain)
    ensures Nest(Layers(c)) == c
  {
    match c
    case Handler =>
    case Wrap(b, next) =>
      NestOfLayers(next);
      assert ([b] + Layers(next))[1..] == Layers(next);
  }

  /** The behavior instances `GetServices` returned, each with the order its class declares. */
  function Resolve(impls: seq<TypeId>, orderAttribute: TypeId -> Option<int>): seq<Behavior> {
    seq(|impls|, i requires 0 <= i < |impls| => Behavior(impls[i], orderAttribute(impls[i])))
  }

  /** What the engine and the behaviors observably do, in order. */
  datatype Event =
    | Enter(behavior: TypeId, request: Message, token: CancellationToken)
    | Handled(handler: TypeId, request: Message, token: CancellationToken)
    | Exit(behavior: TypeId)

  datatype Run = Run(trace: seq<Event>, response: Value)

  /** Calling the composed delegate: each behavior gets the request, the token
      and the inner delegate as `next`; the innermost calls the handler. */
  function Execute(c: Chain, code: Classes, handler: TypeId, request: Message, ct: CancellationToken): Run {
    match c
    case Handler => Run([Handled(handler, request, ct)], code.handle(handler)(request, ct))
    case Wrap(b, next) =>
      match code.around(b.impl)
      case Respond(value) => Run([Enter(b.impl, request, ct), Exit(b.impl)], value(request, ct))
      case Around(after) =>
        var inner := Execute(next, code, handler, request, ct);
        Run([Enter(b.impl, request, ct)] + inner.trace + [Exit(b.impl)], after(request, ct, inner.response))
  }

  /** The behaviors registered for the pair, ordered as `OrderBy` orders them. */
  function OrderedBehaviors(p: Provider, requestType: TypeId, responseType: TypeId): seq<Behavior> {
    OrderBy(Resolve(GetServices(p, PipelineBehaviorOf(requestType, responseType)), p.code.orderAttribute))
  }

  /** The whole of `InvokeRequest<TRequest, TResponse>`: a missing handler
      registration throws from `GetRequiredService`; otherwise the composed
      delegate runs once. */
  function Invoke(p: Provider, requestType: TypeId, responseType: TypeId, request: Message, ct: CancellationToken): Result<Run, Error> {
    match GetRequiredService(p, RequestHandlerOf(requestType, responseType))
    case Failure(e) => Failure(e)
    case Success(h) => Success(Execute(Nest(OrderedBehaviors(p, requestType, responseType)), p.code, h, request, ct))
  }

  /** The loop of `InvokeRequest`: `foreach (var b in behaviors.Reverse())` wraps
      the delegate built so far in `b`. */
  method InvokeRequest(p: Provider, requestType: TypeId, responseType: TypeId, request: Message, ct: CancellationToken)
    returns (r: Result<Run, Error>)
    ensures r == Invoke(p, requestType, responseType, request, ct)
  {
    var resolved := GetRequiredService(p, RequestHandlerOf(requestType, responseType));
    if resolved.Failure? {
      return Failure(resolved.error);
    }
    var handler := resolved.value;
    var behaviors := OrderBy(Resolve(GetServices(p, PipelineBehaviorOf(requestType, responseType)), p.code.orderAttribute));
    var handlerDelegate := Handler;
    var i := |behaviors|;
    while i > 0
      invariant 0 <= i <= |behaviors|
      invariant handlerDelegate == Nest(behaviors[i..])
    {
      i := i - 1;
      assert behaviors[i..][1..] == behaviors[i + 1..];
      handlerDelegate := Wrap(behaviors[i], handlerDelegate);
    }
    r := Success(Execute(handlerDelegate, p.code, handler, request, ct));
  }

  // ----- Properties of the composed delegate -----

  ghost predicate AllAround(bs: seq<Behavior>, code: Classes) {
    forall i :: 0 <= i < |bs| ==> code.around(bs[i].impl).Around?
  }

  /** A behavior that returns `await next()` unchanged. */
  ghost predicate Forwards(s: Step) {
    s.Around? && forall m, t, v :: s.after(m, t, v) == v
  }

  /** Every behavior registered for the pair forwards. */
  ghost predicate AllForward(p: Provider, requestType: TypeId, responseType: TypeId) {
    forall b :: b in GetServices(p, PipelineBehaviorOf(requestType, responseType)) ==> Forwards(p.code.around(b))
  }

  /** The entries of `bs`, outermost first. */
  function Enters(bs: seq<Behavior>, request: Message, ct: CancellationToken): seq<Event> {
    if bs == [] then [] else [Enter(bs[0].impl, request, ct)] + Enters(bs[1..], request, ct)
  }

  /** The exits of `bs`, innermost first. */
  function Unwinding(bs: seq<Behavior>): seq<Event> {
    if bs == [] then [] else Unwinding(bs[1..]) + [Exit(bs[0].impl)]
  }

  lemma {:induction false} EntersLength(bs: seq<Behavior>, request: Message, ct: CancellationToken)
    ensures |Enters(bs, request, ct)| == |bs|
  {
    if bs != [] {
      EntersLength(bs[1..], request, ct);
    }
  }

  lemma {:induction false} UnwindingLength(bs: seq<Behavior>)
    ensures |Unwinding(bs)| == |bs|
  {
    if bs != [] {
      UnwindingLength(bs[1..]);
    }
  }

  lemma {:induction false} EntersAt(bs: seq<Behavior>, request: Message, ct: CancellationToken, i: nat)
    requires i < |bs|
    ensures |Enters(bs, request, ct)| == |bs|
    ensures Enters(bs, request, ct)[i] == Enter(bs[i].impl, request, ct)
  {
    if i > 0 {
      EntersAt(bs[1..], request, ct, i - 1);
    } else if |bs| > 1 {
      EntersAt(bs[1..], request, ct, 0);
    }
  }

  lemma {:induction false} UnwindingAt(bs: seq<Behavior>, i: nat)
    requires i < |bs|
    ensures |Unwinding(bs)| == |bs|
    ensures Unwinding(bs)[i] == Exit(bs[|bs| - 1 - i].impl)
  {
    if i < |bs| - 1 {
      UnwindingAt(bs[1..], i);
    } else if |bs| > 1 {
      UnwindingAt(bs[1..], 0);
    }
  }

  /** When every behavior calls `next`, the trace nests: every entry outermost
      first, then the handler, then every exit innermost first. */
  lemma {:induction false} TraceNests(c: Chain, code: Classes, h: TypeId, request: Message, ct: CancellationToken)
    requires AllAround(Layers(c), code)
    ensures Execute(c, code, h, request, ct).trace
         == Enters(Layers(c), request, ct) + [Handled(h, request, ct)] + Unwinding(Layers(c))
  {
    match c
    case Handler =>
    case Wrap(b, next) =>
      var L := Layers(c);
      assert L[0] == b && L[1..] == Layers(next);
      assert AllAround(Layers(next), code) by {
        forall i | 0 <= i < |Layers(next)| ensures code.around(Layers(next)[i].impl).Around? {
          assert Layers(next)[i] == L[i + 1];
        }
      }
      TraceNests(next, code, h, request, ct);
  }

  /** Forwarding behaviors leave the handler's response untouched. */
  lemma {:induction false} ForwardingKeepsResponse(c: Chain, code: Classes, h: TypeId, request: Message, ct: CancellationToken)
    requires forall i :: 0 <= i < |Layers(c)| ==> Forwards(code.around(Layers(c)[i].impl))
    ensures Execute(c, code, h, request, ct).response == code.handle(h)(request, ct)
  {
    match c
    case Handler =>
    case Wrap(b, next) =>
      assert Layers(c)[0] == b;
      forall i | 0 <= i < |Layers(next)| ensures Forwards(code.around(Layers(next)[i].impl)) {
        assert Layers(next)[i] == Layers(c)[i + 1];
      }
      ForwardingKeepsResponse(next, code, h, request, ct);
  }

  /** Layer `i + 1` of a wrapped delegate is layer `i` of the delegate inside it. */
  lemma LayersOfWrap(c: Chain, k: nat)
    requires c.Wrap? && 0 < k < |Layers(c)|
    ensures Layers(c)[0] == c.outer && Layers(c)[1..] == Layers(c.next)
    ensures forall i :: 0 <= i < k - 1 ==> Layers(c.next)[i] == Layers(c)[i + 1]
    ensures Layers(c.next)[k - 1] == Layers(c)[k]
    ensures Layers(c)[..k + 1] == [c.outer] + Layers(c.next)[..k]
  {
  }

  /** Entering and unwinding a prefix peel off its outermost behavior. */
  lemma PrefixEvents(L: seq<Behavior>, k: nat, request: Message, ct: CancellationToken)
    requires 0 < k < |L|
    ensures Enters(L[..k + 1], request, ct) == [Enter(L[0].impl, request, ct)] + Enters(L[1..][..k], request, ct)
    ensures Unwinding(L[..k + 1]) == Unwinding(L[1..][..k]) + [Exit(L[0].impl)]
  {
    assert L[..k + 1][0] == L[0] && L[..k + 1][1..] == L[1..][..k];
  }

  /** A behavior that does not call `next` stops everything inside it: the trace
      holds the entries and exits of it and of the behaviors outside it, and no
      handler call; when those outer behaviors forward, its value is the result. */
  lemma {:induction false} ShortCircuit(c: Chain, code: Classes, h: TypeId, request: Message, ct: CancellationToken, k: nat)
    requires k < |Layers(c)|
    requires code.around(Layers(c)[k].impl).Respond?
    requires forall i :: 0 <= i < k ==> code.around(Layers(c)[i].impl).Around?
    ensures Execute(c, code, h, request, ct).trace
         == Enters(Layers(c)[..k + 1], request, ct) + Unwinding(Layers(c)[..k + 1])
    ensures (forall i :: 0 <= i < k ==> Forwards(code.around(Layers(c)[i].impl)))
         ==> Execute(c, code, h, request, ct).response == code.around(Layers(c)[k].impl).value(request, ct)
  {
    match c
    case Wrap(b, next) =>
      var L := Layers(c);
      if k == 0 {
        assert L[0] == b;
        assert L[..1] == [b];
        assert Unwinding([b]) == [Exit(b.impl)];
      } else {
        LayersOfWrap(c, k);
        var L' := Layers(next);
        assert code.around(b.impl).Around?;
        ShortCircuit(next, code, h, request, ct, k - 1);
        var inner := Execute(next, code, h, request, ct);
        assert Execute(c, code, h, request, ct).trace == [Enter(b.impl, request, ct)] + inner.trace + [Exit(b.impl)];
        PrefixEvents(L, k, request, ct);
        var en := Enters(L'[..k], request, ct);
        var un := Unwinding(L'[..k]);
        assert [Enter(b.impl, request, ct)] + (en + un) + [Exit(b.impl)]
            == ([Enter(b.impl, request, ct)] + en) + (un + [Exit(b.impl)]);
        if forall i :: 0 <= i < k ==> Forwards(code.around(L[i].impl)) {
          assert Forwards(code.around(b.impl));
        }
      }
  }

  /** How many times the handler was called. */
  function HandlerCalls(trace: seq<Event>): nat {
    if trace == [] then 0 else (if trace[0].Handled? then 1 else 0) + HandlerCalls(trace[1..])
  }

  lemma {:induction false} HandlerCallsAppend(a: seq<Event>, b: seq<Event>)
    ensures HandlerCalls(a + b) == HandlerCalls(a) + HandlerCalls(b)
  {
    if a != [] {
      TailOfAppend(a, b);
      HandlerCallsAppend(a[1..], b);
    } else {
      assert a + b == b;
    }
  }

  /** The handler runs exactly once when every behavior calls `next`, and not at
      all otherwise. */
  lemma {:induction false} HandlerRunsOnceOrNever(c: Chain, code: Classes, h: TypeId, request: Message, ct: CancellationToken)
    ensures HandlerCalls(Execute(c, code, h, request, ct).trace) == if AllAround(Layers(c), code) then 1 else 0
  {
    match c
    case Handler =>
      assert HandlerCalls([Handled(h, request, ct)]) == 1 + HandlerCalls([]);
    case Wrap(b, next) =>
      var L := Layers(c);
      assert L[0] == b && L[1..] == Layers(next);
      assert AllAround(L, code) <==> code.around(b.impl).Around? && AllAround(Layers(next), code) by {
        if code.around(b.impl).Around? && AllAround(Layers(next), code) {
          forall i | 0 <= i < |L| ensures code.around(L[i].impl).Around? {
            if i > 0 { assert L[i] == Layers(next)[i - 1]; }
          }
        }
        if AllAround(L, code) {
          forall i | 0 <= i < |Layers(next)| ensures code.around(Layers(next)[i].impl).Around? {
            assert Layers(next)[i] == L[i + 1];
          }
        }
      }
      match code.around(b.impl)
      case Respond(value) =>
        assert HandlerCalls([Enter(b.impl, request, ct), Exit(b.impl)]) == 0 + HandlerCalls([Exit(b.impl)]);
        assert HandlerCalls([Exit(b.impl)]) == 0 + HandlerCalls([]);
      case Around(after) =>
        var inner := Execute(next, code, h, request, ct);
        HandlerRunsOnceOrNever(next, code, h, request, ct);
        HandlerCallsAppend([Enter(b.impl, request, ct)] + inner.trace, [Exit(b.impl)]);
        HandlerCallsAppend([Enter(b.impl, request, ct)], inner.trace);
        assert HandlerCalls([Enter(b.impl, request, ct)]) == 0 + HandlerCalls([]);
        assert HandlerCalls([Exit(b.impl)]) == 0 + HandlerCalls([]);
  }

  /** Every behavior and the handler see the same request object and the same token. */
  lemma {:induction false} SameRequestEverywhere(c: Chain, code: Classes, h: TypeId, request: Message, ct: CancellationToken)
    ensures forall e :: e in Execute(c, code, h, request, ct).trace && !e.Exit? ==> e.request == request && e.token == ct
  {
    match c
    case Handler =>
    case Wrap(b, next) =>
      SameRequestEverywhere(next, code, h, request, ct);
  }

  // ----- Properties of InvokeRequest as a whole -----

  /** With no handler registration, `GetRequiredService` throws before any behavior is resolved. */
  lemma MissingHandlerThrows(p: Provider, requestType: TypeId, responseType: TypeId, request: Message, ct: CancellationToken)
    requires GetServices(p, RequestHandlerOf(requestType, responseType)) == []
    ensures Invoke(p, requestType, responseType, request, ct)
         == Failure(NoServiceRegistered(RequestHandlerOf(requestType, responseType)))
  {
  }

  /** With no behaviors, the result is exactly the handler's response. */
  lemma NoBehaviorsIsHandlerResponse(p: Provider, requestType: TypeId, responseType: TypeId, request: Message, ct: CancellationToken)
    requires GetServices(p, RequestHandlerOf(requestType, responseType)) != []
    requires GetServices(p, PipelineBehaviorOf(requestType, responseType)) == []
    ensures var h := GetRequiredService(p, RequestHandlerOf(requestType, responseType)).value;
            (Invoke(p, requestType, responseType, request, ct)
             == Success(Run([Handled(h, request, ct)], p.code.handle(h)(request, ct))))
  {
  }

  /** A run through behaviors `bs` that all call `next`, position by position:
      behavior `i` enters at `i`, the handler runs at `|bs|`, and after it the
      behaviors exit innermost first: event `k` is the exit of behavior `2 * |bs| - k`. */
  ghost predicate NestedTrace(t: seq<Event>, bs: seq<Behavior>, h: TypeId, request: Message, ct: CancellationToken) {
    && |t| == 2 * |bs| + 1
    && (forall i :: 0 <= i < |bs| ==> t[i] == Enter(bs[i].impl, request, ct))
    && t[|bs|] == Handled(h, request, ct)
    && (forall k :: |bs| < k < |t| ==> t[k] == Exit(bs[2 * |bs| - k].impl))
  }

  /** The delegate built from `bs`, when every behavior calls `next`, leaves exactly that trace. */
  lemma NestedTraceAt(bs: seq<Behavior>, code: Classes, h: TypeId, request: Message, ct: CancellationToken)
    requires AllAround(bs, code)
    ensures NestedTrace(Execute(Nest(bs), code, h, request, ct).trace, bs, h, request, ct)
  {
    LayersOfNest(bs);
    TraceNests(Nest(bs), code, h, request, ct);
    var t := Execute(Nest(bs), code, h, request, ct).trace;
    var en := Enters(bs, request, ct);
    var un := Unwinding(bs);
    assert t == en + [Handled(h, request, ct)] + un;
    EntersLength(bs, request, ct);
    UnwindingLength(bs);
    IndexAroundMiddle(en, Handled(h, request, ct), un);
    EntersEach(bs, request, ct);
    UnwindingEach(bs);
  }

  lemma EntersEach(bs: seq<Behavior>, request: Message, ct: CancellationToken)
    ensures |Enters(bs, request, ct)| == |bs|
    ensures forall i :: 0 <= i < |bs| ==> Enters(bs, request, ct)[i] == Enter(bs[i].impl, request, ct)
  {
    EntersLength(bs, request, ct);
    forall i | 0 <= i < |bs| ensures Enters(bs, request, ct)[i] == Enter(bs[i].impl, request, ct) {
      EntersAt(bs, request, ct, i);
    }
  }

  lemma UnwindingEach(bs: seq<Behavior>)
    ensures |Unwinding(bs)| == |bs|
    ensures forall k :: 0 <= k < |bs| ==> Unwinding(bs)[k] == Exit(bs[|bs| - 1 - k].impl)
  {
    UnwindingLength(bs);
    forall k | 0 <= k < |bs| ensures Unwinding(bs)[k] == Exit(bs[|bs| - 1 - k].impl) {
      UnwindingAt(bs, k);
    }
  }

  /** With a handler registered, `InvokeRequest` runs the delegate nested from the sorted behaviors. */
  lemma InvokeRunsNest(p: Provider, requestType: TypeId, responseType: TypeId, request: Message, ct: CancellationToken)
    requires GetServices(p, RequestHandlerOf(requestType, responseType)) != []
    ensures var h := GetRequiredService(p, RequestHandlerOf(requestType, responseType)).value;
            Invoke(p, requestType, responseType, request, ct)
            == Success(Execute(Nest(OrderedBehaviors(p, requestType, responseType)), p.code, h, request, ct))
  {
  }

  /** The order of a run: the behaviors enter in ascending `Order` (ties in
      resolution order), the handler runs, and they exit in the reverse order. */
  lemma InvokeTraceOrder(p: Provider, requestType: TypeId, responseType: TypeId, request: Message, ct: CancellationToken)
    requires GetServices(p, RequestHandlerOf(requestType, responseType)) != []
    requires AllAround(OrderedBehaviors(p, requestType, responseType), p.code)
    ensures var bs := OrderedBehaviors(p, requestType, responseType);
            var h := GetRequiredService(p, RequestHandlerOf(requestType, responseType)).value;
            var r := Invoke(p, requestType, responseType, request, ct);
            && Sorted(bs)
            && SameTies(bs, Resolve(GetServices(p, PipelineBehaviorOf(requestType, responseType)), p.code.orderAttribute))
            && r.Success?
            && NestedTrace(r.value.trace, bs, h, request, ct)
  {
    var resolved := Resolve(GetServices(p, PipelineBehaviorOf(requestType, responseType)), p.code.orderAttribute);
    OrderBySorted(resolved);
    OrderByStable(resolved);
    var bs := OrderedBehaviors(p, requestType, responseType);
    var h := GetRequiredService(p, RequestHandlerOf(requestType, responseType)).value;
    InvokeRunsNest(p, requestType, responseType, request, ct);
    NestedTraceAt(bs, p.code, h, request, ct);
  }

  /** When every registered behavior returns `await next()` unchanged, the result
      is the handler's response. */
  lemma ForwardingPipelineIsTransparent(p: Provider, requestType: TypeId, responseType: TypeId, request: Message, ct: CancellationToken)
    requires GetServices(p, RequestHandlerOf(requestType, responseType)) != []
    requires AllForward(p, requestType, responseType)
    ensures var h := GetRequiredService(p, RequestHandlerOf(requestType, responseType)).value;
            var r := Invoke(p, requestType, responseType, request, ct);
            && r.Success?
            && r.value.response == p.code.handle(h)(request, ct)
  {
    var impls := GetServices(p, PipelineBehaviorOf(requestType, responseType));
    var resolved := Resolve(impls, p.code.orderAttribute);
    var bs := OrderedBehaviors(p, requestType, responseType);
    var h := GetRequiredService(p, RequestHandlerOf(requestType, responseType)).value;
    OrderBySorted(resolved);
    LayersOfNest(bs);
    forall i | 0 <= i < |bs| ensures Forwards(p.code.around(bs[i].impl)) {
      assert bs[i] in multiset(resolved);
      var j :| 0 <= j < |resolved| && resolved[j] == bs[i];
      assert impls[j] in impls;
    }
    ForwardingKeepsResponse(Nest(bs), p.code, h, request, ct);
  }
}
