/** `InvokeNotification<TRequest>` (identical in PipelineHelper and InvokeHelper):
    one task per resolved handler, each given the same notification and token,
    joined by `Task.WhenAll`. */
module Notifications {
  import opened Runtime

  /** One started `handler.Handle(request, ct)`. */
  datatype Invocation = Invocation(handler: TypeId, request: Message, token: CancellationToken)

  /** How the `Task.WhenAll` task ends: every failure, in task order, when any task failed. */
  datatype Completion = RanToCompletion | Faulted(errors: seq<Error>)

  datatype FanOut = FanOut(started: seq<Invocation>, completion: Completion)

  /** The errors of the failed outcomes, in order. */
  function Failures(outcomes: seq<Outcome>): seq<Error>
  {
    if outcomes == [] then []
    else (if outcomes[0].Fail? then [outcomes[0].error] else []) + Failures(outcomes[1..])
  }

  function WhenAll(outcomes: seq<Outcome>): (r: Completion)
    ensures r.Faulted? ==> r.errors != []
  {
    var failures := Failures(outcomes);
    if failures == [] then RanToCompletion else Faulted(failures)
  }

  /** The handlers the resolver returns for the notification type. */
  function Handlers(p: Provider, notificationType: TypeId): seq<TypeId> {
    GetServices(p, NotificationHandlerOf(notificationType))
  }

  function InvokeNotification(p: Provider, notificationType: TypeId, request: Message, ct: CancellationToken): (r: FanOut)
    ensures r.completion.Faulted? ==> r.completion.errors != []
  {
    var handlers := Handlers(p, notificationType);
    var started := seq(|handlers|, i requires 0 <= i < |handlers| => Invocation(handlers[i], request, ct));
    var outcomes := seq(|handlers|, i requires 0 <= i < |handlers| => p.code.notify(handlers[i])(request, ct));
    FanOut(started, WhenAll(outcomes))
  }

  /** The handlers that were started, in order. */
  function StartedHandlers(started: seq<Invocation>): seq<TypeId> {
    seq(|started|, i requires 0 <= i < |started| => started[i].handler)
  }

  /** The outcome each resolved handler's task ends with. */
  function Outcomes(p: Provider, notificationType: TypeId, request: Message, ct: CancellationToken): seq<Outcome> {
    var handlers := Handlers(p, notificationType);
    seq(|handlers|, i requires 0 <= i < |handlers| => p.code.notify(handlers[i])(request, ct))
  }

  lemma {:induction false} FailuresEmpty(outcomes: seq<Outcome>)
    ensures Failures(outcomes) == [] <==> forall i :: 0 <= i < |outcomes| ==> outcomes[i] == Pass
  {
    if outcomes != [] {
      FailuresEmpty(outcomes[1..]);
      if outcomes[0] == Pass {
        forall i | 0 < i < |outcomes| ensures outcomes[i] == outcomes[1..][i - 1] { }
      }
    }
  }

  /** An error is reported exactly when some task failed with it. */
  lemma {:induction false} FailuresExact(outcomes: seq<Outcome>, e: Error)
    ensures e in Failures(outcomes) <==> Fail(e) in outcomes
  {
    if outcomes != [] {
      FailuresExact(outcomes[1..], e);
      assert outcomes == [outcomes[0]] + outcomes[1..];
    }
  }

  /** Each resolved handler is started exactly once, with the same notification
      and the same token; nothing else is started. */
  lemma EachHandlerStartedOnce(p: Provider, notificationType: TypeId, request: Message, ct: CancellationToken)
    ensures var r := InvokeNotification(p, notificationType, request, ct);
            && StartedHandlers(r.started) == Handlers(p, notificationType)
            && multiset(StartedHandlers(r.started)) == multiset(Handlers(p, notificationType))
            && forall inv :: inv in r.started ==> inv.request == request && inv.token == ct
  {
  }

  /** The join succeeds exactly when every handler succeeded; when it fails it
      carries exactly the handlers' failures. */
  lemma NotificationCompletion(p: Provider, notificationType: TypeId, request: Message, ct: CancellationToken)
    ensures var r := InvokeNotification(p, notificationType, request, ct);
            var outcomes := Outcomes(p, notificationType, request, ct);
            && (r.completion == RanToCompletion <==> forall i :: 0 <= i < |outcomes| ==> outcomes[i] == Pass)
            && (r.completion.Faulted? ==> forall e :: e in r.completion.errors <==> Fail(e) in outcomes)
  {
    var outcomes := Outcomes(p, notificationType, request, ct);
    FailuresEmpty(outcomes);
    forall e ensures e in Failures(outcomes) <==> Fail(e) in outcomes {
      FailuresExact(outcomes, e);
    }
  }

  /** No resolved handler: nothing is started and the join has already succeeded. */
  lemma NoHandlersCompletes(p: Provider, notificationType: TypeId, request: Message, ct: CancellationToken)
    requires Handlers(p, notificationType) == []
    ensures InvokeNotification(p, notificationType, request, ct) == FanOut([], RanToCompletion)
  {
  }

  /** Two handlers, the first succeeding and the second failing with `e`: both
      are started and the join fails with exactly `e`. */
  lemma OneOfTwoFails(p: Provider, notificationType: TypeId, request: Message, ct: CancellationToken, e: Error)
    requires |Handlers(p, notificationType)| == 2
    requires p.code.notify(Handlers(p, notificationType)[0])(request, ct) == Pass
    requires p.code.notify(Handlers(p, notificationType)[1])(request, ct) == Fail(e)
    ensures var r := InvokeNotification(p, notificationType, request, ct);
            && StartedHandlers(r.started) == Handlers(p, notificationType)
            && r.completion == Faulted([e])
  {
    var outcomes := Outcomes(p, notificationType, request, ct);
    assert outcomes == [Pass, Fail(e)];
    assert outcomes[1..] == [Fail(e)];
    assert Failures([Fail(e)]) == [e] + Failures([]);
  }
}
