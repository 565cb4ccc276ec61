/** `Mediator`: three read-only views captured at construction (the resolver and
    the two factory dictionaries keyed by request type), and `Send`, `Publish`
    and `Stream`, which look up the request's runtime type. */
module Dispatch {
  import opened Wrappers
  import opened Runtime
  import opened Ordering
  import opened Pipeline
  import opened Notifications
  import opened Streaming

  /** A compiled `PipelineHelper.InvokeRequest<TRequest, TResponse>`. */
  datatype RequestFactory = InvokeRequestFor(requestType: TypeId, responseType: TypeId)

  /** A compiled `PipelineHelper.InvokeNotification<TRequest>`. */
  datatype NotificationFactory = InvokeNotificationFor(notificationType: TypeId)

  /** Calling a request factory with (provider, request, token). */
  function CallRequestFactory(f: RequestFactory, p: Provider, request: Message, ct: CancellationToken): Result<Run, Error> {
    Invoke(p, f.requestType, f.responseType, request, ct)
  }

  /** Calling a notification factory with (provider, notification, token). */
  function CallNotificationFactory(f: NotificationFactory, p: Provider, notification: Message, ct: CancellationToken): FanOut {
    InvokeNotification(p, f.notificationType, notification, ct)
  }

  /** What awaiting `Publish` shows its caller: the handlers started, and either
      success or the one exception `await` rethrows. */
  datatype Published = Published(started: seq<Invocation>, outcome: Outcome)

  datatype Mediator = Mediator(
    serviceProvider: Provider,
    factories: map<TypeId, RequestFactory>,
    notificationsFactories: map<TypeId, NotificationFactory>)
  {
    /** `Send`: the factory registered for `request.GetType()`, called once;
        none registered throws `InvalidOperationException`. */
    function Send(request: Message, ct: CancellationToken): Result<Run, Error> {
      if request.runtimeType !in factories then Failure(NoHandlerFound(request.runtimeType))
      else CallRequestFactory(factories[request.runtimeType], serviceProvider, request, ct)
    }

    /** `Publish`: the factory registered for `notification.GetType()`, called
        once and awaited; awaiting a faulted `WhenAll` rethrows its first
        exception. None registered throws `InvalidOperationException`. */
    function Publish(notification: Message, ct: CancellationToken): Published {
      if notification.runtimeType !in notificationsFactories then
        Published([], Fail(NoHandlersFound(notification.runtimeType)))
      else
        var fan := CallNotificationFactory(notificationsFactories[notification.runtimeType], serviceProvider, notification, ct);
        Published(fan.started, if fan.completion.Faulted? then Fail(fan.completion.errors[0]) else Pass)
    }

    /** `Stream`: the handler of `IStreamRequestHandler<runtime type, TResponse>`
        fetched with `GetService` and its `Handle` invoked by reflection; no
        registration leaves a null target, and the reflective call throws. */
    function Stream(request: Message, responseType: TypeId, ct: CancellationToken): Result<seq<Value>, Error> {
      var service := StreamHandlerOf(request.runtimeType, responseType);
      match GetService(serviceProvider, service)
      case None => Failure(NoTarget(service))
      case Some(h) => Success(serviceProvider.code.stream(h)(request, ct))
    }
  }

  /** An unregistered runtime type throws and reaches no factory and no handler. */
  lemma SendUnregisteredThrows(m: Mediator, request: Message, ct: CancellationToken)
    requires request.runtimeType !in m.factories
    ensures m.Send(request, ct) == Failure(NoHandlerFound(request.runtimeType))
  {
  }

  /** The registry key is the runtime type: two requests of one runtime type go
      through the same factory, whatever static type the caller used. */
  lemma SendKeyedByRuntimeType(m: Mediator, a: Message, b: Message, ct: CancellationToken)
    requires a.runtimeType == b.runtimeType
    ensures m.Send(a, ct).Failure? && m.Send(a, ct).error.NoHandlerFound? <==> m.Send(b, ct).Failure? && m.Send(b, ct).error.NoHandlerFound?
    ensures a.runtimeType in m.factories ==>
              m.Send(a, ct) == CallRequestFactory(m.factories[a.runtimeType], m.serviceProvider, a, ct)
              && m.Send(b, ct) == CallRequestFactory(m.factories[a.runtimeType], m.serviceProvider, b, ct)
  {
    if a.runtimeType in m.factories {
      var f := m.factories[a.runtimeType];
      var r := Invoke(m.serviceProvider, f.requestType, f.responseType, a, ct);
      assert r.Failure? ==> r.error.NoServiceRegistered?;
      var q := Invoke(m.serviceProvider, f.requestType, f.responseType, b, ct);
      assert q.Failure? ==> q.error.NoServiceRegistered?;
    }
  }

  /** A registered request whose handler is resolvable reaches the handler exactly
      once when every behavior calls `next`, and the response is the handler's
      own when every behavior forwards it. */
  lemma SendRegistered(m: Mediator, request: Message, ct: CancellationToken)
    requires request.runtimeType in m.factories
    requires var f := m.factories[request.runtimeType];
             GetServices(m.serviceProvider, RequestHandlerOf(f.requestType, f.responseType)) != []
    ensures var f := m.factories[request.runtimeType];
            var h := GetRequiredService(m.serviceProvider, RequestHandlerOf(f.requestType, f.responseType)).value;
            var r := m.Send(request, ct);
            && r.Success?
            && (AllAround(OrderedBehaviors(m.serviceProvider, f.requestType, f.responseType), m.serviceProvider.code)
                ==> HandlerCalls(r.value.trace) == 1)
            && (AllForward(m.serviceProvider, f.requestType, f.responseType)
                ==> r.value.response == m.serviceProvider.code.handle(h)(request, ct))
  {
    var f := m.factories[request.runtimeType];
    var p := m.serviceProvider;
    var bs := OrderedBehaviors(p, f.requestType, f.responseType);
    var h := GetRequiredService(p, RequestHandlerOf(f.requestType, f.responseType)).value;
    HandlerRunsOnceOrNever(Nest(bs), p.code, h, request, ct);
    LayersOfNest(bs);
    if AllForward(p, f.requestType, f.responseType) {
      ForwardingPipelineIsTransparent(p, f.requestType, f.responseType, request, ct);
    }
  }

  /** A notification type with no factory throws, and no handler is started. */
  lemma PublishUnregisteredThrows(m: Mediator, notification: Message, ct: CancellationToken)
    requires notification.runtimeType !in m.notificationsFactories
    ensures m.Publish(notification, ct) == Published([], Fail(NoHandlersFound(notification.runtimeType)))
  {
  }

  /** With a factory: every handler resolved for the factory's type is started
      once; the call succeeds exactly when all of them succeed, and otherwise
      surfaces the failure of the first failing handler in resolution order. */
  lemma PublishRegistered(m: Mediator, notification: Message, ct: CancellationToken)
    requires notification.runtimeType in m.notificationsFactories
    ensures var n := m.notificationsFactories[notification.runtimeType].notificationType;
            var outcomes := Outcomes(m.serviceProvider, n, notification, ct);
            var r := m.Publish(notification, ct);
            && StartedHandlers(r.started) == Handlers(m.serviceProvider, n)
            && (r.outcome == Pass <==> forall i :: 0 <= i < |outcomes| ==> outcomes[i] == Pass)
            && (r.outcome.Fail? ==> exists i :: 0 <= i < |outcomes| && outcomes[i] == r.outcome
                                       && forall j :: 0 <= j < i ==> outcomes[j] == Pass)
  {
    var n := m.notificationsFactories[notification.runtimeType].notificationType;
    var outcomes := Outcomes(m.serviceProvider, n, notification, ct);
    FailuresEmpty(outcomes);
    if Failures(outcomes) != [] {
      FirstFailure(outcomes);
    }
  }

  /** The first reported failure is that of the first failed task. */
  lemma {:induction false} FirstFailure(outcomes: seq<Outcome>)
    requires Failures(outcomes) != []
    ensures exists i :: 0 <= i < |outcomes| && outcomes[i] == Fail(Failures(outcomes)[0])
                        && forall j :: 0 <= j < i ==> outcomes[j] == Pass
  {
    if outcomes[0].Fail? {
      assert outcomes[0] == Fail(Failures(outcomes)[0]);
    } else {
      assert Failures(outcomes) == Failures(outcomes[1..]);
      FirstFailure(outcomes[1..]);
      var i :| 0 <= i < |outcomes[1..]| && outcomes[1..][i] == Fail(Failures(outcomes)[0])
               && forall j :: 0 <= j < i ==> outcomes[1..][j] == Pass;
      assert outcomes[i + 1] == Fail(Failures(outcomes)[0]);
      forall j | 0 <= j < i + 1 ensures outcomes[j] == Pass {
        if j > 0 { assert outcomes[j] == outcomes[1..][j - 1]; }
      }
    }
  }

  /** `Stream` hands out the handler's whole sequence: it is `InvokeStream`
      with cancellation never observed. A missing handler throws from the
      reflective call where `InvokeStream` would throw from `GetRequiredService`. */
  lemma StreamSkipsCancellationCheck(m: Mediator, request: Message, responseType: TypeId, ct: CancellationToken)
    ensures var service := StreamHandlerOf(request.runtimeType, responseType);
            var viaHelper := StreamRequest(m.serviceProvider, request.runtimeType, responseType, request, ct, k => false);
            && (GetServices(m.serviceProvider, service) == [] ==> m.Stream(request, responseType, ct) == Failure(NoTarget(service)))
            && (GetServices(m.serviceProvider, service) != [] ==> m.Stream(request, responseType, ct) == viaHelper)
  {
    var service := StreamHandlerOf(request.runtimeType, responseType);
    if GetServices(m.serviceProvider, service) != [] {
      var h := GetRequiredService(m.serviceProvider, service).value;
      NeverCancelledYieldsAll(m.serviceProvider.code.stream(h)(request, ct), k => false);
    }
  }
}
