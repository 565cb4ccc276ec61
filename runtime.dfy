/** The .NET runtime as the dispatch engine sees it: type identities, the closed
    generic interfaces it scans for, the dependency-injection resolver, and the
    code of the application's handler and behavior classes, which the engine
    only ever calls. */
module Runtime {
  import opened Wrappers

  /** A `System.Type`, reduced to an identity. */
  type TypeId = nat

  /** A `CancellationToken`, reduced to an identity: the engine only passes it on. */
  type CancellationToken = nat

  /** A request, notification or stream-request object: what `GetType()` returns
      for it, and its contents. */
  datatype Message = Message(runtimeType: TypeId, payload: int)

  /** A response object as the engine handles it (boxed to `object`). */
  datatype Value = Value(payload: int)

  /** The closed generic interfaces the registration phase looks for, and every
      other interface a class may implement. Each constructor carries exactly the
      generic arguments of its definition. */
  datatype Interface =
    | RequestHandlerOf(request: TypeId, response: TypeId)     // IRequestHandler<TRequest, TResponse>
    | PipelineBehaviorOf(request: TypeId, response: TypeId)   // IPipelineBehavior<TRequest, TResponse>
    | NotificationHandlerOf(notification: TypeId)             // INotificationHandler<TNotification>
    | StreamHandlerOf(request: TypeId, response: TypeId)      // IStreamRequestHandler<TRequest, TResponse>
    | OtherInterface(id: TypeId)

  /** The exceptions the engine itself raises. */
  datatype Error =
    | NoHandlerFound(requestType: TypeId)           // InvalidOperationException from Mediator.Send
    | NoHandlersFound(notificationType: TypeId)     // InvalidOperationException from Mediator.Publish
    | NoServiceRegistered(service: Interface)       // InvalidOperationException from GetRequiredService
    | NoTarget(service: Interface)                  // TargetException: reflective call on a null handler
    | HandlerFault(code: int)                       // any exception a notification handler throws

  /** What one call of `IPipelineBehavior.Handle(request, ct, next)` does. */
  datatype Step =
    /** awaits `next()` once and returns `after(request, ct, <what next returned>)` */
    | Around(after: (Message, CancellationToken, Value) -> Value)
    /** returns `value(request, ct)` without calling `next` */
    | Respond(value: (Message, CancellationToken) -> Value)

  /** The outcome of a notification handler's `Handle` task. */
  datatype Outcome = Pass | Fail(error: Error)

  /** The application's classes, seen through the interfaces the engine calls,
      indexed by implementation type. */
  datatype Classes = Classes(
    handle: TypeId -> (Message, CancellationToken) -> Value,            // IRequestHandler.Handle
    around: TypeId -> Step,                                             // IPipelineBehavior.Handle
    orderAttribute: TypeId -> Option<int>,                              // [PipelineOrder(n)] on the class
    notify: TypeId -> (Message, CancellationToken) -> Outcome,          // INotificationHandler.Handle
    stream: TypeId -> (Message, CancellationToken) -> seq<Value>)       // IStreamRequestHandler.Handle

  /** The dependency resolver (`IServiceProvider`): for each service interface
      the implementations registered for it, in registration order, and the code
      of those implementations. */
  datatype Provider = Provider(services: map<Interface, seq<TypeId>>, code: Classes)

  /** `GetServices<T>()`: every registered implementation, in registration order;
      nothing registered gives the empty sequence. */
  function GetServices(p: Provider, service: Interface): (r: seq<TypeId>)
    ensures service !in p.services ==> r == []
    ensures service in p.services ==> r == p.services[service]
  {
    if service in p.services then p.services[service] else []
  }

  /** `GetRequiredService<T>()`: the last registration wins; none at all throws. */
  function GetRequiredService(p: Provider, service: Interface): (r: Result<TypeId, Error>)
    ensures r.Failure? <==> GetServices(p, service) == []
    ensures r.Failure? ==> r.error == NoServiceRegistered(service)
    ensures r.Success? ==> r.value == GetServices(p, service)[|GetServices(p, service)| - 1]
  {
    var all := GetServices(p, service);
    if |all| == 0 then Failure(NoServiceRegistered(service)) else Success(all[|all| - 1])
  }

  /** `GetService(Type)`: like `GetRequiredService`, but nothing registered gives
      null; otherwise the same last registration. */
  function GetService(p: Provider, service: Interface): (r: Option<TypeId>)
    ensures r.None? <==> GetServices(p, service) == []
    ensures r.None? <==> GetRequiredService(p, service).Failure?
    ensures r.Some? ==> r.value == GetRequiredService(p, service).value
    ensures r.Some? ==> r.value == GetServices(p, service)[|GetServices(p, service)| - 1]
  {
    var all := GetServices(p, service);
    if |all| == 0 then None else Some(all[|all| - 1])
  }
}
