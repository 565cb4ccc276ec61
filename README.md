# Xyntal.NET.Mediator dispatch engine, modelled in Dafny

Xyntal.NET.Mediator is an in-process mediator for .NET. `AddMediator` scans
assemblies for request handlers, notification handlers, stream handlers and
pipeline behaviors. It registers them with the dependency-injection container,
and compiles one factory per request type and one per notification type.
`Mediator.Send`, `Publish` and `Stream` look up the runtime type of what they
are given and dispatch it.

This project models that dispatch engine:

- `runtime.dfy` (`Runtime`): the runtime as the engine sees it. It covers type
  identities and the closed generic interfaces that the scans look for. The
  resolver (`IServiceProvider`) maps each interface to its registered
  implementations. The handlers' and behaviors' code is given as function values.
- `ordering.dfy` (`Ordering`): `OrderBy` on the `[PipelineOrder]` value (0 when
  the attribute is missing), as a stable insertion sort. It proves that
  `OrderBy` is *the* stable sort.
- `pipeline.dfy` (`Pipeline`): `InvokeRequest`, which is the same in
  `PipelineHelper` and `InvokeHelper`. The composed delegate is a `Chain`. The
  reverse-wrapping `foreach` becomes a method whose loop invariant is "the
  delegate built so far nests the suffix". `Execute` runs a chain and records
  a trace of behavior entries, the handler call and behavior exits.
- `notifications.dfy` (`Notifications`): `InvokeNotification`, with one started
  invocation per resolved handler, joined by `Task.WhenAll`.
- `streaming.dfy` (`Streaming`): `InvokeStream`, which checks cancellation after
  each element arrives.
- `dispatch.dfy` (`Dispatch`): `Mediator.Send`, `Publish` and `Stream`. The
  compiled factories are data (`InvokeRequestFor(request, response)`,
  `InvokeNotificationFor(notification)`), interpreted by the pipeline
  functions above.
- `registration.dfy` (`Registration`): `MediatorExtensions`. It has the two type
  filters, the discovery queries and `GroupBy`. The service collection is a
  class whose descriptor list the registration methods extend in place. Each
  registration loop is proved against a specification function for the
  dictionary it fills.
- `startup.dfy` (`Startup`): the container built from those registrations, and
  the `Mediator` it constructs. Its lemmas follow a type from discovery to
  dispatch.
- `models.dfy` (`Models`): the `Void` unit type.
- `wrappers.dfy` (`Wrappers`): `Option` and `Result`.
- `sequences.dfy` (`Sequences`): facts about sequence concatenation that the proofs cite by name.

### Behaviour of the code worth knowing

- **Publishing a notification type that has no handler throws.** The registry
  gets a key only for a notification type that `GroupBy` produced, so a type
  with no discovered handler has no factory, and `Publish` throws
  `InvalidOperationException`. See `Startup.NotificationWithoutHandlersThrows`.
- **Only the first handler failure reaches the caller.** `Task.WhenAll`
  collects every failure (`Notifications.NotificationCompletion`), but
  awaiting the faulted task rethrows only the first one
  (`Dispatch.PublishRegistered`).
- **`Mediator.Stream` does not use `InvokeStream`.** It calls the handler by
  reflection, so it never checks cancellation. A missing handler leaves a null
  target and the call throws `TargetException`, not an "unregistered" error.
  See `Dispatch.StreamSkipsCancellationCheck`.
- **Notification handlers are registered grouped by notification type.** The
  groups come in order of first appearance. Within one type the order is still
  discovery order, and each pair is registered exactly as many times as it was
  discovered (`Registration.GroupingKeepsPerTypeOrder`,
  `Registration.GroupingIsPermutation`).
- **Duplicate assemblies are scanned twice.** Two marker types from the same
  assembly make it scanned twice. Every behavior is then registered, resolved
  and run twice, while the request registry is unchanged
  (`Registration.SameAssemblyTwice`, `Startup.SameAssemblyTwiceDoublesBehaviors`).
- **Earlier registrations stay in front.** `AddMediator` only appends to the
  collection it is given. Behaviors and notification handlers registered
  before it resolve ahead of the discovered ones, while the dictionaries
  `Mediator` receives are always the ones the scans filled
  (`Startup.ServicesAfterAddMediator`, `Startup.AddMediatorProvidesMediator`).

## Model

| member | source | states |
|---|---|---|
| Runtime.GetRequiredService | Xyntal.NET.Mediator/PipelineHelper.cs:9 | fails with "no service registered" exactly when nothing is registered; otherwise the last registration wins |
| Runtime.GetService | Xyntal.NET.Mediator/Mediator.cs:43 | null exactly when nothing is registered, which is exactly when `GetRequiredService` throws; otherwise the last registration, the same one `GetRequiredService` returns |
| Ordering.OrderBySorted | Xyntal.NET.Mediator/PipelineHelper.cs:10-11 | the behaviors come out ascending by `Order`, with a missing attribute counting as 0, and are a permutation of those resolved |
| Ordering.OrderByStable | Xyntal.NET.Mediator/PipelineHelper.cs:11 | behaviors with equal `Order` keep the relative order the resolver returned them in |
| Ordering.OrderByIsTheStableSort | Xyntal.NET.Mediator/PipelineHelper.cs:10-12 | any arrangement that is sorted and keeps every tie in resolver order is exactly the `OrderBy` result |
| Pipeline.LayersOfNest | Xyntal.NET.Mediator/PipelineHelper.cs:18-22 | the delegate built from a sorted list has exactly that list as its layers, outermost first |
| Pipeline.NestOfLayers | Xyntal.NET.Mediator/PipelineHelper.cs:18-22 | every composed delegate is rebuilt exactly from its own layers: the two representations are inverse |
| Pipeline.InvokeRequest | Xyntal.NET.Mediator/PipelineHelper.cs:5-33 | resolving the handler, then looping over the sorted behaviors in reverse while wrapping the delegate, gives the result of `Invoke`: a missing handler fails before any behavior runs, and otherwise the smallest order is outermost |
| Pipeline.TraceNests | Xyntal.NET.Mediator/PipelineHelper.cs:18-24 | when every behavior calls `next`, the run enters the behaviors outermost first, calls the handler, then leaves them innermost first |
| Pipeline.NestedTraceAt | Xyntal.NET.Mediator/PipelineHelper.cs:18-24 | the same by position: 2n+1 events; event i < n is the entry of behavior i, event n is the handler, and each later event k is the exit of behavior 2n-k |
| Pipeline.InvokeTraceOrder | Xyntal.NET.Mediator/InvokeHelper.cs:12-24 | for the whole of `InvokeRequest`, the behaviors are ascending by order with ties in resolver order; entries run in that order, then the handler, then exits in reverse |
| Pipeline.ForwardingKeepsResponse | Xyntal.NET.Mediator/PipelineHelper.cs:18-24 | when every behavior returns `await next()` unchanged, the response is the handler's |
| Pipeline.ForwardingPipelineIsTransparent | Xyntal.NET.Mediator/PipelineHelper.cs:16-32 | `InvokeRequest` with only forwarding behaviors succeeds with the handler's own response |
| Pipeline.ShortCircuit | Xyntal.NET.Mediator/PipelineHelper.cs:21 | a behavior that does not call `next` ends the run: no inner behavior and no handler is entered, and with forwarding outer behaviors its value is the response |
| Pipeline.HandlerRunsOnceOrNever | Xyntal.NET.Mediator/PipelineHelper.cs:16-24 | the handler runs exactly once if every behavior calls `next`, and never otherwise |
| Pipeline.SameRequestEverywhere | Xyntal.NET.Mediator/PipelineHelper.cs:16-21 | every behavior and the handler receive the same request object and the same token |
| Pipeline.MissingHandlerThrows | Xyntal.NET.Mediator/PipelineHelper.cs:9 | with no registered handler, `InvokeRequest` throws from `GetRequiredService` |
| Pipeline.NoBehaviorsIsHandlerResponse | Xyntal.NET.Mediator/PipelineHelper.cs:16-32 | with no behaviors, the only event is the handler call and the response is the handler's |
| Notifications.EachHandlerStartedOnce | Xyntal.NET.Mediator/PipelineHelper.cs:40-45 | one invocation is started per resolved handler, in resolver order, each with the same notification and token |
| Notifications.NotificationCompletion | Xyntal.NET.Mediator/PipelineHelper.cs:47 | the joined task succeeds exactly when every handler succeeded; when faulted, its errors are exactly the handlers' failures |
| Notifications.NoHandlersCompletes | Xyntal.NET.Mediator/InvokeHelper.cs:42-49 | with no resolved handler nothing is started and the join has already succeeded |
| Notifications.OneOfTwoFails | Xyntal.NET.Mediator/PipelineHelper.cs:42-47 | two handlers where the second fails: both are started and the join fails with exactly that error |
| Streaming.InvokeStream | Xyntal.NET.Mediator/InvokeHelper.cs:64-72 | the output is a prefix of the handler's sequence; no element before its end saw cancellation, and it stops short only where cancellation was observed |
| Streaming.InvokeStreamUnique | Xyntal.NET.Mediator/InvokeHelper.cs:64-72 | those three properties determine the output completely |
| Streaming.NeverCancelledYieldsAll | Xyntal.NET.Mediator/InvokeHelper.cs:64-71 | without cancellation every element the handler produces is yielded, in order |
| Streaming.CancelledDropsFetched | Xyntal.NET.Mediator/InvokeHelper.cs:64-69 | cancellation first seen after element k arrives yields exactly the k elements before it; element k is dropped and no error is raised |
| Streaming.CancelAfterThree | Xyntal.NET.Mediator/InvokeHelper.cs:66-69 | a counting handler cancelled after three elements yields exactly 0, 1, 2 |
| Streaming.StreamRequest | Xyntal.NET.Mediator/InvokeHelper.cs:58-64 | the handler is resolved once; a missing one throws "no service registered"; otherwise the output is a prefix of that handler's one enumeration |
| Dispatch.SendUnregisteredThrows | Xyntal.NET.Mediator/Mediator.cs:12-15 | a runtime type without a factory throws "no handler found" and reaches no factory |
| Dispatch.SendKeyedByRuntimeType | Xyntal.NET.Mediator/Mediator.cs:12 | two requests of the same runtime type go through the same factory, or both throw "no handler found" |
| Dispatch.SendRegistered | Xyntal.NET.Mediator/Mediator.cs:17-18 | with a factory and a resolvable handler, `Send` succeeds; the handler runs once when every behavior calls `next`; the response is the handler's when every behavior forwards |
| Dispatch.PublishUnregisteredThrows | Xyntal.NET.Mediator/Mediator.cs:23-26 | a notification type without a factory throws and starts no handler |
| Dispatch.PublishRegistered | Xyntal.NET.Mediator/Mediator.cs:28 | every resolved handler is started once; the call succeeds exactly when all succeed, and otherwise rethrows the failure of the first failing handler |
| Dispatch.StreamSkipsCancellationCheck | Xyntal.NET.Mediator/Mediator.cs:37-47 | `Stream` returns the handler's whole sequence, which is `InvokeStream` with cancellation never observed; a missing handler throws from the reflective call |
| Registration.DiscoverExactly | Xyntal.NET.Mediator/MediatorExtensions.cs:41-52 | a pair is discovered exactly when a type that passes the filter declares an interface of the scanned generic definition |
| Registration.ServiceCollection.AddTransient | Xyntal.NET.Mediator/MediatorExtensions.cs:56 | appends one transient (interface, implementation) registration and changes nothing else |
| Registration.ServiceCollection.AddSingleton | Xyntal.NET.Mediator/MediatorExtensions.cs:29-34 | appends one singleton registration and changes nothing else |
| Registration.RegisterPipelineBehaviors | Xyntal.NET.Mediator/MediatorExtensions.cs:39-60 | appends one transient per discovered behavior pair, in discovery order |
| Registration.RegisterQueryHandlers | Xyntal.NET.Mediator/MediatorExtensions.cs:62-100 | the dictionary becomes the overwrite-in-order registry of the discovered handlers; one transient per pair is appended, then the read-only view |
| Registration.RequestRegistryAt | Xyntal.NET.Mediator/MediatorExtensions.cs:79-93 | at each key, the entry is the factory of the last handler discovered for that request type, or the old entry when no handler is for it |
| Registration.RequestRegistryKeys | Xyntal.NET.Mediator/MediatorExtensions.cs:79-93 | the keys are the old keys plus exactly the discovered request types; other entries are unchanged |
| Registration.LaterHandlerOverwrites | Xyntal.NET.Mediator/MediatorExtensions.cs:93 | of two handlers for one request type, the later one's factory is the entry |
| Registration.RescanKeepsRegistry | Xyntal.NET.Mediator/MediatorExtensions.cs:93 | scanning the same handlers twice builds the same registry as scanning them once |
| Registration.NotificationKeys | Xyntal.NET.Mediator/MediatorExtensions.cs:115 | the group keys are distinct and are exactly the notification types that have a discovered handler |
| Registration.GroupingKeepsPerTypeOrder | Xyntal.NET.Mediator/MediatorExtensions.cs:115-123 | after grouping, each notification type's handlers are registered in discovery order |
| Registration.GroupingIsPermutation | Xyntal.NET.Mediator/MediatorExtensions.cs:115-123 | grouping registers every discovered pair exactly as many times as it was discovered |
| Registration.NotificationRegistryKeys | Xyntal.NET.Mediator/MediatorExtensions.cs:115-137 | exactly one new entry per notification type with at least one handler, holding that type's factory, and no other new entry |
| Registration.RegisterNotificationHandlers | Xyntal.NET.Mediator/MediatorExtensions.cs:102-142 | the two nested loops register every grouped pair, then each group's factory, then the read-only view |
| Registration.RegisterStreamHandlers | Xyntal.NET.Mediator/MediatorExtensions.cs:159-182 | appends one transient per stream handler pair of the assembly that passes `IsClass && !IsAbstract` |
| Registration.RegisterEachStreamHandlers | Xyntal.NET.Mediator/MediatorExtensions.cs:24-27 | stream handlers are registered one assembly after the other |
| Registration.AddMediator | Xyntal.NET.Mediator/MediatorExtensions.cs:10-37 | the phases run in a fixed order: behaviors, request handlers and their dictionary, notification handlers and theirs, stream handlers per assembly, then the dictionaries again and the three mediator interfaces |
| Registration.NoMarkerScansEntryAssembly | Xyntal.NET.Mediator/MediatorExtensions.cs:5-15 | with no marker type only the entry assembly is scanned |
| Registration.SameAssemblyTwice | Xyntal.NET.Mediator/MediatorExtensions.cs:15 | two marker types of one assembly scan it twice: every pair is discovered twice, while the request registry is unchanged |
| Startup.ResolvedInRegistrationOrder | Xyntal.NET.Mediator/MediatorExtensions.cs:54-57 | the built container returns exactly the implementations registered as transients for a service, in registration order |
| Startup.UnregisteredHasNoImpls | Xyntal.NET.Mediator/MediatorExtensions.cs:54-57 | a service never registered has no transient implementation |
| Startup.ImplsForHas | Xyntal.NET.Mediator/MediatorExtensions.cs:54-57 | every discovered pair's implementation is among those returned for its service |
| Startup.TransientImplsOfTransients | Xyntal.NET.Mediator/MediatorExtensions.cs:54-57 | registering discovered pairs makes the container return their implementations in discovery order |
| Startup.AddMediatorProvidesMediator | Xyntal.NET.Mediator/Mediator.cs:3-8 | after `AddMediator` on a collection holding any earlier registrations, `IMediator` resolves, built with the provider and the two read-only dictionaries the scans filled |
| Startup.RegisteredByAddMediator | Xyntal.NET.Mediator/MediatorExtensions.cs:17-34 | of everything `AddMediator` registers, only the scans' transients serve a service: the matching pairs of each scan, one phase after the other |
| Startup.ServicesAfterAddMediator | Xyntal.NET.Mediator/MediatorExtensions.cs:17-27 | for any service, the container returns the implementations registered before `AddMediator`, then the matching pairs of each scan, one phase after the other |
| Startup.DiscoveredRequestIsServed | Xyntal.NET.Mediator/Mediator.cs:12-17 | a request whose type has a discovered handler is dispatched successfully, whatever the collection held before |
| Startup.UndiscoveredRequestThrows | Xyntal.NET.Mediator/Mediator.cs:12-15 | a request whose type has no discovered handler throws "no handler found", whatever the collection held before |
| Startup.NotificationWithoutHandlersThrows | Xyntal.NET.Mediator/Mediator.cs:23-26 | publishing a notification type with no discovered handler throws, even when handlers for it were registered before `AddMediator` |
| Startup.ScannedNotificationHandlers | Xyntal.NET.Mediator/MediatorExtensions.cs:118-123 | for a notification handler service, the scans contribute exactly that type's discovered handlers, in discovery order |
| Startup.NotificationServicesAfterAddMediator | Xyntal.NET.Mediator/MediatorExtensions.cs:118-123 | the notification handlers resolved for a type are those registered before `AddMediator`, then its discovered handlers in discovery order |
| Startup.NotificationHandlersInDiscoveryOrder | Xyntal.NET.Mediator/MediatorExtensions.cs:118-137 | publishing a type that has discovered handlers starts the handlers registered before `AddMediator`, then all discovered ones, at least one, in discovery order |
| Startup.ScannedBehaviors | Xyntal.NET.Mediator/MediatorExtensions.cs:39-57 | for a pipeline behavior service, the scans contribute exactly its discovered behaviors, in discovery order |
| Startup.BehaviorsInDiscoveryOrder | Xyntal.NET.Mediator/MediatorExtensions.cs:54-57 | the behaviors resolved for a request are those registered before `AddMediator`, then its discovered behaviors in discovery order, which is the order `OrderBy` keeps on ties |
| Startup.SameAssemblyTwiceDoublesBehaviors | Xyntal.NET.Mediator/MediatorExtensions.cs:15-17 | two marker types of one assembly make every discovered behavior resolve twice, after those registered before |
| Models.Void.Task | Xyntal.NET.Mediator/Models/Void.cs:7 | a completed task whose result is the single instance |
| Models.Void.CompareTo | Xyntal.NET.Mediator/Models/Void.cs:9 | 0 for any argument |
| Models.Void.CompareToObject | Xyntal.NET.Mediator/Models/Void.cs:10 | 0 for any argument of any type |
| Models.Void.Equals | Xyntal.NET.Mediator/Models/Void.cs:11 | true for any two values, which agrees with equality of values |
| Models.SingleInstance | Xyntal.NET.Mediator/Models/Void.cs:5-7 | every `Void` is the static instance `Value`, and `Task` holds it |
| Models.CompareToAgreesWithEquals | Xyntal.NET.Mediator/Models/Void.cs:9-11 | the ordering is a total preorder consistent with `Equals` |
| Models.CompareToOverloadsAgree | Xyntal.NET.Mediator/Models/Void.cs:9-10 | both `CompareTo` overloads agree on a `Void` argument |

## Left out

- Reflection and expression compilation (`MakeGenericMethod`, `Expression.Lambda(...).Compile()`, `MakeGenericType`) are not modelled. A compiled factory is the data value naming the generic arguments it was built for, and calling it runs the modelled `InvokeRequest` or `InvokeNotification`.
- The dependency-injection container is reduced to what the engine observes: a map from service interface to implementations in registration order. Service lifetimes, instance identity and the construction of handler objects are not modelled. The three separate `Mediator` singletons are one value.
- Open generic implementations (for example a behavior class with its own type parameters) are not modelled: each type's interface list is taken as given, closed interfaces.
- `async`/`await`, `ConfigureAwait` and task scheduling are not modelled. A behavior either awaits `next` once or returns without calling it. A behavior that calls `next` several times, or throws, is not modelled, and neither are handler exceptions on the request path.
- Concurrency in `InvokeNotification` (`Task.Run`) is not modelled: handler interleaving, and tasks cancelled because the token was already cancelled when `Task.Run` was called, are outside the model. Each handler's outcome is a given function value.
- The `AggregateException` catch in `InvokeNotification` is not modelled: it only sees synchronous exceptions from setting up the tasks, and the model's setup cannot throw.
- The casts `(TRequest)requestObj` and `(TResponse)response!` are not modelled: a factory keyed by the runtime type always receives a request of that type.
- The `?? Enumerable.Empty` fallback after `OrderBy` is not modelled, because `OrderBy` never returns null.
- Streams are finite sequences. An unbounded handler sequence is represented by any finite prefix longer than the point of cancellation, as `Streaming.CancelAfterThree` does.
- Cancellation in `InvokeStream` is a per-element predicate (`ct.IsCancellationRequested` as read after element k arrived). `[EnumeratorCancellation]` token merging is not modelled.
- `Assembly.GetEntryAssembly()` or `Assembly.GetAssembly` returning null, and `GetTypes()` failing to load a type, are not modelled.
- The thread safety of `ConcurrentDictionary` is not modelled: the dictionaries are maps, filled before any dispatch.
- The `ISender` command/query contracts, `HandlerTypeInfo`, the `Abstractions` interfaces and `PipelineOrderAttribute` are not modelled separately. The attribute's value is the `order` field of a resolved behavior.
- `InvokeHelper.InvokeRequest` and `InvokeHelper.InvokeNotification` are identical to their `PipelineHelper` counterparts and share their model. `InvokeHelper.InvokeStream` is modelled even though no code path calls it.
- `Void`'s `ref readonly` access to the static field is modelled as value equality, since the type has a single value.
- `AddMediator` returns the collection it was given for chaining; the model's method modifies that collection and returns nothing.
- `Registration.RegisterEachStreamHandlers`: the `foreach` over assemblies at the end of `AddMediator` is a method of its own, so that `AddMediator`'s proof stays small.
