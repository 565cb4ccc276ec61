/** The step from `AddMediator`'s registrations to a working `Mediator`: the
    dependency-injection container resolves every service in registration order
    and builds `Mediator` from the read-only dictionaries registered for it. The
    lemmas follow a request or notification type from discovery to dispatch. */
module Startup {
  import opened Wrappers
  import opened Sequences
  import opened Runtime
  import opened Notifications
  import opened Dispatch
  import opened Registration

  /** The implementations registered as transients for `service`, in registration order. */
  function TransientImpls(ds: seq<ServiceDescriptor>, service: Interface): seq<TypeId> {
    if ds == [] then []
    else
      var d := ds[|ds| - 1];
      TransientImpls(ds[..|ds| - 1], service) + (if d.Transient? && d.service == service then [d.impl] else [])
  }

  /** The implementations of the discovered pairs for `service`, in discovery order. */
  function ImplsFor(ds: seq<Discovered>, service: Interface): seq<TypeId> {
    if ds == [] then []
    else (if ds[0].service == service then [ds[0].impl] else []) + ImplsFor(ds[1..], service)
  }

  /** Every discovered pair's implementation is among those for its service. */
  lemma {:induction false} ImplsForHas(ds: seq<Discovered>, d: Discovered)
    requires d in ds
    ensures d.impl in ImplsFor(ds, d.service)
  {
    if ds[0] != d {
      ImplsForHas(ds[1..], d);
    }
  }

  lemma {:induction false} UnregisteredHasNoImpls(ds: seq<ServiceDescriptor>, s: Interface)
    requires s !in RegisteredServices(ds)
    ensures TransientImpls(ds, s) == []
    decreases |ds|
  {
    if ds != [] {
      assert RegisteredServices(ds[..|ds| - 1]) <= RegisteredServices(ds);
      UnregisteredHasNoImpls(ds[..|ds| - 1], s);
    }
  }

  lemma {:induction false} TransientImplsAppend(a: seq<ServiceDescriptor>, b: seq<ServiceDescriptor>, s: Interface)
    ensures TransientImpls(a + b, s) == TransientImpls(a, s) + TransientImpls(b, s)
    decreases |b|
  {
    if b == [] {
      assert a + b == a;
    } else {
      assert (a + b)[..|a + b| - 1] == a + b[..|b| - 1];
      TransientImplsAppend(a, b[..|b| - 1], s);
    }
  }

  lemma {:induction false} ImplsForAppend(a: seq<Discovered>, b: seq<Discovered>, s: Interface)
    ensures ImplsFor(a + b, s) == ImplsFor(a, s) + ImplsFor(b, s)
  {
    if a == [] {
      assert a + b == b;
    } else {
      var head := if a[0].service == s then [a[0].impl] else [];
      TailOfAppend(a, b);
      calc {
        ImplsFor(a + b, s);
        head + ImplsFor(a[1..] + b, s);
        { ImplsForAppend(a[1..], b, s); }
        head + (ImplsFor(a[1..], s) + ImplsFor(b, s));
        { SeqAssoc(head, ImplsFor(a[1..], s), ImplsFor(b, s)); }
        head + ImplsFor(a[1..], s) + ImplsFor(b, s);
      }
    }
  }

  /** Registering the discovered pairs as transients makes the container return
      their implementations in discovery order. */
  lemma {:induction false} TransientImplsOfTransients(ds: seq<Discovered>, s: Interface)
    ensures TransientImpls(Transients(ds), s) == ImplsFor(ds, s)
    decreases |ds|
  {
    if ds != [] {
      var init := ds[..|ds| - 1];
      var last := ds[|ds| - 1];
      TransientImplsOfTransients(init, s);
      TransientImplsAppend(Transients(init), [Transient(last.service, last.impl)], s);
      assert TransientImpls([Transient(last.service, last.impl)], s) == TransientImpls([], s) + (if last.service == s then [last.impl] else []) by {
        assert [Transient(last.service, last.impl)][..0] == [];
      }
      ImplsForAppend(init, [last], s);
      assert init + [last] == ds;
    }
  }

  /** Pairs that all implement one definition have no implementation for a
      service of another definition. */
  lemma {:induction false} ImplsForOtherDefinition(ds: seq<Discovered>, def: Definition, s: Interface)
    requires forall i :: 0 <= i < |ds| ==> Implements(ds[i].service, def)
    requires !Implements(s, def)
    ensures ImplsFor(ds, s) == []
  {
    if ds != [] {
      assert Implements(ds[0].service, def);
      ImplsForOtherDefinition(ds[1..], def, s);
    }
  }

  lemma {:induction false} ImplsForNotification(ds: seq<Discovered>, n: TypeId)
    ensures ImplsFor(ForNotification(ds, n), NotificationHandlerOf(n)) == ImplsFor(ds, NotificationHandlerOf(n))
  {
    if ds != [] {
      ImplsForNotification(ds[1..], n);
      var head := if ds[0].service == NotificationHandlerOf(n) then [ds[0]] else [];
      ImplsForAppend(head, ForNotification(ds[1..], n), NotificationHandlerOf(n));
      assert ImplsFor(head, NotificationHandlerOf(n)) == (if ds[0].service == NotificationHandlerOf(n) then [ds[0].impl] else []) by {
        if head != [] {
          assert head[1..] == [];
        }
      }
    }
  }

  /** A scan for one definition contributes nothing to a service of another. */
  lemma ScanOfOtherDefinition(types: seq<TypeInfo>, f: TypeFilter, def: Definition, s: Interface)
    requires !Implements(s, def)
    ensures ImplsFor(Discover(types, f, def), s) == []
  {
    DiscoverImplements(types, f, def);
    ImplsForOtherDefinition(Discover(types, f, def), def, s);
  }

  /** Nor do the grouped notification handlers to a service that is not a notification handler. */
  lemma GroupedNotificationsOfOther(types: seq<TypeInfo>, s: Interface)
    requires !s.NotificationHandlerOf?
    ensures ImplsFor(Flatten(GroupBy(Discover(types, NotAbstractNorInterface, NotificationHandlerDef))), s) == []
  {
    var scan := Discover(types, NotAbstractNorInterface, NotificationHandlerDef);
    DiscoverImplements(types, NotAbstractNorInterface, NotificationHandlerDef);
    GroupingIsPermutation(scan);
    var flat := Flatten(GroupBy(scan));
    forall i | 0 <= i < |flat| ensures Implements(flat[i].service, NotificationHandlerDef) {
      assert flat[i] in multiset(scan);
    }
    ImplsForOtherDefinition(flat, NotificationHandlerDef, s);
  }

  function RegisteredServices(ds: seq<ServiceDescriptor>): set<Interface> {
    set d | d in ds && d.Transient? :: d.service
  }

  /** `BuildServiceProvider()`: each registered service maps to its implementations. */
  function BuildServiceProvider(ds: seq<ServiceDescriptor>, code: Classes): Provider {
    Provider(map s | s in RegisteredServices(ds) :: TransientImpls(ds, s), code)
  }

  /** The built container returns every registered implementation of a service,
      in registration order, and nothing for a service never registered. */
  lemma ResolvedInRegistrationOrder(ds: seq<ServiceDescriptor>, code: Classes, s: Interface)
    ensures GetServices(BuildServiceProvider(ds, code), s) == TransientImpls(ds, s)
  {
    if s !in RegisteredServices(ds) {
      UnregisteredHasNoImpls(ds, s);
    }
  }

  lemma {:induction false} NoTransients(ds: seq<ServiceDescriptor>, s: Interface)
    requires forall i :: 0 <= i < |ds| ==> !ds[i].Transient?
    ensures TransientImpls(ds, s) == []
    decreases |ds|
  {
    if ds != [] {
      NoTransients(ds[..|ds| - 1], s);
    }
  }

  /** The `IReadOnlyDictionary` of request factories the container injects: the
      last one registered under that interface. */
  function ReadOnlyRequestFactories(ds: seq<ServiceDescriptor>): Option<map<TypeId, RequestFactory>> {
    if ds == [] then None
    else
      var d := ds[|ds| - 1];
      if d.RequestFactoriesSingleton? && d.readOnlyView then Some(d.entries)
      else ReadOnlyRequestFactories(ds[..|ds| - 1])
  }

  /** The `IReadOnlyDictionary` of notification factories the container injects. */
  function ReadOnlyNotificationFactories(ds: seq<ServiceDescriptor>): Option<map<TypeId, NotificationFactory>> {
    if ds == [] then None
    else
      var d := ds[|ds| - 1];
      if d.NotificationFactoriesSingleton? && d.readOnlyView then Some(d.notificationEntries)
      else ReadOnlyNotificationFactories(ds[..|ds| - 1])
  }

  /** Resolving `IMediator`: its registration and both constructor dictionaries
      must be present. */
  function ResolveMediator(ds: seq<ServiceDescriptor>, code: Classes): Option<Mediator> {
    if MediatorSingleton(MediatorInterfaceService) !in ds then None
    else
      match (ReadOnlyRequestFactories(ds), ReadOnlyNotificationFactories(ds))
      case (Some(f), Some(n)) => Some(Mediator(BuildServiceProvider(ds, code), f, n))
      case _ => None
  }

  lemma {:induction false} ReadOnlyFactoriesAppend(a: seq<ServiceDescriptor>, b: seq<ServiceDescriptor>)
    ensures ReadOnlyRequestFactories(a + b)
         == if ReadOnlyRequestFactories(b).Some? then ReadOnlyRequestFactories(b) else ReadOnlyRequestFactories(a)
    ensures ReadOnlyNotificationFactories(a + b)
         == if ReadOnlyNotificationFactories(b).Some? then ReadOnlyNotificationFactories(b) else ReadOnlyNotificationFactories(a)
    decreases |b|
  {
    if b == [] {
      assert a + b == a;
    } else {
      assert (a + b)[..|a + b| - 1] == a + b[..|b| - 1];
      ReadOnlyFactoriesAppend(a, b[..|b| - 1]);
    }
  }

  lemma {:induction false} NoFactoriesAmongTransients(ds: seq<Discovered>)
    ensures ReadOnlyRequestFactories(Transients(ds)) == None
    ensures ReadOnlyNotificationFactories(Transients(ds)) == None
    decreases |ds|
  {
    if ds != [] {
      NoFactoriesAmongTransients(ds[..|ds| - 1]);
    }
  }

  /** The mediator built after `AddMediator(assemblies)` on a collection that
      already held the registrations `pre`. */
  function MediatorAfter(pre: seq<ServiceDescriptor>, assemblies: seq<Assembly>, code: Classes): Mediator {
    Mediator(BuildServiceProvider(pre + MediatorRegistrations(assemblies), code),
             RequestFactoriesOf(assemblies), NotificationFactoriesOf(assemblies))
  }

  /** A registration changes the read-only views only when it is one. */
  lemma ReadOnlyAfterOne(a: seq<ServiceDescriptor>, x: ServiceDescriptor)
    ensures ReadOnlyRequestFactories(a + [x])
         == if x.RequestFactoriesSingleton? && x.readOnlyView then Some(x.entries) else ReadOnlyRequestFactories(a)
    ensures ReadOnlyNotificationFactories(a + [x])
         == if x.NotificationFactoriesSingleton? && x.readOnlyView then Some(x.notificationEntries) else ReadOnlyNotificationFactories(a)
  {
    assert (a + [x])[..|a + [x]| - 1] == a;
  }

  /** Transients leave the read-only views as they were. */
  lemma ReadOnlyAfterTransients(a: seq<ServiceDescriptor>, ds: seq<Discovered>)
    ensures ReadOnlyRequestFactories(a + Transients(ds)) == ReadOnlyRequestFactories(a)
    ensures ReadOnlyNotificationFactories(a + Transients(ds)) == ReadOnlyNotificationFactories(a)
  {
    NoFactoriesAmongTransients(ds);
    ReadOnlyFactoriesAppend(a, Transients(ds));
  }

  /** In the registrations of `AddMediator`, the read-only views are the two
      dictionaries registered after their scans; the final plain views and the
      transients do not count. */
  lemma PhasesReadOnlyFactories(b: seq<Discovered>, r: seq<Discovered>, n: seq<Discovered>, st: seq<Discovered>,
                                rf: map<TypeId, RequestFactory>, nf: map<TypeId, NotificationFactory>)
    ensures var ds := Transients(b) + Transients(r) + [RequestFactoriesSingleton(true, rf)] + Transients(n)
                      + [NotificationFactoriesSingleton(true, nf)] + Transients(st)
                      + [RequestFactoriesSingleton(false, rf), NotificationFactoriesSingleton(false, nf),
                         MediatorSingleton(SenderService), MediatorSingleton(PublisherService), MediatorSingleton(MediatorInterfaceService)];
            ReadOnlyRequestFactories(ds) == Some(rf) && ReadOnlyNotificationFactories(ds) == Some(nf)
  {
    var tail := [RequestFactoriesSingleton(false, rf), NotificationFactoriesSingleton(false, nf),
                 MediatorSingleton(SenderService), MediatorSingleton(PublisherService), MediatorSingleton(MediatorInterfaceService)];
    var a0 := Transients(b);
    NoFactoriesAmongTransients(b);
    var a1 := a0 + Transients(r);
    ReadOnlyAfterTransients(a0, r);
    var a2 := a1 + [RequestFactoriesSingleton(true, rf)];
    ReadOnlyAfterOne(a1, RequestFactoriesSingleton(true, rf));
    var a3 := a2 + Transients(n);
    ReadOnlyAfterTransients(a2, n);
    var a4 := a3 + [NotificationFactoriesSingleton(true, nf)];
    ReadOnlyAfterOne(a3, NotificationFactoriesSingleton(true, nf));
    var a5 := a4 + Transients(st);
    ReadOnlyAfterTransients(a4, st);
    var x1, x2, x3, x4, x5 := tail[0], tail[1], tail[2], tail[3], tail[4];
    ReadOnlyAfterOne(a5, x1);
    ReadOnlyAfterOne(a5 + [x1], x2);
    ReadOnlyAfterOne(a5 + [x1] + [x2], x3);
    ReadOnlyAfterOne(a5 + [x1] + [x2] + [x3], x4);
    ReadOnlyAfterOne(a5 + [x1] + [x2] + [x3] + [x4], x5);
    AppendFive(a5, x1, x2, x3, x4, x5);
  }

  /** `IMediator` resolves, and its dictionaries are the ones the scans filled,
      whatever the collection held before. */
  lemma AddMediatorProvidesMediator(pre: seq<ServiceDescriptor>, assemblies: seq<Assembly>, code: Classes)
    ensures ResolveMediator(pre + MediatorRegistrations(assemblies), code) == Some(MediatorAfter(pre, assemblies, code))
  {
    var rf := RequestFactoriesOf(assemblies);
    var nf := NotificationFactoriesOf(assemblies);
    var scans := ScanRegistrations(assemblies);
    var tail := [RequestFactoriesSingleton(false, rf), NotificationFactoriesSingleton(false, nf),
                 MediatorSingleton(SenderService), MediatorSingleton(PublisherService), MediatorSingleton(MediatorInterfaceService)];
    var ds := MediatorRegistrations(assemblies);
    assert ds == scans + tail;
    PhasesReadOnlyFactories(BehaviorScan(assemblies), RequestHandlerScan(assemblies),
                            Flatten(GroupBy(NotificationHandlerScan(assemblies))), StreamHandlerScan(assemblies), rf, nf);
    ReadOnlyFactoriesAppend(pre, ds);
    assert (pre + ds)[|pre + ds| - 1] == MediatorSingleton(MediatorInterfaceService);
  }

  lemma AppendNonTransient(a: seq<ServiceDescriptor>, x: ServiceDescriptor, s: Interface)
    requires !x.Transient?
    ensures TransientImpls(a + [x], s) == TransientImpls(a, s)
  {
    assert (a + [x])[..|a + [x]| - 1] == a;
  }

  lemma AppendTransients(a: seq<ServiceDescriptor>, ds: seq<Discovered>, s: Interface)
    ensures TransientImpls(a + Transients(ds), s) == TransientImpls(a, s) + ImplsFor(ds, s)
  {
    TransientImplsAppend(a, Transients(ds), s);
    TransientImplsOfTransients(ds, s);
  }

  lemma PhasesTransientImpls(b: seq<Discovered>, r: seq<Discovered>, x: ServiceDescriptor, n: seq<Discovered>,
                             y: ServiceDescriptor, st: seq<Discovered>, s: Interface)
    requires !x.Transient? && !y.Transient?
    ensures TransientImpls(Transients(b) + Transients(r) + [x] + Transients(n) + [y] + Transients(st), s)
         == ImplsFor(b, s) + ImplsFor(r, s) + ImplsFor(n, s) + ImplsFor(st, s)
  {
    var a1 := Transients(b) + Transients(r);
    var a2 := a1 + [x];
    var a3 := a2 + Transients(n);
    var a4 := a3 + [y];
    TransientImplsOfTransients(b, s);
    AppendTransients(Transients(b), r, s);
    AppendNonTransient(a1, x, s);
    AppendTransients(a2, n, s);
    AppendNonTransient(a3, y, s);
    AppendTransients(a4, st, s);
  }

  /** The transients of the scanning phases, phase after phase. */
  lemma ScanTransientImpls(assemblies: seq<Assembly>, s: Interface)
    ensures TransientImpls(ScanRegistrations(assemblies), s)
         == ImplsFor(BehaviorScan(assemblies), s) + ImplsFor(RequestHandlerScan(assemblies), s)
            + ImplsFor(Flatten(GroupBy(NotificationHandlerScan(assemblies))), s) + ImplsFor(StreamHandlerScan(assemblies), s)
  {
    PhasesTransientImpls(BehaviorScan(assemblies), RequestHandlerScan(assemblies),
                         RequestFactoriesSingleton(true, RequestFactoriesOf(assemblies)),
                         Flatten(GroupBy(NotificationHandlerScan(assemblies))),
                         NotificationFactoriesSingleton(true, NotificationFactoriesOf(assemblies)),
                         StreamHandlerScan(assemblies), s);
  }

  /** The implementations `AddMediator`'s scans register for `s`: the matching
      pairs of each scan, phase after phase. */
  function ScannedImpls(assemblies: seq<Assembly>, s: Interface): seq<TypeId> {
    ImplsFor(BehaviorScan(assemblies), s) + ImplsFor(RequestHandlerScan(assemblies), s)
    + ImplsFor(Flatten(GroupBy(NotificationHandlerScan(assemblies))), s) + ImplsFor(StreamHandlerScan(assemblies), s)
  }

  /** Of everything `AddMediator` registers, only the scans' transients serve `s`. */
  lemma RegisteredByAddMediator(assemblies: seq<Assembly>, s: Interface)
    ensures TransientImpls(MediatorRegistrations(assemblies), s) == ScannedImpls(assemblies, s)
  {
    var rf := RequestFactoriesOf(assemblies);
    var nf := NotificationFactoriesOf(assemblies);
    var tail := [RequestFactoriesSingleton(false, rf), NotificationFactoriesSingleton(false, nf),
                 MediatorSingleton(SenderService), MediatorSingleton(PublisherService), MediatorSingleton(MediatorInterfaceService)];
    var scans := ScanRegistrations(assemblies);
    assert MediatorRegistrations(assemblies) == scans + tail;
    ScanTransientImpls(assemblies, s);
    NoTransients(tail, s);
    TransientImplsAppend(scans, tail, s);
    assert TransientImpls(scans + tail, s) == TransientImpls(scans, s) + [];
  }

  /** What the container returns for any service after `AddMediator`: what was
      registered before, then the matching pairs of each scan, phase after phase. */
  lemma ServicesAfterAddMediator(pre: seq<ServiceDescriptor>, assemblies: seq<Assembly>, code: Classes, s: Interface)
    ensures GetServices(MediatorAfter(pre, assemblies, code).serviceProvider, s)
         == TransientImpls(pre, s) + ScannedImpls(assemblies, s)
  {
    var all := MediatorRegistrations(assemblies);
    ResolvedInRegistrationOrder(pre + all, code, s);
    TransientImplsAppend(pre, all, s);
    RegisteredByAddMediator(assemblies, s);
  }

  /** For a notification handler service, the scans contribute exactly its
      discovered handlers, in discovery order: grouping does not reorder them. */
  lemma ScannedNotificationHandlers(assemblies: seq<Assembly>, n: TypeId)
    ensures ScannedImpls(assemblies, NotificationHandlerOf(n))
         == ImplsFor(NotificationHandlerScan(assemblies), NotificationHandlerOf(n))
  {
    var scan := NotificationHandlerScan(assemblies);
    var s := NotificationHandlerOf(n);
    ScanOfOtherDefinition(AllTypes(assemblies), NotAbstractNorInterface, PipelineBehaviorDef, s);
    ScanOfOtherDefinition(AllTypes(assemblies), NotAbstractNorInterface, RequestHandlerDef, s);
    ScanOfOtherDefinition(AllTypes(assemblies), ConcreteClass, StreamHandlerDef, s);
    var flat := Flatten(GroupBy(scan));
    ImplsForNotification(flat, n);
    GroupingKeepsPerTypeOrder(scan, n);
    ImplsForNotification(scan, n);
  }

  /** For a pipeline behavior service, the scans contribute exactly its
      discovered behaviors, in discovery order. */
  lemma ScannedBehaviors(assemblies: seq<Assembly>, requestType: TypeId, responseType: TypeId)
    ensures ScannedImpls(assemblies, PipelineBehaviorOf(requestType, responseType))
         == ImplsFor(BehaviorScan(assemblies), PipelineBehaviorOf(requestType, responseType))
  {
    var s := PipelineBehaviorOf(requestType, responseType);
    ScanOfOtherDefinition(AllTypes(assemblies), NotAbstractNorInterface, RequestHandlerDef, s);
    GroupedNotificationsOfOther(AllTypes(assemblies), s);
    ScanOfOtherDefinition(AllTypes(assemblies), ConcreteClass, StreamHandlerDef, s);
    assert ImplsFor(BehaviorScan(assemblies), s) + [] + [] + [] == ImplsFor(BehaviorScan(assemblies), s);
  }

  /** A request type with a discovered handler is served: `Send` reaches a
      handler and completes. */
  lemma DiscoveredRequestIsServed(pre: seq<ServiceDescriptor>, assemblies: seq<Assembly>, code: Classes,
                                  request: Message, ct: CancellationToken)
    requires request.runtimeType in RequestTypes(RequestHandlerScan(assemblies))
    ensures MediatorAfter(pre, assemblies, code).Send(request, ct).Success?
  {
    var hs := RequestHandlerScan(assemblies);
    var k := request.runtimeType;
    var j := LastFor(hs, k);
    RequestRegistryAt(map[], hs, k);
    var service := hs[j].service;
    assert service == RequestHandlerOf(k, service.response);
    ServicesAfterAddMediator(pre, assemblies, code, service);
    ImplsForHas(hs, hs[j]);
  }

  /** A request type without a discovered handler throws "no handler found". */
  lemma UndiscoveredRequestThrows(pre: seq<ServiceDescriptor>, assemblies: seq<Assembly>, code: Classes,
                                  request: Message, ct: CancellationToken)
    requires request.runtimeType !in RequestTypes(RequestHandlerScan(assemblies))
    ensures MediatorAfter(pre, assemblies, code).Send(request, ct) == Failure(NoHandlerFound(request.runtimeType))
  {
    RequestRegistryKeys(map[], RequestHandlerScan(assemblies));
  }

  /** A notification type without any discovered handler has no factory, so
      publishing it throws instead of completing with no handler run. */
  lemma NotificationWithoutHandlersThrows(pre: seq<ServiceDescriptor>, assemblies: seq<Assembly>, code: Classes,
                                          notification: Message, ct: CancellationToken)
    requires notification.runtimeType !in NotificationTypes(NotificationHandlerScan(assemblies))
    ensures MediatorAfter(pre, assemblies, code).Publish(notification, ct)
         == Published([], Fail(NoHandlersFound(notification.runtimeType)))
  {
    NotificationRegistryKeys(map[], NotificationHandlerScan(assemblies));
  }

  /** The notification handlers resolved for a notification type are those
      registered before, then the discovered ones for it, in discovery order:
      grouping does not reorder them. */
  lemma NotificationServicesAfterAddMediator(pre: seq<ServiceDescriptor>, assemblies: seq<Assembly>, code: Classes, n: TypeId)
    ensures GetServices(MediatorAfter(pre, assemblies, code).serviceProvider, NotificationHandlerOf(n))
         == TransientImpls(pre, NotificationHandlerOf(n)) + ImplsFor(NotificationHandlerScan(assemblies), NotificationHandlerOf(n))
  {
    ServicesAfterAddMediator(pre, assemblies, code, NotificationHandlerOf(n));
    ScannedNotificationHandlers(assemblies, n);
  }

  /** Publishing a notification type with handlers starts the handlers
      registered before, then every discovered handler of that type, at least
      one, in discovery order. */
  lemma NotificationHandlersInDiscoveryOrder(pre: seq<ServiceDescriptor>, assemblies: seq<Assembly>, code: Classes,
                                             notification: Message, ct: CancellationToken)
    requires notification.runtimeType in NotificationTypes(NotificationHandlerScan(assemblies))
    ensures var s := NotificationHandlerOf(notification.runtimeType);
            var started := StartedHandlers(MediatorAfter(pre, assemblies, code).Publish(notification, ct).started);
            && started == TransientImpls(pre, s) + ImplsFor(NotificationHandlerScan(assemblies), s)
            && ImplsFor(NotificationHandlerScan(assemblies), s) != []
  {
    var scan := NotificationHandlerScan(assemblies);
    var n := notification.runtimeType;
    var m := MediatorAfter(pre, assemblies, code);
    NotificationRegistryKeys(map[], scan);
    assert m.notificationsFactories[n] == InvokeNotificationFor(n);
    PublishRegistered(m, notification, ct);
    NotificationServicesAfterAddMediator(pre, assemblies, code, n);
    var d :| d in scan && d.service.NotificationHandlerOf? && d.service.notification == n;
    ImplsForHas(scan, d);
  }

  /** The behaviors resolved for a request are those registered before, then
      the discovered ones for its interface, in discovery order, which is the
      order `OrderBy` keeps for behaviors of equal `Order`. */
  lemma BehaviorsInDiscoveryOrder(pre: seq<ServiceDescriptor>, assemblies: seq<Assembly>, code: Classes,
                                  requestType: TypeId, responseType: TypeId)
    ensures GetServices(MediatorAfter(pre, assemblies, code).serviceProvider, PipelineBehaviorOf(requestType, responseType))
         == TransientImpls(pre, PipelineBehaviorOf(requestType, responseType))
            + ImplsFor(BehaviorScan(assemblies), PipelineBehaviorOf(requestType, responseType))
  {
    ServicesAfterAddMediator(pre, assemblies, code, PipelineBehaviorOf(requestType, responseType));
    ScannedBehaviors(assemblies, requestType, responseType);
  }

  /** Two marker types from one assembly register every behavior twice, so each
      behavior for a request is resolved, and runs, twice. */
  lemma SameAssemblyTwiceDoublesBehaviors(pre: seq<ServiceDescriptor>, t: TypeId, u: TypeId, entryAssembly: Assembly,
                                         assemblyOf: TypeId -> Assembly, code: Classes, requestType: TypeId, responseType: TypeId)
    requires assemblyOf(t) == assemblyOf(u)
    ensures var s := PipelineBehaviorOf(requestType, responseType);
            var once := ImplsFor(BehaviorScan([assemblyOf(t)]), s);
            && GetServices(MediatorAfter(pre, [assemblyOf(t)], code).serviceProvider, s) == TransientImpls(pre, s) + once
            && GetServices(MediatorAfter(pre, AssembliesToScan([t, u], entryAssembly, assemblyOf), code).serviceProvider, s)
               == TransientImpls(pre, s) + once + once
  {
    var a := assemblyOf(t);
    var s := PipelineBehaviorOf(requestType, responseType);
    var twice := AssembliesToScan([t, u], entryAssembly, assemblyOf);
    SameAssemblyTwice(t, u, entryAssembly, assemblyOf);
    BehaviorsInDiscoveryOrder(pre, [a], code, requestType, responseType);
    BehaviorsInDiscoveryOrder(pre, twice, code, requestType, responseType);
    var once := ImplsFor(BehaviorScan([a]), s);
    ImplsForAppend(BehaviorScan([a]), BehaviorScan([a]), s);
    assert ImplsFor(BehaviorScan(twice), s) == once + once;
    SeqAssoc(TransientImpls(pre, s), once, once);
  }
}
