/** `MediatorExtensions`: the registration phase. It scans the chosen assemblies
    for the engine's generic interfaces, adds each (interface, implementation)
    pair to the service collection, and fills the two factory dictionaries that
    `Mediator` is later built with. */
module Registration {
  import opened Sequences
  import opened Runtime
  import opened Dispatch

  /** A type as reflection shows it. */
  datatype TypeInfo = TypeInfo(id: TypeId, isClass: bool, isAbstract: bool, isInterface: bool, interfaces: seq<Interface>)

  /** An assembly: `GetTypes()`. */
  datatype Assembly = Assembly(types: seq<TypeInfo>)

  /** The open generic definitions the scans compare `GetGenericTypeDefinition()` with. */
  datatype Definition = RequestHandlerDef | PipelineBehaviorDef | NotificationHandlerDef | StreamHandlerDef

  /** `i.IsGenericType && i.GetGenericTypeDefinition() == typeof(<def>)`. */
  predicate Implements(i: Interface, def: Definition) {
    match def
    case RequestHandlerDef => i.RequestHandlerOf?
    case PipelineBehaviorDef => i.PipelineBehaviorOf?
    case NotificationHandlerDef => i.NotificationHandlerOf?
    case StreamHandlerDef => i.StreamHandlerOf?
  }

  /** The two type filters: `!t.IsAbstract && !t.IsInterface` (behaviors, request
      and notification handlers) and `t.IsClass && !t.IsAbstract` (stream handlers). */
  datatype TypeFilter = NotAbstractNorInterface | ConcreteClass

  predicate Passes(t: TypeInfo, f: TypeFilter) {
    match f
    case NotAbstractNorInterface => !t.isAbstract && !t.isInterface
    case ConcreteClass => t.isClass && !t.isAbstract
  }

  /** One discovered (interface, implementation) pair. */
  datatype Discovered = Discovered(service: Interface, impl: TypeId)

  /** `assemblies.SelectMany(a => a.GetTypes())`. */
  function AllTypes(assemblies: seq<Assembly>): seq<TypeInfo> {
    if assemblies == [] then []
    else AllTypes(assemblies[..|assemblies| - 1]) + assemblies[|assemblies| - 1].types
  }

  /** The interfaces of one implementation that match the definition, in order. */
  function Matching(interfaces: seq<Interface>, impl: TypeId, def: Definition): seq<Discovered> {
    if interfaces == [] then []
    else (if Implements(interfaces[0], def) then [Discovered(interfaces[0], impl)] else [])
         + Matching(interfaces[1..], impl, def)
  }

  /** The pairs one type contributes: none when it fails the filter. */
  function FoundIn(t: TypeInfo, f: TypeFilter, def: Definition): seq<Discovered> {
    if Passes(t, f) then Matching(t.interfaces, t.id, def) else []
  }

  /** `.Where(filter).SelectMany(t => t.GetInterfaces().Where(matches def).Select(...))`. */
  function Discover(types: seq<TypeInfo>, f: TypeFilter, def: Definition): seq<Discovered> {
    if types == [] then []
    else FoundIn(types[0], f, def) + Discover(types[1..], f, def)
  }

  function BehaviorScan(assemblies: seq<Assembly>): seq<Discovered> {
    Discover(AllTypes(assemblies), NotAbstractNorInterface, PipelineBehaviorDef)
  }

  function RequestHandlerScan(assemblies: seq<Assembly>): seq<Discovered> {
    Discover(AllTypes(assemblies), NotAbstractNorInterface, RequestHandlerDef)
  }

  function NotificationHandlerScan(assemblies: seq<Assembly>): seq<Discovered> {
    Discover(AllTypes(assemblies), NotAbstractNorInterface, NotificationHandlerDef)
  }

  /** The stream scans of all assemblies, one after the other. */
  function StreamHandlerScan(assemblies: seq<Assembly>): seq<Discovered> {
    Discover(AllTypes(assemblies), ConcreteClass, StreamHandlerDef)
  }

  lemma {:induction false} MatchingExactly(interfaces: seq<Interface>, impl: TypeId, def: Definition, x: Discovered)
    ensures x in Matching(interfaces, impl, def) <==> x.impl == impl && x.service in interfaces && Implements(x.service, def)
  {
    if interfaces != [] {
      MatchingExactly(interfaces[1..], impl, def, x);
      assert interfaces == [interfaces[0]] + interfaces[1..];
    }
  }

  /** A pair is discovered exactly when some type passing the filter declares an
      interface of the definition. */
  lemma {:induction false} DiscoverExactly(types: seq<TypeInfo>, f: TypeFilter, def: Definition, x: Discovered)
    ensures x in Discover(types, f, def)
        <==> Implements(x.service, def)
             && exists t :: t in types && Passes(t, f) && t.id == x.impl && x.service in t.interfaces
  {
    if types != [] {
      DiscoverExactly(types[1..], f, def, x);
      MatchingExactly(types[0].interfaces, types[0].id, def, x);
      assert types == [types[0]] + types[1..];
      if x in Discover(types, f, def) && x !in FoundIn(types[0], f, def) {
        assert x in Discover(types[1..], f, def);
      }
    }
  }

  /** One discovered pair's interface is of the scanned definition. */
  lemma DiscoveredAt(types: seq<TypeInfo>, f: TypeFilter, def: Definition, i: nat)
    requires i < |Discover(types, f, def)|
    ensures Implements(Discover(types, f, def)[i].service, def)
  {
    DiscoverExactly(types, f, def, Discover(types, f, def)[i]);
  }

  lemma DiscoverImplements(types: seq<TypeInfo>, f: TypeFilter, def: Definition)
    ensures forall i :: 0 <= i < |Discover(types, f, def)| ==> Implements(Discover(types, f, def)[i].service, def)
  {
    forall i | 0 <= i < |Discover(types, f, def)| ensures Implements(Discover(types, f, def)[i].service, def) {
      DiscoverExactly(types, f, def, Discover(types, f, def)[i]);
    }
  }

  lemma {:induction false} DiscoverAppend(a: seq<TypeInfo>, b: seq<TypeInfo>, f: TypeFilter, def: Definition)
    ensures Discover(a + b, f, def) == Discover(a, f, def) + Discover(b, f, def)
  {
    if a == [] {
      assert a + b == b;
    } else {
      TailOfAppend(a, b);
      calc {
        Discover(a + b, f, def);
        FoundIn(a[0], f, def) + Discover(a[1..] + b, f, def);
        { DiscoverAppend(a[1..], b, f, def); }
        FoundIn(a[0], f, def) + (Discover(a[1..], f, def) + Discover(b, f, def));
        { SeqAssoc(FoundIn(a[0], f, def), Discover(a[1..], f, def), Discover(b, f, def)); }
        FoundIn(a[0], f, def) + Discover(a[1..], f, def) + Discover(b, f, def);
        Discover(a, f, def) + Discover(b, f, def);
      }
    }
  }

  // ----- The service collection -----

  datatype MediatorService = SenderService | PublisherService | MediatorInterfaceService

  /** What `AddTransient` / `AddSingleton` record. The dictionaries are registered
      once filled and are not changed afterwards, so their contents stand for them. */
  datatype ServiceDescriptor =
    | Transient(service: Interface, impl: TypeId)
    | RequestFactoriesSingleton(readOnlyView: bool, entries: map<TypeId, RequestFactory>)
    | NotificationFactoriesSingleton(readOnlyView: bool, notificationEntries: map<TypeId, NotificationFactory>)
    | MediatorSingleton(role: MediatorService)

  class ServiceCollection {
    var descriptors: seq<ServiceDescriptor>

    constructor ()
      ensures descriptors == []
    {
      descriptors := [];
    }

    method AddTransient(service: Interface, impl: TypeId)
      modifies this
      ensures descriptors == old(descriptors) + [Transient(service, impl)]
    {
      descriptors := descriptors + [Transient(service, impl)];
    }

    method AddSingleton(d: ServiceDescriptor)
      requires !d.Transient?
      modifies this
      ensures descriptors == old(descriptors) + [d]
    {
      descriptors := descriptors + [d];
    }
  }

  /** One transient registration per pair, in order. */
  function Transients(ds: seq<Discovered>): seq<ServiceDescriptor> {
    if ds == [] then []
    else Transients(ds[..|ds| - 1]) + [Transient(ds[|ds| - 1].service, ds[|ds| - 1].impl)]
  }

  lemma {:induction false} TransientsAppend(a: seq<Discovered>, b: seq<Discovered>)
    ensures Transients(a + b) == Transients(a) + Transients(b)
    decreases |b|
  {
    if b == [] {
      assert a + b == a;
    } else {
      assert (a + b)[..|a + b| - 1] == a + b[..|b| - 1];
      TransientsAppend(a, b[..|b| - 1]);
    }
  }

  lemma TransientsStep(ds: seq<Discovered>, i: nat)
    requires i < |ds|
    ensures Transients(ds[..i + 1]) == Transients(ds[..i]) + [Transient(ds[i].service, ds[i].impl)]
  {
    assert ds[..i + 1][..i] == ds[..i];
  }

  // ----- The request registry -----

  predicate HandlesRequest(h: Discovered, k: TypeId) {
    h.service.RequestHandlerOf? && h.service.request == k
  }

  /** The request types the discovered handlers are for. */
  function RequestTypes(hs: seq<Discovered>): set<TypeId> {
    set h | h in hs && h.service.RequestHandlerOf? :: h.service.request
  }

  /** `factories[handler.RequestType] = compiled` for each handler in turn. */
  function RequestRegistry(m: map<TypeId, RequestFactory>, hs: seq<Discovered>): map<TypeId, RequestFactory> {
    if hs == [] then m
    else
      var prev := RequestRegistry(m, hs[..|hs| - 1]);
      var h := hs[|hs| - 1];
      if h.service.RequestHandlerOf? then prev[h.service.request := InvokeRequestFor(h.service.request, h.service.response)]
      else prev
  }

  lemma RequestRegistryStep(m: map<TypeId, RequestFactory>, hs: seq<Discovered>, i: nat)
    requires i < |hs| && hs[i].service.RequestHandlerOf?
    ensures RequestRegistry(m, hs[..i + 1])
         == RequestRegistry(m, hs[..i])[hs[i].service.request := InvokeRequestFor(hs[i].service.request, hs[i].service.response)]
  {
    assert hs[..i + 1][..i] == hs[..i];
  }

  /** The position of the last handler for `k`, or -1 when there is none. */
  function LastFor(hs: seq<Discovered>, k: TypeId): (j: int)
    ensures -1 <= j < |hs|
    ensures j >= 0 ==> HandlesRequest(hs[j], k)
    ensures forall i :: j < i < |hs| ==> !HandlesRequest(hs[i], k)
    ensures j == -1 <==> k !in RequestTypes(hs)
  {
    if hs == [] then -1
    else if HandlesRequest(hs[|hs| - 1], k) then |hs| - 1
    else
      var j := LastFor(hs[..|hs| - 1], k);
      assert forall h :: h in hs ==> h in hs[..|hs| - 1] || h == hs[|hs| - 1];
      assert RequestTypes(hs[..|hs| - 1]) <= RequestTypes(hs);
      j
  }

  /** The registry at one key: the factory of the last handler for it, or what
      was there before when no handler is for it. */
  lemma {:induction false} RequestRegistryAt(m: map<TypeId, RequestFactory>, hs: seq<Discovered>, k: TypeId)
    ensures var r := RequestRegistry(m, hs);
            var j := LastFor(hs, k);
            && (k in r <==> k in m || j >= 0)
            && (j >= 0 ==> r[k] == InvokeRequestFor(k, hs[j].service.response))
            && (j < 0 && k in m ==> r[k] == m[k])
  {
    if hs != [] {
      RequestRegistryAt(m, hs[..|hs| - 1], k);
    }
  }

  /** After `RegisterQueryHandlers` the keys are the old ones plus exactly the
      request types of the discovered handlers; other keys keep their entries. */
  lemma RequestRegistryKeys(m: map<TypeId, RequestFactory>, hs: seq<Discovered>)
    ensures RequestRegistry(m, hs).Keys == m.Keys + RequestTypes(hs)
    ensures forall k :: k in m && k !in RequestTypes(hs) ==> RequestRegistry(m, hs)[k] == m[k]
  {
    forall k ensures k in RequestRegistry(m, hs) <==> k in m || k in RequestTypes(hs) {
      RequestRegistryAt(m, hs, k);
    }
    forall k | k in m && k !in RequestTypes(hs) ensures RequestRegistry(m, hs)[k] == m[k] {
      RequestRegistryAt(m, hs, k);
    }
  }

  /** Two handlers for one request type: the later one's factory is the entry. */
  lemma LaterHandlerOverwrites(m: map<TypeId, RequestFactory>, hs: seq<Discovered>, j: nat)
    requires j < |hs| && hs[j].service.RequestHandlerOf?
    requires forall i :: j < i < |hs| ==> !HandlesRequest(hs[i], hs[j].service.request)
    ensures hs[j].service.request in RequestRegistry(m, hs)
    ensures RequestRegistry(m, hs)[hs[j].service.request]
         == InvokeRequestFor(hs[j].service.request, hs[j].service.response)
  {
    var k := hs[j].service.request;
    var last := LastFor(hs, k);
    assert last == j;
    RequestRegistryAt(m, hs, k);
  }

  lemma {:induction false} LastForAppend(a: seq<Discovered>, b: seq<Discovered>, k: TypeId)
    ensures LastFor(a + b, k) == if LastFor(b, k) >= 0 then |a| + LastFor(b, k) else LastFor(a, k)
    decreases |b|
  {
    if b == [] {
      assert a + b == a;
    } else {
      assert (a + b)[..|a + b| - 1] == a + b[..|b| - 1];
      assert (a + b)[|a + b| - 1] == b[|b| - 1];
      LastForAppend(a, b[..|b| - 1], k);
    }
  }

  /** Scanning the same handlers twice builds the same registry as scanning them once. */
  lemma RescanKeepsRegistry(m: map<TypeId, RequestFactory>, hs: seq<Discovered>)
    ensures RequestRegistry(m, hs + hs) == RequestRegistry(m, hs)
  {
    var r1 := RequestRegistry(m, hs + hs);
    var r2 := RequestRegistry(m, hs);
    forall k ensures (k in r1 <==> k in r2) && (k in r1 ==> r1[k] == r2[k]) {
      RequestRegistryAt(m, hs + hs, k);
      RequestRegistryAt(m, hs, k);
      LastForAppend(hs, hs, k);
      var j := LastFor(hs, k);
      if j >= 0 {
        assert (hs + hs)[|hs| + j] == hs[j];
      }
    }
    assert r1.Keys == r2.Keys;
  }

  method RegisterPipelineBehaviors(services: ServiceCollection, assemblies: seq<Assembly>)
    modifies services
    ensures services.descriptors == old(services.descriptors) + Transients(BehaviorScan(assemblies))
  {
    var handlerTypes := Discover(AllTypes(assemblies), NotAbstractNorInterface, PipelineBehaviorDef);
    for i := 0 to |handlerTypes|
      invariant services.descriptors == old(services.descriptors) + Transients(handlerTypes[..i])
    {
      TransientsStep(handlerTypes, i);
      services.AddTransient(handlerTypes[i].service, handlerTypes[i].impl);
    }
    assert handlerTypes[..|handlerTypes|] == handlerTypes;
  }

  method RegisterQueryHandlers(services: ServiceCollection, assemblies: seq<Assembly>, factories: map<TypeId, RequestFactory>)
    returns (updated: map<TypeId, RequestFactory>)
    modifies services
    ensures updated == RequestRegistry(factories, RequestHandlerScan(assemblies))
    ensures services.descriptors == old(services.descriptors) + Transients(RequestHandlerScan(assemblies))
                                    + [RequestFactoriesSingleton(true, updated)]
  {
    var handlerTypes := Discover(AllTypes(assemblies), NotAbstractNorInterface, RequestHandlerDef);
    updated := factories;
    for i := 0 to |handlerTypes|
      invariant updated == RequestRegistry(factories, handlerTypes[..i])
      invariant services.descriptors == old(services.descriptors) + Transients(handlerTypes[..i])
    {
      var handler := handlerTypes[i];
      DiscoveredAt(AllTypes(assemblies), NotAbstractNorInterface, RequestHandlerDef, i);
      RequestRegistryStep(factories, handlerTypes, i);
      updated := updated[handler.service.request := InvokeRequestFor(handler.service.request, handler.service.response)];
      services.AddTransient(handler.service, handler.impl);
      TransientsStep(handlerTypes, i);
      SeqAssoc(old(services.descriptors), Transients(handlerTypes[..i]), [Transient(handler.service, handler.impl)]);
    }
    assert handlerTypes[..|handlerTypes|] == handlerTypes;
    services.AddSingleton(RequestFactoriesSingleton(true, updated));
  }

  // ----- The notification registry -----

  /** The discovered handlers of notification type `n`, in order. */
  function ForNotification(ds: seq<Discovered>, n: TypeId): (r: seq<Discovered>)
    ensures forall x :: x in r ==> x in ds && x.service == NotificationHandlerOf(n)
  {
    if ds == [] then []
    else (if ds[0].service == NotificationHandlerOf(n) then [ds[0]] else []) + ForNotification(ds[1..], n)
  }

  function NotificationTypes(ds: seq<Discovered>): set<TypeId> {
    set d | d in ds && d.service.NotificationHandlerOf? :: d.service.notification
  }

  /** The notification types in order of first appearance: the keys `GroupBy` produces. */
  function NotificationKeys(ds: seq<Discovered>): (ks: seq<TypeId>)
    ensures forall i, j :: 0 <= i < j < |ks| ==> ks[i] != ks[j]
    ensures forall n :: n in ks <==> n in NotificationTypes(ds)
  {
    if ds == [] then []
    else
      var ks := NotificationKeys(ds[..|ds| - 1]);
      var d := ds[|ds| - 1];
      assert forall x :: x in ds <==> x in ds[..|ds| - 1] || x == d;
      if d.service.NotificationHandlerOf? && d.service.notification !in ks then ks + [d.service.notification] else ks
  }

  datatype Group = Group(key: TypeId, items: seq<Discovered>)

  function Groups(ds: seq<Discovered>, ks: seq<TypeId>): (gs: seq<Group>)
    ensures |gs| == |ks|
  {
    if ks == [] then []
    else Groups(ds, ks[..|ks| - 1]) + [Group(ks[|ks| - 1], ForNotification(ds, ks[|ks| - 1]))]
  }

  /** `.GroupBy(x => x.RequestType)`: one group per notification type, in order
      of first appearance, each holding that type's handlers in order. */
  function GroupBy(ds: seq<Discovered>): seq<Group> {
    Groups(ds, NotificationKeys(ds))
  }

  /** The groups' items one group after the other. */
  function Flatten(gs: seq<Group>): seq<Discovered> {
    if gs == [] then [] else Flatten(gs[..|gs| - 1]) + gs[|gs| - 1].items
  }

  /** `notificationsFactory[handler.Key] = compiled` for each group in turn. */
  function NotificationRegistry(m: map<TypeId, NotificationFactory>, gs: seq<Group>): map<TypeId, NotificationFactory> {
    if gs == [] then m
    else NotificationRegistry(m, gs[..|gs| - 1])[gs[|gs| - 1].key := InvokeNotificationFor(gs[|gs| - 1].key)]
  }

  lemma {:induction false} ForNotificationAppend(a: seq<Discovered>, b: seq<Discovered>, n: TypeId)
    ensures ForNotification(a + b, n) == ForNotification(a, n) + ForNotification(b, n)
  {
    if a != [] {
      var head := if a[0].service == NotificationHandlerOf(n) then [a[0]] else [];
      TailOfAppend(a, b);
      calc {
        ForNotification(a + b, n);
        head + ForNotification(a[1..] + b, n);
        { ForNotificationAppend(a[1..], b, n); }
        head + (ForNotification(a[1..], n) + ForNotification(b, n));
        { SeqAssoc(head, ForNotification(a[1..], n), ForNotification(b, n)); }
        head + ForNotification(a[1..], n) + ForNotification(b, n);
      }
    } else {
      assert a + b == b;
    }
  }

  lemma {:induction false} ForNotificationTwice(ds: seq<Discovered>, k: TypeId, n: TypeId)
    ensures ForNotification(ForNotification(ds, k), n) == if k == n then ForNotification(ds, n) else []
  {
    if ds != [] {
      ForNotificationTwice(ds[1..], k, n);
      var head := if ds[0].service == NotificationHandlerOf(k) then [ds[0]] else [];
      ForNotificationAppend(head, ForNotification(ds[1..], k), n);
    }
  }

  lemma {:induction false} ForNotificationOfOtherType(ds: seq<Discovered>, n: TypeId)
    requires n !in NotificationTypes(ds)
    ensures ForNotification(ds, n) == []
  {
    if ds != [] {
      assert NotificationTypes(ds[1..]) <= NotificationTypes(ds);
      ForNotificationOfOtherType(ds[1..], n);
    }
  }

  lemma {:induction false} FlattenGroupsFor(ds: seq<Discovered>, ks: seq<TypeId>, n: TypeId)
    requires forall i, j :: 0 <= i < j < |ks| ==> ks[i] != ks[j]
    ensures ForNotification(Flatten(Groups(ds, ks)), n) == if n in ks then ForNotification(ds, n) else []
    decreases |ks|
  {
    if ks != [] {
      var init := ks[..|ks| - 1];
      var k := ks[|ks| - 1];
      FlattenGroupsFor(ds, init, n);
      ForNotificationAppend(Flatten(Groups(ds, init)), ForNotification(ds, k), n);
      ForNotificationTwice(ds, k, n);
      assert n in ks <==> n in init || n == k;
      assert n == k ==> n !in init;
    }
  }

  /** Grouping keeps every notification type's handlers in discovery order. */
  lemma GroupingKeepsPerTypeOrder(ds: seq<Discovered>, n: TypeId)
    ensures ForNotification(Flatten(GroupBy(ds)), n) == ForNotification(ds, n)
  {
    FlattenGroupsFor(ds, NotificationKeys(ds), n);
    if n !in NotificationKeys(ds) {
      ForNotificationOfOtherType(ds, n);
    }
  }

  lemma {:induction false} CountThroughFilter(ds: seq<Discovered>, x: Discovered)
    requires x.service.NotificationHandlerOf?
    ensures multiset(ForNotification(ds, x.service.notification))[x] == multiset(ds)[x]
  {
    if ds != [] {
      CountThroughFilter(ds[1..], x);
      assert ds == [ds[0]] + ds[1..];
    }
  }

  lemma {:induction false} FlattenGroupsFrom(ds: seq<Discovered>, ks: seq<TypeId>)
    ensures forall x :: x in Flatten(Groups(ds, ks)) ==> x in ds
    decreases |ks|
  {
    if ks != [] {
      FlattenGroupsFrom(ds, ks[..|ks| - 1]);
    }
  }

  /** Every discovered notification handler pair is registered exactly as many
      times as it was discovered. */
  lemma GroupingIsPermutation(ds: seq<Discovered>)
    requires forall i :: 0 <= i < |ds| ==> ds[i].service.NotificationHandlerOf?
    ensures multiset(Flatten(GroupBy(ds))) == multiset(ds)
  {
    var flat := Flatten(GroupBy(ds));
    FlattenGroupsFrom(ds, NotificationKeys(ds));
    forall x ensures multiset(flat)[x] == multiset(ds)[x] {
      if x.service.NotificationHandlerOf? {
        GroupingKeepsPerTypeOrder(ds, x.service.notification);
        CountThroughFilter(ds, x);
        CountThroughFilter(flat, x);
      } else {
        assert x !in ds;
        assert x !in flat;
      }
    }
  }

  lemma {:induction false} NotificationRegistryOfGroups(m: map<TypeId, NotificationFactory>, ds: seq<Discovered>, ks: seq<TypeId>)
    ensures forall k :: k in NotificationRegistry(m, Groups(ds, ks)) <==> k in m || k in ks
    ensures forall k :: k in ks ==> NotificationRegistry(m, Groups(ds, ks))[k] == InvokeNotificationFor(k)
    ensures forall k :: k in m && k !in ks ==> NotificationRegistry(m, Groups(ds, ks))[k] == m[k]
    decreases |ks|
  {
    if ks != [] {
      var init := ks[..|ks| - 1];
      var last := ks[|ks| - 1];
      NotificationRegistryOfGroups(m, ds, init);
      var gs := Groups(ds, ks);
      var prev := NotificationRegistry(m, Groups(ds, init));
      assert gs[..|gs| - 1] == Groups(ds, init) && gs[|gs| - 1].key == last;
      var r := NotificationRegistry(m, gs);
      assert r == prev[last := InvokeNotificationFor(last)];
      assert ks == init + [last];
      forall k | k in ks ensures r[k] == InvokeNotificationFor(k) {
        if k != last {
          assert k in init;
        }
      }
      forall k | k in m && k !in ks ensures r[k] == m[k] {
        assert k !in init && k != last;
      }
    }
  }

  /** After `RegisterNotificationHandlers` there is exactly one new entry per
      notification type with at least one discovered handler, and no other. */
  lemma NotificationRegistryKeys(m: map<TypeId, NotificationFactory>, ds: seq<Discovered>)
    ensures NotificationRegistry(m, GroupBy(ds)).Keys == m.Keys + NotificationTypes(ds)
    ensures forall n :: n in NotificationTypes(ds) ==> NotificationRegistry(m, GroupBy(ds))[n] == InvokeNotificationFor(n)
    ensures forall n :: n in m && n !in NotificationTypes(ds) ==> NotificationRegistry(m, GroupBy(ds))[n] == m[n]
  {
    var ks := NotificationKeys(ds);
    NotificationRegistryOfGroups(m, ds, ks);
    var r := NotificationRegistry(m, GroupBy(ds));
    assert r.Keys == m.Keys + NotificationTypes(ds) by {
      forall k ensures k in r.Keys <==> k in m.Keys + NotificationTypes(ds) {
        assert k in ks <==> k in NotificationTypes(ds);
      }
    }
  }

  lemma FlattenStep(gs: seq<Group>, g: nat)
    requires g < |gs|
    ensures Flatten(gs[..g + 1]) == Flatten(gs[..g]) + gs[g].items
  {
    assert gs[..g + 1][..g] == gs[..g];
  }

  method RegisterNotificationHandlers(services: ServiceCollection, assemblies: seq<Assembly>,
                                      notificationsFactory: map<TypeId, NotificationFactory>)
    returns (updated: map<TypeId, NotificationFactory>)
    modifies services
    ensures updated == NotificationRegistry(notificationsFactory, GroupBy(NotificationHandlerScan(assemblies)))
    ensures services.descriptors == old(services.descriptors) + Transients(Flatten(GroupBy(NotificationHandlerScan(assemblies))))
                                    + [NotificationFactoriesSingleton(true, updated)]
  {
    var handlerTypes := GroupBy(NotificationHandlerScan(assemblies));
    updated := notificationsFactory;
    ghost var start := services.descriptors;
    for g := 0 to |handlerTypes|
      invariant updated == NotificationRegistry(notificationsFactory, handlerTypes[..g])
      invariant services.descriptors == start + Transients(Flatten(handlerTypes[..g]))
    {
      var items := handlerTypes[g].items;
      ghost var before := services.descriptors;
      for j := 0 to |items|
        invariant services.descriptors == before + Transients(items[..j])
      {
        TransientsStep(items, j);
        services.AddTransient(items[j].service, items[j].impl);
      }
      GroupStep(handlerTypes, g, start, notificationsFactory, updated);
      updated := updated[handlerTypes[g].key := InvokeNotificationFor(handlerTypes[g].key)];
    }
    assert handlerTypes[..|handlerTypes|] == handlerTypes;
    services.AddSingleton(NotificationFactoriesSingleton(true, updated));
  }

  lemma GroupStep(gs: seq<Group>, g: nat, start: seq<ServiceDescriptor>, m: map<TypeId, NotificationFactory>, r: map<TypeId, NotificationFactory>)
    requires g < |gs|
    requires r == NotificationRegistry(m, gs[..g])
    ensures r[gs[g].key := InvokeNotificationFor(gs[g].key)] == NotificationRegistry(m, gs[..g + 1])
    ensures start + Transients(Flatten(gs[..g])) + Transients(gs[g].items[..|gs[g].items|])
         == start + Transients(Flatten(gs[..g + 1]))
  {
    assert gs[..g + 1][..g] == gs[..g];
    assert gs[g].items[..|gs[g].items|] == gs[g].items;
    TransientsAppend(Flatten(gs[..g]), gs[g].items);
  }

  // ----- Stream handlers and AddMediator -----

  method RegisterStreamHandlers(services: ServiceCollection, assembly: Assembly)
    modifies services
    ensures services.descriptors == old(services.descriptors) + Transients(Discover(assembly.types, ConcreteClass, StreamHandlerDef))
  {
    var handlerTypes := Discover(assembly.types, ConcreteClass, StreamHandlerDef);
    for i := 0 to |handlerTypes|
      invariant services.descriptors == old(services.descriptors) + Transients(handlerTypes[..i])
    {
      var handler := handlerTypes[i];
      DiscoveredAt(assembly.types, ConcreteClass, StreamHandlerDef, i);
      var interfaceType := StreamHandlerOf(handler.service.request, handler.service.response);
      assert interfaceType == handler.service;
      services.AddTransient(interfaceType, handler.impl);
      TransientsStep(handlerTypes, i);
      SeqAssoc(old(services.descriptors), Transients(handlerTypes[..i]), [Transient(handler.service, handler.impl)]);
    }
    assert handlerTypes[..|handlerTypes|] == handlerTypes;
  }

  /** `Assembly[] assemblies`: the entry assembly when no marker type is given,
      otherwise the assembly of each marker type, duplicates kept. */
  function AssembliesToScan(types: seq<TypeId>, entryAssembly: Assembly, assemblyOf: TypeId -> Assembly): seq<Assembly> {
    if |types| == 0 then [entryAssembly]
    else seq(|types|, i requires 0 <= i < |types| => assemblyOf(types[i]))
  }

  function RequestFactoriesOf(assemblies: seq<Assembly>): map<TypeId, RequestFactory> {
    RequestRegistry(map[], RequestHandlerScan(assemblies))
  }

  function NotificationFactoriesOf(assemblies: seq<Assembly>): map<TypeId, NotificationFactory> {
    NotificationRegistry(map[], GroupBy(NotificationHandlerScan(assemblies)))
  }

  /** What the four scanning phases of `AddMediator` add: behaviors, request
      handlers and their dictionary, notification handlers and theirs, then
      stream handlers assembly by assembly. */
  function ScanRegistrations(assemblies: seq<Assembly>): seq<ServiceDescriptor> {
    Transients(BehaviorScan(assemblies))
    + Transients(RequestHandlerScan(assemblies)) + [RequestFactoriesSingleton(true, RequestFactoriesOf(assemblies))]
    + Transients(Flatten(GroupBy(NotificationHandlerScan(assemblies))))
    + [NotificationFactoriesSingleton(true, NotificationFactoriesOf(assemblies))]
    + Transients(StreamHandlerScan(assemblies))
  }

  /** Everything `AddMediator` adds: the scanning phases, then the dictionaries
      again and the three mediator services. */
  function MediatorRegistrations(assemblies: seq<Assembly>): seq<ServiceDescriptor> {
    ScanRegistrations(assemblies)
    + [RequestFactoriesSingleton(false, RequestFactoriesOf(assemblies)),
       NotificationFactoriesSingleton(false, NotificationFactoriesOf(assemblies)),
       MediatorSingleton(SenderService), MediatorSingleton(PublisherService), MediatorSingleton(MediatorInterfaceService)]
  }

  lemma StreamScanStep(assemblies: seq<Assembly>, i: nat)
    requires i < |assemblies|
    ensures Transients(StreamHandlerScan(assemblies[..i + 1]))
         == Transients(StreamHandlerScan(assemblies[..i])) + Transients(Discover(assemblies[i].types, ConcreteClass, StreamHandlerDef))
  {
    assert assemblies[..i + 1][..i] == assemblies[..i];
    DiscoverAppend(AllTypes(assemblies[..i]), assemblies[i].types, ConcreteClass, StreamHandlerDef);
    TransientsAppend(StreamHandlerScan(assemblies[..i]), Discover(assemblies[i].types, ConcreteClass, StreamHandlerDef));
  }

  lemma ScanPhasesAdd(start: seq<ServiceDescriptor>, assemblies: seq<Assembly>,
                      afterBehaviors: seq<ServiceDescriptor>, afterRequests: seq<ServiceDescriptor>,
                      afterNotifications: seq<ServiceDescriptor>, afterStreams: seq<ServiceDescriptor>)
    requires afterBehaviors == start + Transients(BehaviorScan(assemblies))
    requires afterRequests == afterBehaviors + Transients(RequestHandlerScan(assemblies))
                              + [RequestFactoriesSingleton(true, RequestFactoriesOf(assemblies))]
    requires afterNotifications == afterRequests + Transients(Flatten(GroupBy(NotificationHandlerScan(assemblies))))
                                   + [NotificationFactoriesSingleton(true, NotificationFactoriesOf(assemblies))]
    requires afterStreams == afterNotifications + Transients(StreamHandlerScan(assemblies))
    ensures afterStreams == start + ScanRegistrations(assemblies)
  {
    ConcatRegroups(start, Transients(BehaviorScan(assemblies)), Transients(RequestHandlerScan(assemblies)),
                   [RequestFactoriesSingleton(true, RequestFactoriesOf(assemblies))],
                   Transients(Flatten(GroupBy(NotificationHandlerScan(assemblies)))),
                   [NotificationFactoriesSingleton(true, NotificationFactoriesOf(assemblies))],
                   Transients(StreamHandlerScan(assemblies)));
  }

  /** The last scanning phase: `RegisterStreamHandlers` for one assembly after the other. */
  method RegisterEachStreamHandlers(services: ServiceCollection, assemblies: seq<Assembly>)
    modifies services
    ensures services.descriptors == old(services.descriptors) + Transients(StreamHandlerScan(assemblies))
  {
    for i := 0 to |assemblies|
      invariant services.descriptors == old(services.descriptors) + Transients(StreamHandlerScan(assemblies[..i]))
    {
      var added := Transients(Discover(assemblies[i].types, ConcreteClass, StreamHandlerDef));
      RegisterStreamHandlers(services, assemblies[i]);
      StreamScanStep(assemblies, i);
      SeqAssoc(old(services.descriptors), Transients(StreamHandlerScan(assemblies[..i])), added);
    }
    assert assemblies[..|assemblies|] == assemblies;
  }

  method AddMediator(services: ServiceCollection, types: seq<TypeId>, entryAssembly: Assembly, assemblyOf: TypeId -> Assembly)
    modifies services
    ensures services.descriptors
         == old(services.descriptors) + MediatorRegistrations(AssembliesToScan(types, entryAssembly, assemblyOf))
  {
    var factories: map<TypeId, RequestFactory> := map[];
    var notificationsFactory: map<TypeId, NotificationFactory> := map[];
    var assemblies := AssembliesToScan(types, entryAssembly, assemblyOf);
    ghost var start := services.descriptors;
    RegisterPipelineBehaviors(services, assemblies);
    ghost var afterBehaviors := services.descriptors;
    factories := RegisterQueryHandlers(services, assemblies, factories);
    ghost var afterRequests := services.descriptors;
    notificationsFactory := RegisterNotificationHandlers(services, assemblies, notificationsFactory);
    ghost var afterNotifications := services.descriptors;
    RegisterEachStreamHandlers(services, assemblies);
    ScanPhasesAdd(start, assemblies, afterBehaviors, afterRequests, afterNotifications, services.descriptors);
    ghost var afterScans := services.descriptors;
    assert factories == RequestFactoriesOf(assemblies);
    assert notificationsFactory == NotificationFactoriesOf(assemblies);
    services.AddSingleton(RequestFactoriesSingleton(false, factories));
    services.AddSingleton(NotificationFactoriesSingleton(false, notificationsFactory));
    services.AddSingleton(MediatorSingleton(SenderService));
    services.AddSingleton(MediatorSingleton(PublisherService));
    services.AddSingleton(MediatorSingleton(MediatorInterfaceService));
    AppendFive(afterScans, RequestFactoriesSingleton(false, factories), NotificationFactoriesSingleton(false, notificationsFactory),
               MediatorSingleton(SenderService), MediatorSingleton(PublisherService), MediatorSingleton(MediatorInterfaceService));
    SeqAssoc(start, ScanRegistrations(assemblies),
             [RequestFactoriesSingleton(false, factories), NotificationFactoriesSingleton(false, notificationsFactory),
              MediatorSingleton(SenderService), MediatorSingleton(PublisherService), MediatorSingleton(MediatorInterfaceService)]);
  }

  /** `AddMediator()` with no marker type scans the entry assembly only. */
  lemma NoMarkerScansEntryAssembly(entryAssembly: Assembly, assemblyOf: TypeId -> Assembly)
    ensures AssembliesToScan([], entryAssembly, assemblyOf) == [entryAssembly]
    ensures BehaviorScan(AssembliesToScan([], entryAssembly, assemblyOf))
         == Discover(entryAssembly.types, NotAbstractNorInterface, PipelineBehaviorDef)
  {
    assert [entryAssembly][..0] == [];
    assert AllTypes([entryAssembly]) == entryAssembly.types by {
      assert [] + entryAssembly.types == entryAssembly.types;
    }
  }

  /** Two marker types from one assembly: the assembly is scanned twice, so every
      behavior and handler is registered twice, while the request registry is
      the same as after one scan. */
  lemma SameAssemblyTwice(t: TypeId, u: TypeId, entryAssembly: Assembly, assemblyOf: TypeId -> Assembly)
    requires assemblyOf(t) == assemblyOf(u)
    ensures var a := assemblyOf(t);
            var twice := AssembliesToScan([t, u], entryAssembly, assemblyOf);
            && twice == [a, a]
            && BehaviorScan(twice) == BehaviorScan([a]) + BehaviorScan([a])
            && RequestHandlerScan(twice) == RequestHandlerScan([a]) + RequestHandlerScan([a])
            && RequestFactoriesOf(twice) == RequestFactoriesOf([a])
  {
    var a := assemblyOf(t);
    var twice := AssembliesToScan([t, u], entryAssembly, assemblyOf);
    assert twice == [a, a];
    assert [a, a][..1] == [a] && [a][..0] == [];
    assert AllTypes([a]) == a.types;
    assert AllTypes([a, a]) == a.types + a.types;
    DiscoverAppend(a.types, a.types, NotAbstractNorInterface, PipelineBehaviorDef);
    DiscoverAppend(a.types, a.types, NotAbstractNorInterface, RequestHandlerDef);
    RescanKeepsRegistry(map[], RequestHandlerScan([a]));
  }
}
