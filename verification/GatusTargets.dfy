/** The whole generator, the worker's reading of its map, and their agreement. */
module GatusTargets {
  import opened Foundations
  import opened Text
  import opened GatusModel
  import opened GatusConfig

  // ---------------------------------------------------------------------
  // Orders
  // ---------------------------------------------------------------------

  predicate IdentityLess(a: Identity, b: Identity) {
    if a.source != b.source then Less(a.source, b.source) else Less(a.operation, b.operation)
  }

  lemma IdentityOrder()
    ensures StrictWeak(IdentityLess)
    ensures forall a, b :: a != b ==> IdentityLess(a, b) || IdentityLess(b, a)
  {
    LessIsStrictWeak();
    forall a, b, c | !IdentityLess(a, b) && !IdentityLess(b, c) ensures !IdentityLess(a, c) {
      LessTotal(a.source, b.source);
      LessTotal(b.source, c.source);
    }
    forall a, b | a != b ensures IdentityLess(a, b) || IdentityLess(b, a) {
      LessTotal(a.source, b.source);
      LessTotal(a.operation, b.operation);
    }
  }

  lemma EntryOrder(s: set<Entry>)
    requires forall x, y :: x in s && y in s && x.id == y.id ==> x == y
    ensures StrictWeak(ById) && Comparable(ById, s)
  {
    hide Less;
    IdentityOrder();
    forall a, b ensures ById(a, b) == IdentityLess(a.id, b.id) {}
  }

  lemma TargetOrder(s: set<Target>)
    requires forall x, y :: x in s && y in s && x.record.id == y.record.id ==> x == y
    ensures StrictWeak(ByTarget) && Comparable(ByTarget, s)
  {
    hide Less;
    IdentityOrder();
    forall a, b ensures ByTarget(a, b) == IdentityLess(a.record.id, b.record.id) {}
  }

  lemma EndpointOrder(s: set<Endpoint>)
    requires forall x, y :: x in s && y in s && x.key == y.key ==> x == y
    ensures StrictWeak(ByKey) && Comparable(ByKey, s)
  {
    hide Less;
    LessIsStrictWeak();
    forall a: string, b: string ensures a == b || Less(a, b) || Less(b, a) { LessTotal(a, b); }
  }

  // ---------------------------------------------------------------------
  // Collecting and sorting
  // ---------------------------------------------------------------------

  /** The values of a map in the arbitrary order it is walked in. */
  method CollectValues<K, V(==)>(m: map<K, V>) returns (s: seq<V>)
    requires forall k, j :: k in m && j in m && k != j ==> m[k] != m[j]
    ensures NoDuplicates(s) && (forall v :: v in s <==> v in m.Values)
  {
    s := [];
    var remaining := m.Keys;
    while remaining != {}
      invariant remaining <= m.Keys && NoDuplicates(s)
      invariant forall v :: v in s <==> exists k :: k in m.Keys - remaining && m[k] == v
    {
      var k :| k in remaining;
      assert m[k] !in s;
      s := s + [m[k]];
      remaining := remaining - {k};
    }
  }

  method DropRepeats(s: seq<string>) returns (r: seq<string>)
    requires Sorted(Less, s)
    ensures StrictlySorted(Less, r) && forall v :: v in r <==> v in s
  {
    hide Less;
    r := [];
    for i := 0 to |s|
      invariant StrictlySorted(Less, r) && (forall v :: v in r <==> v in s[..i])
      invariant if i > 0 then r != [] && r[|r| - 1] == s[i - 1] else r == []
    {
      assert s[..i + 1] == s[..i] + [s[i]];
      if r == [] || r[|r| - 1] != s[i] {
        if i > 0 { assert !Less(s[i], s[i - 1]); }
        Extends(r, s[i]);
        r := r + [s[i]];
      } else {
        assert r[|r| - 1] in r;
      }
    }
    assert s[..|s|] == s;
  }

  method SortedUnique(values: seq<string>) returns (r: seq<string>)
    ensures r == Ascending(Less, set v | v in values)
  {
    hide Less, SortBy, Ascending;
    LessIsStrictWeak();
    var s := SortBy(Less, values);
    SortSorts(Less, values);
    r := DropRepeats(s);
    forall v ensures v in s <==> v in values { assert v in multiset(s) <==> v in s; assert v in multiset(values) <==> v in values; }
    var all := set v | v in values;
    TextsComparable(all);
    StrictIsAscending(Less, all, r);
  }

  lemma {:induction false} Extends(r: seq<string>, x: string)
    requires StrictlySorted(Less, r) && (r != [] ==> r[|r| - 1] != x && !Less(x, r[|r| - 1]))
    ensures StrictlySorted(Less, r + [x])
  {
    hide Less;
    LessIsStrictWeak();
    forall i: nat | i < |r| ensures Less(r[i], x) {
      var last := r[|r| - 1];
      LessTotal(last, x);
      if i < |r| - 1 { BeforeTransitive(Less, r[i], last, x); }
    }
  }

  lemma EntryIds(legacy: map<Identity, Canary>, plan: map<Identity, Record>, active: set<Identity>, inputs: Inputs)
    requires forall id :: id in plan ==> plan[id].id == id
    ensures var m := EntryMap(legacy, plan, active, inputs); forall id :: id in m ==> m[id].id == id
  {
  }

  method OrderEntries(entries: map<Identity, Entry>) returns (s: seq<Entry>)
    requires forall id :: id in entries ==> entries[id].id == id
    ensures s == OrderedEntries(entries)
  {
    hide ById, SortBy, Ascending;
    s := CollectValues(entries);
    EntryOrder(entries.Values);
    SortIsAscending(ById, entries.Values, s);
    s := SortBy(ById, s);
  }

  method OrderEndpoints(endpoints: map<string, Endpoint>) returns (s: seq<Endpoint>)
    requires forall k :: k in endpoints ==> endpoints[k].key == k
    ensures s == OrderedEndpoints(endpoints)
  {
    hide ByKey, SortBy, Ascending;
    s := CollectValues(endpoints);
    EndpointOrder(endpoints.Values);
    SortIsAscending(ByKey, endpoints.Values, s);
    s := SortBy(ByKey, s);
  }

  // ---------------------------------------------------------------------
  // Counting endpoints
  // ---------------------------------------------------------------------

  ghost function Image<A, B>(ids: set<A>, f: A -> B): set<B> { set a | a in ids :: f(a) }

  lemma {:induction false} ImageSize<A, B>(ids: set<A>, f: A -> B)
    requires forall a, b :: a in ids && b in ids && f(a) == f(b) ==> a == b
    ensures |Image(ids, f)| == |ids|
  {
    if ids != {} {
      var x :| x in ids;
      ImageSize(ids - {x}, f);
      assert Image(ids, f) == Image(ids - {x}, f) + {f(x)};
      assert f(x) !in Image(ids - {x}, f);
    }
  }

  ghost predicate Injective(ids: set<Identity>, legacy: map<Identity, Canary>, inputs: Inputs) {
    forall x, y :: x in ids && y in ids && KeyOf(x, legacy, inputs) == KeyOf(y, legacy, inputs) ==> x == y
  }

  lemma {:induction false} KeysInjective(b: Build, done: seq<Placed>, legacy: map<Identity, Canary>, active: set<Identity>, inputs: Inputs)
    requires Built(b, done, legacy, active, inputs)
    ensures Injective(legacy.Keys + PlanMap(done).Keys, legacy, inputs)
  {
    hide Built, PlanMap, KeyOf;
    RegisteredFor(b, done, legacy, active, inputs);
  }

  lemma EndpointSize(endpoints: map<string, Endpoint>, legacy: map<Identity, Canary>, plan: map<Identity, Record>, active: set<Identity>, inputs: Inputs)
    requires EndpointsAre(endpoints, legacy, plan, active, inputs) && Injective(legacy.Keys + plan.Keys, legacy, inputs)
    ensures |endpoints| == |EndpointIds(legacy, plan, active)|
  {
    hide KeyOf, EndpointOf, EndpointIds;
    var ids := EndpointIds(legacy, plan, active);
    EndpointIdsKnown(legacy, plan, active);
    var f := (id: Identity) => KeyOf(id, legacy, inputs);
    ImageSize(ids, f);
    assert endpoints.Keys == Image(ids, f);
  }

  lemma EndpointIdsKnown(legacy: map<Identity, Canary>, plan: map<Identity, Record>, active: set<Identity>)
    ensures EndpointIds(legacy, plan, active) <= legacy.Keys + plan.Keys
  {
  }

  lemma EndpointKeys(endpoints: map<string, Endpoint>, legacy: map<Identity, Canary>, plan: map<Identity, Record>, active: set<Identity>, inputs: Inputs)
    requires EndpointsAre(endpoints, legacy, plan, active, inputs)
    ensures forall k :: k in endpoints ==> endpoints[k].key == k
  {
    hide KeyOf;
    forall k | k in endpoints ensures endpoints[k].key == k {
      var id :| id in EndpointIds(legacy, plan, active) && KeyOf(id, legacy, inputs) == k;
      assert endpoints[k] == EndpointOf(id, legacy, plan, active, inputs);
    }
  }

  /** One endpoint for each configured identity. */
  lemma {:induction false} EndpointCount(b: Build, done: seq<Placed>, legacy: map<Identity, Canary>, active: set<Identity>, inputs: Inputs)
    requires Built(b, done, legacy, active, inputs)
    ensures |b.endpoints| == |EndpointIds(legacy, PlanMap(done), active)|
    ensures forall k :: k in b.endpoints ==> b.endpoints[k].key == k
  {
    hide PlanMap, EntryMap, KeysAre, SuppressedAre, AdmittedCount, EndpointsAre, EndpointIds, Injective;
    KeysInjective(b, done, legacy, active, inputs);
    EndpointSize(b.endpoints, legacy, PlanMap(done), active, inputs);
    EndpointKeys(b.endpoints, legacy, PlanMap(done), active, inputs);
  }

  lemma Union<T>(a: set<T>, b: set<T>)
    ensures |a + b| == |a| + |b| - |a * b|
  {
    assert a + b == a + (b - a);
    assert b == (b - a) + (a * b);
  }

  // ---------------------------------------------------------------------
  // Rendering
  // ---------------------------------------------------------------------

  lemma GatusKeyParts(key: string)
    requires GatusKey(key)
    ensures GroupOf(key) != "" && NameOf(key) != ""
  {
  }

  lemma EndpointRenders(key: string, heartbeat: int, observationOnly: bool)
    requires GatusKey(key) && if observationOnly then heartbeat == 0 else SECOND <= heartbeat <= 2 * MAX_PERIOD
    ensures RendersEndpoint(EndpointFor(key, heartbeat, observationOnly))
  {
    hide GatusKey, GroupOf, NameOf;
    GatusKeyParts(key);
  }

  lemma {:induction false} PlanEndpointRenders(id: Identity, records: seq<Placed>, legacy: map<Identity, Canary>, active: set<Identity>, inputs: Inputs)
    requires RecordsAccepted(records, legacy, active, inputs) && id in PlanMap(records) && id in active
    ensures RendersEndpoint(EndpointOf(id, legacy, PlanMap(records), active, inputs))
  {
    hide GatusKey, Executable, KeyOf, PlanMap, RendersEndpoint, EndpointFor, Distinct;
    PlanMembers(records);
    var r := PlanMap(records)[id];
    var p :| p in records && p.record == r;
    var i: nat :| i < |records| && records[i] == p;
    assert RecordAccepted(r, legacy, active, inputs);
    EndpointRenders(KeyOf(id, legacy, inputs), Heartbeat(r), r.kind == ObservationOnly);
  }

  lemma CanaryEndpointRenders(id: Identity, legacy: map<Identity, Canary>, plan: map<Identity, Record>, active: set<Identity>, inputs: Inputs)
    requires CanaryHeartbeats(inputs) && id in legacy && !(id in plan && id in active)
    requires GatusKey(legacy[id].gatusKey) && legacy[id] in inputs.canaries
    ensures RendersEndpoint(EndpointOf(id, legacy, plan, active, inputs))
  {
    hide GatusKey, RendersEndpoint, EndpointFor;
    EndpointRenders(legacy[id].gatusKey, legacy[id].heartbeat, false);
  }

  /** Every endpoint the generator makes is one the renderer takes. */
  lemma EndpointsRender(b: Build, records: seq<Placed>, legacy: map<Identity, Canary>, active: set<Identity>, inputs: Inputs)
    requires Built(b, records, legacy, active, inputs) && RecordsAccepted(records, legacy, active, inputs) && CanaryHeartbeats(inputs)
    requires forall id :: id in legacy ==> GatusKey(legacy[id].gatusKey) && legacy[id] in inputs.canaries
    ensures forall k :: k in b.endpoints ==> RendersEndpoint(b.endpoints[k])
  {
    hide PlanMap, EntryMap, KeysAre, SuppressedAre, AdmittedCount, GatusKey, RendersEndpoint, EndpointOf, RecordsAccepted, KeyOf, CanaryHeartbeats;
    var plan := PlanMap(records);
    forall k | k in b.endpoints ensures RendersEndpoint(b.endpoints[k]) {
      var id :| id in EndpointIds(legacy, plan, active) && KeyOf(id, legacy, inputs) == k;
      if id in plan && id in active {
        PlanEndpointRenders(id, records, legacy, active, inputs);
      } else {
        CanaryEndpointRenders(id, legacy, plan, active, inputs);
      }
    }
  }

  method RenderEndpoints(endpoints: seq<Endpoint>) returns (ok: bool)
    ensures ok <==> endpoints != [] && forall i: nat :: i < |endpoints| ==> RendersEndpoint(endpoints[i])
  {
    hide RendersEndpoint;
    if |endpoints| == 0 { return false; }
    for i := 0 to |endpoints|
      invariant forall k: nat :: k < i ==> RendersEndpoint(endpoints[k])
    {
      if !RendersEndpoint(endpoints[i]) { return false; }
    }
    ok := true;
  }

  // ---------------------------------------------------------------------
  // The generator
  // ---------------------------------------------------------------------

  method SelectActive(activation: seq<Identity>) returns (r: Option<set<Identity>>)
    ensures r.Some? <==> NoDuplicates(activation)
    ensures r.Some? ==> r.value == set id | id in activation
  {
    var active: set<Identity> := {};
    for i := 0 to |activation|
      invariant active == (set id | id in activation[..i]) && NoDuplicates(activation[..i])
    {
      assert activation[..i + 1] == activation[..i] + [activation[i]];
      if activation[i] in active {
        var j: nat :| j < i && activation[..i][j] == activation[i];
        assert activation[j] == activation[i];
        return None;
      }
      active := active + {activation[i]};
    }
    assert activation[..|activation|] == activation;
    r := Some(active);
  }

  lemma {:induction false} LegacyFacts(inputs: Inputs)
    requires CanariesAccepted(inputs.canaries, inputs)
    ensures var legacy := LegacyMap(inputs.canaries, inputs);
            && (forall id :: id in legacy ==> id.source == DATA_GO_KR && id.operation != "" && GatusKey(legacy[id].gatusKey) && legacy[id] in inputs.canaries)
            && |legacy| == |inputs.canaries|
            && (forall x, y :: x in legacy && y in legacy && legacy[x].operation == legacy[y].operation ==> x == y)
  {
    hide GatusKey;
    LegacyMembers(inputs.canaries, inputs);
    var legacy := LegacyMap(inputs.canaries, inputs);
    forall id | id in legacy ensures id.source == DATA_GO_KR && id.operation != "" && GatusKey(legacy[id].gatusKey) {
      var i: nat :| i < |inputs.canaries| && inputs.canaries[i] == legacy[id];
    }
  }

  method Publish(b: Build, legacy: map<Identity, Canary>, active: set<Identity>, inputs: Inputs) returns (r: Option<Artifacts>)
    requires Built(b, Records(inputs), legacy, active, inputs) && legacy == LegacyMap(inputs.canaries, inputs) && active == ActiveSet(inputs)
    requires CanariesAccepted(inputs.canaries, inputs) && RecordsAccepted(Records(inputs), legacy, active, inputs) && SelectionAccepted(inputs)
    requires CanaryHeartbeats(inputs) && inputs.pins.base && inputs.pins.activation && SourceBound(inputs)
    ensures r.Some? <==> Generates(inputs)
    ensures r.Some? ==> Generated(r.value, inputs)
  {
    hide *;
    PublishFacts(b, legacy, active, inputs);
    LegacyFacts(inputs);
    EndpointCount(b, Records(inputs), legacy, active, inputs);
    EndpointsRender(b, Records(inputs), legacy, active, inputs);
    GeneratesIff(b, legacy, active, inputs);
    if |b.entries| > MAX_TARGETS || |b.endpoints| > MAX_TARGETS { return None; }
    var operations := OrderEntries(b.entries);
    var endpoints := OrderEndpoints(b.endpoints);
    var rendered := RenderEndpoints(endpoints);
    RenderedIff(b.endpoints, endpoints);
    if !rendered || !inputs.pins.configFits(endpoints) { return None; }
    var suppressed := SortedUnique(b.suppressed);
    var mapping := Mapping(inputs.plan.Some?, b.known, b.admitted, b.activated, |inputs.canaries|, |b.suppressed|, |b.endpoints|, suppressed, operations);
    MappingIs(b, legacy, active, inputs, mapping);
    if !inputs.pins.mappingFits(mapping) { return None; }
    r := Some(Artifacts(mapping, endpoints));
    GeneratedIs(b, legacy, active, inputs, r.value);
  }

  lemma PublishFacts(b: Build, legacy: map<Identity, Canary>, active: set<Identity>, inputs: Inputs)
    requires Built(b, Records(inputs), legacy, active, inputs)
    ensures forall id :: id in b.entries ==> b.entries[id].id == id
  {
    hide EntryMap, KeysAre, EndpointsAre, SuppressedAre, AdmittedCount, PlanMap, Distinct, Records;
    PlanMembers(Records(inputs));
    EntryIds(legacy, PlanMap(Records(inputs)), active, inputs);
  }

  lemma EndpointsUnique(e: map<string, Endpoint>, f: map<string, Endpoint>, legacy: map<Identity, Canary>, plan: map<Identity, Record>, active: set<Identity>, inputs: Inputs)
    requires EndpointsAre(e, legacy, plan, active, inputs) && EndpointsAre(f, legacy, plan, active, inputs)
    ensures e == f
  {
    hide KeyOf, EndpointOf, EndpointIds;
    assert e.Keys == f.Keys;
    forall k | k in e ensures e[k] == f[k] {
      var id :| id in EndpointIds(legacy, plan, active) && KeyOf(id, legacy, inputs) == k;
    }
  }

  lemma {:induction false} GeneratesIff(b: Build, legacy: map<Identity, Canary>, active: set<Identity>, inputs: Inputs)
    requires Built(b, Records(inputs), legacy, active, inputs) && legacy == LegacyMap(inputs.canaries, inputs) && active == ActiveSet(inputs)
    requires CanariesAccepted(inputs.canaries, inputs) && RecordsAccepted(Records(inputs), legacy, active, inputs) && SelectionAccepted(inputs)
    requires |b.endpoints| == |EndpointIds(legacy, PlanMap(Records(inputs)), active)|
    requires inputs.pins.base && inputs.pins.activation && SourceBound(inputs)
    ensures Generates(inputs) <==>
              && |b.entries| <= MAX_TARGETS && 0 < |b.endpoints| <= MAX_TARGETS
              && inputs.pins.configFits(OrderedEndpoints(b.endpoints)) && inputs.pins.mappingFits(MappingOf(inputs))
  {
    hide EntryMap, KeysAre, EndpointsAre, SuppressedAre, AdmittedCount, PlanMap, Records, LegacyMap, CanariesAccepted, RecordsAccepted,
         SelectionAccepted, SourceBound, MappingOf, OrderedEndpoints, EndpointIds;
    var plan := PlanMap(Records(inputs));
    forall e | EndpointsAre(e, legacy, plan, active, inputs) ensures e == b.endpoints {
      EndpointsUnique(e, b.endpoints, legacy, plan, active, inputs);
    }
  }

  lemma RenderedIff(endpoints: map<string, Endpoint>, s: seq<Endpoint>)
    requires s == OrderedEndpoints(endpoints) && forall k :: k in endpoints ==> RendersEndpoint(endpoints[k])
    requires forall k :: k in endpoints ==> endpoints[k].key == k
    ensures (s != [] && forall i: nat :: i < |s| ==> RendersEndpoint(s[i])) <==> |endpoints| > 0
  {
    hide RendersEndpoint, Ascending, ByKey;
    EndpointOrder(endpoints.Values);
    AscendingLists(ByKey, endpoints.Values);
    forall i: nat | i < |s| ensures RendersEndpoint(s[i]) { assert s[i] in s; }
    if |endpoints| > 0 {
      var k :| k in endpoints;
      assert endpoints[k] in endpoints.Values;
      assert endpoints[k] in s;
    } else {
      assert endpoints.Values == {};
    }
  }

  lemma {:induction false} MappingIs(b: Build, legacy: map<Identity, Canary>, active: set<Identity>, inputs: Inputs, m: Mapping)
    requires Built(b, Records(inputs), legacy, active, inputs) && legacy == LegacyMap(inputs.canaries, inputs) && active == ActiveSet(inputs)
    requires SelectionAccepted(inputs) && |b.endpoints| == |EndpointIds(legacy, PlanMap(Records(inputs)), active)|
    requires m == Mapping(inputs.plan.Some?, b.known, b.admitted, b.activated, |inputs.canaries|, |b.suppressed|, |b.endpoints|,
                          Ascending(Less, set v | v in b.suppressed), OrderedEntries(b.entries))
    ensures m == MappingOf(inputs)
  {
    hide EntryMap, KeysAre, EndpointsAre, AdmittedCount, PlanMap, LegacyMap, Ascending, Records, OrderedEntries, SelectionAccepted, SuppressedAre, EndpointIds;
    var plan := PlanMap(Records(inputs));
    ActiveCovered(inputs);
    assert active * plan.Keys == active;
    SuppressedText(b.suppressed, legacy, plan, active);
  }

  lemma {:induction false} GeneratedIs(b: Build, legacy: map<Identity, Canary>, active: set<Identity>, inputs: Inputs, a: Artifacts)
    requires Built(b, Records(inputs), legacy, active, inputs) && legacy == LegacyMap(inputs.canaries, inputs) && active == ActiveSet(inputs)
    requires a.endpoints == OrderedEndpoints(b.endpoints) && a.mapping == MappingOf(inputs)
    ensures Generated(a, inputs)
  {
    hide EntryMap, KeysAre, EndpointsAre, AdmittedCount, PlanMap, LegacyMap, Records, OrderedEndpoints, SuppressedAre, MappingOf;
    assert EndpointsAre(b.endpoints, legacy, PlanMap(Records(inputs)), active, inputs) && a.endpoints == OrderedEndpoints(b.endpoints);
  }

  lemma SuppressedText(suppressed: seq<string>, legacy: map<Identity, Canary>, plan: map<Identity, Record>, active: set<Identity>)
    requires SuppressedAre(suppressed, legacy, plan, active) && active * plan.Keys == active
    ensures |suppressed| == |legacy.Keys * active|
    ensures (set v | v in suppressed) == set id | id in legacy.Keys * active :: legacy[id].operation
  {
    assert SuppressedIds(legacy, plan, active) == legacy.Keys * active;
  }

  lemma ActiveCovered(inputs: Inputs)
    requires SelectionAccepted(inputs)
    ensures ActiveSet(inputs) <= PlanMap(Records(inputs)).Keys
  {
    hide PlanMap, Records, NoDuplicates;
  }

  /** Generates the receivers and the map; succeeds exactly when the inputs allow it. */
  method GenerateOperationGatusArtifacts(inputs: Inputs) returns (r: Option<Artifacts>)
    requires VerifiedPlan(Records(inputs)) && CanaryHeartbeats(inputs)
    ensures r.Some? <==> Generates(inputs)
    ensures r.Some? ==> Generated(r.value, inputs)
  {
    hide *;
    NotGenerated(inputs);
    if !inputs.pins.base || !inputs.pins.activation { return None; }
    var started := AddCanaries(inputs, ActiveSet(inputs));
    if started.None? { return None; }
    var b, legacyByIdentity := started.value.0, started.value.1;
    LegacyFacts(inputs);
    var active: set<Identity> := {};
    match inputs.plan {
      case None =>
        NoPlan(inputs, legacyByIdentity);
      case Some(plan) =>
        PlanGiven(inputs, plan);
        if !inputs.pins.sourceArtifact || DATA_GO_KR !in plan.scopes || plan.scopes[DATA_GO_KR] != inputs.identitySet || plan.known > MAX_TARGETS {
          return None;
        }
        var selected := SelectActive(inputs.activation);
        if selected.None? { return None; }
        active := selected.value;
        var added := AddPlan(b, plan, legacyByIdentity, active, inputs);
        if added.None? { return None; }
        b := added.value;
        SelectionCounts(b, legacyByIdentity, active, inputs, plan);
        if |b.seenActive| != |active| || b.known != plan.known || b.activated != |active| { return None; }
        // The program looks for every legacy identity among the entries here, where its first loop
        // has put them; that the plan has them too is a matter of the identity set compared above.
        assert legacyByIdentity.Keys <= b.entries.Keys by { LegacyStillThere(b, legacyByIdentity, active, inputs); }
    }
    r := Publish(b, legacyByIdentity, active, inputs);
  }

  lemma {:induction false} NotGenerated(inputs: Inputs)
    ensures Generates(inputs) ==> CanariesAccepted(inputs.canaries, inputs) && SelectionAccepted(inputs)
    ensures Generates(inputs) ==> inputs.pins.base && inputs.pins.activation && SourceBound(inputs)
    ensures Generates(inputs) ==> RecordsAccepted(Records(inputs), LegacyMap(inputs.canaries, inputs), ActiveSet(inputs), inputs)
  {
  }

  lemma NoPlan(inputs: Inputs, legacy: map<Identity, Canary>)
    requires inputs.plan.None?
    ensures ActiveSet(inputs) == {} && Records(inputs) == [] && SelectionAccepted(inputs) && SourceBound(inputs)
    ensures RecordsAccepted(Records(inputs), legacy, {}, inputs)
  {
  }

  lemma PlanGiven(inputs: Inputs, plan: Plan)
    requires inputs.plan == Some(plan)
    ensures Records(inputs) == Flat(plan.shards)
    ensures SourceBound(inputs) <==>
              && inputs.pins.sourceArtifact && plan.known <= MAX_TARGETS
              && DATA_GO_KR in plan.scopes && plan.scopes[DATA_GO_KR] == inputs.identitySet
    ensures ActiveSet(inputs) == set id | id in inputs.activation
    ensures SelectionAccepted(inputs) <==>
              NoDuplicates(inputs.activation) && ActiveSet(inputs) <= PlanMap(Records(inputs)).Keys && |Records(inputs)| == plan.known
  {
  }

  lemma SelectionCounts(b: Build, legacy: map<Identity, Canary>, active: set<Identity>, inputs: Inputs, plan: Plan)
    requires Built(b, Flat(plan.shards), legacy, active, inputs)
    ensures |b.seenActive| == |active| && b.known == plan.known && b.activated == |active| <==>
              active <= PlanMap(Flat(plan.shards)).Keys && |Flat(plan.shards)| == plan.known
  {
    hide EntryMap, KeysAre, EndpointsAre, SuppressedAre, AdmittedCount, PlanMap, Flat;
    var keys := PlanMap(Flat(plan.shards)).Keys;
    assert active == active * keys + (active - keys);
    assert active <= keys <==> active - keys == {};
  }

  lemma LegacyStillThere(b: Build, legacy: map<Identity, Canary>, active: set<Identity>, inputs: Inputs)
    requires exists done :: Built(b, done, legacy, active, inputs)
    ensures legacy.Keys <= b.entries.Keys
  {
    hide KeysAre, EndpointsAre, SuppressedAre, AdmittedCount, PlanMap;
  }

  // ---------------------------------------------------------------------
  // The worker's side
  // ---------------------------------------------------------------------

  lemma {:induction false} IndexSnoc(operations: seq<Entry>, e: Entry)
    ensures Index(operations + [e]) == Index(operations)[e.id := e]
  {
    assert (operations + [e])[..|operations|] == operations;
  }

  lemma {:induction false} IndexMembers(operations: seq<Entry>)
    ensures forall id :: id in Index(operations) ==> Index(operations)[id] in operations && Index(operations)[id].id == id
    ensures forall e :: e in operations ==> e.id in Index(operations)
  {
    if operations != [] {
      var n := |operations| - 1;
      IndexMembers(operations[..n]);
      assert operations == operations[..n] + [operations[n]];
    }
  }

  lemma {:induction false} ItemsSnoc(s: seq<Entry>, item: Entry)
    requires ItemsAccepted(s)
    ensures ItemsAccepted(s + [item]) <==>
              SourceId(item.id.source) && item.id.operation != "" && item.key != "" && item.id !in Index(s)
  {
    hide SourceId, Index;
    IndexMembers(s);
    var all := s + [item];
    assert all[|s|] == item && forall j: nat :: j < |s| ==> all[j] == s[j];
    if item.id in Index(s) {
      var j: nat :| j < |s| && s[j] == Index(s)[item.id];
      assert all[j].id == all[|s|].id;
    } else {
      forall j: nat | j < |s| ensures s[j].id != item.id { assert s[j] in s; }
    }
  }

  lemma ItemsPrefix(all: seq<Entry>, n: nat)
    requires n <= |all| && ItemsAccepted(all)
    ensures ItemsAccepted(all[..n])
  {
    hide SourceId;
    assert forall i: nat :: i < n ==> all[..n][i] == all[i];
  }

  method IndexMapping(operations: seq<Entry>) returns (r: Option<map<Identity, Entry>>)
    ensures r.Some? <==> ItemsAccepted(operations)
    ensures r.Some? ==> r.value == Index(operations)
  {
    hide SourceId, ItemsAccepted, Index;
    var byIdentity: map<Identity, Entry> := map[];
    NothingIndexed();
    assert operations[..0] == [];
    for i := 0 to |operations|
      invariant ItemsAccepted(operations[..i]) && byIdentity == Index(operations[..i])
    {
      var item := operations[i];
      assert operations[..i + 1] == operations[..i] + [item];
      IndexSnoc(operations[..i], item);
      ItemsSnoc(operations[..i], item);
      if !SourceId(item.id.source) || item.id.operation == "" || item.key == "" || item.id in byIdentity {
        if ItemsAccepted(operations) { ItemsPrefix(operations, i + 1); }
        return None;
      }
      byIdentity := byIdentity[item.id := item];
    }
    assert operations[..|operations|] == operations;
    r := Some(byIdentity);
  }

  lemma NothingIndexed()
    ensures ItemsAccepted([]) && Index([]) == map[]
  {
  }

  ghost function SeenIds(records: seq<Placed>, byIdentity: map<Identity, Entry>): set<Identity> {
    set p | p in records && p.record.id in byIdentity && byIdentity[p.record.id].planActive :: p.record.id
  }

  /** The targets and identities taken from the records walked so far. */
  ghost predicate Taken(targets: seq<Target>, seen: set<Identity>, done: seq<Placed>, byIdentity: map<Identity, Entry>) {
    RecordsMatch(done, byIdentity) && seen == SeenIds(done, byIdentity) && Lists(targets, TargetSet(done, byIdentity))
  }

  ghost predicate MatchesNext(done: seq<Placed>, r: Record, byIdentity: map<Identity, Entry>) {
    && RecordMatches(r, byIdentity)
    && (byIdentity[r.id].planActive ==> forall j: nat :: j < |done| ==> done[j].record.id != r.id)
  }

  lemma MatchesSnoc(done: seq<Placed>, p: Placed, byIdentity: map<Identity, Entry>)
    requires RecordsMatch(done, byIdentity)
    ensures RecordsMatch(done + [p], byIdentity) <==> MatchesNext(done, p.record, byIdentity)
  {
    hide RecordMatches;
    var all := done + [p];
    assert forall i: nat :: i < |done| ==> all[i] == done[i];
    assert all[|done|] == p;
    if RecordsMatch(all, byIdentity) { assert RecordMatches(all[|done|].record, byIdentity); MatchedId(p.record, byIdentity); }
    if MatchesNext(done, p.record, byIdentity) { MatchedId(p.record, byIdentity); }
  }

  lemma MatchedId(r: Record, byIdentity: map<Identity, Entry>)
    requires RecordMatches(r, byIdentity)
    ensures r.id in byIdentity
  {
  }

  lemma SeenIff(done: seq<Placed>, r: Record, byIdentity: map<Identity, Entry>)
    requires r.id in byIdentity && byIdentity[r.id].planActive
    ensures r.id in SeenIds(done, byIdentity) <==> exists j: nat :: j < |done| && done[j].record.id == r.id
  {
    if j: nat :| j < |done| && done[j].record.id == r.id { assert done[j] in done; }
  }

  lemma TakeMore(targets: seq<Target>, seen: set<Identity>, done: seq<Placed>, p: Placed, byIdentity: map<Identity, Entry>)
    requires Taken(targets, seen, done, byIdentity) && MatchesNext(done, p.record, byIdentity)
    requires p.record.id in byIdentity
    requires byIdentity[p.record.id].planActive ==> p.record.id !in seen
    ensures var active := byIdentity[p.record.id].planActive;
            Taken(if active then targets + [Target(p.record, p.sha, byIdentity[p.record.id].key)] else targets,
                  if active then seen + {p.record.id} else seen, done + [p], byIdentity)
  {
    hide RecordMatches, RecordsMatch;
    MatchesSnoc(done, p, byIdentity);
    var e := byIdentity[p.record.id];
    assert forall q :: q in done + [p] <==> q in done || q == p;
    if e.planActive {
      var t := Target(p.record, p.sha, e.key);
      assert SeenIds(done + [p], byIdentity) == SeenIds(done, byIdentity) + {p.record.id};
      assert TargetSet(done + [p], byIdentity) == TargetSet(done, byIdentity) + {t};
      assert t !in TargetSet(done, byIdentity);
      ListsConcat(targets, [t], TargetSet(done, byIdentity), {t});
    } else {
      assert SeenIds(done + [p], byIdentity) == SeenIds(done, byIdentity);
      assert TargetSet(done + [p], byIdentity) == TargetSet(done, byIdentity);
    }
  }

  lemma MatchFails(all: seq<Placed>, done: seq<Placed>, p: Placed, byIdentity: map<Identity, Entry>)
    requires |done| < |all| && done == all[..|done|] && all[|done|] == p && RecordsMatch(done, byIdentity)
    requires !MatchesNext(done, p.record, byIdentity)
    ensures !RecordsMatch(all, byIdentity)
  {
    hide RecordMatches, RecordsMatch, MatchesNext;
    MatchesSnoc(done, p, byIdentity);
    assert all[..|done| + 1] == done + [p];
    if RecordsMatch(all, byIdentity) { MatchPrefix(all, |done| + 1, byIdentity); }
  }

  lemma MatchPrefix(all: seq<Placed>, n: nat, byIdentity: map<Identity, Entry>)
    requires n <= |all| && RecordsMatch(all, byIdentity)
    ensures RecordsMatch(all[..n], byIdentity)
  {
    hide RecordMatches;
    assert forall i: nat :: i < n ==> all[..n][i] == all[i] && RecordMatches(all[i].record, byIdentity);
  }

  lemma NothingTaken(byIdentity: map<Identity, Entry>)
    ensures Taken([], {}, [], byIdentity)
  {
  }

  method TakeRecord(p: Placed, byIdentity: map<Identity, Entry>, targets: seq<Target>, seen: set<Identity>, ghost done: seq<Placed>)
    returns (ok: bool, targets': seq<Target>, seen': set<Identity>)
    requires Taken(targets, seen, done, byIdentity)
    ensures ok <==> MatchesNext(done, p.record, byIdentity)
    ensures ok ==> Taken(targets', seen', done + [p], byIdentity)
  {
    hide Taken, Executable, WholeSeconds;
    var record := p.record;
    ok, targets', seen' := false, targets, seen;
    if record.id !in byIdentity { return; }
    var item := byIdentity[record.id];
    SeenIs(targets, seen, done, byIdentity);
    if item.admission != record.admission || item.kind != record.kind || item.periodSeconds != WholeSeconds(record.period) { return; }
    if !item.planActive {
      if item.active && !item.legacyActive { return; }
    } else {
      SeenIff(done, record, byIdentity);
      if !item.active || item.legacyActive || !Executable(record) { return; }
      if record.id in seen { return; }
      seen' := seen + {record.id};
      targets' := targets + [Target(record, p.sha, item.key)];
    }
    TakeMore(targets, seen, done, p, byIdentity);
    ok := true;
  }

  lemma SeenIs(targets: seq<Target>, seen: set<Identity>, done: seq<Placed>, byIdentity: map<Identity, Entry>)
    requires Taken(targets, seen, done, byIdentity)
    ensures seen == SeenIds(done, byIdentity)
  {
  }

  method TakeTargets(plan: Plan, byIdentity: map<Identity, Entry>) returns (ok: bool, targets: seq<Target>, seen: set<Identity>)
    ensures ok <==> RecordsMatch(Flat(plan.shards), byIdentity)
    ensures ok ==> Taken(targets, seen, Flat(plan.shards), byIdentity)
  {
    hide *;
    targets, seen := [], {};
    ghost var all := Flat(plan.shards);
    ghost var done: seq<Placed> := [];
    NothingTaken(byIdentity);
    assert Flat(plan.shards[..0]) == [] by { FlatNone(plan.shards); }
    for i := 0 to |plan.shards|
      invariant done == Flat(plan.shards[..i]) && Taken(targets, seen, done, byIdentity)
    {
      var shard := plan.shards[i];
      NoPlace(shard, done);
      for j := 0 to |shard.records|
        invariant done == Flat(plan.shards[..i]) + Place(shard, j) && Taken(targets, seen, done, byIdentity)
      {
        var p := Placed(shard.records[j], shard.sha);
        WalkedPrefix(plan.shards, i, j);
        PlaceSnoc(shard, j, Flat(plan.shards[..i]));
        TakenMatch(targets, seen, done, byIdentity);
        ok, targets, seen := TakeRecord(p, byIdentity, targets, seen, done);
        if !ok {
          MatchFails(all, done, p, byIdentity);
          return;
        }
        done := done + [p];
      }
      assert plan.shards[..i + 1] == plan.shards[..i] + [shard];
      FlatSnoc(plan.shards[..i], shard);
    }
    assert plan.shards[..|plan.shards|] == plan.shards;
    TakenMatch(targets, seen, done, byIdentity);
    ok := true;
  }

  lemma FlatNone(shards: seq<Shard>)
    ensures Flat(shards[..0]) == []
  {
  }

  lemma TakenMatch(targets: seq<Target>, seen: set<Identity>, done: seq<Placed>, byIdentity: map<Identity, Entry>)
    requires Taken(targets, seen, done, byIdentity)
    ensures RecordsMatch(done, byIdentity)
  {
  }

  method CheckSelection(byIdentity: map<Identity, Entry>, seen: set<Identity>) returns (ok: bool)
    ensures ok <==> forall id :: id in byIdentity ==> (byIdentity[id].planActive <==> id in seen)
  {
    var remaining := byIdentity.Keys;
    while remaining != {}
      invariant remaining <= byIdentity.Keys
      invariant forall id :: id in byIdentity.Keys - remaining ==> (byIdentity[id].planActive <==> id in seen)
    {
      var id :| id in remaining;
      if byIdentity[id].planActive != (id in seen) { return false; }
      remaining := remaining - {id};
    }
    ok := true;
  }

  lemma SelectionIff(records: seq<Placed>, byIdentity: map<Identity, Entry>)
    requires RecordsMatch(records, byIdentity)
    ensures (forall id :: id in byIdentity ==> (byIdentity[id].planActive <==> id in SeenIds(records, byIdentity))) <==>
            (forall id :: id in byIdentity && byIdentity[id].planActive ==> exists i: nat :: i < |records| && records[i].record.id == id)
  {
    hide RecordMatches;
    forall id | id in byIdentity && byIdentity[id].planActive
      ensures id in SeenIds(records, byIdentity) <==> exists i: nat :: i < |records| && records[i].record.id == id
    {
      if i: nat :| i < |records| && records[i].record.id == id { assert records[i] in records; }
    }
  }

  lemma TargetsApart(records: seq<Placed>, byIdentity: map<Identity, Entry>)
    requires RecordsMatch(records, byIdentity)
    ensures forall x, y :: x in TargetSet(records, byIdentity) && y in TargetSet(records, byIdentity) && x.record.id == y.record.id ==> x == y
  {
    hide RecordMatches;
    forall x, y | x in TargetSet(records, byIdentity) && y in TargetSet(records, byIdentity) && x.record.id == y.record.id ensures x == y {
      var p :| p in records && p.record.id in byIdentity && byIdentity[p.record.id].planActive && x == Target(p.record, p.sha, byIdentity[p.record.id].key);
      var q :| q in records && q.record.id in byIdentity && byIdentity[q.record.id].planActive && y == Target(q.record, q.sha, byIdentity[q.record.id].key);
      var i: nat :| i < |records| && records[i] == p;
      var j: nat :| j < |records| && records[j] == q;
      assert i == j;
    }
  }

  /** The worker's targets: exactly the plan-active records of a map that matches the plan. */
  method ExactActivePlanTargets(plan: Plan, mapping: Mapping) returns (r: Option<seq<Target>>)
    ensures r.Some? <==> Exact(plan, mapping)
    ensures r.Some? ==> r.value == Ascending(ByTarget, TargetSet(Flat(plan.shards), Index(mapping.operations)))
  {
    hide ItemsAccepted, RecordsMatch, Index, Flat, ByTarget, SortBy, Ascending, TargetSet, SeenIds;
    if !mapping.planVerified || mapping.known != plan.known || mapping.activated < 0 || mapping.activated > mapping.known
       || |mapping.operations| > MAX_TARGETS {
      return None;
    }
    var byIdentity := IndexMapping(mapping.operations);
    if byIdentity.None? { return None; }
    var ok, targets, seen := TakeTargets(plan, byIdentity.value);
    if !ok { return None; }
    ok := CheckSelection(byIdentity.value, seen);
    SelectionIff(Flat(plan.shards), byIdentity.value);
    if !ok { return None; }
    TargetsApart(Flat(plan.shards), byIdentity.value);
    TargetOrder(TargetSet(Flat(plan.shards), byIdentity.value));
    SortIsAscending(ByTarget, TargetSet(Flat(plan.shards), byIdentity.value), targets);
    r := Some(SortBy(ByTarget, targets));
  }

  // ---------------------------------------------------------------------
  // Agreement
  // ---------------------------------------------------------------------

  lemma OrderedMembers(entries: map<Identity, Entry>)
    requires forall id :: id in entries ==> entries[id].id == id
    ensures NoDuplicates(OrderedEntries(entries)) && forall e :: e in OrderedEntries(entries) <==> e.id in entries && entries[e.id] == e
    ensures |OrderedEntries(entries)| == |entries.Values|
  {
    hide ById, Ascending;
    var s := OrderedEntries(entries);
    EntryOrder(entries.Values);
    AscendingLists(ById, entries.Values);
    NoDuplicatesCount(s);
    forall e ensures e in s <==> e.id in entries && entries[e.id] == e {
      if e.id in entries && entries[e.id] == e { assert e in entries.Values; }
    }
  }

  lemma ValuesSize(entries: map<Identity, Entry>)
    requires forall id :: id in entries ==> entries[id].id == id
    ensures |entries.Values| == |entries|
  {
    var f := (e: Entry) => e.id;
    ImageSize(entries.Values, f);
    forall id | id in entries ensures id in Image(entries.Values, f) { assert entries[id] in entries.Values; }
    assert entries.Keys == Image(entries.Values, f);
  }

  /** The map is the entries in order, so indexing it gives them back. */
  lemma IndexOfOrdered(entries: map<Identity, Entry>)
    requires forall id :: id in entries ==> entries[id].id == id
    ensures Index(OrderedEntries(entries)) == entries
    ensures |OrderedEntries(entries)| == |entries|
    ensures NoDuplicates(OrderedEntries(entries)) && forall e :: e in OrderedEntries(entries) <==> e.id in entries && entries[e.id] == e
  {
    hide ById, Ascending, Index, OrderedEntries, NoDuplicates;
    var s := OrderedEntries(entries);
    OrderedMembers(entries);
    ValuesSize(entries);
    IndexMembers(s);
    forall id | id in entries ensures id in Index(s) && Index(s)[id] == entries[id] { assert entries[id] in s; }
    forall id | id in Index(s) ensures id in entries { assert Index(s)[id] in s; }
    assert Index(s) == entries;
  }

  lemma {:induction false} EntriesWellNamed(inputs: Inputs)
    requires CanariesAccepted(inputs.canaries, inputs) && VerifiedPlan(Records(inputs))
    requires RecordsAccepted(Records(inputs), LegacyMap(inputs.canaries, inputs), ActiveSet(inputs), inputs)
    ensures var legacy, plan := LegacyMap(inputs.canaries, inputs), PlanMap(Records(inputs));
            forall id :: id in legacy.Keys + plan.Keys ==> SourceId(id.source) && id.operation != "" && KeyOf(id, legacy, inputs) != ""
  {
    hide PlanMap, LegacyMap, Records, CanariesAccepted, Distinct, Executable;
    var legacy, plan, records := LegacyMap(inputs.canaries, inputs), PlanMap(Records(inputs)), Records(inputs);
    LegacyFacts(inputs);
    PlanMembers(records);
    KnownSource();
    forall id | id in legacy.Keys + plan.Keys ensures SourceId(id.source) && id.operation != "" && KeyOf(id, legacy, inputs) != "" {
      if id in plan {
        var p :| p in records && p.record == plan[id];
        var i: nat :| i < |records| && records[i] == p;
        assert RecordAccepted(p.record, legacy, ActiveSet(inputs), inputs);
      }
    }
  }

  lemma KnownSource()
    ensures SourceId(DATA_GO_KR)
  {
    assert DATA_GO_KR == ['d', 'a', 't', 'a', '_', 'g', 'o', '_', 'k', 'r'];
  }

  lemma ItemsPass(entries: map<Identity, Entry>, legacy: map<Identity, Canary>, plan: map<Identity, Record>, active: set<Identity>, inputs: Inputs)
    requires entries == EntryMap(legacy, plan, active, inputs) && forall id :: id in plan ==> plan[id].id == id
    requires forall id :: id in legacy.Keys + plan.Keys ==> SourceId(id.source) && id.operation != "" && KeyOf(id, legacy, inputs) != ""
    ensures ItemsAccepted(OrderedEntries(entries))
  {
    hide SourceId, KeyOf, EntryMap, OrderedEntries, Index;
    var s := OrderedEntries(entries);
    EntryIds(legacy, plan, active, inputs);
    EntryDomain(legacy, plan, active, inputs);
    IndexOfOrdered(entries);
    forall i: nat | i < |s|
      ensures SourceId(s[i].id.source) && s[i].id.operation != "" && s[i].key != ""
      ensures forall j: nat :: j < i ==> s[j].id != s[i].id
    {
      assert s[i] in s;
      EntryKey(s[i].id, legacy, plan, active, inputs);
      forall j: nat | j < i ensures s[j].id != s[i].id { assert s[j] in s && s[j] != s[i]; }
    }
  }

  lemma RecordPasses(r: Record, legacy: map<Identity, Canary>, plan: map<Identity, Record>, active: set<Identity>, inputs: Inputs)
    requires r.id in plan && plan[r.id] == r && RecordAccepted(r, legacy, active, inputs) && r.period >= 0
    ensures RecordMatches(r, EntryMap(legacy, plan, active, inputs))
    ensures EntryMap(legacy, plan, active, inputs)[r.id].planActive <==> r.id in active
  {
  }

  lemma {:induction false} RecordsPass(inputs: Inputs)
    requires VerifiedPlan(Records(inputs))
    requires RecordsAccepted(Records(inputs), LegacyMap(inputs.canaries, inputs), ActiveSet(inputs), inputs)
    ensures var legacy, plan, active := LegacyMap(inputs.canaries, inputs), PlanMap(Records(inputs)), ActiveSet(inputs);
            var entries := EntryMap(legacy, plan, active, inputs);
            && RecordsMatch(Records(inputs), entries)
            && (forall id :: id in entries && entries[id].planActive ==> id in active && exists i: nat :: i < |Records(inputs)| && Records(inputs)[i].record.id == id)
            && (forall p :: p in Records(inputs) ==>
                  p.record.id in entries && (entries[p.record.id].planActive <==> p.record.id in active)
                  && entries[p.record.id].key == KeyOf(p.record.id, legacy, inputs))
  {
    hide PlanMap, LegacyMap, Records, KeyOf, RecordAccepted, RecordMatches, EntryMap, SourceId, ActiveSet;
    var legacy, plan, active, records := LegacyMap(inputs.canaries, inputs), PlanMap(Records(inputs)), ActiveSet(inputs), Records(inputs);
    var entries := EntryMap(legacy, plan, active, inputs);
    PlanMembers(records);
    assert Distinct(records);
    forall i: nat | i < |records|
      ensures RecordMatches(records[i].record, entries) && records[i].record.id in entries
      ensures entries[records[i].record.id].planActive <==> records[i].record.id in active
      ensures entries[records[i].record.id].key == KeyOf(records[i].record.id, legacy, inputs)
    {
      assert records[i] in records;
      RecordPasses(records[i].record, legacy, plan, active, inputs);
      InEntries(records[i].record.id, legacy, plan, active, inputs);
      EntryKey(records[i].record.id, legacy, plan, active, inputs);
    }
    forall id | id in entries && entries[id].planActive ensures id in active && exists i: nat :: i < |records| && records[i].record.id == id {
      ActiveOnlyInPlan(id, legacy, plan, active, inputs);
      PlannedSomewhere(records, id);
    }
  }

  lemma {:induction false} PlannedSomewhere(records: seq<Placed>, id: Identity)
    requires VerifiedPlan(records) && id in PlanMap(records)
    ensures exists i: nat :: i < |records| && records[i].record.id == id
  {
    hide PlanMap;
    PlanMembers(records);
    var p :| p in records && p.record == PlanMap(records)[id];
    var i: nat :| i < |records| && records[i] == p;
    assert records[i].record.id == id;
  }

  lemma ActiveOnlyInPlan(id: Identity, legacy: map<Identity, Canary>, plan: map<Identity, Record>, active: set<Identity>, inputs: Inputs)
    requires id in EntryMap(legacy, plan, active, inputs) && EntryMap(legacy, plan, active, inputs)[id].planActive
    ensures id in plan && id in active
  {
  }

  /** The records an activation selects, with their shard and their Gatus key. */
  ghost function ActivatedTargets(inputs: Inputs): set<Target> {
    set p | p in Records(inputs) && p.record.id in ActiveSet(inputs) ::
      Target(p.record, p.sha, KeyOf(p.record.id, LegacyMap(inputs.canaries, inputs), inputs))
  }

  /** The worker accepts every map the generator makes from a plan, and takes from it exactly
      the activated records, each under the key its endpoint has. */
  lemma MapAgreement(a: Artifacts, inputs: Inputs, plan: Plan)
    requires Generates(inputs) && Generated(a, inputs) && inputs.plan == Some(plan) && VerifiedPlan(Records(inputs))
    ensures Exact(plan, a.mapping)
    ensures TargetSet(Flat(plan.shards), Index(a.mapping.operations)) == ActivatedTargets(inputs)
  {
    hide PlanMap, LegacyMap, Flat, KeyOf, EntryMap, SourceId, CanariesAccepted, RecordsAccepted, VerifiedPlan, ItemsAccepted, RecordsMatch, OrderedEntries, Index, EndpointsAre, OrderedEndpoints, EndpointIds, Ascending, NoDuplicates;
    var legacy, planMap, active := LegacyMap(inputs.canaries, inputs), PlanMap(Records(inputs)), ActiveSet(inputs);
    var entries := EntryMap(legacy, planMap, active, inputs);
    EntriesWellNamed(inputs);
    PlanNamed(Records(inputs));
    EntryIds(legacy, planMap, active, inputs);
    IndexOfOrdered(entries);
    ItemsPass(entries, legacy, planMap, active, inputs);
    RecordsPass(inputs);
    ActiveFits(inputs);
  }

  lemma {:induction false} PlanNamed(records: seq<Placed>)
    ensures forall id :: id in PlanMap(records) ==> PlanMap(records)[id].id == id
    ensures |PlanMap(records)| <= |records|
  {
    hide PlanMap, Distinct;
    PlanMembers(records);
    PlanSize(records);
  }

  lemma {:induction false} PlanSize(records: seq<Placed>)
    ensures |PlanMap(records)| <= |records|
  {
    if records != [] {
      PlanSize(records[..|records| - 1]);
    }
  }

  lemma ActiveFits(inputs: Inputs)
    requires SelectionAccepted(inputs)
    ensures |ActiveSet(inputs)| <= |Records(inputs)|
  {
    hide PlanMap, Records, NoDuplicates;
    ActiveCovered(inputs);
    PlanNamed(Records(inputs));
    SubsetSize(ActiveSet(inputs), PlanMap(Records(inputs)).Keys);
  }

  /** Configured endpoints are the canaries and the activated records, each overlap once. */
  lemma ConfiguredCount(a: Artifacts, inputs: Inputs)
    requires Generates(inputs) && Generated(a, inputs)
    ensures a.mapping.configured == a.mapping.legacyCanaries + a.mapping.activated - a.mapping.overlaps
  {
    hide PlanMap, LegacyMap, Records, EntryMap, CanariesAccepted, RecordsAccepted, OrderedEntries, EndpointsAre, OrderedEndpoints, Ascending, NoDuplicates;
    var legacy, plan, active := LegacyMap(inputs.canaries, inputs), PlanMap(Records(inputs)), ActiveSet(inputs);
    LegacyFacts(inputs);
    ActiveCovered(inputs);
    assert plan.Keys * active == active;
    Union(legacy.Keys, active);
  }

  /** Nothing is served twice: an operation is active for the plan or for its canary, never
      both; it is active exactly when one of them is; and no two share a Gatus key. */
  lemma NothingServedTwice(a: Artifacts, inputs: Inputs, e: Entry, f: Entry)
    requires Generates(inputs) && Generated(a, inputs) && VerifiedPlan(Records(inputs))
    requires e in a.mapping.operations && f in a.mapping.operations
    ensures !(e.planActive && e.legacyActive) && (e.active <==> e.planActive || e.legacyActive)
    ensures e.planActive <==> e.id in ActiveSet(inputs)
    ensures e.key == f.key ==> e == f
  {
    hide PlanMap, LegacyMap, Records, KeyOf, EntryMap, CanariesAccepted, RecordsAccepted, OrderedEntries, EndpointsAre, OrderedEndpoints, Ascending, NoDuplicates, EndpointIds, Index, VerifiedPlan;
    var legacy, plan, active := LegacyMap(inputs.canaries, inputs), PlanMap(Records(inputs)), ActiveSet(inputs);
    var entries := EntryMap(legacy, plan, active, inputs);
    PlanNamed(Records(inputs));
    EntryIds(legacy, plan, active, inputs);
    EntryDomain(legacy, plan, active, inputs);
    IndexOfOrdered(entries);
    ActiveCovered(inputs);
    EntryKey(e.id, legacy, plan, active, inputs);
    EntryKey(f.id, legacy, plan, active, inputs);
    ServedOnce(e.id, legacy, plan, active, inputs);
    AcceptedInjective(inputs);
  }

  lemma ServedOnce(id: Identity, legacy: map<Identity, Canary>, plan: map<Identity, Record>, active: set<Identity>, inputs: Inputs)
    requires id in EntryMap(legacy, plan, active, inputs) && active <= plan.Keys && (id in plan ==> plan[id].id == id)
    ensures var e := EntryMap(legacy, plan, active, inputs)[id];
            !(e.planActive && e.legacyActive) && (e.active <==> e.planActive || e.legacyActive) && (e.planActive <==> id in active)
  {
  }

  /** The keys of the canaries and of the records taken are all different. */
  lemma {:induction false} AcceptedInjective(inputs: Inputs)
    requires CanariesAccepted(inputs.canaries, inputs)
    requires RecordsAccepted(Records(inputs), LegacyMap(inputs.canaries, inputs), ActiveSet(inputs), inputs)
    ensures Injective(LegacyMap(inputs.canaries, inputs).Keys + PlanMap(Records(inputs)).Keys, LegacyMap(inputs.canaries, inputs), inputs)
  {
    hide PlanMap, LegacyMap, Records, RecordAccepted, GatusKey, Linked, CanaryId, Distinct;
    var legacy, plan, records := LegacyMap(inputs.canaries, inputs), PlanMap(Records(inputs)), Records(inputs);
    LegacyMembers(inputs.canaries, inputs);
    PlanMembers(records);
    forall id | id in plan ensures exists i: nat :: i < |records| && records[i].record.id == id {
      var p :| p in records && p.record == plan[id];
      var i: nat :| i < |records| && records[i] == p;
      assert records[i].record.id == id;
    }
    forall id | id in legacy ensures exists i: nat :: i < |inputs.canaries| && inputs.canaries[i] == legacy[id] {}
    forall x, y | x in legacy && y in legacy && legacy[x].gatusKey == legacy[y].gatusKey ensures x == y {
      var i: nat :| i < |inputs.canaries| && inputs.canaries[i] == legacy[x];
      var j: nat :| j < |inputs.canaries| && inputs.canaries[j] == legacy[y];
    }
    forall x, y | x in legacy && y in plan && y !in legacy ensures legacy[x].gatusKey != inputs.stable(y) {
      var j: nat :| j < |records| && records[j].record.id == y;
    }
    forall x, y | x in plan && y in plan && KeyOf(x, legacy, inputs) == KeyOf(y, legacy, inputs) ensures x == y {
      var i: nat :| i < |records| && records[i].record.id == x;
      var j: nat :| j < |records| && records[j].record.id == y;
    }
  }

  /** A canary is suppressed exactly when its operation is activated from the plan. */
  lemma SuppressedIffActivated(a: Artifacts, inputs: Inputs, c: Canary)
    requires Generates(inputs) && Generated(a, inputs) && c in inputs.canaries
    ensures c.operation in a.mapping.suppressed <==> CanaryId(c, inputs) in ActiveSet(inputs)
  {
    hide PlanMap, Records, EntryMap, RecordsAccepted, OrderedEntries, EndpointsAre, OrderedEndpoints, Ascending, EndpointIds, Less, LegacyMap, CanaryId;
    var legacy, active := LegacyMap(inputs.canaries, inputs), ActiveSet(inputs);
    LegacyFacts(inputs);
    LegacyMembers(inputs.canaries, inputs);
    LessIsStrictWeak();
    AscendingLists(Less, set id | id in legacy.Keys * active :: legacy[id].operation);
  }

  lemma {:induction false} OperationPlanned(source: string, records: seq<Placed>, operation: string)
    requires operation in OperationsOf(source, records)
    ensures Identity(source, operation) in PlanMap(records)
  {
    var n := |records| - 1;
    PlanSnoc(records[..n], records[n]);
    assert records == records[..n] + [records[n]];
    if operation in OperationsOf(source, records[..n]) { OperationPlanned(source, records[..n], operation); }
  }

  /** The set of operations a plan covers is bound to the inventory the canaries are linked
      to: every accepted plan has every canary's operation, so that each canary's entry
      carries what the plan says about it. */
  lemma EveryCanaryIsPlanned(inputs: Inputs, c: Canary)
    requires Generates(inputs) && VerifiedInventory(inputs) && inputs.plan.Some? && c in inputs.canaries
    ensures CanaryId(c, inputs) in PlanMap(Records(inputs))
  {
    hide PlanMap, Records, Ascending, Less, RecordsAccepted, SelectionAccepted, EntryMap, MappingOf, EndpointsAre, LegacyMap, OperationsOf, EndpointIds, OrderedEndpoints;
    LessIsStrictWeak();
    AscendingLists(Less, inputs.metadata);
    var i: nat :| i < |inputs.canaries| && inputs.canaries[i] == c;
    assert Linked(c, inputs);
    OperationPlanned(DATA_GO_KR, Records(inputs), inputs.links[c.operation].registryOperation);
  }

  /** Conversely the plan has no data.go.kr operation outside the inventory, and each one once. */
  lemma PlanIsTheInventory(inputs: Inputs, operation: string)
    requires Generates(inputs) && VerifiedInventory(inputs) && inputs.plan.Some?
    ensures Identity(DATA_GO_KR, operation) in PlanMap(Records(inputs)) <==> operation in inputs.metadata
  {
    hide PlanMap, Records, Ascending, Less, RecordsAccepted, SelectionAccepted, EntryMap, MappingOf, EndpointsAre, LegacyMap, OperationsOf, CanariesAccepted, EndpointIds, OrderedEndpoints;
    LessIsStrictWeak();
    AscendingLists(Less, inputs.metadata);
    if operation in inputs.metadata { OperationPlanned(DATA_GO_KR, Records(inputs), operation); }
    if Identity(DATA_GO_KR, operation) in PlanMap(Records(inputs)) { PlannedOperation(DATA_GO_KR, Records(inputs), operation); }
  }

  lemma {:induction false} PlannedOperation(source: string, records: seq<Placed>, operation: string)
    requires Identity(source, operation) in PlanMap(records)
    ensures operation in OperationsOf(source, records)
  {
    var n := |records| - 1;
    PlanSnoc(records[..n], records[n]);
    assert records == records[..n] + [records[n]];
    if records[n].record.id != Identity(source, operation) { PlannedOperation(source, records[..n], operation); }
  }
}
