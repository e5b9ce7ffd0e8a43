/** What the generated configuration and map say, entry by entry, in terms of the plan, the
    canaries and the activation alone. */
module GatusResults {
  import opened Foundations
  import opened Text
  import opened GatusModel
  import opened GatusConfig
  import opened GatusTargets

  predicate Activated(id: Identity, inputs: Inputs) { inputs.plan.Some? && id in inputs.activation }

  predicate CanaryAt(id: Identity, c: Canary, inputs: Inputs) { c in inputs.canaries && CanaryId(c, inputs) == id }

  predicate HasCanary(id: Identity, inputs: Inputs) { exists c :: c in inputs.canaries && CanaryAt(id, c, inputs) }

  /** An operation with a canary has the canary's key, any other the one derived from it. */
  predicate NamedFor(key: string, id: Identity, inputs: Inputs) {
    if HasCanary(id, inputs) then exists c :: c in inputs.canaries && CanaryAt(id, c, inputs) && key == c.gatusKey
    else key == inputs.stable(id)
  }

  predicate HealthIdFor(health: string, id: Identity, inputs: Inputs) {
    if HasCanary(id, inputs) then exists c :: c in inputs.canaries && CanaryAt(id, c, inputs) && health == c.operation
    else health == ""
  }

  lemma {:induction false} NamesIff(id: Identity, inputs: Inputs)
    requires CanariesAccepted(inputs.canaries, inputs)
    ensures var legacy := LegacyMap(inputs.canaries, inputs);
            && (HasCanary(id, inputs) <==> id in legacy)
            && (forall key :: NamedFor(key, id, inputs) <==> key == KeyOf(id, legacy, inputs))
            && (forall health :: HealthIdFor(health, id, inputs) <==> health == if id in legacy then legacy[id].operation else "")
  {
    hide LegacyMap, CanariesAccepted, CanaryId;
    LegacyMembers(inputs.canaries, inputs);
    var legacy := LegacyMap(inputs.canaries, inputs);
    if id in legacy { assert CanaryAt(id, legacy[id], inputs); }
  }

  // ---------------------------------------------------------------------
  // Endpoints
  // ---------------------------------------------------------------------

  /** The key of an endpoint is its group and its name. */
  predicate Joined(e: Endpoint) { '_' !in e.group && e.key == e.group + ['_'] + e.name }

  lemma JoinedIff(e: Endpoint)
    requires GatusKey(e.key)
    ensures Joined(e) <==> e.group == GroupOf(e.key) && e.name == NameOf(e.key)
  {
    var i := IndexOf('_', e.key);
    assert e.key == e.key[..i] + ['_'] + e.key[i + 1..];
    if Joined(e) { SplitUnique(e.group, e.name, e.key[..i], e.key[i + 1..], '_'); }
  }

  /** An activated record's receiver is silent for two periods before it alerts, and one that
      only observes never alerts. */
  predicate ServesRecord(e: Endpoint, r: Record, inputs: Inputs) {
    && Activated(r.id, inputs) && Joined(e) && NamedFor(e.key, r.id, inputs)
    && (e.observationOnly <==> r.kind == ObservationOnly)
    && e.heartbeat == if r.kind == ObservationOnly then 0 else r.period + r.period
  }

  /** A canary keeps its receiver as long as its operation is not activated. */
  predicate ServesCanary(e: Endpoint, c: Canary, inputs: Inputs) {
    && !Activated(CanaryId(c, inputs), inputs) && Joined(e) && e.key == c.gatusKey
    && !e.observationOnly && e.heartbeat == c.heartbeat
  }

  lemma EndpointListed(endpoints: map<string, Endpoint>, legacy: map<Identity, Canary>, plan: map<Identity, Record>,
                       active: set<Identity>, inputs: Inputs, e: Endpoint)
    requires EndpointsAre(endpoints, legacy, plan, active, inputs)
    ensures e in OrderedEndpoints(endpoints)
            <==> exists id :: id in EndpointIds(legacy, plan, active) && e == EndpointOf(id, legacy, plan, active, inputs)
  {
    hide KeyOf, EndpointOf, EndpointIds, ByKey, Ascending;
    EndpointKeys(endpoints, legacy, plan, active, inputs);
    EndpointOrder(endpoints.Values);
    AscendingLists(ByKey, endpoints.Values);
    if e in endpoints.Values {
      var key :| key in endpoints && endpoints[key] == e;
      var id :| id in EndpointIds(legacy, plan, active) && KeyOf(id, legacy, inputs) == key;
      assert e == EndpointOf(id, legacy, plan, active, inputs);
    }
    if id :| id in EndpointIds(legacy, plan, active) && e == EndpointOf(id, legacy, plan, active, inputs) {
      assert endpoints[KeyOf(id, legacy, inputs)] in endpoints.Values;
    }
  }

  lemma PlannedRecord(id: Identity, inputs: Inputs)
    requires VerifiedPlan(Records(inputs))
    ensures id in PlanMap(Records(inputs)) <==> exists p :: p in Records(inputs) && p.record.id == id
    ensures forall p :: p in Records(inputs) && p.record.id == id ==> PlanMap(Records(inputs))[id] == p.record
    ensures id in PlanMap(Records(inputs)) ==> exists p :: p in Records(inputs) && p.record == PlanMap(Records(inputs))[id]
    ensures id in PlanMap(Records(inputs)) ==> PlanMap(Records(inputs))[id].id == id
  {
    hide PlanMap, Records, SourceId;
    PlanMembers(Records(inputs));
    assert Distinct(Records(inputs));
  }

  lemma ActivatedIff(id: Identity, inputs: Inputs)
    ensures Activated(id, inputs) <==> id in ActiveSet(inputs)
  {}

  lemma {:induction false} KeysWellFormed(id: Identity, inputs: Inputs)
    requires CanariesAccepted(inputs.canaries, inputs)
    requires RecordsAccepted(Records(inputs), LegacyMap(inputs.canaries, inputs), ActiveSet(inputs), inputs)
    requires VerifiedPlan(Records(inputs))
    requires id in EndpointIds(LegacyMap(inputs.canaries, inputs), PlanMap(Records(inputs)), ActiveSet(inputs))
    ensures GatusKey(KeyOf(id, LegacyMap(inputs.canaries, inputs), inputs))
  {
    hide GatusKey, PlanMap, Records, LegacyMap, VerifiedPlan, CanariesAccepted, Executable;
    LegacyFacts(inputs);
    PlannedRecord(id, inputs);
    if id !in LegacyMap(inputs.canaries, inputs) {
      var p :| p in Records(inputs) && p.record.id == id;
      var i: nat :| i < |Records(inputs)| && Records(inputs)[i] == p;
      assert RecordAccepted(Records(inputs)[i].record, LegacyMap(inputs.canaries, inputs), ActiveSet(inputs), inputs);
    }
  }

  /** The receiver of one configured identity is the record's, if it is activated, and else
      the canary's. */
  lemma {:induction false} ReceiverIs(id: Identity, inputs: Inputs, e: Endpoint)
    requires CanariesAccepted(inputs.canaries, inputs) && VerifiedPlan(Records(inputs)) && ActiveSet(inputs) <= PlanMap(Records(inputs)).Keys
    requires RecordsAccepted(Records(inputs), LegacyMap(inputs.canaries, inputs), ActiveSet(inputs), inputs)
    requires id in EndpointIds(LegacyMap(inputs.canaries, inputs), PlanMap(Records(inputs)), ActiveSet(inputs))
    ensures var legacy, plan, active := LegacyMap(inputs.canaries, inputs), PlanMap(Records(inputs)), ActiveSet(inputs);
            e == EndpointOf(id, legacy, plan, active, inputs) <==>
              if Activated(id, inputs) then ServesRecord(e, plan[id], inputs) else ServesCanary(e, legacy[id], inputs)
  {
    hide GatusKey, PlanMap, Records, LegacyMap, VerifiedPlan, CanariesAccepted, RecordsAccepted, GroupOf, NameOf, Joined, NamedFor,
         HealthIdFor, HasCanary, KeyOf, Activated, ActiveSet, CanaryId;
    var legacy, plan := LegacyMap(inputs.canaries, inputs), PlanMap(Records(inputs));
    NamesIff(id, inputs);
    ActivatedIff(id, inputs);
    PlannedRecord(id, inputs);
    KeysWellFormed(id, inputs);
    if e.key == KeyOf(id, legacy, inputs) { JoinedIff(e); }
    if id in legacy { CanaryKey(id, inputs); }
  }

  lemma {:induction false} CanaryKey(id: Identity, inputs: Inputs)
    requires CanariesAccepted(inputs.canaries, inputs) && id in LegacyMap(inputs.canaries, inputs)
    ensures var c := LegacyMap(inputs.canaries, inputs)[id];
            c in inputs.canaries && CanaryId(c, inputs) == id && KeyOf(id, LegacyMap(inputs.canaries, inputs), inputs) == c.gatusKey
  {
    hide LegacyMap, CanariesAccepted, CanaryId;
    LegacyMembers(inputs.canaries, inputs);
  }

  /** What was checked before anything was generated. */
  ghost predicate Admits(inputs: Inputs) {
    && CanariesAccepted(inputs.canaries, inputs) && VerifiedPlan(Records(inputs))
    && ActiveSet(inputs) <= PlanMap(Records(inputs)).Keys
    && RecordsAccepted(Records(inputs), LegacyMap(inputs.canaries, inputs), ActiveSet(inputs), inputs)
  }

  lemma GeneratedAdmits(inputs: Inputs)
    requires Generates(inputs) && VerifiedPlan(Records(inputs))
    ensures Admits(inputs)
  {
    hide PlanMap, Records, LegacyMap, VerifiedPlan, CanariesAccepted, RecordsAccepted, EntryMap, EndpointsAre, MappingOf;
    ActiveCovered(inputs);
  }

  lemma {:induction false} ReceiverFound(id: Identity, inputs: Inputs, e: Endpoint)
    requires Admits(inputs)
    requires var legacy, plan, active := LegacyMap(inputs.canaries, inputs), PlanMap(Records(inputs)), ActiveSet(inputs);
             id in EndpointIds(legacy, plan, active) && e == EndpointOf(id, legacy, plan, active, inputs)
    ensures (exists p :: p in Records(inputs) && ServesRecord(e, p.record, inputs))
            || (exists c :: c in inputs.canaries && ServesCanary(e, c, inputs))
  {
    hide PlanMap, Records, LegacyMap, VerifiedPlan, CanariesAccepted, RecordsAccepted, KeyOf, EndpointOf, ServesRecord, ServesCanary,
         CanaryId, ActiveSet, Activated;
    ReceiverIs(id, inputs, e);
    PlannedRecord(id, inputs);
    ActivatedIff(id, inputs);
    if id in LegacyMap(inputs.canaries, inputs) { CanaryKey(id, inputs); }
  }

  lemma {:induction false} RecordServed(p: Placed, inputs: Inputs, e: Endpoint)
    requires Admits(inputs) && p in Records(inputs) && ServesRecord(e, p.record, inputs)
    ensures var legacy, plan, active := LegacyMap(inputs.canaries, inputs), PlanMap(Records(inputs)), ActiveSet(inputs);
            p.record.id in EndpointIds(legacy, plan, active) && e == EndpointOf(p.record.id, legacy, plan, active, inputs)
  {
    hide PlanMap, Records, LegacyMap, VerifiedPlan, CanariesAccepted, RecordsAccepted, KeyOf, EndpointOf, ServesRecord, ServesCanary,
         CanaryId, ActiveSet, Activated;
    PlannedRecord(p.record.id, inputs);
    ServedIsActivated(e, p.record, inputs);
    ReceiverIs(p.record.id, inputs, e);
  }

  lemma {:induction false} CanaryServed(c: Canary, inputs: Inputs, e: Endpoint)
    requires Admits(inputs) && c in inputs.canaries && ServesCanary(e, c, inputs)
    ensures var legacy, plan, active := LegacyMap(inputs.canaries, inputs), PlanMap(Records(inputs)), ActiveSet(inputs);
            CanaryId(c, inputs) in EndpointIds(legacy, plan, active) && e == EndpointOf(CanaryId(c, inputs), legacy, plan, active, inputs)
  {
    hide PlanMap, Records, LegacyMap, VerifiedPlan, CanariesAccepted, RecordsAccepted, KeyOf, EndpointOf, ServesRecord, ServesCanary,
         CanaryId, ActiveSet, Activated;
    LegacyMembers(inputs.canaries, inputs);
    KeptIsNotActivated(e, c, inputs);
    ReceiverIs(CanaryId(c, inputs), inputs, e);
  }

  /** The configuration has exactly the receivers of the activated records and of the
      canaries whose operation is not activated. */
  lemma EndpointIff(a: Artifacts, inputs: Inputs, e: Endpoint)
    requires Generates(inputs) && Generated(a, inputs) && VerifiedPlan(Records(inputs))
    ensures e in a.endpoints <==>
              || (exists p :: p in Records(inputs) && ServesRecord(e, p.record, inputs))
              || (exists c :: c in inputs.canaries && ServesCanary(e, c, inputs))
  {
    GeneratedAdmits(inputs);
    hide PlanMap, Records, LegacyMap, VerifiedPlan, KeyOf, EntryMap, EndpointOf, OrderedEndpoints, Generates, Admits, EndpointIds,
         OrderedEntries, MappingOf, EndpointsAre, ServesRecord, ServesCanary, CanaryId, ActiveSet;
    var legacy, plan, active := LegacyMap(inputs.canaries, inputs), PlanMap(Records(inputs)), ActiveSet(inputs);
    var endpoints :| EndpointsAre(endpoints, legacy, plan, active, inputs) && a.endpoints == OrderedEndpoints(endpoints);
    EndpointListed(endpoints, legacy, plan, active, inputs, e);
    if id :| id in EndpointIds(legacy, plan, active) && e == EndpointOf(id, legacy, plan, active, inputs) { ReceiverFound(id, inputs, e); }
    if p :| p in Records(inputs) && ServesRecord(e, p.record, inputs) { RecordServed(p, inputs, e); }
    if c :| c in inputs.canaries && ServesCanary(e, c, inputs) { CanaryServed(c, inputs, e); }
  }

  lemma ServedIsActivated(e: Endpoint, r: Record, inputs: Inputs)
    requires ServesRecord(e, r, inputs)
    ensures Activated(r.id, inputs) && r.id in ActiveSet(inputs)
  {}

  lemma KeptIsNotActivated(e: Endpoint, c: Canary, inputs: Inputs)
    requires ServesCanary(e, c, inputs)
    ensures !Activated(CanaryId(c, inputs), inputs)
  {}

  // ---------------------------------------------------------------------
  // Entries of the map
  // ---------------------------------------------------------------------

  /** What the map says of a record: active for the plan if activated, else for its canary. */
  predicate ListsRecord(e: Entry, r: Record, inputs: Inputs) {
    && e.id == r.id && NamedFor(e.key, r.id, inputs) && HealthIdFor(e.legacyHealthId, r.id, inputs)
    && e.kind == r.kind && e.admission == r.admission
    && (e.planActive <==> Activated(r.id, inputs)) && (e.legacyActive <==> HasCanary(r.id, inputs) && !Activated(r.id, inputs))
    && (e.active <==> e.planActive || e.legacyActive)
    && e.periodSeconds * SECOND <= r.period < (e.periodSeconds + 1) * SECOND
  }

  /** What it says of a canary whose operation no plan covers. */
  predicate ListsCanary(e: Entry, c: Canary, inputs: Inputs) {
    && CanaryAt(e.id, c, inputs) && e.key == c.gatusKey && e.legacyHealthId == c.operation
    && e.kind == LegacyCanary && e.admission == UnknownAdmission && e.periodSeconds == 0
    && !e.planActive && e.legacyActive && e.active
  }

  lemma WholePeriod(period: int, seconds: int)
    requires period >= 0
    ensures seconds == (if period > 0 then WholeSeconds(period) else 0) <==> seconds * SECOND <= period < (seconds + 1) * SECOND
  {}

  lemma PeriodNotNegative(id: Identity, inputs: Inputs)
    requires VerifiedPlan(Records(inputs)) && id in PlanMap(Records(inputs))
    ensures PlanMap(Records(inputs))[id].period >= 0
  {
    hide PlanMap, Records, SourceId;
    PlanMembers(Records(inputs));
    var p :| p in Records(inputs) && p.record == PlanMap(Records(inputs))[id];
    var i: nat :| i < |Records(inputs)| && Records(inputs)[i] == p;
  }

  lemma {:induction false} ListedIs(id: Identity, inputs: Inputs, e: Entry)
    requires CanariesAccepted(inputs.canaries, inputs) && VerifiedPlan(Records(inputs))
    requires id in LegacyMap(inputs.canaries, inputs).Keys + PlanMap(Records(inputs)).Keys && e.id == id
    ensures var legacy, plan, active := LegacyMap(inputs.canaries, inputs), PlanMap(Records(inputs)), ActiveSet(inputs);
            e == EntryMap(legacy, plan, active, inputs)[id] <==>
              if id in plan then ListsRecord(e, plan[id], inputs) else ListsCanary(e, legacy[id], inputs)
  {
    hide PlanMap, Records, LegacyMap, VerifiedPlan, CanariesAccepted, NamedFor, HealthIdFor, HasCanary, Activated, ActiveSet, CanaryId,
         WholeSeconds;
    var legacy, plan := LegacyMap(inputs.canaries, inputs), PlanMap(Records(inputs));
    NamesIff(id, inputs);
    ActivatedIff(id, inputs);
    PlannedRecord(id, inputs);
    if id in plan {
      PeriodNotNegative(id, inputs);
      WholePeriod(plan[id].period, e.periodSeconds);
    }
    if id in legacy { CanaryKey(id, inputs); }
  }

  /** The map lists every record of the plan, and every canary no record stands for, as the
      inputs have them, and nothing else. */
  lemma EntryIff(a: Artifacts, inputs: Inputs, e: Entry)
    requires Generates(inputs) && Generated(a, inputs) && VerifiedPlan(Records(inputs))
    ensures e in a.mapping.operations <==>
              || (exists p :: p in Records(inputs) && ListsRecord(e, p.record, inputs))
              || (exists c :: c in inputs.canaries && ListsCanary(e, c, inputs) && forall p :: p in Records(inputs) ==> p.record.id != e.id)
  {
    hide PlanMap, Records, LegacyMap, VerifiedPlan, CanariesAccepted, RecordsAccepted, EntryMap, OrderedEndpoints,
         OrderedEntries, EndpointsAre, ListsRecord, ListsCanary, CanaryId, ActiveSet, Index;
    var legacy, plan, active := LegacyMap(inputs.canaries, inputs), PlanMap(Records(inputs)), ActiveSet(inputs);
    var entries := EntryMap(legacy, plan, active, inputs);
    PlanNamed(Records(inputs));
    EntryIds(legacy, plan, active, inputs);
    EntryDomain(legacy, plan, active, inputs);
    IndexOfOrdered(entries);
    LegacyMembers(inputs.canaries, inputs);
    if e.id in entries {
      ListedIs(e.id, inputs, e);
      PlannedRecord(e.id, inputs);
      if e.id in legacy { CanaryKey(e.id, inputs); }
    }
    if p :| p in Records(inputs) && ListsRecord(e, p.record, inputs) {
      ListedSubject(e, p.record, inputs);
      PlannedRecord(e.id, inputs);
    }
    if c :| c in inputs.canaries && ListsCanary(e, c, inputs) && forall p :: p in Records(inputs) ==> p.record.id != e.id {
      ListedCanary(e, c, inputs);
      PlannedRecord(e.id, inputs);
    }
  }

  lemma ListedSubject(e: Entry, r: Record, inputs: Inputs)
    requires ListsRecord(e, r, inputs)
    ensures e.id == r.id
  {}

  lemma ListedCanary(e: Entry, c: Canary, inputs: Inputs)
    requires ListsCanary(e, c, inputs)
    ensures c in inputs.canaries && CanaryId(c, inputs) == e.id
  {}

  // ---------------------------------------------------------------------
  // Counts
  // ---------------------------------------------------------------------

  lemma {:induction false} AdmittedAre(records: seq<Placed>)
    requires Distinct(records)
    ensures AdmittedCount(records) == |AdmittedIds(PlanMap(records))|
  {
    hide PlanMap, Distinct, AdmittedIds;
    if records == [] {
      NonePlanned();
    } else {
      var n := |records| - 1;
      var init, p := records[..n], records[n];
      assert records == init + [p];
      DistinctInit(init, p);
      PlanSnoc(init, p);
      PlanMembers(init);
      AdmittedAre(init);
      assert forall id :: id in PlanMap(init) ==> id != p.record.id;
      AdmitOne(PlanMap(init), p.record);
    }
  }

  lemma AdmitOne(plan: map<Identity, Record>, r: Record)
    requires r.id !in plan
    ensures |AdmittedIds(plan[r.id := r])| == |AdmittedIds(plan)| + if r.admission == Admitted then 1 else 0
  {
    assert AdmittedIds(plan[r.id := r]) == AdmittedIds(plan) + if r.admission == Admitted then {r.id} else {};
  }

  ghost function AdmittedIds(plan: map<Identity, Record>): set<Identity> {
    set id | id in plan && plan[id].admission == Admitted
  }

  lemma NonePlanned()
    ensures AdmittedIds(PlanMap([])) == {}
  {}

  /** Entries are as many as their identities. */
  lemma CountEntries(operations: seq<Entry>, entries: map<Identity, Entry>, chosen: set<Entry>, ids: set<Identity>)
    requires forall e :: e in operations <==> e.id in entries && entries[e.id] == e
    requires forall id :: id in entries ==> entries[id].id == id
    requires forall e :: e in chosen ==> e in operations && e.id in ids
    requires forall id :: id in ids ==> id in entries && entries[id] in chosen
    ensures |chosen| == |ids|
  {
    var f := (e: Entry) => e.id;
    ImageSize(chosen, f);
    forall id | id in ids ensures id in Image(chosen, f) { assert f(entries[id]) == id; }
    assert Image(chosen, f) == ids;
  }

  lemma EntryStates(id: Identity, legacy: map<Identity, Canary>, plan: map<Identity, Record>, active: set<Identity>, inputs: Inputs)
    requires id in EntryMap(legacy, plan, active, inputs) && active <= plan.Keys && (id in plan ==> plan[id].id == id)
    ensures var e := EntryMap(legacy, plan, active, inputs)[id];
            && (e.planActive <==> id in active) && (e.active <==> id in EndpointIds(legacy, plan, active))
            && (e.admission == Admitted <==> id in plan && plan[id].admission == Admitted)
  {}

  /** The entries of the map, by identity. */
  ghost function EntriesFor(inputs: Inputs): map<Identity, Entry> {
    EntryMap(LegacyMap(inputs.canaries, inputs), PlanMap(Records(inputs)), ActiveSet(inputs), inputs)
  }

  ghost function ConfiguredIds(inputs: Inputs): set<Identity> {
    EndpointIds(LegacyMap(inputs.canaries, inputs), PlanMap(Records(inputs)), ActiveSet(inputs))
  }

  lemma MapLists(a: Artifacts, inputs: Inputs)
    requires Generated(a, inputs)
    ensures forall e :: e in a.mapping.operations <==> e.id in EntriesFor(inputs) && EntriesFor(inputs)[e.id] == e
    ensures forall id :: id in EntriesFor(inputs) ==> EntriesFor(inputs)[id].id == id
  {
    hide PlanMap, Records, LegacyMap, EntryMap, OrderedEntries, EndpointsAre, OrderedEndpoints, Ascending, EndpointIds, Index;
    var legacy, plan, active := LegacyMap(inputs.canaries, inputs), PlanMap(Records(inputs)), ActiveSet(inputs);
    PlanNamed(Records(inputs));
    EntryIds(legacy, plan, active, inputs);
    IndexOfOrdered(EntryMap(legacy, plan, active, inputs));
    assert EntriesFor(inputs) == EntryMap(legacy, plan, active, inputs);
    assert a.mapping.operations == OrderedEntries(EntryMap(legacy, plan, active, inputs));
  }

  lemma StatesOf(inputs: Inputs)
    requires Admits(inputs)
    ensures forall id :: id in AdmittedIds(PlanMap(Records(inputs))) + ActiveSet(inputs) + ConfiguredIds(inputs) ==> id in EntriesFor(inputs)
    ensures forall id :: id in EntriesFor(inputs) ==>
              var e := EntriesFor(inputs)[id];
              && (e.planActive <==> id in ActiveSet(inputs)) && (e.active <==> id in ConfiguredIds(inputs))
              && (e.admission == Admitted <==> id in AdmittedIds(PlanMap(Records(inputs))))
  {
    hide PlanMap, Records, LegacyMap, VerifiedPlan, CanariesAccepted, RecordsAccepted, EntryMap, ActiveSet;
    var legacy, plan, active := LegacyMap(inputs.canaries, inputs), PlanMap(Records(inputs)), ActiveSet(inputs);
    EntryDomain(legacy, plan, active, inputs);
    PlanNamed(Records(inputs));
    forall id | id in EntriesFor(inputs)
      ensures var e := EntriesFor(inputs)[id];
              && (e.planActive <==> id in active) && (e.active <==> id in ConfiguredIds(inputs))
              && (e.admission == Admitted <==> id in AdmittedIds(plan))
    {
      EntryStates(id, legacy, plan, active, inputs);
    }
  }

  lemma EndpointsCounted(a: Artifacts, inputs: Inputs)
    requires Admits(inputs) && Generated(a, inputs)
    ensures |a.endpoints| == |ConfiguredIds(inputs)|
  {
    hide PlanMap, Records, LegacyMap, VerifiedPlan, CanariesAccepted, RecordsAccepted, EntryMap, ActiveSet, OrderedEntries, EndpointsAre,
         Ascending, ByKey, EndpointIds, MappingOf, Injective;
    var legacy, plan, active := LegacyMap(inputs.canaries, inputs), PlanMap(Records(inputs)), ActiveSet(inputs);
    var endpoints :| EndpointsAre(endpoints, legacy, plan, active, inputs) && a.endpoints == OrderedEndpoints(endpoints);
    AcceptedInjective(inputs);
    EndpointSize(endpoints, legacy, plan, active, inputs);
    EndpointKeys(endpoints, legacy, plan, active, inputs);
    EndpointOrder(endpoints.Values);
    AscendingLists(ByKey, endpoints.Values);
    NoDuplicatesCount(a.endpoints);
    EndpointValues(endpoints);
  }

  lemma EndpointValues(endpoints: map<string, Endpoint>)
    requires forall k :: k in endpoints ==> endpoints[k].key == k
    ensures |endpoints.Values| == |endpoints|
  {
    var f := (e: Endpoint) => e.key;
    ImageSize(endpoints.Values, f);
    forall k | k in endpoints ensures k in Image(endpoints.Values, f) { assert endpoints[k] in endpoints.Values; }
    assert endpoints.Keys == Image(endpoints.Values, f);
  }

  lemma SuppressedCounted(a: Artifacts, inputs: Inputs)
    requires Admits(inputs) && Generated(a, inputs)
    ensures a.mapping.overlaps == |a.mapping.suppressed|
  {
    hide PlanMap, Records, LegacyMap, VerifiedPlan, CanariesAccepted, RecordsAccepted, EntryMap, ActiveSet, OrderedEntries, EndpointsAre,
         OrderedEndpoints, Ascending, Less, EndpointIds, GatusKey;
    var legacy, active := LegacyMap(inputs.canaries, inputs), ActiveSet(inputs);
    LegacyFacts(inputs);
    LessIsStrictWeak();
    var ids := legacy.Keys * active;
    var f := (id: Identity) => if id in legacy then legacy[id].operation else "";
    ImageSize(ids, f);
    var texts := set id | id in ids :: legacy[id].operation;
    assert texts == Image(ids, f);
    AscendingLists(Less, texts);
    NoDuplicatesCount(Ascending(Less, texts));
  }

  /** The counts of the map are the numbers of what it and the configuration contain. */
  lemma CountsAreTrue(a: Artifacts, inputs: Inputs)
    requires Generates(inputs) && Generated(a, inputs) && VerifiedPlan(Records(inputs))
    ensures a.mapping.known == |Records(inputs)| && a.mapping.legacyCanaries == |inputs.canaries|
    ensures a.mapping.admitted == |set e | e in a.mapping.operations && e.admission == Admitted|
    ensures a.mapping.activated == |set e | e in a.mapping.operations && e.planActive|
    ensures a.mapping.configured == |a.endpoints| == |set e | e in a.mapping.operations && e.active|
    ensures a.mapping.overlaps == |a.mapping.suppressed|
  {
    GeneratedAdmits(inputs);
    RecordsDistinct(inputs);
    MapLists(a, inputs);
    StatesOf(inputs);
    EndpointsCounted(a, inputs);
    SuppressedCounted(a, inputs);
    AdmittedAre(Records(inputs));
    hide PlanMap, Records, LegacyMap, VerifiedPlan, OrderedEndpoints, Generates, Admits, OrderedEntries, EndpointsAre, ActiveSet,
         Ascending, Distinct, AdmittedIds, AdmittedCount, EntryMap, EndpointIds;
    var operations, entries := a.mapping.operations, EntriesFor(inputs);
    CountEntries(operations, entries, (set e | e in operations && e.admission == Admitted), AdmittedIds(PlanMap(Records(inputs))));
    CountEntries(operations, entries, (set e | e in operations && e.planActive), ActiveSet(inputs));
    CountEntries(operations, entries, (set e | e in operations && e.active), ConfiguredIds(inputs));
  }

  lemma RecordsDistinct(inputs: Inputs)
    requires VerifiedPlan(Records(inputs))
    ensures Distinct(Records(inputs))
  {
    hide Records, SourceId;
  }

  // ---------------------------------------------------------------------
  // What the worker takes from a map
  // ---------------------------------------------------------------------

  /** The entry of a target: active for the plan alone, and of a record that may be executed. */
  predicate TakenFor(t: Target, e: Entry) {
    var r := t.record;
    && e.id == r.id && e.key == t.key != "" && e.planActive && e.active && !e.legacyActive
    && e.kind == r.kind && e.admission == r.admission == Admitted && e.periodSeconds == WholeSeconds(r.period)
    && r.eligible && !r.testOnly && r.requestComplete && r.runtimeBound && r.quotaAdmitted
  }

  /** Whatever map the worker accepts, its targets are exactly the plan-active entries, each
      with a record of the plan that may be executed and says the same. */
  lemma {:induction false} TargetsAreSound(plan: Plan, mapping: Mapping)
    requires Exact(plan, mapping)
    ensures var targets := TargetSet(Flat(plan.shards), Index(mapping.operations));
            && (forall t :: t in targets ==>
                  && (exists p :: p in Flat(plan.shards) && p.record == t.record && p.sha == t.sha)
                  && exists e :: e in mapping.operations && TakenFor(t, e))
            && (forall e :: e in mapping.operations && e.planActive ==> exists t :: t in targets && TakenFor(t, e))
            && (forall p :: p in Flat(plan.shards) ==> exists e :: e in mapping.operations && e.id == p.record.id && e.kind == p.record.kind
                                                              && e.admission == p.record.admission)
            && mapping.planVerified && mapping.known == plan.known && mapping.activated <= mapping.known
  {
    hide Flat, Index, SourceId, WholeSeconds;
    var records, byIdentity := Flat(plan.shards), Index(mapping.operations);
    IndexMembers(mapping.operations);
    IndexNamed(mapping.operations);
    forall t | t in TargetSet(records, byIdentity)
      ensures exists p :: p in records && p.record == t.record && p.sha == t.sha
      ensures exists e :: e in mapping.operations && TakenFor(t, e)
    {
      var p :| p in records && p.record.id in byIdentity && byIdentity[p.record.id].planActive
               && t == Target(p.record, p.sha, byIdentity[p.record.id].key);
      var i: nat :| i < |records| && records[i] == p;
      assert RecordMatches(records[i].record, byIdentity);
      assert TakenFor(t, byIdentity[p.record.id]);
    }
    forall e | e in mapping.operations && e.planActive ensures exists t :: t in TargetSet(records, byIdentity) && TakenFor(t, e) {
      assert byIdentity[e.id] == e;
      var i: nat :| i < |records| && records[i].record.id == e.id;
      var t := Target(records[i].record, records[i].sha, e.key);
      assert RecordMatches(records[i].record, byIdentity);
      assert records[i] in records;
      assert t in TargetSet(records, byIdentity) && TakenFor(t, e);
    }
    forall p | p in records
      ensures exists e :: e in mapping.operations && e.id == p.record.id && e.kind == p.record.kind && e.admission == p.record.admission
    {
      var i: nat :| i < |records| && records[i] == p;
      assert RecordMatches(records[i].record, byIdentity);
      assert byIdentity[p.record.id] in mapping.operations;
    }
  }

  /** In a list without a repeated identity every entry is the one its identity is indexed to. */
  lemma IndexNamed(operations: seq<Entry>)
    requires ItemsAccepted(operations)
    ensures forall e :: e in operations ==> e.id in Index(operations) && Index(operations)[e.id] == e && e.key != ""
    ensures forall id :: id in Index(operations) ==> Index(operations)[id] in operations && Index(operations)[id].id == id
  {
    hide Index, SourceId;
    IndexMembers(operations);
    forall e | e in operations ensures e.id in Index(operations) && Index(operations)[e.id] == e && e.key != "" {
      var i: nat :| i < |operations| && operations[i] == e;
      var f := Index(operations)[e.id];
      var j: nat :| j < |operations| && operations[j] == f;
      assert i == j;
    }
  }
}
