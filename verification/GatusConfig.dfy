/** Generating the Gatus receivers and the identity map, in the program's loops. */
module GatusConfig {
  import opened Foundations
  import opened Text
  import opened GatusModel

  /** The collections the generator fills. */
  datatype Build = Build(
    entries: map<Identity, Entry>, keys: map<string, Identity>, endpoints: map<string, Endpoint>,
    suppressed: seq<string>, known: int, admitted: int, activated: int, seenActive: set<Identity>)

  ghost predicate KeysAre(keys: map<string, Identity>, entries: map<Identity, Entry>) {
    && (forall id :: id in entries ==> entries[id].key in keys && keys[entries[id].key] == id)
    && (forall k :: k in keys ==> keys[k] in entries && entries[keys[k]].key == k)
  }

  ghost function SuppressedIds(legacy: map<Identity, Canary>, plan: map<Identity, Record>, active: set<Identity>): set<Identity> {
    legacy.Keys * active * plan.Keys
  }

  ghost function HealthIdsOf(legacy: map<Identity, Canary>, ids: set<Identity>): set<string> {
    set id | id in ids && id in legacy :: legacy[id].operation
  }

  ghost predicate SuppressedAre(suppressed: seq<string>, legacy: map<Identity, Canary>, plan: map<Identity, Record>, active: set<Identity>) {
    var ids := SuppressedIds(legacy, plan, active);
    |suppressed| == |ids| && forall s :: s in suppressed <==> s in HealthIdsOf(legacy, ids)
  }

  /** The state of the generator after the given records. */
  ghost predicate Built(b: Build, done: seq<Placed>, legacy: map<Identity, Canary>, active: set<Identity>, inputs: Inputs) {
    var plan := PlanMap(done);
    && b.entries == EntryMap(legacy, plan, active, inputs) && KeysAre(b.keys, b.entries)
    && EndpointsAre(b.endpoints, legacy, plan, active, inputs) && SuppressedAre(b.suppressed, legacy, plan, active)
    && b.known == |done| && b.admitted == AdmittedCount(done)
    && b.seenActive == active * plan.Keys && b.activated == |b.seenActive|
  }

  /** A key belongs to the first identity it is registered for. */
  method RegisterKey(keys: map<string, Identity>, key: string, id: Identity) returns (r: Option<map<string, Identity>>)
    ensures r.None? <==> key == "" || (key in keys && keys[key] != id)
    ensures r.Some? ==> r.value == keys[key := id]
  {
    if key == "" { return None; }
    if key in keys { return if keys[key] == id then Some(keys) else None; }
    r := Some(keys[key := id]);
  }

  // ---------------------------------------------------------------------
  // Canaries
  // ---------------------------------------------------------------------

  lemma {:induction false} LegacySnoc(canaries: seq<Canary>, c: Canary, inputs: Inputs)
    ensures LegacyMap(canaries + [c], inputs) == LegacyMap(canaries, inputs)[CanaryId(c, inputs) := c]
  {
    assert (canaries + [c])[..|canaries|] == canaries;
  }

  ghost predicate LegacyIs(m: map<Identity, Canary>, canaries: seq<Canary>, inputs: Inputs) {
    && |m| == |canaries|
    && (forall id :: id in m ==> m[id] in canaries && CanaryId(m[id], inputs) == id)
    && (forall c :: c in canaries ==> CanaryId(c, inputs) in m && m[CanaryId(c, inputs)] == c)
  }

  lemma LegacyStep(m: map<Identity, Canary>, init: seq<Canary>, c: Canary, inputs: Inputs)
    requires LegacyIs(m, init, inputs) && forall d :: d in init ==> CanaryId(d, inputs) != CanaryId(c, inputs)
    ensures LegacyIs(m[CanaryId(c, inputs) := c], init + [c], inputs)
  {
    hide CanaryId;
    assert CanaryId(c, inputs) !in m;
    assert forall d :: d in init + [c] <==> d in init || d == c;
  }

  lemma {:induction false} LegacyMembers(canaries: seq<Canary>, inputs: Inputs)
    requires CanariesAccepted(canaries, inputs)
    ensures LegacyIs(LegacyMap(canaries, inputs), canaries, inputs)
  {
    hide Linked, CanaryId, GatusKey, LegacyIs;
    if canaries == [] {
      NoLegacyIs(inputs);
    } else {
      var n := |canaries| - 1;
      LegacyMembers(canaries[..n], inputs);
      forall d | d in canaries[..n] ensures CanaryId(d, inputs) != CanaryId(canaries[n], inputs) {
        var j: nat :| j < n && canaries[..n][j] == d;
      }
      LegacyStep(LegacyMap(canaries[..n], inputs), canaries[..n], canaries[n], inputs);
      assert canaries == canaries[..n] + [canaries[n]];
    }
  }

  lemma NoLegacyIs(inputs: Inputs)
    ensures LegacyIs(map[], [], inputs)
  {
  }

  lemma NothingBuilt(active: set<Identity>, inputs: Inputs)
    ensures Built(Build(map[], map[], map[], [], 0, 0, 0, {}), [], map[], active, inputs)
  {
  }

  lemma EntryKey(id: Identity, legacy: map<Identity, Canary>, plan: map<Identity, Record>, active: set<Identity>, inputs: Inputs)
    requires id in legacy.Keys + plan.Keys && (id in plan ==> plan[id].id == id)
    ensures EntryMap(legacy, plan, active, inputs)[id].key == KeyOf(id, legacy, inputs)
  {
  }

  lemma CanaryEndpoints(endpoints: map<string, Endpoint>, legacy: map<Identity, Canary>, id: Identity, c: Canary, active: set<Identity>, inputs: Inputs)
    requires EndpointsAre(endpoints, legacy, map[], active, inputs) && id !in legacy
    requires forall o :: o in legacy ==> legacy[o].gatusKey != c.gatusKey
    ensures EndpointsAre(endpoints[c.gatusKey := EndpointFor(c.gatusKey, c.heartbeat, false)], legacy[id := c], map[], active, inputs)
  {
    hide EndpointFor;
    var now := legacy[id := c];
    var ends := endpoints[c.gatusKey := EndpointFor(c.gatusKey, c.heartbeat, false)];
    assert EndpointIds(now, map[], active) == EndpointIds(legacy, map[], active) + {id};
    forall key | key in ends ensures exists o :: o in EndpointIds(now, map[], active) && KeyOf(o, now, inputs) == key {
      if key != c.gatusKey {
        var o :| o in EndpointIds(legacy, map[], active) && KeyOf(o, legacy, inputs) == key;
        assert KeyOf(o, now, inputs) == key;
      } else {
        assert KeyOf(id, now, inputs) == key;
      }
    }
  }

  lemma CanaryEntries(legacy: map<Identity, Canary>, id: Identity, c: Canary, active: set<Identity>, inputs: Inputs)
    ensures EntryMap(legacy[id := c], map[], active, inputs) == EntryMap(legacy, map[], active, inputs)[id := LegacyEntry(id, c)]
  {
  }

  lemma NoneSuppressed(legacy: map<Identity, Canary>, active: set<Identity>)
    ensures SuppressedIds(legacy, map[], active) == {} && HealthIdsOf(legacy, {}) == {}
  {
  }

  lemma CanaryBuilt(b: Build, legacy: map<Identity, Canary>, c: Canary, id: Identity, active: set<Identity>, inputs: Inputs)
    requires Built(b, [], legacy, active, inputs) && id !in legacy && c.gatusKey !in b.keys
    ensures Built(b.(entries := b.entries[id := LegacyEntry(id, c)], keys := b.keys[c.gatusKey := id],
                     endpoints := b.endpoints[c.gatusKey := EndpointFor(c.gatusKey, c.heartbeat, false)]),
                  [], legacy[id := c], active, inputs)
  {
    hide EndpointFor, EntryMap, KeysAre, EndpointsAre, HealthIdsOf, SuppressedIds;
    LegacyKeysApart(b, legacy, c.gatusKey, active, inputs);
    CanaryEntries(legacy, id, c, active, inputs);
    CanaryEndpoints(b.endpoints, legacy, id, c, active, inputs);
    NotAnEntry(legacy, id, active, inputs);
    KeysGrow(b.keys, b.entries, id, LegacyEntry(id, c));
    NoneSuppressed(legacy, active);
    NoneSuppressed(legacy[id := c], active);
    assert PlanMap([]) == map[];
  }

  lemma NotAnEntry(legacy: map<Identity, Canary>, id: Identity, active: set<Identity>, inputs: Inputs)
    requires id !in legacy
    ensures id !in EntryMap(legacy, map[], active, inputs)
  {
  }

  lemma LegacyKeysApart(b: Build, legacy: map<Identity, Canary>, key: string, active: set<Identity>, inputs: Inputs)
    requires Built(b, [], legacy, active, inputs)
    ensures b.entries.Keys == legacy.Keys
    ensures forall id :: id in legacy ==> legacy[id].gatusKey in b.keys && b.keys[legacy[id].gatusKey] == id
    ensures forall k :: k in b.keys ==> b.keys[k] in legacy && legacy[b.keys[k]].gatusKey == k
  {
    hide EndpointsAre, SuppressedAre, EntryMap;
    assert PlanMap([]) == map[];
    EntryDomain(legacy, map[], active, inputs);
    forall id | id in legacy ensures b.entries[id].key == legacy[id].gatusKey { EntryKey(id, legacy, map[], active, inputs); }
  }

  /** The accepted canaries so far have exactly the registered keys. */
  lemma {:induction false} CanaryKeys(b: Build, canaries: seq<Canary>, active: set<Identity>, inputs: Inputs)
    requires CanariesAccepted(canaries, inputs) && Built(b, [], LegacyMap(canaries, inputs), active, inputs)
    ensures forall id :: id in b.entries ==> exists j: nat :: j < |canaries| && CanaryId(canaries[j], inputs) == id
    ensures forall k :: k in b.keys ==> exists j: nat :: j < |canaries| && canaries[j].gatusKey == k
    ensures forall c :: c in canaries ==> CanaryId(c, inputs) in b.entries && c.gatusKey in b.keys
    ensures b.entries.Keys == LegacyMap(canaries, inputs).Keys
  {
    hide CanaryId, Built, LegacyMap, CanariesAccepted;
    LegacyMembers(canaries, inputs);
    var legacy := LegacyMap(canaries, inputs);
    LegacyKeysApart(b, legacy, "", active, inputs);
    forall id | id in legacy ensures exists j: nat :: j < |canaries| && canaries[j] == legacy[id] {}
  }

  lemma CanariesPrefix(canaries: seq<Canary>, i: nat, inputs: Inputs)
    requires i <= |canaries| && CanariesAccepted(canaries, inputs)
    ensures CanariesAccepted(canaries[..i], inputs)
  {
    hide Linked, GatusKey, CanaryId;
  }

  method AddCanaries(inputs: Inputs, ghost active: set<Identity>) returns (r: Option<(Build, map<Identity, Canary>)>)
    ensures r.Some? <==> CanariesAccepted(inputs.canaries, inputs)
    ensures r.Some? ==> r.value.1 == LegacyMap(inputs.canaries, inputs) && Built(r.value.0, [], r.value.1, active, inputs)
  {
    hide Linked, GatusKey, CanaryId, LegacyMap, Built, EndpointFor, CanariesAccepted;
    var all := inputs.canaries;
    var b := Build(map[], map[], map[], [], 0, 0, 0, {});
    var legacyByIdentity: map<Identity, Canary> := map[];
    NothingBuilt(active, inputs);
    NoLegacy(inputs);
    NoCanaries(inputs);
    for i := 0 to |all|
      invariant CanariesAccepted(all[..i], inputs) && legacyByIdentity == LegacyMap(all[..i], inputs)
      invariant Built(b, [], legacyByIdentity, active, inputs)
    {
      var c := all[i];
      assert all[..i + 1] == all[..i] + [c];
      CanaryKeys(b, all[..i], active, inputs);
      if !Linked(c, inputs) || !GatusKey(c.gatusKey) {
        CanaryUnlinked(all, i, inputs);
        return None;
      }
      var id := CanaryId(c, inputs);
      if id in b.entries {
        CanaryRefused(all, i, inputs);
        return None;
      }
      var keys := RegisterKey(b.keys, c.gatusKey, id);
      KeyNotEmpty(c.gatusKey);
      if keys.None? {
        CanaryRefused(all, i, inputs);
        return None;
      }
      KeyFresh(b, c.gatusKey, id, legacyByIdentity, active, inputs);
      CanaryBuilt(b, legacyByIdentity, c, id, active, inputs);
      CanaryAccepted(all, i, b, inputs);
      b := b.(entries := b.entries[id := LegacyEntry(id, c)], keys := keys.value,
              endpoints := b.endpoints[c.gatusKey := EndpointFor(c.gatusKey, c.heartbeat, false)]);
      legacyByIdentity := legacyByIdentity[id := c];
      LegacySnoc(all[..i], c, inputs);
    }
    assert all[..|all|] == all;
    r := Some((b, legacyByIdentity));
  }

  lemma {:induction false} NoLegacy(inputs: Inputs)
    ensures LegacyMap([], inputs) == map[]
  {
  }

  lemma KeyNotEmpty(key: string)
    requires GatusKey(key)
    ensures key != ""
  {
  }

  lemma KeyFresh(b: Build, key: string, id: Identity, legacy: map<Identity, Canary>, active: set<Identity>, inputs: Inputs)
    requires Built(b, [], legacy, active, inputs) && id !in b.entries && (key !in b.keys || b.keys[key] == id)
    ensures key !in b.keys && id !in legacy
  {
    hide EndpointsAre;
  }

  lemma NoCanaries(inputs: Inputs)
    ensures CanariesAccepted([], inputs)
  {}

  lemma CanaryUnlinked(all: seq<Canary>, i: nat, inputs: Inputs)
    requires i < |all| && !(Linked(all[i], inputs) && GatusKey(all[i].gatusKey))
    ensures !CanariesAccepted(all, inputs)
  {
    hide Linked, GatusKey, CanaryId;
  }

  lemma CanaryAccepted(all: seq<Canary>, i: nat, b: Build, inputs: Inputs)
    requires i < |all| && CanariesAccepted(all[..i], inputs) && Linked(all[i], inputs) && GatusKey(all[i].gatusKey)
    requires forall c :: c in all[..i] ==> CanaryId(c, inputs) in b.entries && c.gatusKey in b.keys
    requires CanaryId(all[i], inputs) !in b.entries && all[i].gatusKey !in b.keys
    ensures CanariesAccepted(all[..i + 1], inputs)
  {
    hide Linked, GatusKey, CanaryId;
    var longer := all[..i + 1];
    forall k: nat | k < i ensures longer[k] == all[..i][k] {}
    forall j: nat | j < i ensures CanaryId(longer[j], inputs) != CanaryId(longer[i], inputs) && longer[j].gatusKey != longer[i].gatusKey {
      assert all[..i][j] in all[..i];
    }
  }

  lemma CanaryRefused(all: seq<Canary>, i: nat, inputs: Inputs)
    requires i < |all|
    requires exists j: nat :: j < i && (CanaryId(all[..i][j], inputs) == CanaryId(all[i], inputs) || all[..i][j].gatusKey == all[i].gatusKey)
    ensures !CanariesAccepted(all, inputs)
  {
    hide Linked, GatusKey, CanaryId;
  }

  // ---------------------------------------------------------------------
  // Plan records
  // ---------------------------------------------------------------------

  lemma {:induction false} PlanSnoc(done: seq<Placed>, p: Placed)
    ensures PlanMap(done + [p]) == PlanMap(done)[p.record.id := p.record]
    ensures AdmittedCount(done + [p]) == AdmittedCount(done) + (if p.record.admission == Admitted then 1 else 0)
  {
    assert (done + [p])[..|done|] == done;
  }

  ghost predicate Distinct(records: seq<Placed>) {
    forall i: nat, j: nat :: i < j < |records| ==> records[i].record.id != records[j].record.id
  }

  ghost predicate PlanIs(m: map<Identity, Record>, records: seq<Placed>) {
    && (forall id :: id in m ==> m[id].id == id && exists p :: p in records && p.record == m[id])
    && (forall p :: p in records ==> p.record.id in m)
    && (Distinct(records) ==> |m| == |records| && forall p :: p in records ==> m[p.record.id] == p.record)
  }

  lemma DistinctInit(init: seq<Placed>, p: Placed)
    requires Distinct(init + [p])
    ensures Distinct(init) && forall q :: q in init ==> q.record.id != p.record.id
  {
    var all := init + [p];
    assert forall i: nat :: i < |init| ==> all[i] == init[i];
    forall q | q in init ensures q.record.id != p.record.id {
      var i: nat :| i < |init| && init[i] == q;
      assert all[i] == q && all[|init|] == p;
    }
  }

  lemma PlanStep(m: map<Identity, Record>, init: seq<Placed>, p: Placed)
    requires PlanIs(m, init)
    ensures PlanIs(m[p.record.id := p.record], init + [p])
  {
    hide Distinct;
    var all, now := init + [p], m[p.record.id := p.record];
    assert forall q :: q in all <==> q in init || q == p;
    forall id | id in now ensures now[id].id == id && exists q :: q in all && q.record == now[id] {
      assert p in all;
    }
    if Distinct(all) {
      DistinctInit(init, p);
      assert p.record.id !in m;
    }
  }

  lemma {:induction false} PlanMembers(records: seq<Placed>)
    ensures PlanIs(PlanMap(records), records)
  {
    hide PlanIs;
    if records == [] {
      NoPlanIs();
    } else {
      var n := |records| - 1;
      PlanMembers(records[..n]);
      PlanStep(PlanMap(records[..n]), records[..n], records[n]);
      assert records == records[..n] + [records[n]];
    }
  }

  lemma NoPlanIs()
    ensures PlanIs(map[], [])
  {
  }

  /** What one record adds, given that its key is its own. */
  function Added(b: Build, r: Record, keys: map<string, Identity>, legacy: map<Identity, Canary>, selected: bool, inputs: Inputs): Build {
    var key := KeyOf(r.id, legacy, inputs);
    b.(entries := b.entries[r.id := PlanEntry(r, selected, legacy, inputs)], keys := keys,
       endpoints := if selected then b.endpoints[key := EndpointFor(key, Heartbeat(r), r.kind == ObservationOnly)] else b.endpoints,
       suppressed := if selected && r.id in legacy then b.suppressed + [legacy[r.id].operation] else b.suppressed,
       known := b.known + 1, admitted := b.admitted + (if r.admission == Admitted then 1 else 0),
       activated := b.activated + (if selected then 1 else 0),
       seenActive := if selected then b.seenActive + {r.id} else b.seenActive)
  }

  lemma EntriesGrow(legacy: map<Identity, Canary>, plan: map<Identity, Record>, r: Record, active: set<Identity>, inputs: Inputs)
    ensures EntryMap(legacy, plan[r.id := r], active, inputs) == EntryMap(legacy, plan, active, inputs)[r.id := PlanEntry(r, r.id in active, legacy, inputs)]
  {
    hide PlanEntry, LegacyEntry;
  }

  lemma KeysGrow(keys: map<string, Identity>, entries: map<Identity, Entry>, id: Identity, e: Entry)
    requires KeysAre(keys, entries) && (e.key in keys ==> keys[e.key] == id) && (id in entries ==> entries[id].key == e.key)
    ensures KeysAre(keys[e.key := id], entries[id := e])
  {
  }

  /** No other configured identity is found under a key registered for this one. */
  lemma KeysDiffer(b: Build, legacy: map<Identity, Canary>, plan: map<Identity, Record>, active: set<Identity>, inputs: Inputs, id: Identity)
    requires b.entries == EntryMap(legacy, plan, active, inputs) && KeysAre(b.keys, b.entries)
    requires forall o :: o in plan ==> plan[o].id == o
    requires KeyOf(id, legacy, inputs) in b.keys ==> b.keys[KeyOf(id, legacy, inputs)] == id
    ensures forall o :: o in EndpointIds(legacy, plan, active) && o != id ==> KeyOf(o, legacy, inputs) != KeyOf(id, legacy, inputs)
  {
    hide EntryMap, KeyOf;
    forall o | o in EndpointIds(legacy, plan, active) && o != id ensures KeyOf(o, legacy, inputs) != KeyOf(id, legacy, inputs) {
      EntryKey(o, legacy, plan, active, inputs);
      InEntries(o, legacy, plan, active, inputs);
    }
  }

  lemma InEntries(id: Identity, legacy: map<Identity, Canary>, plan: map<Identity, Record>, active: set<Identity>, inputs: Inputs)
    requires id in legacy.Keys + plan.Keys
    ensures id in EntryMap(legacy, plan, active, inputs)
  {
  }

  lemma EndpointsGrow(endpoints: map<string, Endpoint>, legacy: map<Identity, Canary>, plan: map<Identity, Record>, r: Record, active: set<Identity>, inputs: Inputs)
    requires EndpointsAre(endpoints, legacy, plan, active, inputs)
    requires forall o :: o in EndpointIds(legacy, plan, active) && o != r.id ==> KeyOf(o, legacy, inputs) != KeyOf(r.id, legacy, inputs)
    requires r.id !in plan
    ensures EndpointsAre(if r.id in active then endpoints[KeyOf(r.id, legacy, inputs) := EndpointFor(KeyOf(r.id, legacy, inputs), Heartbeat(r), r.kind == ObservationOnly)] else endpoints,
                         legacy, plan[r.id := r], active, inputs)
  {
    hide KeyOf, EndpointFor, Heartbeat;
    var now := plan[r.id := r];
    var key := KeyOf(r.id, legacy, inputs);
    var ends := if r.id in active then endpoints[key := EndpointFor(key, Heartbeat(r), r.kind == ObservationOnly)] else endpoints;
    assert EndpointIds(legacy, now, active) == EndpointIds(legacy, plan, active) + (if r.id in active then {r.id} else {});
    forall o | o in EndpointIds(legacy, now, active)
      ensures KeyOf(o, legacy, inputs) in ends && ends[KeyOf(o, legacy, inputs)] == EndpointOf(o, legacy, now, active, inputs)
    {
      if o != r.id { assert EndpointOf(o, legacy, now, active, inputs) == EndpointOf(o, legacy, plan, active, inputs); }
    }
    forall k | k in ends ensures exists o :: o in EndpointIds(legacy, now, active) && KeyOf(o, legacy, inputs) == k {
      if k in endpoints {
        var o :| o in EndpointIds(legacy, plan, active) && KeyOf(o, legacy, inputs) == k;
      }
    }
  }

  lemma SuppressedGrow(suppressed: seq<string>, legacy: map<Identity, Canary>, plan: map<Identity, Record>, r: Record, active: set<Identity>)
    requires SuppressedAre(suppressed, legacy, plan, active) && r.id !in plan
    ensures SuppressedAre(if r.id in active && r.id in legacy then suppressed + [legacy[r.id].operation] else suppressed, legacy, plan[r.id := r], active)
  {
    hide HealthIdsOf;
    var ids, now := SuppressedIds(legacy, plan, active), SuppressedIds(legacy, plan[r.id := r], active);
    if r.id in active && r.id in legacy {
      assert now == ids + {r.id};
      OperationsGrow(legacy, ids, r.id);
    } else {
      assert now == ids;
    }
  }

  lemma OperationsGrow(legacy: map<Identity, Canary>, ids: set<Identity>, id: Identity)
    requires id in legacy
    ensures HealthIdsOf(legacy, ids + {id}) == HealthIdsOf(legacy, ids) + {legacy[id].operation}
  {
  }

  lemma {:induction false} RecordBuilt(b: Build, done: seq<Placed>, p: Placed, keys: map<string, Identity>, legacy: map<Identity, Canary>, active: set<Identity>, inputs: Inputs)
    requires Built(b, done, legacy, active, inputs) && p.record.id !in PlanMap(done)
    requires KeyOf(p.record.id, legacy, inputs) in b.keys ==> b.keys[KeyOf(p.record.id, legacy, inputs)] == p.record.id
    requires keys == b.keys[KeyOf(p.record.id, legacy, inputs) := p.record.id]
    ensures Built(Added(b, p.record, keys, legacy, p.record.id in active, inputs), done + [p], legacy, active, inputs)
  {
    hide PlanMap, AdmittedCount, EntryMap, KeysAre, EndpointsAre, SuppressedAre, KeyOf, EndpointFor, Heartbeat, PlanEntry, Distinct, PlanIs;
    PlanSnoc(done, p);
    BuiltEntries(b, p.record, PlanMap(done), keys, legacy, active, inputs);
    BuiltEndpoints(b, done, p.record, legacy, active, inputs);
    SuppressedGrow(b.suppressed, legacy, PlanMap(done), p.record, active);
    SeenGrows(PlanMap(done), active, p.record, b.seenActive);
  }

  lemma BuiltEntries(b: Build, r: Record, plan: map<Identity, Record>, keys: map<string, Identity>, legacy: map<Identity, Canary>,
                     active: set<Identity>, inputs: Inputs)
    requires b.entries == EntryMap(legacy, plan, active, inputs) && KeysAre(b.keys, b.entries) && r.id !in plan
    requires KeyOf(r.id, legacy, inputs) in b.keys ==> b.keys[KeyOf(r.id, legacy, inputs)] == r.id
    requires keys == b.keys[KeyOf(r.id, legacy, inputs) := r.id]
    ensures var entries := b.entries[r.id := PlanEntry(r, r.id in active, legacy, inputs)];
            entries == EntryMap(legacy, plan[r.id := r], active, inputs) && KeysAre(keys, entries)
  {
    hide EntryMap, KeysAre, KeyOf, PlanEntry;
    EntriesGrow(legacy, plan, r, active, inputs);
    PlanEntryKey(r, legacy, active, inputs);
    OldKey(r.id, legacy, plan, active, inputs);
    KeysGrow(b.keys, b.entries, r.id, PlanEntry(r, r.id in active, legacy, inputs));
  }

  lemma {:induction false} BuiltEndpoints(b: Build, done: seq<Placed>, r: Record, legacy: map<Identity, Canary>, active: set<Identity>, inputs: Inputs)
    requires Built(b, done, legacy, active, inputs) && r.id !in PlanMap(done)
    requires KeyOf(r.id, legacy, inputs) in b.keys ==> b.keys[KeyOf(r.id, legacy, inputs)] == r.id
    ensures var key := KeyOf(r.id, legacy, inputs);
            EndpointsAre(if r.id in active then b.endpoints[key := EndpointFor(key, Heartbeat(r), r.kind == ObservationOnly)] else b.endpoints,
                         legacy, PlanMap(done)[r.id := r], active, inputs)
  {
    hide PlanMap, AdmittedCount, EntryMap, KeysAre, EndpointsAre, SuppressedAre, KeyOf, EndpointFor, Heartbeat, Distinct;
    PlanMembers(done);
    KeysDiffer(b, legacy, PlanMap(done), active, inputs, r.id);
    EndpointsGrow(b.endpoints, legacy, PlanMap(done), r, active, inputs);
  }

  lemma SeenGrows(plan: map<Identity, Record>, active: set<Identity>, r: Record, seen: set<Identity>)
    requires r.id !in plan && seen == active * plan.Keys
    ensures var more := if r.id in active then seen + {r.id} else seen;
            more == active * plan[r.id := r].Keys && |more| == |seen| + if r.id in active then 1 else 0
  {
    assert plan[r.id := r].Keys == plan.Keys + {r.id};
  }

  lemma PlanEntryKey(r: Record, legacy: map<Identity, Canary>, active: set<Identity>, inputs: Inputs)
    ensures PlanEntry(r, r.id in active, legacy, inputs).key == KeyOf(r.id, legacy, inputs)
  {
  }

  lemma OldKey(id: Identity, legacy: map<Identity, Canary>, plan: map<Identity, Record>, active: set<Identity>, inputs: Inputs)
    requires id !in plan
    ensures id in EntryMap(legacy, plan, active, inputs) ==> EntryMap(legacy, plan, active, inputs)[id].key == KeyOf(id, legacy, inputs)
  {
  }

  /** A record is taken exactly when it fits those before it. */
  ghost predicate Fits(done: seq<Placed>, r: Record, legacy: map<Identity, Canary>, active: set<Identity>, inputs: Inputs) {
    && RecordAccepted(r, legacy, active, inputs)
    && (r.id !in legacy ==> forall c :: c in legacy ==> legacy[c].gatusKey != inputs.stable(r.id))
    && forall j: nat :: j < |done| ==> KeyOf(done[j].record.id, legacy, inputs) != KeyOf(r.id, legacy, inputs)
  }

  /** The registered keys are those of the canaries and of the records so far. */
  lemma {:induction false} RegisteredFor(b: Build, done: seq<Placed>, legacy: map<Identity, Canary>, active: set<Identity>, inputs: Inputs)
    requires Built(b, done, legacy, active, inputs)
    ensures var ids := legacy.Keys + PlanMap(done).Keys;
            && (forall id :: id in ids ==> KeyOf(id, legacy, inputs) in b.keys && b.keys[KeyOf(id, legacy, inputs)] == id)
            && (forall k :: k in b.keys ==> b.keys[k] in ids && KeyOf(b.keys[k], legacy, inputs) == k)
  {
    hide EndpointsAre, SuppressedAre, AdmittedCount, EntryMap, PlanMap, KeyOf, Distinct;
    var plan := PlanMap(done);
    PlanMembers(done);
    EntryDomain(legacy, plan, active, inputs);
    forall id | id in legacy.Keys + plan.Keys ensures b.entries[id].key == KeyOf(id, legacy, inputs) {
      EntryKey(id, legacy, plan, active, inputs);
    }
  }

  lemma {:induction false} KeyFree(b: Build, done: seq<Placed>, r: Record, legacy: map<Identity, Canary>, active: set<Identity>, inputs: Inputs)
    requires Built(b, done, legacy, active, inputs) && r.id !in PlanMap(done)
    ensures (KeyOf(r.id, legacy, inputs) in b.keys ==> b.keys[KeyOf(r.id, legacy, inputs)] == r.id) <==>
              && (r.id !in legacy ==> forall c :: c in legacy ==> legacy[c].gatusKey != inputs.stable(r.id))
              && forall j: nat :: j < |done| ==> KeyOf(done[j].record.id, legacy, inputs) != KeyOf(r.id, legacy, inputs)
  {
    hide Built, PlanMap, Distinct;
    var plan, key := PlanMap(done), KeyOf(r.id, legacy, inputs);
    RegisteredFor(b, done, legacy, active, inputs);
    PlanMembers(done);
    forall j: nat | j < |done| ensures b.keys[KeyOf(done[j].record.id, legacy, inputs)] == done[j].record.id && done[j].record.id != r.id {
      assert done[j] in done;
    }
    if key in b.keys && b.keys[key] in plan {
      var p :| p in done && p.record == plan[b.keys[key]];
      var j: nat :| j < |done| && done[j] == p;
      assert KeyOf(done[j].record.id, legacy, inputs) == key;
    }
  }

  lemma EntryDomain(legacy: map<Identity, Canary>, plan: map<Identity, Record>, active: set<Identity>, inputs: Inputs)
    ensures EntryMap(legacy, plan, active, inputs).Keys == legacy.Keys + plan.Keys
  {
  }

  method AddRecord(b: Build, p: Placed, legacy: map<Identity, Canary>, active: set<Identity>, inputs: Inputs, ghost done: seq<Placed>)
    returns (r: Option<Build>)
    requires Built(b, done, legacy, active, inputs) && p.record.id !in PlanMap(done)
    requires forall id :: id in legacy ==> id.source == DATA_GO_KR && GatusKey(legacy[id].gatusKey)
    ensures r.Some? <==> Fits(done, p.record, legacy, active, inputs)
    ensures r.Some? ==> Built(r.value, done + [p], legacy, active, inputs)
  {
    hide Built, PlanMap, GatusKey, EndpointFor, Heartbeat, Executable, PlanEntry;
    var record := p.record;
    var id := record.id;
    var overlapsLegacy := id in b.entries;
    Overlap(b, done, id, legacy, active, inputs);
    KeyFree(b, done, record, legacy, active, inputs);
    if (overlapsLegacy && id.source != DATA_GO_KR) || (id.source == DATA_GO_KR && id.operation !in inputs.metadata) { return None; }
    var selected := id in active;
    if selected && (!Executable(record) || record.period < SECOND || record.period > MAX_PERIOD) { return None; }
    var key := if overlapsLegacy then b.entries[id].key else inputs.stable(id);
    if selected && !GatusKey(key) { return None; }
    var keys := RegisterKey(b.keys, key, id);
    if keys.None? {
      if key == "" { EmptyKey(); }
      return None;
    }
    RecordBuilt(b, done, p, keys.value, legacy, active, inputs);
    var entry := PlanEntry(record, selected, legacy, inputs);
    var next := b.(entries := b.entries[id := entry], keys := keys.value, known := b.known + 1,
                   admitted := b.admitted + (if record.admission == Admitted then 1 else 0));
    if selected {
      next := next.(seenActive := next.seenActive + {id}, activated := next.activated + 1,
                    endpoints := next.endpoints[key := EndpointFor(key, Heartbeat(record), record.kind == ObservationOnly)]);
      if overlapsLegacy { next := next.(suppressed := next.suppressed + [legacy[id].operation]); }
    }
    r := Some(next);
  }

  lemma EmptyKey()
    ensures !GatusKey("")
  {
  }

  lemma {:induction false} Overlap(b: Build, done: seq<Placed>, id: Identity, legacy: map<Identity, Canary>, active: set<Identity>, inputs: Inputs)
    requires Built(b, done, legacy, active, inputs) && id !in PlanMap(done)
    ensures id in b.entries <==> id in legacy
    ensures id in b.entries ==> b.entries[id].key == KeyOf(id, legacy, inputs) == legacy[id].gatusKey
  {
    hide EndpointsAre, SuppressedAre, AdmittedCount, PlanMap;
  }

  lemma FitsSnoc(done: seq<Placed>, p: Placed, legacy: map<Identity, Canary>, active: set<Identity>, inputs: Inputs)
    ensures RecordsAccepted(done + [p], legacy, active, inputs) <==>
              RecordsAccepted(done, legacy, active, inputs) && Fits(done, p.record, legacy, active, inputs)
  {
    hide RecordAccepted, KeyOf;
    var all := done + [p];
    assert forall i: nat :: i < |done| ==> all[i] == done[i];
    assert all[|done|] == p;
  }

  lemma FitsPrefix(all: seq<Placed>, n: nat, legacy: map<Identity, Canary>, active: set<Identity>, inputs: Inputs)
    requires n <= |all| && RecordsAccepted(all, legacy, active, inputs)
    ensures RecordsAccepted(all[..n], legacy, active, inputs)
  {
    hide RecordAccepted, KeyOf;
    assert forall i: nat :: i < n ==> all[..n][i] == all[i];
  }

  lemma {:induction false} FlatSnoc(shards: seq<Shard>, s: Shard)
    ensures Flat(shards + [s]) == Flat(shards) + Place(s, |s.records|)
  {
    assert (shards + [s])[..|shards|] == shards;
  }

  lemma {:induction false} FlatPrefix(shards: seq<Shard>, n: nat)
    requires n <= |shards|
    ensures Flat(shards[..n]) <= Flat(shards)
  {
    if n == |shards| {
      assert shards[..n] == shards;
    } else {
      assert shards[..|shards| - 1][..n] == shards[..n];
      FlatPrefix(shards[..|shards| - 1], n);
    }
  }

  lemma FreshRecord(all: seq<Placed>, n: nat)
    requires n < |all| && VerifiedPlan(all)
    ensures all[n].record.id !in PlanMap(all[..n])
  {
    hide PlanMap, SourceId, Distinct;
    PlanMembers(all[..n]);
    forall p | p in all[..n] ensures p.record.id != all[n].record.id {
      var j: nat :| j < n && all[..n][j] == p;
    }
  }

  /** The records walked are a prefix of the plan's. */
  lemma {:induction false} WalkedPrefix(shards: seq<Shard>, i: nat, j: nat)
    requires i < |shards| && j <= |shards[i].records|
    ensures var done := Flat(shards[..i]) + Place(shards[i], j);
            && |done| <= |Flat(shards)| && done == Flat(shards)[..|done|]
            && (j < |shards[i].records| ==> |done| < |Flat(shards)| && Flat(shards)[|done|] == Placed(shards[i].records[j], shards[i].sha))
  {
    var s := shards[i];
    assert shards[..i + 1] == shards[..i] + [s];
    FlatSnoc(shards[..i], s);
    FlatPrefix(shards, i + 1);
    var whole, done := Flat(shards[..i]) + Place(s, |s.records|), Flat(shards[..i]) + Place(s, j);
    assert whole == Flat(shards)[..|whole|];
    assert forall k: nat :: k < |done| ==> done[k] == whole[k];
    if j < |s.records| { assert whole[|done|] == Placed(s.records[j], s.sha); }
  }

  method AddPlan(b: Build, plan: Plan, legacy: map<Identity, Canary>, active: set<Identity>, inputs: Inputs) returns (r: Option<Build>)
    requires Built(b, [], legacy, active, inputs) && VerifiedPlan(Flat(plan.shards))
    requires forall id :: id in legacy ==> id.source == DATA_GO_KR && GatusKey(legacy[id].gatusKey)
    ensures r.Some? <==> RecordsAccepted(Flat(plan.shards), legacy, active, inputs)
    ensures r.Some? ==> Built(r.value, Flat(plan.shards), legacy, active, inputs)
  {
    hide *;
    var build := b;
    ghost var all := Flat(plan.shards);
    ghost var done: seq<Placed> := [];
    StartRecords(plan.shards, legacy, active, inputs);
    for i := 0 to |plan.shards|
      invariant done == Flat(plan.shards[..i]) && Built(build, done, legacy, active, inputs) && RecordsAccepted(done, legacy, active, inputs)
    {
      var shard := plan.shards[i];
      NoPlace(shard, done);
      for j := 0 to |shard.records|
        invariant done == Flat(plan.shards[..i]) + Place(shard, j)
        invariant Built(build, done, legacy, active, inputs) && RecordsAccepted(done, legacy, active, inputs)
      {
        var p := Placed(shard.records[j], shard.sha);
        WalkedPrefix(plan.shards, i, j);
        FreshRecord(all, |done|);
        var next := AddRecord(build, p, legacy, active, inputs, done);
        FitsSnoc(done, p, legacy, active, inputs);
        PlaceSnoc(shard, j, Flat(plan.shards[..i]));
        if next.None? {
          RecordRefused(all, done, p, legacy, active, inputs);
          return None;
        }
        build := next.value;
        done := done + [p];
      }
      assert plan.shards[..i + 1] == plan.shards[..i] + [shard];
      FlatSnoc(plan.shards[..i], shard);
    }
    assert plan.shards[..|plan.shards|] == plan.shards;
    r := Some(build);
  }

  lemma StartRecords(shards: seq<Shard>, legacy: map<Identity, Canary>, active: set<Identity>, inputs: Inputs)
    ensures Flat(shards[..0]) == [] && RecordsAccepted([], legacy, active, inputs)
  {
  }

  lemma NoPlace(s: Shard, done: seq<Placed>)
    ensures done == done + Place(s, 0)
  {
  }

  lemma PlaceSnoc(s: Shard, j: nat, front: seq<Placed>)
    requires j < |s.records|
    ensures front + Place(s, j + 1) == front + Place(s, j) + [Placed(s.records[j], s.sha)]
  {
  }

  lemma RecordRefused(all: seq<Placed>, done: seq<Placed>, p: Placed, legacy: map<Identity, Canary>, active: set<Identity>, inputs: Inputs)
    requires |done| < |all| && done == all[..|done|] && all[|done|] == p
    requires !RecordsAccepted(done + [p], legacy, active, inputs)
    ensures !RecordsAccepted(all, legacy, active, inputs)
  {
    hide RecordsAccepted;
    assert all[..|done| + 1] == done + [p];
    if RecordsAccepted(all, legacy, active, inputs) { FitsPrefix(all, |done| + 1, legacy, active, inputs); }
  }
}
