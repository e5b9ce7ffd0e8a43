/** The Gatus identity map: what a pinned plan, the canaries and an activation determine,
    and what the worker demands of the map before it takes targets from it. */
module GatusModel {
  import opened Foundations
  import opened Text

  const MAX_TARGETS: int := 100_000
  const MAX_PERIOD: int := 365 * 24 * 3600 * SECOND
  const DATA_GO_KR: string := "data_go_kr"

  /** An operation's identity; IdentityKeyUnique shows the program's key is as good. */
  datatype Identity = Identity(source: string, operation: string)

  datatype Canary = Canary(operation: string, gatusKey: string, heartbeat: int)

  datatype Link = Link(healthId: string, registryOperation: string, apiId: string, datasetId: string)

  datatype Admission = Admitted | NotAdmitted | UnknownAdmission

  datatype AssertionKind = ObservationOnly | LegacyCanary | OtherKind(text: string)

  datatype Record = Record(
    id: Identity, kind: AssertionKind, admission: Admission, period: int, eligible: bool, testOnly: bool,
    requestComplete: bool, runtimeBound: bool, quotaAdmitted: bool)

  datatype Shard = Shard(sha: string, records: seq<Record>)

  /** The digest of a source's operation identifiers, in order; taken as injective. */
  datatype IdentitySet = IdentitySetDigest(operations: seq<string>)

  /** A plan names, for every source it covers, the digest of its operations. */
  datatype Plan = Plan(shards: seq<Shard>, known: int, scopes: map<string, IdentitySet>)

  /** The comparisons of pins, digests and sizes that come out of the files themselves. */
  datatype Pins = Pins(
    base: bool, activation: bool, sourceArtifact: bool, configFits: seq<Endpoint> -> bool, mappingFits: Mapping -> bool)

  datatype Inputs = Inputs(
    canaries: seq<Canary>, links: map<string, Link>, metadata: set<string>, identitySet: IdentitySet,
    plan: Option<Plan>, activation: seq<Identity>, stable: Identity -> string, pins: Pins)

  datatype Entry = Entry(
    id: Identity, key: string, kind: AssertionKind, admission: Admission, planActive: bool, legacyActive: bool,
    legacyHealthId: string, periodSeconds: int, active: bool)

  datatype Endpoint = Endpoint(key: string, group: string, name: string, heartbeat: int, observationOnly: bool)

  datatype Mapping = Mapping(
    planVerified: bool, known: int, admitted: int, activated: int, legacyCanaries: int, overlaps: int,
    configured: int, suppressed: seq<string>, operations: seq<Entry>)

  datatype Artifacts = Artifacts(mapping: Mapping, endpoints: seq<Endpoint>)

  datatype Target = Target(record: Record, sha: string, key: string)

  // ---------------------------------------------------------------------
  // Keys
  // ---------------------------------------------------------------------

  predicate KeyChar(c: char) { LowerLetter(c) || Digit(c) || c == '-' }

  predicate KeyPart(s: string) { s != "" && forall i :: 0 <= i < |s| ==> KeyChar(s[i]) }

  /** A key is a group and a name with one underscore between them. */
  predicate GatusKey(key: string) {
    var i := IndexOf('_', key);
    i < |key| && KeyPart(key[..i]) && KeyPart(key[i + 1..])
  }

  function GroupOf(key: string): string { key[..IndexOf('_', key)] }

  function NameOf(key: string): string {
    var i := IndexOf('_', key);
    if i < |key| then key[i + 1..] else ""
  }

  predicate SourceId(s: string) {
    && s != "" && s[0] != '_' && s[|s| - 1] != '_'
    && forall i :: 0 <= i < |s| ==> (LowerLetter(s[i]) || Digit(s[i]) || s[i] == '_') && (i > 0 && s[i] == '_' ==> s[i - 1] != '_')
  }

  /** The text the program uses as the key of its maps. */
  function IdentityKey(id: Identity): string { id.source + ['\0'] + id.operation }

  lemma IdentityKeyUnique(a: Identity, b: Identity)
    requires SourceId(a.source) && SourceId(b.source) && IdentityKey(a) == IdentityKey(b)
    ensures a == b
  {
    SplitUnique(a.source, a.operation, b.source, b.operation, '\0');
  }

  // ---------------------------------------------------------------------
  // What the inputs determine
  // ---------------------------------------------------------------------

  predicate Linked(c: Canary, inputs: Inputs) {
    && c.operation in inputs.links
    && var l := inputs.links[c.operation]; l.healthId == c.operation && l.registryOperation != "" && l.apiId == l.datasetId
  }

  function CanaryId(c: Canary, inputs: Inputs): Identity {
    Identity(DATA_GO_KR, if c.operation in inputs.links then inputs.links[c.operation].registryOperation else "")
  }

  predicate CanariesAccepted(canaries: seq<Canary>, inputs: Inputs) {
    forall i: nat :: i < |canaries| ==>
      && Linked(canaries[i], inputs) && GatusKey(canaries[i].gatusKey)
      && forall j: nat :: j < i ==>
           CanaryId(canaries[j], inputs) != CanaryId(canaries[i], inputs) && canaries[j].gatusKey != canaries[i].gatusKey
  }

  function LegacyMap(canaries: seq<Canary>, inputs: Inputs): map<Identity, Canary> {
    if canaries == [] then map[]
    else LegacyMap(canaries[..|canaries| - 1], inputs)[CanaryId(canaries[|canaries| - 1], inputs) := canaries[|canaries| - 1]]
  }

  datatype Placed = Placed(record: Record, sha: string)

  function Place(s: Shard, n: nat): seq<Placed>
    requires n <= |s.records|
  {
    seq(n, i requires 0 <= i < n => Placed(s.records[i], s.sha))
  }

  function Flat(shards: seq<Shard>): seq<Placed> {
    if shards == [] then [] else Flat(shards[..|shards| - 1]) + Place(shards[|shards| - 1], |shards[|shards| - 1].records|)
  }

  function Records(inputs: Inputs): seq<Placed> { if inputs.plan.Some? then Flat(inputs.plan.value.shards) else [] }

  /** Loading a plan establishes this for every record. */
  predicate VerifiedPlan(records: seq<Placed>) {
    forall i: nat :: i < |records| ==>
      var r := records[i].record;
      && SourceId(r.id.source) && r.id.operation != "" && r.admission != UnknownAdmission
      && (r.period == 0 || SECOND <= r.period <= MAX_PERIOD)
      && forall j: nat :: j < i ==> records[j].record.id != r.id
  }

  function PlanMap(records: seq<Placed>): map<Identity, Record> {
    if records == [] then map[]
    else PlanMap(records[..|records| - 1])[records[|records| - 1].record.id := records[|records| - 1].record]
  }

  function ActiveSet(inputs: Inputs): set<Identity> { if inputs.plan.Some? then set id | id in inputs.activation else {} }

  predicate Executable(r: Record) {
    && r.eligible && !r.testOnly && r.admission == Admitted && r.requestComplete && r.runtimeBound && r.quotaAdmitted
  }

  function KeyOf(id: Identity, legacy: map<Identity, Canary>, inputs: Inputs): string {
    if id in legacy then legacy[id].gatusKey else inputs.stable(id)
  }

  function LegacyEntry(id: Identity, c: Canary): Entry {
    Entry(id, c.gatusKey, LegacyCanary, UnknownAdmission, false, true, c.operation, 0, true)
  }

  function PlanEntry(r: Record, selected: bool, legacy: map<Identity, Canary>, inputs: Inputs): Entry {
    var seconds := if r.period > 0 then WholeSeconds(r.period) else 0;
    if r.id in legacy then
      Entry(r.id, legacy[r.id].gatusKey, r.kind, r.admission, selected, !selected, legacy[r.id].operation, seconds, true)
    else Entry(r.id, inputs.stable(r.id), r.kind, r.admission, selected, false, "", seconds, selected)
  }

  function EntryMap(legacy: map<Identity, Canary>, plan: map<Identity, Record>, active: set<Identity>, inputs: Inputs): map<Identity, Entry> {
    map id | id in legacy.Keys + plan.Keys ::
      if id in plan then PlanEntry(plan[id], id in active, legacy, inputs) else LegacyEntry(id, if id in legacy then legacy[id] else Canary("", "", 0))
  }

  function Heartbeat(r: Record): int { if r.kind == ObservationOnly then 0 else 2 * r.period }

  function EndpointFor(key: string, heartbeat: int, observationOnly: bool): Endpoint {
    Endpoint(key, GroupOf(key), NameOf(key), heartbeat, observationOnly)
  }

  /** The receiver of an identity: the plan's once the operation is activated, else the canary's. */
  function EndpointOf(id: Identity, legacy: map<Identity, Canary>, plan: map<Identity, Record>, active: set<Identity>, inputs: Inputs): Endpoint {
    var key := KeyOf(id, legacy, inputs);
    if id in plan && id in active then EndpointFor(key, Heartbeat(plan[id]), plan[id].kind == ObservationOnly)
    else EndpointFor(key, if id in legacy then legacy[id].heartbeat else 0, false)
  }

  function EndpointIds(legacy: map<Identity, Canary>, plan: map<Identity, Record>, active: set<Identity>): set<Identity> {
    legacy.Keys + (plan.Keys * active)
  }

  /** One endpoint for every configured identity, under its key. */
  ghost predicate EndpointsAre(endpoints: map<string, Endpoint>, legacy: map<Identity, Canary>, plan: map<Identity, Record>, active: set<Identity>, inputs: Inputs) {
    && (forall id :: id in EndpointIds(legacy, plan, active) ==>
          var key := KeyOf(id, legacy, inputs); key in endpoints && endpoints[key] == EndpointOf(id, legacy, plan, active, inputs))
    && (forall key :: key in endpoints ==> exists id :: id in EndpointIds(legacy, plan, active) && KeyOf(id, legacy, inputs) == key)
  }

  predicate RecordAccepted(r: Record, legacy: map<Identity, Canary>, active: set<Identity>, inputs: Inputs) {
    && (r.id.source == DATA_GO_KR ==> r.id.operation in inputs.metadata)
    && (r.id in active ==> Executable(r) && SECOND <= r.period <= MAX_PERIOD)
    && (if r.id in active then GatusKey(KeyOf(r.id, legacy, inputs)) else KeyOf(r.id, legacy, inputs) != "")
  }

  /** No two identities may end up under one key. */
  predicate RecordsAccepted(records: seq<Placed>, legacy: map<Identity, Canary>, active: set<Identity>, inputs: Inputs) {
    forall i: nat :: i < |records| ==>
      var id := records[i].record.id;
      && RecordAccepted(records[i].record, legacy, active, inputs)
      && (id !in legacy ==> forall c :: c in legacy ==> legacy[c].gatusKey != inputs.stable(id))
      && forall j: nat :: j < i ==> KeyOf(records[j].record.id, legacy, inputs) != KeyOf(id, legacy, inputs)
  }

  /** A source's operations, in the order the plan lists them. */
  function OperationsOf(source: string, records: seq<Placed>): seq<string> {
    if records == [] then []
    else
      var last := records[|records| - 1].record.id;
      OperationsOf(source, records[..|records| - 1]) + if last.source == source then [last.operation] else []
  }

  /** What loading the metadata and the plan establishes about their identity sets. */
  ghost predicate VerifiedInventory(inputs: Inputs) {
    && inputs.identitySet == IdentitySetDigest(Ascending(Less, inputs.metadata))
    && (forall h :: h in inputs.links ==> inputs.links[h].registryOperation in inputs.metadata)
    && (inputs.plan.Some? ==>
          forall s :: s in inputs.plan.value.scopes ==>
            inputs.plan.value.scopes[s] == IdentitySetDigest(OperationsOf(s, Records(inputs))))
  }

  /** The plan was made from the inventory the metadata describe. */
  predicate SourceBound(inputs: Inputs) {
    inputs.plan.Some? ==>
      && inputs.pins.sourceArtifact && inputs.plan.value.known <= MAX_TARGETS
      && DATA_GO_KR in inputs.plan.value.scopes && inputs.plan.value.scopes[DATA_GO_KR] == inputs.identitySet
  }

  predicate SelectionAccepted(inputs: Inputs) {
    inputs.plan.Some? ==>
      && NoDuplicates(inputs.activation) && ActiveSet(inputs) <= PlanMap(Records(inputs)).Keys
      && |Records(inputs)| == inputs.plan.value.known
  }

  predicate RendersEndpoint(e: Endpoint) {
    && GatusKey(e.key) && e.group != "" && e.name != ""
    && (if e.observationOnly then e.heartbeat == 0 else SECOND <= e.heartbeat <= 2 * MAX_PERIOD)
  }

  /** Loading the canary configuration fixes heartbeats of ten to thirty minutes. */
  predicate CanaryHeartbeats(inputs: Inputs) {
    forall i: nat :: i < |inputs.canaries| ==> SECOND <= inputs.canaries[i].heartbeat <= 2 * MAX_PERIOD
  }

  /** Exactly when the artifacts are generated. */
  ghost predicate Generates(inputs: Inputs) {
    var legacy, active, plan := LegacyMap(inputs.canaries, inputs), ActiveSet(inputs), PlanMap(Records(inputs));
    && inputs.pins.base && inputs.pins.activation && SourceBound(inputs)
    && CanariesAccepted(inputs.canaries, inputs) && RecordsAccepted(Records(inputs), legacy, active, inputs)
    && SelectionAccepted(inputs)
    && |EntryMap(legacy, plan, active, inputs)| <= MAX_TARGETS && 0 < |EndpointIds(legacy, plan, active)| <= MAX_TARGETS
    && inputs.pins.mappingFits(MappingOf(inputs))
    && (forall endpoints :: EndpointsAre(endpoints, legacy, plan, active, inputs) ==> inputs.pins.configFits(OrderedEndpoints(endpoints)))
  }

  predicate ById(a: Entry, b: Entry) {
    if a.id.source != b.id.source then Less(a.id.source, b.id.source) else Less(a.id.operation, b.id.operation)
  }

  predicate ByTarget(a: Target, b: Target) {
    if a.record.id.source != b.record.id.source then Less(a.record.id.source, b.record.id.source)
    else Less(a.record.id.operation, b.record.id.operation)
  }

  predicate ByKey(a: Endpoint, b: Endpoint) { Less(a.key, b.key) }

  ghost function OrderedEntries(entries: map<Identity, Entry>): seq<Entry> { Ascending(ById, entries.Values) }

  ghost function OrderedEndpoints(endpoints: map<string, Endpoint>): seq<Endpoint> { Ascending(ByKey, endpoints.Values) }

  function AdmittedCount(records: seq<Placed>): nat {
    if records == [] then 0
    else AdmittedCount(records[..|records| - 1]) + (if records[|records| - 1].record.admission == Admitted then 1 else 0)
  }

  /** The map the inputs determine. */
  ghost function MappingOf(inputs: Inputs): Mapping {
    var legacy, active, plan := LegacyMap(inputs.canaries, inputs), ActiveSet(inputs), PlanMap(Records(inputs));
    Mapping(inputs.plan.Some?, |Records(inputs)|, AdmittedCount(Records(inputs)), |active|, |inputs.canaries|,
            |legacy.Keys * active|, |EndpointIds(legacy, plan, active)|,
            Ascending(Less, set id | id in legacy.Keys * active :: legacy[id].operation),
            OrderedEntries(EntryMap(legacy, plan, active, inputs)))
  }

  /** What has been generated, in terms of the inputs alone. */
  ghost predicate Generated(a: Artifacts, inputs: Inputs) {
    var legacy, active, plan := LegacyMap(inputs.canaries, inputs), ActiveSet(inputs), PlanMap(Records(inputs));
    && a.mapping == MappingOf(inputs)
    && (exists endpoints :: EndpointsAre(endpoints, legacy, plan, active, inputs) && a.endpoints == OrderedEndpoints(endpoints))
  }

  // ---------------------------------------------------------------------
  // What the worker demands
  // ---------------------------------------------------------------------

  function Index(operations: seq<Entry>): map<Identity, Entry> {
    if operations == [] then map[]
    else Index(operations[..|operations| - 1])[operations[|operations| - 1].id := operations[|operations| - 1]]
  }

  predicate ItemsAccepted(operations: seq<Entry>) {
    forall i: nat :: i < |operations| ==>
      && SourceId(operations[i].id.source) && operations[i].id.operation != "" && operations[i].key != ""
      && forall j: nat :: j < i ==> operations[j].id != operations[i].id
  }

  predicate RecordMatches(r: Record, byIdentity: map<Identity, Entry>) {
    && r.id in byIdentity
    && var e := byIdentity[r.id];
       && e.admission == r.admission && e.kind == r.kind && e.periodSeconds == WholeSeconds(r.period)
       && (if e.planActive then e.active && !e.legacyActive && Executable(r) else e.active ==> e.legacyActive)
  }

  predicate RecordsMatch(records: seq<Placed>, byIdentity: map<Identity, Entry>) {
    forall i: nat :: i < |records| ==>
      && RecordMatches(records[i].record, byIdentity)
      && forall j: nat :: j < i && byIdentity[records[i].record.id].planActive ==> records[j].record.id != records[i].record.id
  }

  predicate Exact(plan: Plan, mapping: Mapping) {
    var byIdentity, records := Index(mapping.operations), Flat(plan.shards);
    && mapping.planVerified && mapping.known == plan.known && 0 <= mapping.activated <= mapping.known
    && |mapping.operations| <= MAX_TARGETS && ItemsAccepted(mapping.operations) && RecordsMatch(records, byIdentity)
    && forall id :: id in byIdentity && byIdentity[id].planActive ==> exists i: nat :: i < |records| && records[i].record.id == id
  }

  ghost function TargetSet(records: seq<Placed>, byIdentity: map<Identity, Entry>): set<Target> {
    set p | p in records && p.record.id in byIdentity && byIdentity[p.record.id].planActive ::
      Target(p.record, p.sha, byIdentity[p.record.id].key)
  }
}
