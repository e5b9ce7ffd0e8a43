/** What correlating a provider outage means: the latest observation of every operation
    inside the window, the notices in force, and the receipt they determine. */
module CorrelationModel {
  import opened Foundations
  import opened Text

  // Zero is the unset time. The rule is the one accepted rule.
  const WINDOW_SECONDS: int := 900
  const FUTURE_SKEW_SECONDS: int := 30
  const NOTICE_MAX_AGE_SECONDS: int := 86_400
  const MINIMUM_AFFECTED: int := 2
  const MINIMUM_CONTROLS: int := 1
  const PROVIDER: string := "data.go.kr"
  const CANARY_SCOPE: string := "datapan-health-public-canary-v1"

  datatype Schema = ObservationV1 | NoticeV1 | ReplayV1 | ReceiptV1 | AssertionV1 | OtherSchema

  datatype Entry = Entry(dataset: string, dependency: string, policyKey: string, policyVersion: int)

  datatype Outcome = HealthyOutcome | UnhealthyOutcome | OtherOutcome

  datatype Category = HealthyCategory | ProviderFailure | Timeout | TransportFailure | OtherCategory

  datatype Observation = Observation(
    schema: Schema, ref: string, observedAt: int, operation: string, dependency: string, policyKey: string,
    policyVersion: int, canaryScope: string, outcome: Outcome, category: Category, status: int, redacted: bool)

  datatype Authority = ProviderAuthority | PortalAuthority | OtherAuthority

  datatype NoticeState = ActiveNotice | CorrectedNotice | WithdrawnNotice | OtherNoticeState

  datatype Effect = NoEffect | ServiceSuspended | DegradedEffect | OtherEffect

  datatype Notice = Notice(
    schema: Schema, id: string, version: int, authority: Authority, observedAt: int, effectiveFrom: int,
    effectiveUntil: int, state: NoticeState, effect: Effect, dependency: string, operations: seq<string>,
    sourceAccepted: bool, sha: string, supersedes: int)

  datatype Scope = Scope(provider: string, dependency: string, canaryScope: string)

  datatype Replay = Replay(assessedAt: int, scope: Scope, observations: seq<Observation>, notices: seq<Notice>)

  datatype RuleReference = AcceptedRule | OtherRule

  datatype Cause = UnknownCause | OutageCause | OtherCause

  datatype Determination = UnknownDetermination | Inferred | ObservedDetermination | OtherDetermination

  datatype ResultState = Insufficient | Degraded | OtherState

  datatype Ref = Ref(operation: string, observation: string)

  /** What an evidence reference digests; the digest is taken as injective. */
  datatype EvidenceIdentity = EvidenceIdentity(
    assessedAt: int, scope: Scope, operation: string, affected: seq<Ref>, controls: seq<Ref>)

  datatype EvidenceRef = HealthCorrelation(identity: EvidenceIdentity) | OtherRef(text: string, wellFormed: bool)

  datatype Timing = Timing(standard: bool, age: int, remaining: int)

  datatype Evidence = Evidence(standard: bool, ref: EvidenceRef, detail: string, state: ResultState, policy: string, timing: Timing)

  datatype Binding = Binding(operation: string, dataset: string, dependency: string, observation: string, evidence: EvidenceRef)

  datatype Boundaries = Minimized | OtherBoundaries

  datatype Receipt = Receipt(
    schema: Schema, assessedAt: int, rule: RuleReference, scope: Scope, cause: Cause, determination: Determination,
    state: ResultState, affectedCount: int, controlCount: int, affected: seq<Ref>, controls: seq<Ref>,
    evidence: seq<Evidence>, bindings: seq<Binding>, linked: string, considered: seq<string>,
    superseded: seq<string>, boundaries: Boundaries)

  datatype CorrelationError =
    | NotBound | CatalogIncomplete | DuplicateReference | InvalidObservation | ConflictingTimestamps
    | InvalidNotice | BrokenChain

  // ---------------------------------------------------------------------
  // Observations
  // ---------------------------------------------------------------------

  predicate ObservationRef(s: string) {
    var prefix := "health-observation:sha256:";
    prefix <= s && Sha256Text(s[|prefix|..])
  }

  predicate AffectedCategory(c: Category) { c == ProviderFailure || c == Timeout || c == TransportFailure }

  datatype Verdict = Refused | OutOfWindow | Eligible

  predicate BoundObservation(o: Observation, entries: map<string, Entry>) {
    && o.schema == ObservationV1 && o.operation in entries && ObservationRef(o.ref) && o.observedAt != 0
    && o.dependency == entries[o.operation].dependency && o.policyKey == entries[o.operation].policyKey
    && o.policyVersion == entries[o.operation].policyVersion && o.canaryScope == CANARY_SCOPE
  }

  predicate ConsistentObservation(o: Observation) {
    match o.outcome
    case HealthyOutcome => o.category == HealthyCategory && 200 <= o.status <= 299
    case UnhealthyOutcome =>
      && AffectedCategory(o.category) && 0 <= o.status <= 599
      && (o.category == ProviderFailure ==> 500 <= o.status <= 599)
      && (o.category == TransportFailure ==> o.status == 0)
      && (o.category == Timeout ==> o.status == 0 || o.status == 408 || o.status == 504)
    case OtherOutcome => false
  }

  function Judge(o: Observation, replay: Replay, entries: map<string, Entry>): Verdict {
    var age := replay.assessedAt - o.observedAt;
    if !BoundObservation(o, entries) then Refused
    else if age < -FUTURE_SKEW_SECONDS * SECOND || age > WINDOW_SECONDS * SECOND then OutOfWindow
    else if !o.redacted || !ConsistentObservation(o) then Refused
    else Eligible
  }

  /** The observations that can become an operation's latest. */
  predicate Counted(o: Observation, replay: Replay, entries: map<string, Entry>) {
    && Judge(o, replay, entries) == Eligible
    && o.dependency == replay.scope.dependency && o.canaryScope == replay.scope.canaryScope
  }

  /** One turn of the scan: the observation is refused, passed over, or compared with its
      operation's latest so far. */
  function Scan(latest: map<string, Observation>, before: seq<Observation>, o: Observation, replay: Replay, entries: map<string, Entry>):
      Result<map<string, Observation>, CorrelationError>
  {
    if exists p :: p in before && p.ref == o.ref then Err(DuplicateReference)
    else if Judge(o, replay, entries) == Refused then Err(InvalidObservation)
    else if !Counted(o, replay, entries) then Ok(latest)
    else if o.operation !in latest || o.observedAt > latest[o.operation].observedAt then Ok(latest[o.operation := o])
    else if o.observedAt == latest[o.operation].observedAt && o.ref != latest[o.operation].ref then Err(ConflictingTimestamps)
    else Ok(latest)
  }

  function Latest(observations: seq<Observation>, replay: Replay, entries: map<string, Entry>):
      Result<map<string, Observation>, CorrelationError>
  {
    if observations == [] then Ok(map[])
    else
      var n := |observations| - 1;
      match Latest(observations[..n], replay, entries)
      case Err(e) => Err(e)
      case Ok(latest) => Scan(latest, observations[..n], observations[n], replay, entries)
  }

  lemma {:induction false} LatestSnoc(observations: seq<Observation>, o: Observation, replay: Replay, entries: map<string, Entry>)
    ensures Latest(observations + [o], replay, entries) ==
            if Latest(observations, replay, entries).Err? then Latest(observations, replay, entries)
            else Scan(Latest(observations, replay, entries).value, observations, o, replay, entries)
  {
    assert (observations + [o])[..|observations|] == observations;
  }

  /** The unique newest counted observation of every operation that has one. */
  ghost predicate IsLatest(latest: map<string, Observation>, observations: seq<Observation>, replay: Replay, entries: map<string, Entry>) {
    && (forall op :: op in latest ==>
          latest[op] in observations && latest[op].operation == op && Counted(latest[op], replay, entries))
    && (forall o :: o in observations && Counted(o, replay, entries) ==>
          o.operation in latest && (o == latest[o.operation] || o.observedAt < latest[o.operation].observedAt))
  }

  lemma {:induction false} LatestIsMaximum(observations: seq<Observation>, replay: Replay, entries: map<string, Entry>)
    requires Latest(observations, replay, entries).Ok?
    ensures IsLatest(Latest(observations, replay, entries).value, observations, replay, entries)
  {
    hide Judge, Counted, Scan, IsLatest;
    if observations == [] {
      EmptyIsLatest(replay, entries);
    } else {
      var n := |observations| - 1;
      LatestIsMaximum(observations[..n], replay, entries);
      ScanKeepsLatest(Latest(observations[..n], replay, entries).value, observations[..n], observations[n], replay, entries);
      assert observations == observations[..n] + [observations[n]];
    }
  }

  lemma EmptyIsLatest(replay: Replay, entries: map<string, Entry>)
    ensures IsLatest(map[], [], replay, entries)
  {
  }

  lemma ScanKeepsLatest(latest: map<string, Observation>, before: seq<Observation>, o: Observation, replay: Replay, entries: map<string, Entry>)
    requires IsLatest(latest, before, replay, entries) && Scan(latest, before, o, replay, entries).Ok?
    ensures IsLatest(Scan(latest, before, o, replay, entries).value, before + [o], replay, entries)
  {
    hide Judge, Counted;
    var now := Scan(latest, before, o, replay, entries).value;
    assert forall p :: p in before ==> p.ref != o.ref;
    assert forall p :: p in before + [o] <==> p in before || p == o;
  }

  /** A scan that succeeds has met no reference twice and nothing it must refuse. */
  lemma {:induction false} ScanAdmits(observations: seq<Observation>, replay: Replay, entries: map<string, Entry>)
    requires Latest(observations, replay, entries).Ok?
    ensures forall i: nat, j: nat :: i < j < |observations| ==> observations[i].ref != observations[j].ref
    ensures forall o :: o in observations ==> Judge(o, replay, entries) != Refused
  {
    hide Judge, Counted;
    if observations != [] {
      var n := |observations| - 1;
      var init := observations[..n];
      ScanAdmits(init, replay, entries);
      assert observations == init + [observations[n]];
      assert forall i: nat :: i < n ==> init[i] in init;
    }
  }

  /** Two orders of the same observations that both pass the scan find the same latest. */
  lemma {:induction false} LatestOrderFree(a: seq<Observation>, b: seq<Observation>, replay: Replay, entries: map<string, Entry>)
    requires multiset(a) == multiset(b)
    requires Latest(a, replay, entries).Ok? && Latest(b, replay, entries).Ok?
    ensures Latest(a, replay, entries) == Latest(b, replay, entries)
  {
    hide Latest, Judge, Counted, IsLatest;
    LatestIsMaximum(a, replay, entries);
    LatestIsMaximum(b, replay, entries);
    forall o ensures o in a <==> o in b { assert o in multiset(a) <==> o in a; assert o in multiset(b) <==> o in b; }
    LatestUnique(Latest(a, replay, entries).value, Latest(b, replay, entries).value, a, b, replay, entries);
  }

  lemma LatestUnique(l: map<string, Observation>, m: map<string, Observation>, a: seq<Observation>, b: seq<Observation>, replay: Replay, entries: map<string, Entry>)
    requires IsLatest(l, a, replay, entries) && IsLatest(m, b, replay, entries)
    requires forall o :: o in a <==> o in b
    ensures l == m
  {
    hide Judge, Counted;
    forall op | op in l ensures op in m && m[op] == l[op] { assert l[op] in b; }
    forall op | op in m ensures op in l { assert m[op] in a; }
  }

  // ---------------------------------------------------------------------
  // Affected and control operations
  // ---------------------------------------------------------------------

  predicate IsAffected(o: Observation) { o.outcome == UnhealthyOutcome && AffectedCategory(o.category) }

  predicate IsControl(o: Observation) { o.outcome == HealthyOutcome && o.category == HealthyCategory }

  predicate ByOperation(a: Observation, b: Observation) {
    if a.operation == b.operation then Less(a.ref, b.ref) else Less(a.operation, b.operation)
  }

  lemma ByOperationIsStrictWeak()
    ensures StrictWeak(ByOperation)
  {
    LessIsStrictWeak();
    forall a, b, c | !ByOperation(a, b) && !ByOperation(b, c) ensures !ByOperation(a, c) {
      LessTotal(a.operation, b.operation);
      LessTotal(b.operation, c.operation);
    }
  }

  ghost function AffectedSet(latest: map<string, Observation>): set<Observation> {
    set op | op in latest && IsAffected(latest[op]) :: latest[op]
  }

  ghost function ControlSet(latest: map<string, Observation>): set<Observation> {
    set op | op in latest && IsControl(latest[op]) :: latest[op]
  }

  ghost function Affected(latest: map<string, Observation>): seq<Observation> { Ascending(ByOperation, AffectedSet(latest)) }

  ghost function Controls(latest: map<string, Observation>): seq<Observation> { Ascending(ByOperation, ControlSet(latest)) }

  function RefOf(o: Observation): Ref { Ref(o.operation, o.ref) }

  function Refs(s: seq<Observation>): seq<Ref> { seq(|s|, i requires 0 <= i < |s| => RefOf(s[i])) }

  // ---------------------------------------------------------------------
  // Notices
  // ---------------------------------------------------------------------

  predicate NoticeId(s: string) {
    && 1 <= |s| <= 96 && LowerLetter(s[0])
    && forall i :: 0 <= i < |s| ==> LowerLetter(s[i]) || Digit(s[i]) || s[i] == '.' || s[i] == '-'
  }

  predicate DependencyClass(s: string) {
    && 1 <= |s| <= 64 && LowerLetter(s[0])
    && forall i :: 0 <= i < |s| ==> LowerLetter(s[i]) || Digit(s[i]) || s[i] == '_'
  }

  predicate VersionText(s: string) { s != "" && s[0] != '0' && forall i :: 0 <= i < |s| ==> Digit(s[i]) }

  function NoticeText(id: string, version: string, sha: string): string {
    "provider-notice:" + (id + [':'] + ("v" + (version + [':'] + ("sha256:" + sha))))
  }

  function NoticeRef(n: Notice): string { NoticeText(n.id, Numeral(n.version), n.sha) }

  predicate ContentPart(s: string) { "sha256:" <= s && Sha256Text(s[7..]) }

  predicate VersionPart(s: string) {
    var i := IndexOf(':', s);
    i < |s| && VersionText(s[..i]) && ContentPart(s[i + 1..])
  }

  predicate IdPart(s: string) {
    var i := IndexOf(':', s);
    i + 1 < |s| && NoticeId(s[..i]) && s[i + 1] == 'v' && VersionPart(s[i + 2..])
  }

  /** The shape every notice reference must have. */
  predicate LinkedNoticeRef(s: string) { "provider-notice:" <= s && IdPart(s[16..]) }

  predicate ValidNotice(n: Notice, entries: map<string, Entry>) {
    && n.schema == NoticeV1 && NoticeId(n.id) && n.version >= 1 && n.authority != OtherAuthority
    && n.observedAt != 0 && n.effectiveFrom != 0 && n.effectiveUntil != 0 && n.effectiveFrom <= n.effectiveUntil
    && DependencyClass(n.dependency) && Sha256Text(n.sha) && n.sourceAccepted
    && n.effectiveUntil - n.effectiveFrom <= NOTICE_MAX_AGE_SECONDS * SECOND
    && n.state != OtherNoticeState
    && (n.state == ActiveNotice ==> n.supersedes == 0)
    && (n.state == CorrectedNotice ==> n.supersedes >= 1)
    && (if n.state == WithdrawnNotice then n.effect == NoEffect && n.supersedes >= 1
        else n.effect == ServiceSuspended || n.effect == DegradedEffect)
    && (forall i: nat :: i < |n.operations| ==>
          && n.operations[i] in entries && entries[n.operations[i]].dependency == n.dependency
          && (forall j: nat :: j < i ==> n.operations[j] != n.operations[i])
          && (i > 0 ==> Less(n.operations[i - 1], n.operations[i])))
  }

  predicate OlderVersion(a: Notice, b: Notice) { a.version < b.version }

  function OfNotice(id: string, notices: seq<Notice>): seq<Notice> { Expand((n: Notice) => if n.id == id then 1 else 0, notices) }

  function Chain(id: string, notices: seq<Notice>): seq<Notice> { SortBy(OlderVersion, OfNotice(id, notices)) }

  /** Versions 1, 2, 3, ..., each superseding the one before. */
  predicate Contiguous(chain: seq<Notice>) {
    forall i: nat :: i < |chain| ==> chain[i].version == i + 1 && chain[i].supersedes == i
  }

  function NoticeIds(notices: seq<Notice>): set<string> { set n | n in notices :: n.id }

  ghost predicate ChainsContiguous(notices: seq<Notice>) {
    forall id :: id in NoticeIds(notices) ==> Contiguous(Chain(id, notices))
  }

  ghost predicate IsSuperseded(n: Notice, notices: seq<Notice>) {
    exists m :: m in notices && m.id == n.id && m.version > n.version
  }

  predicate CurrentNotice(n: Notice, assessedAt: int) {
    -FUTURE_SKEW_SECONDS * SECOND <= assessedAt - n.observedAt <= NOTICE_MAX_AGE_SECONDS * SECOND
  }

  ghost predicate InForce(n: Notice, notices: seq<Notice>, assessedAt: int) {
    n in notices && !IsSuperseded(n, notices) && n.state != WithdrawnNotice && CurrentNotice(n, assessedAt)
  }

  predicate ByReference(a: Notice, b: Notice) { Less(NoticeRef(a), NoticeRef(b)) }

  ghost function ActiveSet(notices: seq<Notice>, assessedAt: int): set<Notice> {
    set n | n in notices && InForce(n, notices, assessedAt)
  }

  ghost function Active(notices: seq<Notice>, assessedAt: int): seq<Notice> {
    Ascending(ByReference, ActiveSet(notices, assessedAt))
  }

  ghost function Considered(notices: seq<Notice>): seq<string> { Ascending(Less, set n | n in notices :: NoticeRef(n)) }

  ghost function Superseded(notices: seq<Notice>): seq<string> {
    Ascending(Less, set n | n in notices && IsSuperseded(n, notices) :: NoticeRef(n))
  }

  predicate Covers(n: Notice, dependency: string, affected: seq<Observation>) {
    && n.dependency == dependency
    && forall i: nat :: i < |affected| ==>
         && n.effectiveFrom <= affected[i].observedAt <= n.effectiveUntil
         && (|n.operations| > 0 ==> affected[i].operation in n.operations)
  }

  /** The reference of the first notice that covers the incident; empty if none does. */
  function FirstCovering(active: seq<Notice>, dependency: string, affected: seq<Observation>): string {
    if active == [] then ""
    else if Covers(active[0], dependency, affected) then NoticeRef(active[0])
    else FirstCovering(active[1..], dependency, affected)
  }

  // ---------------------------------------------------------------------
  // The receipt
  // ---------------------------------------------------------------------

  function TimingOf(assessedAt: int, observedAt: int): Timing {
    var elapsed := WholeSeconds(assessedAt - observedAt);
    var age := if elapsed < 0 then 0 else elapsed;
    var left := WINDOW_SECONDS - age;
    Timing(true, age, if left < 1 then 1 else if left > WINDOW_SECONDS then WINDOW_SECONDS else left)
  }

  function PolicyText(key: string, version: int): string { key + ".v" + Numeral(version) }

  function EvidenceOf(o: Observation, replay: Replay, affected: seq<Ref>, controls: seq<Ref>): Evidence {
    Evidence(true, HealthCorrelation(EvidenceIdentity(replay.assessedAt, replay.scope, o.operation, affected, controls)),
             "dependency:" + o.dependency, Degraded, PolicyText(o.policyKey, o.policyVersion),
             TimingOf(replay.assessedAt, o.observedAt))
  }

  function BindingOf(o: Observation, replay: Replay, affected: seq<Ref>, controls: seq<Ref>, entries: map<string, Entry>): Binding
  {
    Binding(o.operation, if o.operation in entries then entries[o.operation].dataset else "", o.dependency, o.ref, EvidenceOf(o, replay, affected, controls).ref)
  }

  /** The receipt before sufficiency is judged. */
  function InsufficientReceipt(replay: Replay, affected: seq<Observation>, controls: seq<Observation>, considered: seq<string>, superseded: seq<string>): Receipt {
    Receipt(ReceiptV1, replay.assessedAt, AcceptedRule, replay.scope, UnknownCause, UnknownDetermination, Insufficient,
            |affected|, |controls|, Refs(affected), Refs(controls), [], [], "", considered, superseded, Minimized)
  }

  function DegradedReceipt(base: Receipt, replay: Replay, affected: seq<Observation>, linked: string, entries: map<string, Entry>): Receipt
  {
    base.(cause := OutageCause, determination := if linked == "" then Inferred else ObservedDetermination, state := Degraded,
          linked := linked,
          evidence := seq(|affected|, i requires 0 <= i < |affected| => EvidenceOf(affected[i], replay, base.affected, base.controls)),
          bindings := seq(|affected|, i requires 0 <= i < |affected| => BindingOf(affected[i], replay, base.affected, base.controls, entries)))
  }

  ghost function ReceiptOf(latest: map<string, Observation>, replay: Replay, entries: map<string, Entry>): Receipt
  {
    var affected, controls := Affected(latest), Controls(latest);
    var base := InsufficientReceipt(replay, affected, controls, Considered(replay.notices), Superseded(replay.notices));
    if |affected| < MINIMUM_AFFECTED || |controls| < MINIMUM_CONTROLS then base
    else
      var linked := FirstCovering(Active(replay.notices, replay.assessedAt), replay.scope.dependency, affected);
      DegradedReceipt(base, replay, affected, linked, entries)
  }

  function EntriesOf(canaries: seq<string>, catalog: map<string, Entry>): map<string, Entry> {
    map c | c in canaries && c in catalog :: catalog[c]
  }

  ghost function Correlate(bound: bool, canaries: seq<string>, catalog: map<string, Entry>, replay: Replay): Result<Receipt, CorrelationError> {
    var entries := EntriesOf(canaries, catalog);
    if !bound || replay.scope.provider != PROVIDER || replay.scope.canaryScope != CANARY_SCOPE then Err(NotBound)
    else if exists c :: c in canaries && c !in catalog then Err(CatalogIncomplete)
    else if Latest(replay.observations, replay, entries).Err? then Err(Latest(replay.observations, replay, entries).error)
    else if exists n :: n in replay.notices && !ValidNotice(n, entries) then Err(InvalidNotice)
    else if !ChainsContiguous(replay.notices) then Err(BrokenChain)
    else Ok(ReceiptOf(Latest(replay.observations, replay, entries).value, replay, entries))
  }
}
