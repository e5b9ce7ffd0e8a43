/** The public diagnosis snapshot: which correlation receipts and assertion requests it
    admits, the entry each operation ends up with, and when a stored entry is valid. */
module DiagnosisModel {
  import opened Foundations
  import opened Text
  import opened CorrelationModel

  const MAX_EVIDENCE_AGE: int := 900 * SECOND
  const DIAGNOSIS_FUTURE_SKEW: int := 30 * SECOND
  const MAX_RESPONSE_FIELDS: int := 1024

  /** Evidence may be used when it is set, not too new and not too old. */
  predicate InTime(assessedAt: int, at: int) {
    assessedAt != 0 && assessedAt <= at + DIAGNOSIS_FUTURE_SKEW && at - assessedAt <= MAX_EVIDENCE_AGE
  }

  // ---------------------------------------------------------------------
  // Correlation receipts
  // ---------------------------------------------------------------------

  predicate HeaderAccepted(r: Receipt, at: int) {
    && r.schema == ReceiptV1 && InTime(r.assessedAt, at) && r.rule == AcceptedRule && r.scope.provider == PROVIDER
    && r.scope.canaryScope == CANARY_SCOPE && r.affectedCount == |r.affected| && r.controlCount == |r.controls|
    && r.boundaries == Minimized
  }

  /** Every reference names a known operation, each operation once. */
  predicate RefsAccepted(refs: seq<Ref>, known: set<string>) {
    forall i: nat :: i < |refs| ==>
      && refs[i].operation in known && ObservationRef(refs[i].observation)
      && forall j: nat :: j < i ==> refs[j].operation != refs[i].operation
  }

  predicate InsufficientHeader(r: Receipt, at: int) {
    && HeaderAccepted(r, at) && r.cause == UnknownCause && r.determination == UnknownDetermination
    && r.state == Insufficient && r.evidence == [] && r.bindings == [] && r.linked == ""
  }

  predicate InsufficientAccepted(r: Receipt, at: int, known: set<string>) {
    InsufficientHeader(r, at) && RefsAccepted(r.affected + r.controls, known)
  }

  predicate DegradedHeader(r: Receipt, at: int) {
    && HeaderAccepted(r, at) && r.cause == OutageCause
    && (r.determination == Inferred || r.determination == ObservedDetermination) && r.state == Degraded
    && r.affectedCount >= 2 && r.controlCount >= 1
    && (r.determination == ObservedDetermination <==> LinkedNoticeRef(r.linked))
  }

  predicate NoticesAccepted(r: Receipt) {
    && NoDuplicates(r.considered) && (forall s :: s in r.considered ==> LinkedNoticeRef(s))
    && NoDuplicates(r.superseded) && (forall s :: s in r.superseded ==> s in r.considered)
    && (r.linked != "" ==> r.linked in r.considered && r.linked !in r.superseded)
  }

  predicate TimingAccepted(t: Timing) {
    && t.standard && 0 <= t.age <= 900 && 1 <= t.remaining <= 900
    && (t.age + t.remaining == 900 || (t.age == 900 && t.remaining == 1))
  }

  predicate WellFormedRef(ref: EvidenceRef) { ref.HealthCorrelation? || ref.wellFormed }

  predicate EvidenceAccepted(evidence: seq<Evidence>) {
    forall i: nat :: i < |evidence| ==>
      && evidence[i].standard && WellFormedRef(evidence[i].ref) && evidence[i].state == Degraded
      && TimingAccepted(evidence[i].timing)
      && forall j: nat :: j < i ==> evidence[j].ref != evidence[i].ref
  }

  function FindEvidence(evidence: seq<Evidence>, ref: EvidenceRef): Option<Evidence> {
    if evidence == [] then None
    else if evidence[|evidence| - 1].ref == ref then Some(evidence[|evidence| - 1])
    else FindEvidence(evidence[..|evidence| - 1], ref)
  }

  predicate BindingAccepted(b: Binding, r: Receipt, entries: map<string, Entry>) {
    var e := FindEvidence(r.evidence, b.evidence);
    && b.operation in entries && e.Some? && Ref(b.operation, b.observation) in r.affected
    && b.dataset == entries[b.operation].dataset && b.dependency == entries[b.operation].dependency
    && e.value.detail == "dependency:" + b.dependency
    && e.value.policy == PolicyText(entries[b.operation].policyKey, entries[b.operation].policyVersion)
  }

  predicate BindingsAccepted(r: Receipt, entries: map<string, Entry>) {
    forall i: nat :: i < |r.bindings| ==>
      && BindingAccepted(r.bindings[i], r, entries)
      && forall j: nat :: j < i ==> r.bindings[j].operation != r.bindings[i].operation
  }

  predicate DegradedAccepted(r: Receipt, at: int, canaries: seq<string>, catalog: map<string, Entry>) {
    var entries := EntriesOf(canaries, catalog);
    && DegradedHeader(r, at) && NoticesAccepted(r) && (forall c :: c in canaries ==> c in catalog)
    && RefsAccepted(r.affected + r.controls, entries.Keys)
    && |r.evidence| == |r.affected| && |r.bindings| == |r.affected|
    && EvidenceAccepted(r.evidence) && BindingsAccepted(r, entries)
  }

  /** When the evidence bound to an operation runs out; an operation without a binding has none. */
  function ExpiryOf(bindings: seq<Binding>, r: Receipt, op: string): Option<int> {
    if bindings == [] then None
    else
      var b := bindings[|bindings| - 1];
      var e := FindEvidence(r.evidence, b.evidence);
      if b.operation == op && e.Some? then Some(r.assessedAt + e.value.timing.remaining * SECOND)
      else ExpiryOf(bindings[..|bindings| - 1], r, op)
  }

  // ---------------------------------------------------------------------
  // Assertion policies and requests
  // ---------------------------------------------------------------------

  datatype Dimension = Transport | Contract | Presence | Semantic | Freshness | OtherDimension

  datatype PolicyState = Asserted | NotAsserted | OtherPolicyState

  datatype Reason =
    | TransportNotReviewed | PresenceNotReviewed | SemanticsNotReviewed | FreshnessNotReviewed
    | StaleBinding | UnsafeObservation | EmptyPayload | UndeclaredField | FieldsMatch | NoReason

  datatype DimensionPolicy = DimensionPolicy(state: PolicyState, reason: Reason, declared: seq<string>)

  datatype Policy = Policy(
    revision: string, transport: DimensionPolicy, contract: DimensionPolicy, presence: DimensionPolicy,
    semantic: DimensionPolicy, freshness: DimensionPolicy)

  datatype PolicyBinding = AcceptedBinding | OtherBinding(name: string)

  datatype Request = Request(
    schema: Schema, assessedAt: int, operation: string, revision: string, dimension: Dimension,
    binding: Option<PolicyBinding>, activeBinding: Option<PolicyBinding>, fields: seq<string>, fieldsSafe: bool)

  datatype AssertionOutcome = Pass | Fail | NotObservedOutcome | UnknownOutcome | OtherAssertionOutcome

  datatype Evaluation = Evaluation(
    assessedAt: int, operation: string, revision: string, dimension: Dimension, outcome: AssertionOutcome,
    reason: Reason, fieldCount: int)

  function DimensionOf(p: Policy, d: Dimension): DimensionPolicy {
    match d
    case Transport => p.transport
    case Contract => p.contract
    case Presence => p.presence
    case Semantic => p.semantic
    case Freshness => p.freshness
    case OtherDimension => DimensionPolicy(OtherPolicyState, NoReason, [])
  }

  /** What loading a policy document establishes for every operation. */
  predicate AcceptedPolicy(p: Policy) {
    && Sha256Text(p.revision)
    && p.transport.state == NotAsserted && p.transport.reason == TransportNotReviewed
    && p.presence.state == NotAsserted && p.presence.reason == PresenceNotReviewed
    && p.semantic.state == NotAsserted && p.semantic.reason == SemanticsNotReviewed
    && p.freshness.state == NotAsserted && p.freshness.reason == FreshnessNotReviewed
    && p.contract.state == Asserted && p.contract.declared != []
  }

  ghost predicate AcceptedContract(contract: map<string, Policy>, canaries: seq<string>) {
    && NoDuplicates(canaries) && |contract| == |canaries|
    && (forall c :: c in canaries ==> c in contract)
    && (forall op :: op in contract ==> AcceptedPolicy(contract[op]))
  }

  predicate UniqueSafe(q: Request) {
    q.fieldsSafe && forall i: nat, j: nat :: i < j < |q.fields| ==> q.fields[i] != q.fields[j]
  }

  predicate Bound(q: Request, p: Policy) {
    && q.revision == p.revision && q.binding == Some(AcceptedBinding)
    && (q.activeBinding.Some? ==> q.activeBinding == q.binding)
  }

  function Evaluate(q: Request, contract: map<string, Policy>): Evaluation {
    var start := Evaluation(q.assessedAt, q.operation, "", q.dimension, UnknownOutcome, StaleBinding, 0);
    if q.schema != AssertionV1 || q.assessedAt == 0 || !Sha256Text(q.revision) || q.dimension == OtherDimension || !UniqueSafe(q) then
      start.(reason := UnsafeObservation)
    else if q.operation !in contract || !Bound(q, contract[q.operation]) then start
    else
      var d := DimensionOf(contract[q.operation], q.dimension);
      var bound := start.(revision := q.revision, fieldCount := |q.fields|);
      if d.state == NotAsserted then bound.(outcome := NotObservedOutcome, reason := d.reason)
      else if q.dimension != Contract || d.state != Asserted then bound
      else if q.fields == [] then bound.(outcome := NotObservedOutcome, reason := EmptyPayload)
      else if exists i: nat :: i < |q.fields| && q.fields[i] !in d.declared then bound.(outcome := Fail, reason := UndeclaredField)
      else bound.(outcome := Pass, reason := FieldsMatch)
  }

  datatype EvidenceState = AcceptedState | NotObservedState | UnknownState | RejectedState | OtherEvidenceState

  datatype Assessment = Assessment(evaluation: Evaluation, state: EvidenceState, valid: bool)

  /** The request as such may be evaluated at all. */
  predicate Admissible(q: Request, at: int, contract: map<string, Policy>) {
    && q.operation in contract && InTime(q.assessedAt, at) && q.schema == AssertionV1
    && q.revision == contract[q.operation].revision && q.binding == Some(AcceptedBinding)
    && (q.activeBinding.Some? ==> q.activeBinding.value == AcceptedBinding)
    && q.dimension != OtherDimension && |q.fields| <= MAX_RESPONSE_FIELDS && UniqueSafe(q)
  }

  /** The snapshot evaluates the request again and checks what it got. */
  function Assess(q: Request, at: int, contract: map<string, Policy>): Assessment {
    Check(q, Evaluate(q, contract), at, contract)
  }

  function Check(q: Request, e: Evaluation, at: int, contract: map<string, Policy>): Assessment {
    var refused := Assessment(e, RejectedState, false);
    if !Admissible(q, at, contract) || e.assessedAt == 0 || e.assessedAt != q.assessedAt || e.fieldCount < 0 then refused
    else
      var d := DimensionOf(contract[q.operation], e.dimension);
      if d.state == NotAsserted then
        Assessment(e, NotObservedState, e.outcome == NotObservedOutcome && e.reason == d.reason && e.fieldCount == |q.fields|)
      else if e.dimension != Contract || d.state != Asserted then refused
      else match e.outcome
           case Pass => Assessment(e, AcceptedState, e.reason == FieldsMatch && e.fieldCount > 0)
           case Fail => Assessment(e, AcceptedState, e.reason == UndeclaredField && e.fieldCount > 0)
           case NotObservedOutcome => Assessment(e, NotObservedState, e.reason == EmptyPayload && e.fieldCount == 0)
           case UnknownOutcome =>
             Assessment(e, UnknownState, (e.reason == StaleBinding || e.reason == UnsafeObservation) && e.fieldCount == |q.fields|)
           case OtherAssertionOutcome => refused
  }

  // ---------------------------------------------------------------------
  // Snapshot entries
  // ---------------------------------------------------------------------

  /** The reviewed public diagnoses; the other one stands for any other tuple. */
  datatype Diagnosis = UnknownDiagnosis | OutageDiagnosis(determination: Determination) | DriftDiagnosis | OtherDiagnosis

  datatype SourceKind = CorrelationSource | AssertionSource | OtherSource

  datatype SourceSha = ReceiptSha(receipt: Receipt) | RequestSha(request: Request) | OtherSha(wellFormed: bool)

  datatype Source = Source(kind: SourceKind, schema: Schema, sha: SourceSha)

  datatype CorrelationBoundary = CorrelationBoundary(affectedCount: int, controlCount: int, noticeLinked: bool)

  datatype AssertionBoundary = AssertionBoundary(dimension: Dimension, outcome: AssertionOutcome, fieldCount: int)

  datatype Body = Body(
    operation: string, revision: string, state: EvidenceState, assessedAt: Option<int>, validUntil: Option<int>,
    source: Option<Source>, correlation: Option<CorrelationBoundary>, assertion: Option<AssertionBoundary>, diagnosis: Diagnosis)

  datatype BodyDigest = DigestOf(body: Body) | OtherDigest

  /** An entry carries the digest of everything else in it. */
  datatype SnapshotEntry = SnapshotEntry(body: Body, digest: BodyDigest)

  function Seal(b: Body): SnapshotEntry { SnapshotEntry(b, DigestOf(b)) }

  function UnknownEntry(op: string, revision: string, state: EvidenceState): SnapshotEntry {
    Seal(Body(op, revision, state, None, None, None, None, None, UnknownDiagnosis))
  }

  function ReceiptEntry(op: string, revision: string, r: Receipt, validUntil: int): SnapshotEntry {
    Seal(Body(op, revision, AcceptedState, Some(r.assessedAt), Some(validUntil),
              Some(Source(CorrelationSource, ReceiptV1, ReceiptSha(r))),
              Some(CorrelationBoundary(r.affectedCount, r.controlCount, r.linked != "")), None,
              OutageDiagnosis(r.determination)))
  }

  function RequestEntry(q: Request, a: Assessment): SnapshotEntry {
    var e := a.evaluation;
    Seal(Body(e.operation, e.revision, a.state, Some(e.assessedAt), Some(e.assessedAt + MAX_EVIDENCE_AGE),
              Some(Source(AssertionSource, AssertionV1, RequestSha(q))), None,
              Some(AssertionBoundary(e.dimension, e.outcome, e.fieldCount)),
              if e.dimension == Contract && e.outcome == Fail then DriftDiagnosis else UnknownDiagnosis))
  }

  function Merge(current: SnapshotEntry, candidate: SnapshotEntry): SnapshotEntry {
    var c, d := current.body, candidate.body;
    if c.state == RejectedState then current
    else if d.state == RejectedState then candidate
    else if c.diagnosis != UnknownDiagnosis && d.diagnosis != UnknownDiagnosis then UnknownEntry(c.operation, c.revision, RejectedState)
    else if c.diagnosis != UnknownDiagnosis then current
    else if d.diagnosis != UnknownDiagnosis then candidate
    else if d.state == AcceptedState || (d.state == NotObservedState && c.state == UnknownState) then candidate
    else current
  }

  predicate ReceiptEntryValid(b: Body) {
    && b.state == AcceptedState && b.source.Some? && b.source.value.schema == ReceiptV1 && b.correlation.Some? && b.assertion.None?
    && 2 <= b.correlation.value.affectedCount <= 10 && 1 <= b.correlation.value.controlCount <= 10
    && b.diagnosis.OutageDiagnosis?
    && (b.diagnosis.determination == Inferred || b.diagnosis.determination == ObservedDetermination)
    && (b.diagnosis.determination == ObservedDetermination <==> b.correlation.value.noticeLinked)
  }

  predicate RequestEntryValid(b: Body) {
    && b.source.Some? && b.source.value.schema == AssertionV1 && b.assertion.Some? && b.correlation.None?
    && b.assertion.value.dimension != OtherDimension && 0 <= b.assertion.value.fieldCount <= MAX_RESPONSE_FIELDS
    && match b.assertion.value.outcome
       case Fail =>
         b.state == AcceptedState && b.assertion.value.dimension == Contract && b.assertion.value.fieldCount > 0
         && b.diagnosis == DriftDiagnosis
       case Pass =>
         b.state == AcceptedState && b.assertion.value.dimension == Contract && b.assertion.value.fieldCount > 0
         && b.diagnosis == UnknownDiagnosis
       case NotObservedOutcome =>
         b.state == NotObservedState && (b.assertion.value.dimension == Contract ==> b.assertion.value.fieldCount == 0)
         && b.diagnosis == UnknownDiagnosis
       case UnknownOutcome => b.state == UnknownState && b.diagnosis == UnknownDiagnosis
       case OtherAssertionOutcome => false
  }

  /** The check a stored entry has to pass whenever it is read. */
  predicate ValidSnapshotEntry(e: SnapshotEntry, now: int, contract: map<string, Policy>) {
    var b := e.body;
    && b.operation in contract && b.revision == contract[b.operation].revision && e.digest == DigestOf(b)
    && b.state != OtherEvidenceState && b.diagnosis != OtherDiagnosis
    && if b.source.None? then
         && (b.state == UnknownState || b.state == RejectedState) && b.assessedAt.None? && b.validUntil.None?
         && b.correlation.None? && b.assertion.None? && b.diagnosis == UnknownDiagnosis
       else
         && b.assessedAt.Some? && b.validUntil.Some? && b.assessedAt.value != 0
         && b.assessedAt.value <= b.validUntil.value <= b.assessedAt.value + MAX_EVIDENCE_AGE
         && b.assessedAt.value <= now + DIAGNOSIS_FUTURE_SKEW && now <= b.validUntil.value
         && (b.source.value.sha.OtherSha? ==> b.source.value.sha.wellFormed)
         && match b.source.value.kind
            case CorrelationSource => ReceiptEntryValid(b)
            case AssertionSource => RequestEntryValid(b)
            case OtherSource => false
  }

  // ---------------------------------------------------------------------
  // What a projection gives each operation
  // ---------------------------------------------------------------------

  function Occurrences(op: string, refs: seq<Ref>): nat {
    if refs == [] then 0
    else Occurrences(op, refs[..|refs| - 1]) + (if refs[|refs| - 1].operation == op then 1 else 0)
  }

  datatype Inputs = Inputs(at: int, canaries: seq<string>, catalog: map<string, Entry>, contract: map<string, Policy>)

  function MentionsIn(op: string, inputs: Inputs, r: Receipt): nat {
    if InsufficientAccepted(r, inputs.at, set c | c in inputs.canaries) then 0 else Occurrences(op, r.affected)
  }

  /** The receipts that name the operation as affected, once per naming. */
  function Mentions(op: string, inputs: Inputs, receipts: seq<Receipt>): seq<Receipt> {
    Expand((r: Receipt) => MentionsIn(op, inputs, r), receipts)
  }

  function FromReceipt(op: string, revision: string, inputs: Inputs, r: Receipt): SnapshotEntry {
    var until := ExpiryOf(r.bindings, r, op);
    if !DegradedAccepted(r, inputs.at, inputs.canaries, inputs.catalog) then UnknownEntry(op, revision, RejectedState)
    else if until.None? || inputs.at > until.value then UnknownEntry(op, revision, UnknownState)
    else ReceiptEntry(op, revision, r, until.value)
  }

  function FromMentions(op: string, revision: string, inputs: Inputs, mentions: seq<Receipt>): SnapshotEntry {
    if mentions == [] then UnknownEntry(op, revision, UnknownState)
    else if |mentions| == 1 then FromReceipt(op, revision, inputs, mentions[0])
    else UnknownEntry(op, revision, RejectedState)
  }

  function About(op: string, requests: seq<Request>): seq<Request> {
    Expand((q: Request) => if q.operation == op then 1 else 0, requests)
  }

  function FromRequests(op: string, revision: string, inputs: Inputs, current: SnapshotEntry, requests: seq<Request>): SnapshotEntry {
    if requests == [] then current
    else if |requests| > 1 then UnknownEntry(op, revision, RejectedState)
    else
      var a := Assess(requests[0], inputs.at, inputs.contract);
      if !a.valid then UnknownEntry(op, revision, RejectedState) else Merge(current, RequestEntry(requests[0], a))
  }

  function FinalEntry(op: string, inputs: Inputs, receipts: seq<Receipt>, requests: seq<Request>): SnapshotEntry
    requires op in inputs.contract
  {
    var revision := inputs.contract[op].revision;
    FromRequests(op, revision, inputs, FromMentions(op, revision, inputs, Mentions(op, inputs, receipts)), About(op, requests))
  }
}
