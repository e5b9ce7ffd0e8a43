/** One operation's attempt file: a ring of at most 24 attempts, each claimed under
    a lease, then brought to exactly one terminal state, and for observed attempts
    the steps of their delivery. */
module AttemptModel {
  import opened Foundations
  import H = HistoryModel

  // Zero is the unset time.
  const MAX_LEASE: int := 600 * SECOND
  const MAX_PERIOD: int := 365 * 24 * 3600 * SECOND
  const RETRY_DELAY: int := 30 * SECOND
  const RING: int := 24
  const MAX_STATE_BYTES: int := 32 * 1024
  const MAX_DELIVERY_ATTEMPTS: int := 1_000_000
  const MAX_LATENCY_MS: int := 365 * 24 * 3600 * 1000

  datatype AttemptError = Unavailable | Held | Ambiguous | NotDue | DeliveryPending | Fenced | Capacity

  datatype AttemptStatus = Claimed | Observed | RequestStarted | Failed | Deferred | Unknown

  datatype DeliveryStatus = NotReady | Pending | Acknowledged | ReadbackVerified | NotApplicable

  datatype BlockReason =
    | CredentialUnavailable | CredentialMismatch | PlanNotAdmitted | UnsupportedContract | LocalDeadline
    | ChildValidationFailed | QuotaCapacity | HistoryCapacity | ChildUnavailable | QuotaWindowDraining

  datatype Stage = ExpectationStage | HistoryReservationStage | QuotaStage | DeadlineStage

  datatype DeferredCategory =
    | Validation | CapacityFull | DeadlineExceeded | LockBusy | InputOutput | StoreUnavailable | Canceled
    | OtherUnavailable | WindowDraining | PolicyTransition | Infeasible

  datatype Deferral = Deferral(stage: Stage, category: DeferredCategory)

  datatype GatusResult = GatusHealthy | GatusUnhealthy | GatusUnknown

  datatype ResultState = Healthy | Unhealthy | Indeterminate

  datatype Category =
    | CategoryHealthy | TransportFailure | Timeout | RateLimited | CredentialMissing | CredentialRejected
    | ParameterBlocked | ProviderFailure | SemanticFailure | SchemaDrift | Unsupported | ObserverFailure
    | CategoryIndeterminate | SemanticsUnestablished | HttpFailure

  datatype Binding = Binding(
    sourceId: string, operationId: string, registryRevision: string, releaseManifest: string, index: string,
    shard: string, gatusKey: string, period: int)

  /** What the plan digest covers: everything but the Gatus key. */
  datatype Plan = Plan(
    sourceId: string, operationId: string, registryRevision: string, releaseManifest: string, index: string,
    shard: string, period: int)

  function PlanOf(b: Binding): Plan {
    Plan(b.sourceId, b.operationId, b.registryRevision, b.releaseManifest, b.index, b.shard, b.period)
  }

  function KeyOf(b: Binding): H.OperationKey { H.OperationKey(b.sourceId, b.operationId) }

  /** An attempt's reference to its history record. */
  datatype HistoryRef = HistoryRef(id: H.Identity, sha: H.RecordDigest)

  datatype Observation = Observation(
    state: ResultState, category: Category, observedAt: int, receivedAt: int, receiptSha: string, latencyMs: int,
    httpStatus: int, history: Option<HistoryRef>)

  datatype Claim = Claim(binding: Binding, attemptId: string, generation: nat, startedAt: int, expiresAt: int)

  datatype DeliveryClaim = DeliveryClaim(
    binding: Binding, attemptId: string, attemptGeneration: nat, deliveryGeneration: nat, attemptCount: nat,
    result: Observation)

  datatype Attempt = Attempt(
    binding: Binding, attemptId: string, generation: nat, startedAt: int, leaseExpiresAt: int, finishedAt: int,
    status: AttemptStatus, receiptValidated: bool, receiptSha: string, requestStarted: Option<bool>,
    blockReason: Option<BlockReason>, deferral: Option<Deferral>, result: Option<Observation>,
    delivery: DeliveryStatus, deliveryGeneration: nat, deliveryAttempts: nat, deliveryStartedAt: int,
    deliveryAckAt: int, gatusReceivedAt: int, gatusResult: Option<GatusResult>)

  datatype State = State(
    key: H.OperationKey, generation: nat, everRequestStarted: bool, currentPlan: Plan,
    currentPlanEverRequestStarted: bool, attempts: seq<Attempt>)

  function Last(attempts: seq<Attempt>): Attempt
    requires |attempts| > 0
  {
    attempts[|attempts| - 1]
  }

  // ---------------------------------------------------------------------
  // Validity
  // ---------------------------------------------------------------------

  predicate ValidBinding(b: Binding) {
    && b.sourceId != "" && b.operationId != "" && b.registryRevision != "" && b.releaseManifest != ""
    && b.index != "" && b.shard != "" && b.gatusKey != ""
    && SECOND <= b.period <= MAX_PERIOD
  }

  predicate ValidClaim(c: Claim) {
    && ValidBinding(c.binding) && c.attemptId != "" && c.generation > 0
    && c.startedAt > 0 && c.startedAt < c.expiresAt <= c.startedAt + MAX_LEASE
  }

  predicate ValidPair(s: ResultState, c: Category) {
    match s
    case Healthy => c == CategoryHealthy
    case Unhealthy => c !in {CategoryHealthy, CategoryIndeterminate, ObserverFailure, SemanticsUnestablished}
    case Indeterminate => c in {CategoryIndeterminate, ObserverFailure, SemanticsUnestablished}
  }

  predicate ValidObservation(r: Observation) {
    && ValidPair(r.state, r.category)
    && (r.httpStatus == 0 || 100 <= r.httpStatus <= 599)
    && (r.category == SemanticsUnestablished ==> 200 <= r.httpStatus < 300 && r.history.Some?)
    && (r.category == HttpFailure ==> 100 <= r.httpStatus <= 599 && !(200 <= r.httpStatus < 300))
    && r.observedAt > 0 && (r.receivedAt == 0 || r.receivedAt >= r.observedAt)
    && r.receiptSha != "" && 0 <= r.latencyMs <= MAX_LATENCY_MS
  }

  predicate ValidBlockReason(r: BlockReason) { r != QuotaWindowDraining }

  predicate ValidDeferredReason(r: BlockReason) {
    r in {QuotaCapacity, HistoryCapacity, ChildUnavailable, QuotaWindowDraining}
  }

  predicate ValidDeferral(d: Deferral) {
    && (d.category == Validation ==> d.stage == ExpectationStage)
    && (d.category == Infeasible ==> d.stage == DeadlineStage)
    && (d.category in {WindowDraining, PolicyTransition} ==> d.stage == QuotaStage)
  }

  /** The part of an attempt's validity that depends on its status. */
  predicate ValidByStatus(a: Attempt) {
    match a.status
    case Claimed =>
      a.finishedAt == 0 && a.delivery == NotReady && !a.receiptValidated && a.requestStarted.None? && a.result.None?
      && a.receiptSha == "" && a.blockReason.None? && a.deferral.None?
    case Observed =>
      a.result.Some? && ValidObservation(a.result.value) && a.result.value.receivedAt != 0
      && a.finishedAt >= a.result.value.receivedAt && a.receiptValidated && a.requestStarted == Some(true)
      && a.receiptSha == a.result.value.receiptSha && a.blockReason.None? && a.deferral.None?
    case RequestStarted =>
      a.result.None? && a.receiptValidated && a.requestStarted == Some(true) && a.receiptSha != ""
      && a.blockReason.None? && a.deferral.None?
    case Failed =>
      a.result.None? && a.receiptValidated && a.requestStarted == Some(false) && a.receiptSha != ""
      && a.blockReason.Some? && ValidBlockReason(a.blockReason.value) && a.deferral.None?
    case Deferred =>
      a.result.None? && !a.receiptValidated && a.requestStarted == Some(false) && a.receiptSha == ""
      && a.blockReason.Some? && ValidDeferredReason(a.blockReason.value)
      && (a.deferral.Some? ==> ValidDeferral(a.deferral.value)) && a.delivery == NotReady
    case Unknown =>
      a.result.None? && !a.receiptValidated && a.requestStarted.None? && a.receiptSha == ""
      && a.blockReason.None? && a.deferral.None? && a.delivery == NotReady
  }

  /** The part that depends on how far its delivery has come. */
  predicate ValidByDelivery(a: Attempt) {
    && (a.delivery in {Pending, Acknowledged, ReadbackVerified} ==> a.status == Observed)
    && (a.delivery == Pending ==>
          a.deliveryAttempts >= 1 && a.deliveryStartedAt != 0
          && (a.result.Some? ==> a.deliveryStartedAt >= a.result.value.receivedAt))
    && (a.delivery in {Acknowledged, ReadbackVerified} ==>
          a.deliveryAckAt != 0 && a.deliveryAttempts >= 1 && a.deliveryAckAt >= a.deliveryStartedAt
          && (a.result.Some? ==> a.deliveryAckAt >= a.result.value.receivedAt))
    && (a.delivery == ReadbackVerified ==> a.gatusReceivedAt != 0 && a.gatusResult.Some?)
    && (a.delivery != ReadbackVerified ==> a.gatusReceivedAt == 0 && a.gatusResult.None?)
    && (a.delivery == NotApplicable ==>
          a.result.Some? && a.result.value.state == Indeterminate && a.result.value.category == SemanticsUnestablished
          && a.deliveryAttempts == 0 && a.deliveryStartedAt == 0 && a.deliveryAckAt == 0)
  }

  predicate ValidAttempt(a: Attempt, key: H.OperationKey) {
    && ValidBinding(a.binding) && KeyOf(a.binding) == key && a.attemptId != ""
    && a.startedAt > 0 && a.startedAt <= a.leaseExpiresAt <= a.startedAt + MAX_LEASE
    && a.deliveryAttempts <= MAX_DELIVERY_ATTEMPTS
    && (a.status != Claimed ==> a.finishedAt > 0 && a.finishedAt >= a.startedAt)
    && ValidByStatus(a)
    && ValidByDelivery(a)
  }

  predicate GenerationsOrdered(attempts: seq<Attempt>, generation: nat) {
    && (forall i :: 0 <= i < |attempts| ==> 0 < attempts[i].generation <= generation)
    && (forall i, j :: 0 <= i < j < |attempts| ==> attempts[i].generation < attempts[j].generation)
  }

  /** The predicate every written and every read state file passes. */
  predicate ValidState(s: State, key: H.OperationKey) {
    && s.key == key && s.generation > 0
    && 0 < |s.attempts| <= RING
    && s.currentPlan == PlanOf(Last(s.attempts).binding)
    && (s.currentPlanEverRequestStarted ==> s.everRequestStarted)
    && (Last(s.attempts).requestStarted == Some(true) ==> s.currentPlanEverRequestStarted)
    && GenerationsOrdered(s.attempts, s.generation)
    && (forall i :: 0 <= i < |s.attempts| ==> ValidAttempt(s.attempts[i], key))
    && (forall i :: 0 <= i < |s.attempts| && s.attempts[i].requestStarted == Some(true) ==> s.everRequestStarted)
  }

  // ---------------------------------------------------------------------
  // When the next attempt is due
  // ---------------------------------------------------------------------

  /** A deferral at the quota stage because the window was draining: no request was made. */
  predicate ProvenDrain(a: Attempt) {
    && a.status == Deferred && a.blockReason == Some(QuotaWindowDraining)
    && a.deferral == Some(Deferral(QuotaStage, WindowDraining))
    && a.requestStarted == Some(false) && !a.receiptValidated && a.receiptSha == "" && a.result.None?
    && a.delivery == NotReady
  }

  predicate RetryableDrain(latest: Attempt, binding: Binding, now: int) {
    && ProvenDrain(latest) && latest.binding == binding
    && latest.startedAt != 0 && latest.finishedAt != 0 && latest.finishedAt >= latest.startedAt
    && latest.leaseExpiresAt != 0 && latest.finishedAt < latest.leaseExpiresAt && latest.finishedAt <= now
  }

  function Longer(a: int, b: int): int { if a >= b then a else b }

  predicate Due(latest: Attempt, binding: Binding, now: int) {
    if now <= 0 || latest.startedAt == 0 || !ValidBinding(binding) then false
    else if RetryableDrain(latest, binding, now) then now >= latest.finishedAt + RETRY_DELAY
    else
      var period := Longer(latest.binding.period, binding.period);
      period > 0 && now >= latest.startedAt + period
  }

  /** An attempt that may still matter to somebody, and so must not leave the ring. */
  predicate Keeps(a: Attempt) {
    a.status == Unknown || (a.status == Observed && a.delivery !in {ReadbackVerified, NotApplicable})
  }

  /** The ring with room for one more attempt: the oldest ones are dropped. */
  function Room(attempts: seq<Attempt>): seq<Attempt> {
    if |attempts| >= RING then attempts[|attempts| - RING + 1..] else attempts
  }

  // ---------------------------------------------------------------------
  // Transitions
  // ---------------------------------------------------------------------

  function ClaimedAttempt(binding: Binding, attemptId: string, generation: nat, now: int, lease: int): Attempt {
    Attempt(binding, attemptId, generation, now, now + lease, 0, Claimed, false, "", None, None, None, None,
            NotReady, 0, 0, 0, 0, 0, None)
  }

  /** A claim whose lease ran out without a result. */
  function Expire(a: Attempt, now: int): Attempt { a.(status := Unknown, finishedAt := now) }

  /** What a holder of a claim reports. */
  datatype Report =
    | Result(observation: Observation, validated: bool)
    | Started(receiptSha: string)
    | Blocked(receiptSha: string, reason: BlockReason)
    | Hold(reason: BlockReason, deferral: Option<Deferral>)
    | Failure

  predicate ValidReport(r: Report) {
    match r
    case Result(o, validated) => ValidObservation(o) && (o.category == SemanticsUnestablished ==> validated)
    case Started(sha) => sha != ""
    case Blocked(sha, reason) => sha != "" && ValidBlockReason(reason)
    case Hold(reason, deferral) => ValidDeferredReason(reason) && (deferral.Some? ==> ValidDeferral(deferral.value))
    case Failure => true
  }

  /** The observation's times lie inside the claim and not in the future. */
  predicate InWindow(a: Attempt, o: Observation, now: int) {
    a.startedAt <= o.observedAt <= now && (o.receivedAt != 0 ==> o.observedAt <= o.receivedAt <= now)
  }

  function Received(o: Observation, now: int): Observation { if o.receivedAt == 0 then o.(receivedAt := now) else o }

  /** The attempt after a report, and the error the reporter is given. */
  function Reported(a: Attempt, r: Report, now: int): (Attempt, Option<AttemptError>) {
    if r.Failure? then (Expire(a, now), None)
    else if now >= a.leaseExpiresAt then (Expire(a, now), Some(Fenced))
    else
      match r
      case Result(o, _) =>
        if !InWindow(a, o, now) then (a.(status := Failed, finishedAt := now), Some(Unavailable))
        else
          (a.(status := Observed, receiptValidated := true, receiptSha := o.receiptSha, requestStarted := Some(true),
              finishedAt := now, result := Some(Received(o, now)),
              delivery := if o.state == Indeterminate && o.category == SemanticsUnestablished then NotApplicable else NotReady),
           None)
      case Started(sha) =>
        (a.(status := RequestStarted, receiptValidated := true, requestStarted := Some(true), finishedAt := now,
            receiptSha := sha), None)
      case Blocked(sha, reason) =>
        (a.(status := Failed, receiptValidated := true, requestStarted := Some(false), finishedAt := now,
            receiptSha := sha, blockReason := Some(reason)), None)
      case Hold(reason, deferral) =>
        (a.(status := Deferred, receiptValidated := false, requestStarted := Some(false), finishedAt := now,
            blockReason := Some(reason), deferral := deferral), None)
      case Failure => (Expire(a, now), None)
  }

  /** Whether a report records that the provider may have been asked. */
  predicate RecordsStart(a: Attempt, r: Report, now: int) {
    Reported(a, r, now).0.status in {Observed, RequestStarted}
  }

  predicate Owns(c: Claim, a: Attempt) {
    && a.attemptId == c.attemptId && a.generation == c.generation
    && a.status == Claimed && a.binding == c.binding && a.startedAt == c.startedAt && a.leaseExpiresAt == c.expiresAt
  }

  /** Replaces one attempt, and counts the change. */
  function WithAttempt(s: State, i: nat, a: Attempt): State
    requires i < |s.attempts|
  {
    s.(attempts := s.attempts[i := a], generation := s.generation + 1)
  }

  function AfterReport(s: State, i: nat, r: Report, now: int): State
    requires i < |s.attempts|
  {
    var a := Reported(s.attempts[i], r, now).0;
    var next := WithAttempt(s, i, a);
    if RecordsStart(s.attempts[i], r, now) then
      next.(everRequestStarted := true,
            currentPlanEverRequestStarted := s.currentPlanEverRequestStarted || s.currentPlan == PlanOf(a.binding))
    else next
  }

  /** The first attempt with the given identity; generations are unique, so the only one. */
  function Find(attempts: seq<Attempt>, attemptId: string, generation: nat): (i: nat)
    ensures i <= |attempts|
    ensures i < |attempts| ==> attempts[i].attemptId == attemptId && attempts[i].generation == generation
    ensures i == |attempts| ==> forall j :: 0 <= j < |attempts| ==> attempts[j].attemptId != attemptId || attempts[j].generation != generation
    ensures forall j :: 0 <= j < i ==> attempts[j].attemptId != attemptId || attempts[j].generation != generation
    decreases |attempts|
  {
    if |attempts| == 0 then 0
    else if attempts[0].attemptId == attemptId && attempts[0].generation == generation then 0
    else
      var i := Find(attempts[1..], attemptId, generation);
      assert forall j :: 0 < j < |attempts| ==> attempts[j] == attempts[1..][j - 1];
      i + 1
  }

  /** Starting delivery is possible for an observed attempt whose summary is still to be sent. */
  predicate Deliverable(a: Attempt, now: int) {
    && a.status == Observed && a.result.Some? && now >= a.result.value.receivedAt
    && a.delivery in {NotReady, Pending}
  }

  /** Somebody still waits for the attempt's summary to be read back. */
  predicate Undelivered(a: Attempt) {
    a.status == Observed && a.result.Some? && a.delivery !in {ReadbackVerified, NotApplicable}
  }

  function StartDelivery(a: Attempt, now: int): Attempt {
    a.(deliveryGeneration := a.deliveryGeneration + 1, deliveryAttempts := a.deliveryAttempts + 1, delivery := Pending,
       deliveryStartedAt := now)
  }

  // ---------------------------------------------------------------------
  // Operations as decisions on a state file
  // ---------------------------------------------------------------------

  /** Either nothing is written, or the given state is, if it can be, before the answer is given. */
  datatype Outcome<T> = Refuse(error: AttemptError) | Update(next: State, answer: Result<T, AttemptError>)

  function EmptyState(key: H.OperationKey): State {
    State(key, 0, false, Plan("", "", "", "", "", "", 0), false, [])
  }

  function BeginState(s: State, binding: Binding, attemptId: string, now: int, lease: int): State {
    var samePlan := s.currentPlan == PlanOf(binding);
    s.(currentPlan := PlanOf(binding),
       currentPlanEverRequestStarted := samePlan && s.currentPlanEverRequestStarted,
       generation := s.generation + 1,
       attempts := Room(s.attempts) + [ClaimedAttempt(binding, attemptId, s.generation + 1, now, lease)])
  }

  function ClaimOf(a: Attempt): Claim { Claim(a.binding, a.attemptId, a.generation, a.startedAt, a.leaseExpiresAt) }

  function BeginDecision(found: Option<State>, binding: Binding, attemptId: string, now: int, lease: int): Outcome<Claim> {
    if !ValidBinding(binding) || attemptId == "" || now <= 0 || !(SECOND <= lease <= MAX_LEASE) then Refuse(Unavailable)
    else
      var s := if found.Some? then found.value else EmptyState(KeyOf(binding));
      if |s.attempts| > 0 && Last(s.attempts).status == Claimed then
        if now < Last(s.attempts).leaseExpiresAt then Refuse(Held)
        else Update(WithAttempt(s, |s.attempts| - 1, Expire(Last(s.attempts), now)), Err(Ambiguous))
      else if |s.attempts| > 0 && !Due(Last(s.attempts), binding, now) then Refuse(NotDue)
      else if |s.attempts| >= RING && Keeps(s.attempts[0]) then Refuse(Capacity)
      else
        var next := BeginState(s, binding, attemptId, now, lease);
        Update(next, Ok(ClaimOf(Last(next.attempts))))
  }

  function CompleteDecision(found: Option<State>, claim: Claim, r: Report, now: int): Outcome<()> {
    if !ValidClaim(claim) || !ValidReport(r) || now <= 0 then Refuse(Unavailable)
    else if found.None? then Refuse(Unavailable)
    else
      var s := found.value;
      var i := Find(s.attempts, claim.attemptId, claim.generation);
      if i == |s.attempts| || !Owns(claim, s.attempts[i]) then Refuse(Fenced)
      else
        var error := Reported(s.attempts[i], r, now).1;
        Update(AfterReport(s, i, r, now), if error.None? then Ok(()) else Err(error.value))
  }

  function DeliveryDecision(found: Option<State>, attemptId: string, generation: nat, now: int, lease: int): Outcome<DeliveryClaim> {
    if attemptId == "" || generation == 0 || now <= 0 || !(SECOND <= lease <= MAX_LEASE) then Refuse(Unavailable)
    else if found.None? then Refuse(Unavailable)
    else
      var s := found.value;
      var i := Find(s.attempts, attemptId, generation);
      if i == |s.attempts| || !Deliverable(s.attempts[i], now) then Refuse(Fenced)
      else if exists j :: 0 <= j < i && Undelivered(s.attempts[j]) then Refuse(DeliveryPending)
      else if s.attempts[i].delivery == Pending && now < s.attempts[i].deliveryStartedAt + lease then Refuse(Held)
      else
        var a := StartDelivery(s.attempts[i], now);
        Update(WithAttempt(s, i, a),
               Ok(DeliveryClaim(a.binding, a.attemptId, a.generation, a.deliveryGeneration, a.deliveryAttempts, a.result.value)))
  }

  predicate ValidDeliveryClaim(c: DeliveryClaim) {
    && ValidBinding(c.binding) && c.attemptId != "" && c.attemptGeneration > 0 && c.deliveryGeneration > 0
    && c.attemptCount > 0 && ValidObservation(c.result)
  }

  function AcknowledgeDecision(found: Option<State>, claim: DeliveryClaim, at: int): Outcome<()> {
    if !ValidDeliveryClaim(claim) || at <= 0 || found.None? then Refuse(Unavailable)
    else
      var s := found.value;
      var i := Find(s.attempts, claim.attemptId, claim.attemptGeneration);
      if i == |s.attempts| || s.attempts[i].delivery != Pending
         || s.attempts[i].deliveryGeneration != claim.deliveryGeneration || s.attempts[i].result.None?
         || at < s.attempts[i].deliveryStartedAt then Refuse(Fenced)
      else Update(WithAttempt(s, i, s.attempts[i].(delivery := Acknowledged, deliveryAckAt := at)), Ok(()))
  }

  function ReadbackDecision(found: Option<State>, attemptId: string, generation: nat, at: int, result: GatusResult): Outcome<()> {
    if attemptId == "" || generation == 0 || at <= 0 || found.None? then Refuse(Unavailable)
    else
      var s := found.value;
      var i := Find(s.attempts, attemptId, generation);
      if i == |s.attempts| || s.attempts[i].delivery != Acknowledged || s.attempts[i].result.None?
         || at < s.attempts[i].deliveryAckAt then Refuse(Fenced)
      else
        Update(WithAttempt(s, i, s.attempts[i].(gatusReceivedAt := at, gatusResult := Some(result), delivery := ReadbackVerified)),
               Ok(()))
  }
}
