/** What a child's validated receipt may say, and how the worker reports it. Every
    receipt that passes the validator has exactly one report the attempt store takes. */
module Probe {
  import opened Foundations
  import opened AttemptModel
  import opened AttemptHistory

  datatype Outcome = OutcomeHealthy | OutcomeUnhealthy | OutcomeIndeterminate | OutcomeBlocked

  datatype Reason =
    | AssertionPassed | AssertionFailed | AssertionInvalid | ResponseHttpFailure | ResponseSemanticsUnestablished
    | CredentialBindingUnavailable | CredentialSourceUnavailable | CredentialBindingMismatch | PlanUnsupported
    | DeadlineBeforeRequest | RequestLimitExceeded | RequestDeadlineExceeded | ResponseLimitExceeded
    | RequestTransportFailed | ResponseReadFailed | ResponseInvalid | OtherReason

  datatype AssertionStatus = Passed | AssertionFailedStatus | NotRun

  /** The fields of a receipt its semantics depend on; the identity fields have been
      compared with the expectation already. */
  datatype Receipt = Receipt(
    outcome: Outcome, reason: Reason, assertion: AssertionStatus, requestStarted: bool, responseObserved: bool,
    observedAt: int, httpStatus: int, receivedAt: int, latencyMs: int, sha: string, bytes: string)

  /** The exit code the child has to end with for a given outcome. */
  function ExitCode(o: Outcome): int {
    match o
    case OutcomeHealthy => 0
    case OutcomeBlocked => 3
    case OutcomeUnhealthy => 4
    case OutcomeIndeterminate => 4
  }

  const MAX_PROBE_DEADLINE: int := 30 * SECOND
  const PROCESS_OVERHEAD: int := 5 * SECOND
  const MAX_RECEIPT_SKEW: int := SECOND

  /** The receipt validator, for a receipt that came back with the exit code of its outcome. */
  predicate ValidReceipt(r: Receipt, observationOnly: bool, startedAt: int) {
    && 0 <= r.latencyMs <= MAX_PROBE_DEADLINE / 1_000_000
    && 0 < startedAt <= r.receivedAt && r.sha != "" && r.bytes != ""
    && (!r.requestStarted ==> !r.responseObserved && r.observedAt == 0 && r.httpStatus == 0)
    && (if r.responseObserved then
          100 <= r.httpStatus <= 599 && r.observedAt > 0
          && startedAt - MAX_RECEIPT_SKEW <= r.observedAt <= r.receivedAt + MAX_RECEIPT_SKEW
        else r.httpStatus == 0 && r.observedAt == 0)
    && match r.outcome
       case OutcomeHealthy =>
         !observationOnly && r.requestStarted && r.responseObserved && r.assertion == Passed && r.reason == AssertionPassed
       case OutcomeUnhealthy =>
         r.requestStarted && r.responseObserved && r.assertion == AssertionFailedStatus
         && (if observationOnly then r.reason == ResponseHttpFailure && !(200 <= r.httpStatus < 300)
             else r.reason in {AssertionFailed, AssertionInvalid})
       case OutcomeBlocked =>
         !r.requestStarted && !r.responseObserved && r.assertion == NotRun
         && r.reason in {CredentialBindingUnavailable, CredentialBindingMismatch, CredentialSourceUnavailable,
                         PlanUnsupported, DeadlineBeforeRequest, RequestLimitExceeded}
       case OutcomeIndeterminate =>
         r.requestStarted && r.assertion == NotRun
         && (r.reason in {RequestDeadlineExceeded, RequestLimitExceeded, ResponseLimitExceeded, RequestTransportFailed,
                          ResponseReadFailed, ResponseInvalid}
             || (r.reason == ResponseSemanticsUnestablished && observationOnly && r.responseObserved
                 && 200 <= r.httpStatus < 300))
  }

  function BlockedReason(r: Reason): Option<BlockReason> {
    match r
    case CredentialBindingUnavailable => Some(CredentialUnavailable)
    case CredentialSourceUnavailable => Some(CredentialUnavailable)
    case CredentialBindingMismatch => Some(CredentialMismatch)
    case PlanUnsupported => Some(UnsupportedContract)
    case DeadlineBeforeRequest => Some(LocalDeadline)
    case RequestLimitExceeded => Some(ChildValidationFailed)
    case _ => None
  }

  /** State and category of an observed response; none for a receipt that observed none. */
  function Classification(r: Receipt): Option<(ResultState, Category)> {
    match r.outcome
    case OutcomeHealthy => Some((Healthy, CategoryHealthy))
    case OutcomeUnhealthy => Some((Unhealthy, if r.reason == ResponseHttpFailure then HttpFailure else ProviderFailure))
    case OutcomeIndeterminate =>
      Some((Indeterminate, if r.reason == ResponseSemanticsUnestablished then SemanticsUnestablished else CategoryIndeterminate))
    case OutcomeBlocked => None
  }

  function ObservationOf(r: Receipt, c: (ResultState, Category), ref: HistoryRef): Observation {
    Observation(c.0, c.1, r.observedAt, r.receivedAt, r.sha, r.latencyMs, r.httpStatus, Some(ref))
  }

  /** The report for a receipt whose record is durable: the branch of the worker and the
      checks of the corresponding entry of the attempt store. */
  function ReportFor(r: Receipt, ref: HistoryRef): Option<Report> {
    if !r.requestStarted then
      if r.outcome == OutcomeBlocked && r.observedAt == 0 && BlockedReason(r.reason).Some?
      then Some(Blocked(r.sha, BlockedReason(r.reason).value)) else None
    else if r.observedAt == 0 then
      if r.outcome == OutcomeIndeterminate then Some(Started(r.sha)) else None
    else if Classification(r).Some? then Some(Result(ObservationOf(r, Classification(r).value, ref), true))
    else None
  }

  /** The times of an observed response, as the attempt store wants them. */
  predicate TimesInOrder(r: Receipt) { r.observedAt != 0 ==> r.observedAt <= r.receivedAt }

  /** No valid receipt falls through the classification; and its report is one the
      attempt store takes exactly if the response was not observed after it was received,
      which the validator tolerates by one second and the store does not. */
  lemma EveryReceiptIsReported(r: Receipt, observationOnly: bool, startedAt: int, ref: HistoryRef)
    requires ValidReceipt(r, observationOnly, startedAt)
    ensures ReportFor(r, ref).Some?
    ensures ValidReport(ReportFor(r, ref).value) <==> TimesInOrder(r)
    ensures ReportFor(r, ref).value.Blocked? <==> !r.requestStarted
    ensures ReportFor(r, ref).value.Result? <==> r.responseObserved
    ensures ReportFor(r, ref).value.Result? ==> ReportFor(r, ref).value.observation.history == Some(ref)
    // An operation without a response contract is never called healthy, and its status decides.
    ensures ReportFor(r, ref).value.Result? ==>
              var o := ReportFor(r, ref).value.observation;
              if observationOnly then
                && o.state != Healthy && (o.category == HttpFailure <==> o.state == Unhealthy)
                && (o.category == HttpFailure ==> !(200 <= o.httpStatus < 300))
                && (o.category == SemanticsUnestablished ==> 200 <= o.httpStatus < 300)
              else o.category !in {HttpFailure, SemanticsUnestablished}
  {}

  /** The observation says of the provider what the child's assertion found, and repeats
      the receipt's times, status, latency and digest. */
  predicate Describes(o: Observation, r: Receipt) {
    && (o.state == Healthy <==> r.assertion == Passed)
    && (o.state == Unhealthy <==> r.assertion == AssertionFailedStatus)
    && (o.state == Indeterminate <==> r.assertion == NotRun)
    && (o.category == CategoryHealthy <==> r.assertion == Passed)
    && (o.category == HttpFailure <==> r.reason == ResponseHttpFailure)
    && (o.category == ProviderFailure <==> r.reason in {AssertionFailed, AssertionInvalid})
    && (o.category == SemanticsUnestablished <==> r.reason == ResponseSemanticsUnestablished)
    && o.observedAt == r.observedAt && o.receivedAt == r.receivedAt && o.httpStatus == r.httpStatus
    && o.latencyMs == r.latencyMs && o.receiptSha == r.sha
  }

  /** Why the child made no request. */
  predicate Explains(b: BlockReason, r: Receipt) {
    && (b == CredentialUnavailable <==> r.reason in {CredentialBindingUnavailable, CredentialSourceUnavailable})
    && (b == CredentialMismatch <==> r.reason == CredentialBindingMismatch)
    && (b == UnsupportedContract <==> r.reason == PlanUnsupported)
    && (b == LocalDeadline <==> r.reason == DeadlineBeforeRequest)
    && (b == ChildValidationFailed <==> r.reason == RequestLimitExceeded)
  }

  /** The attempt records what the receipt found. */
  predicate Records(a: Attempt, r: Receipt, ref: HistoryRef) {
    && a.receiptSha == r.sha && a.receiptValidated && a.requestStarted == Some(r.requestStarted)
    && (r.responseObserved ==> a.status == Observed && a.result.Some? && Describes(a.result.value, r)
                               && a.result.value.history == Some(ref))
    && (!r.responseObserved ==> a.result.None?)
    && (r.requestStarted && !r.responseObserved ==> a.status == RequestStarted)
    && (!r.requestStarted ==> a.status == Failed && a.blockReason.Some? && Explains(a.blockReason.value, r))
  }

  /** Every valid receipt that is taken is recorded as what it found. */
  lemma ReceiptIsRecorded(a: Attempt, r: Receipt, observationOnly: bool, ref: HistoryRef, now: int)
    requires ValidReceipt(r, observationOnly, a.startedAt) && a.result.None?
    ensures ReportFor(r, ref).Some?
    ensures Reported(a, ReportFor(r, ref).value, now).1.None? ==> Records(Reported(a, ReportFor(r, ref).value, now).0, r, ref)
  {}

  /** Under a claim whose lease has not run out, such a report is written exactly if the
      observation lies between the claim's start and the receipt, and the clock has not
      gone back behind the receipt. */
  lemma ReceiptFits(a: Attempt, r: Receipt, observationOnly: bool, ref: HistoryRef, now: int)
    requires ValidReceipt(r, observationOnly, a.startedAt) && now < a.leaseExpiresAt
    ensures var report := ReportFor(r, ref);
            report.Some?
            && (ValidReport(report.value) && ReportFits(a, report.value, now)
                <==> now >= a.startedAt && (r.responseObserved ==> a.startedAt <= r.observedAt <= r.receivedAt <= now))
  {
    EveryReceiptIsReported(r, observationOnly, a.startedAt, ref);
  }

  /** A concrete receipt the validator accepts and the attempt store does not: the
      response is dated half a second before the claim. Its record is durable, its claim
      is left to expire. */
  lemma SkewedReceiptIsRefused(ref: HistoryRef)
    ensures var start := 10 * SECOND;
            var r := Receipt(OutcomeHealthy, AssertionPassed, Passed, true, true, start - SECOND / 2, 200, start + SECOND, 5,
                             "sha", "bytes");
            var a := ClaimedAttempt(Binding("s", "o", "r", "m", "i", "h", "g", SECOND), "attempt", 1, start, MAX_LEASE);
            && ValidReceipt(r, false, a.startedAt)
            && ReportFor(r, ref).Some? && ValidReport(ReportFor(r, ref).value)
            && !ReportFits(a, ReportFor(r, ref).value, start + 2 * SECOND)
  {}
}
