/** The scheduler: one task per identity within a fixed number of slots, one slot kept
    for a delivery that had to wait, and a readiness sweep spread over many passes.
    Every method is one critical section, or a loop of them. What is found out from
    outside, and the errors other tasks latch during a sweep, are parameters. */
module Scheduler {
  import opened Foundations
  import H = HistoryModel
  import opened AttemptModel

  const SWEEP_SLICE: int := 256
  const PASS_INTERVAL: int := SECOND

  datatype Kind = Execution | Delivery

  datatype Evidence = Evidence(proven: bool, proofAt: int, validUntil: int)

  const NO_EVIDENCE: Evidence := Evidence(false, 0, 0)

  // ---------------------------------------------------------------------
  // Evidence for one target
  // ---------------------------------------------------------------------

  /** The summary was read back as what it said, or never had to be sent. */
  predicate DeliveryProven(a: Attempt) {
    && a.result.Some? && ValidObservation(a.result.value)
    && (if a.result.value.state == Indeterminate && a.result.value.category == SemanticsUnestablished then
          a.delivery == NotApplicable && a.deliveryAckAt == 0 && a.gatusReceivedAt == 0 && a.gatusResult.None?
        else
          a.delivery == ReadbackVerified && a.gatusReceivedAt != 0 && a.gatusReceivedAt >= a.deliveryAckAt
          && a.gatusResult == Some(if a.result.value.state == Healthy then GatusHealthy else GatusUnhealthy))
  }

  predicate NotInFuture(a: Attempt, now: int) {
    && a.startedAt <= now && a.finishedAt <= now && a.deliveryStartedAt <= now && a.deliveryAckAt <= now
    && a.gatusReceivedAt <= now
  }

  /** The observation's own times are consistent with its attempt's. */
  predicate ConsistentResult(a: Attempt, now: int)
    requires a.result.Some?
  {
    var r := a.result.value;
    && a.startedAt > 0 && a.finishedAt > 0 && r.observedAt > 0 && r.receivedAt > 0
    && r.receivedAt <= now && r.observedAt <= now
    && ValidObservation(r) && r.receiptSha == a.receiptSha && r.history.Some?
    && a.startedAt <= r.observedAt <= r.receivedAt <= a.finishedAt
  }

  predicate Observes(a: Attempt, expected: Binding) {
    && a.binding == expected && a.status == Observed && a.result.Some? && a.receiptValidated
    && a.requestStarted == Some(true)
  }

  /** The attempt whose observation counts: the latest, or during a claim still open the
      one completed before it. */
  function ProofOf(expected: Binding, latest: Attempt, completed: Option<Attempt>, now: int): Option<Attempt> {
    if latest.startedAt <= 0 || !NotInFuture(latest, now) then None
    else if latest.status == Claimed then
      if latest.binding == expected && now < latest.leaseExpiresAt && completed.Some?
         && completed.value.generation < latest.generation then completed
      else None
    else if latest.status == Observed then Some(latest)
    else None
  }

  /** None is a reference that could not be verified; the sweep then starts over. */
  function OperationEvidence(expected: Binding, latest: Attempt, completed: Option<Attempt>, verified: bool, now: int): (e: Option<Evidence>)
    ensures e.Some? && !e.value.proven ==> e.value == NO_EVIDENCE
    ensures e.None? ==> !verified
  {
    var proof := ProofOf(expected, latest, completed, now);
    if proof.None? || !Observes(proof.value, expected) || !NotInFuture(proof.value, now)
       || !ConsistentResult(proof.value, now) then Some(NO_EVIDENCE)
    else if !verified then None
    else
      var a := proof.value;
      if !DeliveryProven(a) then Some(NO_EVIDENCE)
      else Some(Evidence(true, if a.delivery == ReadbackVerified then a.gatusReceivedAt else a.result.value.receivedAt,
                         a.result.value.observedAt + expected.period))
  }

  // ---------------------------------------------------------------------
  // Errors and what clears them
  // ---------------------------------------------------------------------

  datatype Reason =
    | CapacityInfeasible | AttemptStoreUnavailable | DeliveryStoreUnavailable | ExecutionUnavailable
    | DeliveryStateUnavailable | DeliveryUnavailable | DeliveryStateInvalid

  /** One latched error; scheduler-wide errors name no identity. */
  datatype Latch = Latch(key: Option<H.OperationKey>, reason: Reason, at: int, requiresNewProof: bool)

  datatype IdentityError = IdentityError(at: int, requiresNewProof: bool)

  /** The errors per identity after a run of latches: the time of the last one, and
      whether any of them asks for new proof. */
  function ErrorsOf(latches: seq<Latch>): map<H.OperationKey, IdentityError> {
    if |latches| == 0 then map[]
    else
      var last := latches[|latches| - 1];
      var before := ErrorsOf(latches[..|latches| - 1]);
      if last.key.None? then before
      else
        var needed := last.requiresNewProof || (last.key.value in before && before[last.key.value].requiresNewProof);
        before[last.key.value := IdentityError(last.at, needed)]
  }

  /** One more latch, as the scheduler applies it. */
  lemma ErrorsOfMore(latched: seq<Latch>, cleared: nat, l: Latch)
    requires cleared <= |latched|
    ensures var before := ErrorsOf(latched[cleared..]);
            ErrorsOf((latched + [l])[cleared..])
            == if l.key.None? then before
               else before[l.key.value := IdentityError(l.at, l.requiresNewProof
                                                        || (l.key.value in before && before[l.key.value].requiresNewProof))]
  {
    var longer := (latched + [l])[cleared..];
    assert longer == latched[cleared..] + [l];
    assert longer[..|longer| - 1] == latched[cleared..];
  }

  /** Every latch for an identity is in its error, and the proof that satisfies the
      error is no older than the last of them. */
  lemma {:induction false} ErrorCovers(latches: seq<Latch>, i: nat)
    requires i < |latches| && latches[i].key.Some?
    ensures var errors := ErrorsOf(latches);
            var k := latches[i].key.value;
            && k in errors
            && (latches[i].requiresNewProof ==> errors[k].requiresNewProof)
            && exists j :: i <= j < |latches| && latches[j].key == Some(k) && errors[k].at == latches[j].at
  {
    var last := |latches| - 1;
    if i == last {
      assert latches[last].key == Some(latches[i].key.value);
    } else {
      ErrorCovers(latches[..last], i);
      var k := latches[i].key.value;
      var j :| i <= j < last && latches[..last][j].key == Some(k) && ErrorsOf(latches[..last])[k].at == latches[..last][j].at;
      if latches[last].key == Some(k) {
        assert ErrorsOf(latches)[k].at == latches[last].at;
      } else {
        assert ErrorsOf(latches)[k].at == latches[j].at;
      }
    }
  }

  /** The evidence answers every error of the targets. */
  predicate Answered(keys: seq<H.OperationKey>, errors: map<H.OperationKey, IdentityError>, staging: seq<Evidence>)
    requires |staging| == |keys|
  {
    forall i :: 0 <= i < |keys| && keys[i] in errors ==>
      staging[i].proven && (errors[keys[i]].requiresNewProof ==> staging[i].proofAt >= errors[keys[i]].at)
  }

  /** Where the times of one identity's latches do not go back, evidence that answers the
      errors is proof later than every latch of it that asked for new proof. */
  lemma {:induction false} ProofAfterLatch(keys: seq<H.OperationKey>, latches: seq<Latch>, staging: seq<Evidence>, i: nat, j: nat)
    requires |staging| == |keys| && Answered(keys, ErrorsOf(latches), staging)
    requires i < |latches| && j < |keys| && latches[i].key == Some(keys[j]) && latches[i].requiresNewProof
    requires forall a, b :: 0 <= a < b < |latches| && latches[a].key == latches[b].key == Some(keys[j])
               ==> latches[a].at <= latches[b].at
    ensures staging[j].proven && staging[j].proofAt >= latches[i].at
  {
    ErrorCovers(latches, i);
  }

  // ---------------------------------------------------------------------
  // A sweep's totals
  // ---------------------------------------------------------------------

  predicate Current(e: Evidence, now: int) { e.proven && now < e.validUntil }

  function CountCurrent(staging: seq<Evidence>, now: int): nat {
    if |staging| == 0 then 0
    else CountCurrent(staging[..|staging| - 1], now) + if Current(staging[|staging| - 1], now) then 1 else 0
  }

  lemma {:induction false} AllCurrent(staging: seq<Evidence>, now: int)
    ensures CountCurrent(staging, now) <= |staging|
    ensures CountCurrent(staging, now) == |staging| <==> forall i :: 0 <= i < |staging| ==> Current(staging[i], now)
  {
    if |staging| > 0 {
      var shorter := staging[..|staging| - 1];
      AllCurrent(shorter, now);
      assert forall i :: 0 <= i < |shorter| ==> staging[i] == shorter[i];
      if CountCurrent(staging, now) == |staging| {
        forall i | 0 <= i < |staging| ensures Current(staging[i], now) {
          if i < |shorter| { assert Current(shorter[i], now); }
        }
      }
    }
  }

  /** The earliest of the set expirations; zero if none is set. */
  predicate IsEarliest(t: int, staging: seq<Evidence>) {
    && (forall i :: 0 <= i < |staging| && staging[i].validUntil != 0 ==> t != 0 && t <= staging[i].validUntil)
    && (t != 0 ==> exists i :: 0 <= i < |staging| && staging[i].validUntil == t)
  }

  method Tally(staging: seq<Evidence>, now: int) returns (current: nat, missing: nat, validUntil: int)
    ensures current == CountCurrent(staging, now) && current + missing == |staging|
    ensures IsEarliest(validUntil, staging)
  {
    current, missing, validUntil := 0, 0, 0;
    var i := 0;
    while i < |staging|
      invariant 0 <= i <= |staging|
      invariant current == CountCurrent(staging[..i], now) && current + missing == i
      invariant IsEarliest(validUntil, staging[..i])
    {
      var e := staging[i];
      assert staging[..i + 1][..i] == staging[..i];
      ghost var earlier := staging[..i];
      if Current(e, now) { current := current + 1; } else { missing := missing + 1; }
      if e.validUntil != 0 && (validUntil == 0 || e.validUntil < validUntil) { validUntil := e.validUntil; }
      EarliestStep(earlier, e, staging[..i + 1], validUntil);
      i := i + 1;
    }
    assert staging[..i] == staging;
  }

  /** All that is current is unexpired exactly up to the earliest expiration. */
  lemma EarliestBounds(staging: seq<Evidence>, t: int, now: int, at: int)
    requires |staging| > 0 && IsEarliest(t, staging)
    requires forall i :: 0 <= i < |staging| && staging[i].proven ==> staging[i].validUntil > 0
    requires forall i :: 0 <= i < |staging| ==> Current(staging[i], now)
    ensures t != 0
    ensures at < t <==> forall i :: 0 <= i < |staging| ==> at < staging[i].validUntil
  {
    assert Current(staging[0], now);
  }

  lemma EarliestStep(earlier: seq<Evidence>, e: Evidence, longer: seq<Evidence>, t: int)
    requires longer == earlier + [e]
    requires exists previous :: IsEarliest(previous, earlier)
                           && t == if e.validUntil != 0 && (previous == 0 || e.validUntil < previous) then e.validUntil else previous
    ensures IsEarliest(t, longer)
  {
    var previous :| IsEarliest(previous, earlier)
                && t == if e.validUntil != 0 && (previous == 0 || e.validUntil < previous) then e.validUntil else previous;
    assert longer[|earlier|] == e;
    forall i | 0 <= i < |earlier| ensures longer[i] == earlier[i] {}
    if t != 0 && t == previous {
      var i :| 0 <= i < |earlier| && earlier[i].validUntil == previous;
      assert longer[i].validUntil == t;
    }
  }

  // ---------------------------------------------------------------------
  // The scheduler
  // ---------------------------------------------------------------------

  /** What a sweep reads for one target: its latest attempt, the one completed before it,
      and whether the history confirms the reference of the one that counts. */
  datatype Snapshot = SnapshotError | NoAttempts | Read(latest: Attempt, completed: Option<Attempt>, verified: bool)

  /** What one pass read, and its time. */
  datatype Reading = Reading(latest: Attempt, completed: Option<Attempt>, verified: bool, at: int)

  /** The evidence is what the reading gives; without one there is none. */
  predicate ReadAs(binding: Binding, reading: Option<Reading>, e: Evidence) {
    match reading
    case None => e == NO_EVIDENCE
    case Some(r) => OperationEvidence(binding, r.latest, r.completed, r.verified, r.at) == Some(e)
  }

  /** Every piece of evidence was read, by the given time. */
  predicate ReadFrom(bindings: seq<Binding>, readings: seq<Option<Reading>>, staging: seq<Evidence>, upto: int) {
    && |readings| == |staging| == |bindings|
    && forall i :: 0 <= i < |bindings| ==>
         ReadAs(bindings[i], readings[i], staging[i]) && (readings[i].Some? ==> readings[i].value.at <= upto)
  }

  /** The attempt a reading goes by: the latest if it is observed; while a claim of the
      target's own binding is open, the one completed before it. */
  predicate Cites(b: Binding, r: Reading, a: Attempt) {
    || (r.latest.status == Observed && a == r.latest)
    || (r.latest.status == Claimed && r.latest.binding == b && r.at < r.latest.leaseExpiresAt
        && r.completed == Some(a) && a.generation < r.latest.generation)
  }

  /** The attempt is one of exactly the target's binding that was observed and validated
      between its start and its end, and whose summary the monitor gave back as it was;
      nothing about it is dated after the reading. */
  predicate Proves(a: Attempt, b: Binding, at: int) {
    && a.binding == b && a.status == Observed && a.receiptValidated && a.requestStarted == Some(true)
    && a.result.Some? && ValidObservation(a.result.value)
    && a.result.value.receiptSha == a.receiptSha && a.result.value.history.Some?
    && 0 < a.startedAt <= a.result.value.observedAt <= a.result.value.receivedAt <= a.finishedAt <= at
    && a.deliveryStartedAt <= at && a.deliveryAckAt <= at && a.gatusReceivedAt <= at
    && (if a.result.value.category == SemanticsUnestablished then
          a.delivery == NotApplicable && a.deliveryAckAt == 0 && a.gatusReceivedAt == 0 && a.gatusResult.None?
        else
          a.delivery == ReadbackVerified && a.gatusReceivedAt != 0 && a.gatusReceivedAt >= a.deliveryAckAt
          && (a.gatusResult == Some(GatusHealthy) <==> a.result.value.state == Healthy)
          && a.gatusResult in {Some(GatusHealthy), Some(GatusUnhealthy)})
  }

  /** The latest attempt was begun, and nothing about it is dated after the reading. */
  predicate InThePast(r: Reading) { r.latest.startedAt > 0 && NotInFuture(r.latest, r.at) }

  /** The target has an attempt that proves it, is confirmed in the history, and was
      observed less than a period ago. */
  ghost predicate ProvenBy(b: Binding, r: Reading, at: int) {
    && InThePast(r) && r.verified
    && exists a :: Cites(b, r, a) && Proves(a, b, r.at) && at < a.result.value.observedAt + b.period
  }

  /** The proof was settled at the given time or later: read back then, or received then
      if nothing had to be sent. */
  ghost predicate SettledSince(b: Binding, r: Reading, since: int) {
    forall a :: Cites(b, r, a) ==>
      && a.result.Some?
      && (if a.delivery == NotApplicable then a.result.value.receivedAt >= since else a.gatusReceivedAt >= since)
  }

  /** Evidence is proof exactly if an attempt it cites proves the target; it then lasts one
      period from the observation and counts from when it was settled. */
  lemma EvidenceIff(b: Binding, r: Reading)
    ensures var e := OperationEvidence(b, r.latest, r.completed, r.verified, r.at);
            && (e.Some? && e.value.proven <==> InThePast(r) && r.verified && exists a :: Cites(b, r, a) && Proves(a, b, r.at))
            && (e.Some? && e.value.proven ==>
                  forall a :: Cites(b, r, a) ==>
                    && a.result.Some? && e.value.validUntil == a.result.value.observedAt + b.period
                    && e.value.proofAt == if a.delivery == NotApplicable then a.result.value.receivedAt else a.gatusReceivedAt)
            && (e.Some? && !e.value.proven ==> e.value == NO_EVIDENCE)
            && (r.verified ==> e.Some?)
  {
    var proof := ProofOf(b, r.latest, r.completed, r.at);
    if proof.Some? { assert Cites(b, r, proof.value); }
    hide ValidObservation;
  }

  lemma ProvenIsRead(b: Binding, reading: Option<Reading>, e: Evidence, at: int)
    requires ReadAs(b, reading, e) && b.period > 0
    ensures e.proven && at < e.validUntil <==> reading.Some? && ProvenBy(b, reading.value, at)
    ensures e.proven ==> e.validUntil > 0 && forall since :: e.proofAt >= since ==> SettledSince(b, reading.value, since)
  {
    if reading.Some? {
      EvidenceIff(b, reading.value);
      hide ProofOf, Cites, Proves, OperationEvidence, InThePast;
    }
  }

  /** A sweep that ran to its end: what it proved, from which readings, and when it began
      and ended. */
  datatype Sweep = Sweep(at: int, began: nat, evidence: seq<Evidence>, readings: seq<Option<Reading>>)

  /** What the sweep read for the target, before it ended, proves it at the sweep's end and
      at the given time. */
  ghost predicate ReadProven(binding: Binding, sweep: Sweep, i: nat, at: int)
    requires i < |sweep.readings| && sweep.readings[i].Some?
  {
    var r := sweep.readings[i].value;
    r.at <= sweep.at && ProvenBy(binding, r, sweep.at) && ProvenBy(binding, r, at)
  }

  datatype Status =
    | ZeroAdmitted | NotFeasible | LoopStale | Incomplete | Failing(reason: Reason) | AwaitingSweep | Stale | Ready

  /** Time is left for every target of the slice, and each could be read. */
  predicate SliceReadable(bindings: seq<Binding>, snapshots: seq<Snapshot>, now: int, start: nat, end: nat, stop: nat) {
    forall i: nat :: start <= i < end ==> ReadableAt(bindings, snapshots, now, i, stop)
  }

  predicate ReadableAt(bindings: seq<Binding>, snapshots: seq<Snapshot>, now: int, i: nat, stop: nat) {
    i < stop && i < |snapshots| && i < |bindings| && Readable(bindings[i], snapshots[i], now)
  }

  /** The attempt file could be read, and so could the record the attempt that counts refers to. */
  predicate Readable(binding: Binding, s: Snapshot, now: int) {
    s.NoAttempts? || (s.Read? && OperationEvidence(binding, s.latest, s.completed, s.verified, now).Some?)
  }

  /** What a sweep stages for a target it can read. */
  function EvidenceIn(binding: Binding, s: Snapshot, now: int, before: Evidence): Evidence
    requires Readable(binding, s, now)
  {
    if s.Read? then OperationEvidence(binding, s.latest, s.completed, s.verified, now).value else before
  }

  lemma SliceGrows(bindings: seq<Binding>, snapshots: seq<Snapshot>, now: int, start: nat, index: nat, end: nat, stop: nat)
    requires start <= index < end && SliceReadable(bindings, snapshots, now, start, index, stop)
    ensures SliceReadable(bindings, snapshots, now, start, index + 1, stop) <==> ReadableAt(bindings, snapshots, now, index, stop)
    ensures !SliceReadable(bindings, snapshots, now, start, index + 1, stop) ==> !SliceReadable(bindings, snapshots, now, start, end, stop)
  {
    hide ReadableAt;
    assert SliceReadable(bindings, snapshots, now, start, index + 1, stop) ==> ReadableAt(bindings, snapshots, now, index, stop);
    assert SliceReadable(bindings, snapshots, now, start, end, stop) ==> ReadableAt(bindings, snapshots, now, index, stop);
  }

  lemma NothingToRead(bindings: seq<Binding>, snapshots: seq<Snapshot>, now: int, start: nat, stop: nat)
    ensures SliceReadable(bindings, snapshots, now, start, start, stop)
  {}

  function ReadingOf(s: Snapshot, now: int): Reading
    requires s.Read?
  {
    Reading(s.latest, s.completed, s.verified, now)
  }

  lemma ReadSizes(bindings: seq<Binding>, readings: seq<Option<Reading>>, staging: seq<Evidence>, upto: int)
    requires ReadFrom(bindings, readings, staging, upto)
    ensures |readings| == |staging| == |bindings|
  {}

  /** A target of the slice has what its attempts prove, every other what it had. */
  predicate StagedIn(binding: Binding, e: Evidence, earlier: Evidence, inSlice: bool, s: Snapshot, now: int) {
    if inSlice && s.Read? then ReadAs(binding, Some(ReadingOf(s, now)), e) else e == earlier
  }

  method ReadTarget(binding: Binding, s: Snapshot, now: int) returns (readable: bool, evidence: Option<Evidence>)
    ensures readable <==> Readable(binding, s, now)
    ensures readable ==> evidence == if s.Read? then Some(EvidenceIn(binding, s, now, NO_EVIDENCE)) else None
  {
    if s.SnapshotError? { return false, None; }
    if s.NoAttempts? { return true, None; }
    evidence := OperationEvidence(binding, s.latest, s.completed, s.verified, now);
    readable := evidence.Some?;
  }

  /** One target more has been staged. */
  lemma StageOne(bindings: seq<Binding>, readings: seq<Option<Reading>>, staging: seq<Evidence>, now: int, i: nat, s: Snapshot,
                 earlier: Evidence)
    requires ReadFrom(bindings, readings, staging, now) && i < |bindings| && Readable(bindings[i], s, now)
    requires StagedIn(bindings[i], staging[i], earlier, false, s, now)
    ensures |readings| == |staging| == |bindings|
    ensures s.Read? ==>
              var e := EvidenceIn(bindings[i], s, now, NO_EVIDENCE);
              && ReadFrom(bindings, readings[i := Some(ReadingOf(s, now))], staging[i := e], now)
              && StagedIn(bindings[i], e, earlier, true, s, now)
    ensures !s.Read? ==> StagedIn(bindings[i], staging[i], earlier, true, s, now)
  {
    hide OperationEvidence;
  }

  lemma ReadLater(bindings: seq<Binding>, readings: seq<Option<Reading>>, staging: seq<Evidence>, upto: int, later: int)
    requires ReadFrom(bindings, readings, staging, upto) && upto <= later
    ensures ReadFrom(bindings, readings, staging, later)
  {
    hide ReadAs;
  }

  lemma NothingRead(bindings: seq<Binding>, readings: seq<Option<Reading>>, staging: seq<Evidence>, upto: int)
    requires |readings| == |staging| == |bindings|
    requires forall i :: 0 <= i < |bindings| ==> readings[i] == None && staging[i] == NO_EVIDENCE
    ensures ReadFrom(bindings, readings, staging, upto)
  {}

  /** The place of the `j`-th target a scan looks at. */
  function PlaceOf(start: nat, j: nat, n: nat): (p: nat)
    requires n > 0
    ensures p < n
  {
    Wrap(start + j, n)
  }

  /** Every wanted task among the targets looked at is under way, or the slots are used up. */
  ghost predicate Offered(keys: seq<H.OperationKey>, active: map<H.OperationKey, Kind>, count: int, limit: int, wanted: seq<Option<bool>>, start: nat, scanned: nat)
    requires |wanted| == |keys| > 0
  {
    forall j: nat :: j < scanned ==> Served(keys, active, count, limit, wanted, PlaceOf(start, j, |keys|))
  }

  predicate Served(keys: seq<H.OperationKey>, active: map<H.OperationKey, Kind>, count: int, limit: int, wanted: seq<Option<bool>>, p: nat)
    requires |wanted| == |keys| && p < |keys|
  {
    wanted[p] == Some(true) ==> keys[p] in active || count >= limit
  }

  lemma OfferedMore(keys: seq<H.OperationKey>, before: map<H.OperationKey, Kind>, count: int, after: map<H.OperationKey, Kind>, more: int, limit: int,
                    wanted: seq<Option<bool>>, start: nat, scanned: nat)
    requires |wanted| == |keys| > 0 && Offered(keys, before, count, limit, wanted, start, scanned)
    requires before.Keys <= after.Keys && count <= more && Served(keys, after, more, limit, wanted, PlaceOf(start, scanned, |keys|))
    ensures Offered(keys, after, more, limit, wanted, start, scanned + 1)
  {
    hide PlaceOf;
    forall j: nat | j < scanned + 1 ensures Served(keys, after, more, limit, wanted, PlaceOf(start, j, |keys|)) {
      if j < scanned { assert Served(keys, before, count, limit, wanted, PlaceOf(start, j, |keys|)); }
    }
  }

  lemma OfferedStays(keys: seq<H.OperationKey>, before: map<H.OperationKey, Kind>, count: int, after: map<H.OperationKey, Kind>, more: int, limit: int,
                     wanted: seq<Option<bool>>, start: nat, scanned: nat)
    requires |wanted| == |keys| > 0 && Offered(keys, before, count, limit, wanted, start, scanned)
    requires before.Keys <= after.Keys && count <= more
    ensures Offered(keys, after, more, limit, wanted, start, scanned)
  {
    hide PlaceOf;
    forall j: nat | j < scanned ensures Served(keys, after, more, limit, wanted, PlaceOf(start, j, |keys|)) {
      assert Served(keys, before, count, limit, wanted, PlaceOf(start, j, |keys|));
    }
  }

  lemma NothingOffered(keys: seq<H.OperationKey>, active: map<H.OperationKey, Kind>, count: int, limit: int, wanted: seq<Option<bool>>, start: nat)
    requires |wanted| == |keys| > 0
    ensures Offered(keys, active, count, limit, wanted, start, 0)
  {}

  lemma FirstPlace(start: nat, n: nat)
    requires start < n
    ensures PlaceOf(start, 0, n) == start
  {
    WrapUnique(start, 0, start, n);
  }

  /** The clock when each target is looked at, in each of the three scans of a pass. */
  datatype Clocks = Clocks(delivery: seq<int>, execution: seq<int>, sweep: seq<int>)

  class OperationPlanScheduler {
    const keys: seq<H.OperationKey>
    const bindings: seq<Binding>
    const maxConcurrent: nat
    const maxStarts: nat
    const maxDeliveries: nat
    const scanBudget: nat
    const feasible: bool

    var active: map<H.OperationKey, Kind>
    var activeCount: nat
    var executionCursor: nat
    var deliveryCursor: nat
    var deliveryReservation: int
    var lastPass: int
    var passes: nat
    var lastErrorReason: Option<Reason>
    var lastErrorAt: int
    var errorEpoch: nat
    var identityErrors: map<H.OperationKey, IdentityError>
    var evidenceSweepAt: int
    var evidenceChecked: nat
    var evidenceCurrent: nat
    var evidenceMissing: nat
    var evidenceValidUntil: int
    var evidenceScanCursor: nat
    var evidenceSweepEpoch: nat
    var evidenceStaging: seq<Evidence>

    /** Every error ever latched; how many of them have been cleared; what the staged
        evidence was read from; the last complete sweep; and whether a slot is being
        kept for the reserved delivery. */
    ghost var latched: seq<Latch>
    ghost var cleared: nat
    ghost var readings: seq<Option<Reading>>
    ghost var published: Option<Sweep>
    ghost var slotKept: bool

    ghost predicate DistinctKeys() {
      && (forall i, j :: 0 <= i < j < |keys| ==> keys[i] != keys[j])
      && forall i :: 0 <= i < |keys| ==> i < |bindings| && KeyOf(bindings[i]) == keys[i] && bindings[i].period > 0
    }

    ghost predicate SlotsValid()
      reads `active, `activeCount, `deliveryReservation, `executionCursor, `deliveryCursor, `slotKept
    {
      && activeCount == |active| <= maxConcurrent
      && -1 <= deliveryReservation < |keys|
      && executionCursor < |keys| && deliveryCursor < |keys|
      && (slotKept ==> deliveryReservation >= 0)
      && (slotKept ==> activeCount <= maxConcurrent - 1)
    }

    ghost predicate ErrorsValid()
      reads `errorEpoch, `latched, `cleared, `identityErrors, `lastErrorReason, `evidenceSweepEpoch
    {
      && errorEpoch == |latched| && cleared <= |latched| && evidenceSweepEpoch <= errorEpoch
      && identityErrors == ErrorsOf(latched[cleared..])
      && (lastErrorReason.None? <==> cleared == |latched|)
      && (lastErrorReason.Some? ==> lastErrorReason.value == latched[|latched| - 1].reason)
    }

    /** What the sweep under way has staged, it has read. */
    ghost predicate StagingValid()
      reads `evidenceScanCursor, `evidenceStaging, `readings, `lastPass
    {
      && evidenceScanCursor < |keys|
      && (evidenceScanCursor > 0 ==> ReadFrom(bindings, readings, evidenceStaging, lastPass))
    }

    /** The totals are those of the last complete sweep. */
    ghost predicate TotalsValid()
      reads `published, `evidenceSweepAt, `evidenceChecked, `evidenceCurrent, `evidenceValidUntil
    {
      match published
      case None => evidenceSweepAt == 0 && evidenceChecked == 0
      case Some(sweep) =>
        && |sweep.evidence| == |keys| && evidenceSweepAt == sweep.at > 0 && evidenceChecked == |keys|
        && ReadFrom(bindings, sweep.readings, sweep.evidence, sweep.at)
        && evidenceCurrent == CountCurrent(sweep.evidence, sweep.at)
        && IsEarliest(evidenceValidUntil, sweep.evidence)
    }

    ghost predicate Valid()
      reads this
    {
      && |keys| == |bindings| > 0 && DistinctKeys() && maxConcurrent > 0 && (passes > 0 ==> lastPass > 0)
      && SlotsValid() && ErrorsValid() && StagingValid() && TotalsValid()
    }

    constructor (keys: seq<H.OperationKey>, bindings: seq<Binding>, maxConcurrent: nat, maxStarts: nat, maxDeliveries: nat,
                 scanBudget: nat, feasible: bool)
      requires |keys| > 0 && forall i, j :: 0 <= i < j < |keys| ==> keys[i] != keys[j]
      requires |bindings| == |keys| && forall i :: 0 <= i < |keys| ==> KeyOf(bindings[i]) == keys[i] && bindings[i].period > 0
      requires 0 < maxStarts <= maxConcurrent && 0 < maxDeliveries <= maxConcurrent && 0 < scanBudget
      ensures Valid() && active == map[] && deliveryReservation == -1 && passes == 0 && published.None? && latched == []
      ensures this.keys == keys && this.bindings == bindings && this.maxConcurrent == maxConcurrent
    {
      this.keys, this.maxConcurrent, this.maxStarts, this.maxDeliveries := keys, maxConcurrent, maxStarts, maxDeliveries;
      this.bindings, this.scanBudget, this.feasible := bindings, scanBudget, feasible;
      active, activeCount, executionCursor, deliveryCursor, deliveryReservation := map[], 0, 0, 0, -1;
      lastPass, passes := 0, 0;
      lastErrorReason, lastErrorAt, errorEpoch, identityErrors := None, 0, 0, map[];
      evidenceSweepAt, evidenceChecked, evidenceCurrent, evidenceMissing, evidenceValidUntil := 0, 0, 0, 0, 0;
      evidenceScanCursor, evidenceSweepEpoch, evidenceStaging := 0, 0, [];
      latched, cleared, readings, published, slotKept := [], 0, [], None, false;
    }

    // -------------------------------------------------------------------
    // Slots
    // -------------------------------------------------------------------

    /** Starts one task, unless its identity or every slot is busy, or the last slot is
        being kept. A delivery that cannot start reserves the next slot, if none is reserved. */
    method Launch(parentAlive: bool, identity: H.OperationKey, kind: Kind, target: int) returns (started: bool)
      requires Valid() && target < |keys|
      modifies `active, `activeCount, `deliveryReservation, `slotKept
      ensures Valid()
      ensures started <==> parentAlive && identity !in old(active) && old(activeCount) < maxConcurrent
                           && (old(deliveryReservation) >= 0 && !(kind == Delivery && target == old(deliveryReservation))
                               ==> old(activeCount) < maxConcurrent - 1)
      ensures active == if started then old(active)[identity := kind] else old(active)
      ensures deliveryReservation ==
              if started && kind == Delivery && target == old(deliveryReservation) then -1
              else if parentAlive && !started && (identity in old(active) || old(activeCount) == maxConcurrent)
                      && kind == Delivery && target >= 0 && old(deliveryReservation) < 0 then target
              else old(deliveryReservation)
      ensures old(slotKept) && deliveryReservation == old(deliveryReservation) ==> slotKept
      // The reserved delivery is refused only while its own identity is busy.
      ensures old(slotKept) && parentAlive && kind == Delivery && target == old(deliveryReservation)
              ==> (started <==> identity !in old(active))
    {
      hide OperationPlanScheduler.ErrorsValid, OperationPlanScheduler.StagingValid,
           OperationPlanScheduler.TotalsValid;
      if !parentAlive { return false; }
      if activeCount >= maxConcurrent || identity in active {
        if kind == Delivery && target >= 0 && deliveryReservation < 0 {
          deliveryReservation := target;
          slotKept := activeCount < maxConcurrent;
        }
        return false;
      }
      var reserved := kind == Delivery && target == deliveryReservation;
      if deliveryReservation >= 0 && !reserved && activeCount >= maxConcurrent - 1 { return false; }
      active := active[identity := kind];
      activeCount := activeCount + 1;
      if reserved {
        deliveryReservation := -1;
        slotKept := false;
      }
      return true;
    }

    /** A task ends. From here on a slot is kept for a reserved delivery. */
    method TaskEnds(identity: H.OperationKey)
      requires Valid() && identity in active
      modifies `active, `activeCount, `slotKept
      ensures Valid() && active == old(active) - {identity} && activeCount == old(activeCount) - 1
      ensures deliveryReservation >= 0 ==> slotKept
      ensures old(slotKept) ==> slotKept
    {
      hide OperationPlanScheduler.ErrorsValid, OperationPlanScheduler.StagingValid,
           OperationPlanScheduler.TotalsValid;
      assert (active - {identity}).Keys == active.Keys - {identity};
      assert |(active - {identity}).Keys| == |active.Keys| - 1;
      active := active - {identity};
      activeCount := activeCount - 1;
      slotKept := deliveryReservation >= 0;
    }

    method ClearDeliveryReservation(target: nat)
      requires Valid()
      modifies `deliveryReservation, `slotKept
      ensures Valid()
      ensures deliveryReservation == if old(deliveryReservation) == target then -1 else old(deliveryReservation)
      ensures old(slotKept) && deliveryReservation == old(deliveryReservation) ==> slotKept
    {
      if deliveryReservation == target {
        deliveryReservation := -1;
        slotKept := false;
      }
    }

    /** Where the next delivery scan starts: at the reserved target, if there is one. */
    function DeliveryScanStart(): (start: nat)
      requires Valid()
      reads this
      ensures start < |keys|
      ensures deliveryReservation >= 0 ==> start == deliveryReservation
    {
      if deliveryReservation >= 0 then deliveryReservation else deliveryCursor
    }

    method FinishDeliveryScan(start: nat, scanned: nat)
      requires Valid()
      modifies `deliveryCursor
      ensures Valid() && deliveryCursor == if deliveryReservation >= 0 then deliveryReservation else (start + scanned) % |keys|
    {
      deliveryCursor := if deliveryReservation >= 0 then deliveryReservation else (start + scanned) % |keys|;
    }

    // -------------------------------------------------------------------
    // Errors
    // -------------------------------------------------------------------

    method LatchError(l: Latch)
      requires Valid()
      modifies `lastErrorReason, `lastErrorAt, `errorEpoch, `identityErrors, `latched
      ensures Valid() && latched == old(latched) + [l]
      ensures lastErrorReason == Some(l.reason) && lastErrorAt == l.at
    {
      hide ErrorsOf, OperationPlanScheduler.DistinctKeys, OperationPlanScheduler.SlotsValid,
           OperationPlanScheduler.StagingValid, OperationPlanScheduler.TotalsValid;
      ErrorsOfMore(latched, cleared, l);
      lastErrorReason, lastErrorAt, errorEpoch := Some(l.reason), l.at, errorEpoch + 1;
      if l.key.Some? {
        var k := l.key.value;
        var needed := l.requiresNewProof || (k in identityErrors && identityErrors[k].requiresNewProof);
        identityErrors := identityErrors[k := IdentityError(l.at, needed)];
      }
      latched := latched + [l];
    }

    /** Tasks that end or fail while somebody else is at work. */
    method Others(latches: seq<Latch>)
      requires Valid()
      modifies `lastErrorReason, `lastErrorAt, `errorEpoch, `identityErrors, `latched
      ensures Valid() && latched == old(latched) + latches
    {
      hide OperationPlanScheduler.ErrorsValid, OperationPlanScheduler.StagingValid,
           OperationPlanScheduler.TotalsValid, OperationPlanScheduler.DistinctKeys,
           OperationPlanScheduler.SlotsValid;
      var i := 0;
      while i < |latches|
        invariant 0 <= i <= |latches| && Valid() && latched == old(latched) + latches[..i]
      {
        LatchError(latches[i]);
        assert latches[..i + 1] == latches[..i] + [latches[i]];
        i := i + 1;
      }
      assert latches[..i] == latches;
    }

    // -------------------------------------------------------------------
    // The readiness sweep
    // -------------------------------------------------------------------

    /** Every error latched so far was latched before the published sweep began, and
        the sweep answered all that had not been cleared by then. */
    ghost predicate ClearedBy(before: nat)
      reads `published, `cleared, `latched
    {
      && published.Some? && cleared == |latched| == published.value.began && before <= |latched|
      && |published.value.evidence| == |keys|
      && (forall i :: 0 <= i < |keys| ==> Current(published.value.evidence[i], published.value.at))
      && Answered(keys, ErrorsOf(latched[before..]), published.value.evidence)
    }

    function SliceEnd(cursor: nat): nat { if cursor + SWEEP_SLICE > |keys| then |keys| else cursor + SWEEP_SLICE }

    /** What has been staged: what the attempts read for the targets of this slice prove,
        and for those before it what earlier passes of the sweep have staged. */
    ghost predicate StagedBy(staged: seq<Evidence>, before: seq<Evidence>, cursor: nat, snapshots: seq<Snapshot>, now: int)
      requires |snapshots| == |keys|
    {
      && |staged| == |keys| == |bindings| && (cursor > 0 ==> |before| == |keys|)
      && forall i :: 0 <= i < |keys| ==>
           StagedIn(bindings[i], staged[i], if cursor == 0 then NO_EVIDENCE else before[i], cursor <= i < SliceEnd(cursor),
                    snapshots[i], now)
    }

    /** Checks the next slice of targets. The totals are published, and errors cleared,
        only by a sweep that got to its end; errors that other tasks latch in between
        stay latched. */
    method AdvanceEvidenceSweep(now: int, clock: seq<int>, snapshots: seq<Snapshot>, others: seq<seq<Latch>>, last: seq<Latch>,
                                stop: nat) returns (ok: bool)
      requires Valid() && |snapshots| == |others| == |clock| == |keys| && now == lastPass > 0
      modifies `lastErrorReason, `lastErrorAt, `errorEpoch, `identityErrors, `latched, `cleared, `published, `readings
      modifies `evidenceSweepAt, `evidenceChecked, `evidenceCurrent, `evidenceMissing, `evidenceValidUntil
      modifies `evidenceScanCursor, `evidenceSweepEpoch, `evidenceStaging
      ensures Valid() && old(latched) <= latched
      ensures cleared == old(cleared) || (ok && ClearedBy(old(cleared)))
      ensures ok <==> SliceReadable(bindings, snapshots, now, old(evidenceScanCursor), SliceEnd(old(evidenceScanCursor)), stop)
      ensures !ok ==> evidenceScanCursor == 0 && published == old(published)
      ensures ok && SliceEnd(old(evidenceScanCursor)) < |keys|
              ==> evidenceScanCursor == SliceEnd(old(evidenceScanCursor)) && published == old(published)
                  && StagedBy(evidenceStaging, old(evidenceStaging), old(evidenceScanCursor), snapshots, now)
      ensures ok && SliceEnd(old(evidenceScanCursor)) == |keys|
              ==> evidenceScanCursor == 0 && published.Some? && published.value.at == now
                  && StagedBy(published.value.evidence, old(evidenceStaging), old(evidenceScanCursor), snapshots, now)
    {
      hide OperationPlanScheduler.TotalsValid, ErrorsOf, IsEarliest, Answered, CountCurrent,
           OperationPlanScheduler.DistinctKeys, OperationPlanScheduler.SlotsValid, OperationPlanScheduler.ClearedBy,
           SliceReadable, ReadFrom, ReadAs, OperationEvidence;
      if evidenceScanCursor == 0 {
        evidenceStaging := seq(|keys|, i => NO_EVIDENCE);
        readings := seq(|keys|, i => None);
        evidenceSweepEpoch := errorEpoch;
        NothingRead(bindings, readings, evidenceStaging, now);
      }
      var end := SliceEnd(evidenceScanCursor);
      var scanned := ScanSlice(now, clock, end, snapshots, others, stop);
      if !scanned { return false; }
      if end < |keys| {
        evidenceScanCursor := end;
        return true;
      }
      Others(last);
      PublishSweep(now);
      return true;
    }

    /** One slice; a failure of the store or of a reference starts the sweep over. */
    method ScanSlice(now: int, clock: seq<int>, end: nat, snapshots: seq<Snapshot>, others: seq<seq<Latch>>, stop: nat)
      returns (ok: bool)
      requires Valid() && |snapshots| == |others| == |clock| == |keys| && evidenceScanCursor <= end <= |keys|
      requires now == lastPass && ReadFrom(bindings, readings, evidenceStaging, now)
      modifies `lastErrorReason, `lastErrorAt, `errorEpoch, `identityErrors, `latched, `readings
      modifies `evidenceScanCursor, `evidenceStaging
      ensures Valid() && old(latched) <= latched
      ensures ok ==> evidenceScanCursor == old(evidenceScanCursor) && ReadFrom(bindings, readings, evidenceStaging, now)
      ensures ok ==> |evidenceStaging| == |old(evidenceStaging)| == |keys|
      ensures ok ==> forall i :: 0 <= i < |keys| ==>
                StagedIn(bindings[i], evidenceStaging[i], old(evidenceStaging)[i], old(evidenceScanCursor) <= i < end, snapshots[i], now)
      ensures !ok ==> evidenceScanCursor == 0 && evidenceStaging == []
      ensures ok <==> SliceReadable(bindings, snapshots, now, old(evidenceScanCursor), end, stop)
    {
      hide OperationPlanScheduler.TotalsValid, ErrorsOf, IsEarliest, CountCurrent,
           OperationPlanScheduler.DistinctKeys, OperationPlanScheduler.SlotsValid,
           OperationPlanScheduler.ErrorsValid, SliceReadable, ReadFrom, Readable, ReadAs, EvidenceIn, ReadingOf,
           StagedIn, Current;
      NothingToRead(bindings, snapshots, now, evidenceScanCursor, stop);
      ReadSizes(bindings, readings, evidenceStaging, now);
      NothingStaged();
      var index := evidenceScanCursor;
      ghost var start := evidenceScanCursor;
      while index < end
        invariant start <= index <= end && evidenceScanCursor == start && Valid()
        invariant |evidenceStaging| == |readings| == |old(evidenceStaging)| == |keys|
        invariant old(latched) <= latched && ReadFrom(bindings, readings, evidenceStaging, now)
        invariant forall i :: 0 <= i < |keys| ==>
          StagedIn(bindings[i], evidenceStaging[i], old(evidenceStaging)[i], start <= i < index, snapshots[i], now)
        invariant SliceReadable(bindings, snapshots, now, start, index, stop)
      {
        Others(others[index]);
        SliceGrows(bindings, snapshots, now, start, index, end, stop);
        if index >= stop {
          evidenceScanCursor, evidenceStaging := 0, [];
          return false;
        }
        var readable, evidence := ReadTarget(bindings[index], snapshots[index], now);
        if !readable {
          evidenceScanCursor, evidenceStaging := 0, [];
          LatchError(Latch(Some(keys[index]), AttemptStoreUnavailable, clock[index], false));
          return false;
        }
        StageOne(bindings, readings, evidenceStaging, now, index, snapshots[index], old(evidenceStaging)[index]);
        if evidence.Some? {
          evidenceStaging := evidenceStaging[index := evidence.value];
          readings := readings[index := Some(ReadingOf(snapshots[index], now))];
        }
        index := index + 1;
      }
      return true;
    }

    lemma NothingStaged()
      ensures forall b: Binding, e: Evidence, s: Snapshot, now: int :: StagedIn(b, e, e, false, s, now)
    {}

    /** The end of a sweep. */
    method PublishSweep(now: int)
      requires Valid() && now > 0 && ReadFrom(bindings, readings, evidenceStaging, now)
      modifies `lastErrorReason, `lastErrorAt, `identityErrors, `cleared, `published
      modifies `evidenceSweepAt, `evidenceChecked, `evidenceCurrent, `evidenceMissing, `evidenceValidUntil
      modifies `evidenceScanCursor, `evidenceStaging
      ensures Valid() && evidenceScanCursor == 0
      ensures published == Some(Sweep(now, evidenceSweepEpoch, old(evidenceStaging), readings))
      ensures cleared == old(cleared) || ClearedBy(old(cleared))
      ensures cleared ==
              if (forall i :: 0 <= i < |keys| ==> Current(old(evidenceStaging)[i], now)) && errorEpoch == evidenceSweepEpoch
                 && Answered(keys, old(identityErrors), old(evidenceStaging)) then |latched| else old(cleared)
    {
      hide OperationPlanScheduler.TotalsValid, ErrorsOf, IsEarliest, Answered, CountCurrent,
           OperationPlanScheduler.DistinctKeys, OperationPlanScheduler.SlotsValid,
           OperationPlanScheduler.ErrorsValid, OperationPlanScheduler.ClearedBy, ReadFrom;
      ReadSizes(bindings, readings, evidenceStaging, now);
      RecordTotals(now);
      if evidenceCurrent == |keys| && errorEpoch == evidenceSweepEpoch { ClearErrors(now); }
      evidenceScanCursor, evidenceStaging := 0, [];
    }

    method RecordTotals(now: int)
      requires Valid() && now > 0 && |evidenceStaging| == |keys| && ReadFrom(bindings, readings, evidenceStaging, now)
      modifies `evidenceSweepAt, `evidenceChecked, `evidenceCurrent, `evidenceMissing, `evidenceValidUntil, `published
      ensures Valid() && published == Some(Sweep(now, evidenceSweepEpoch, evidenceStaging, readings))
      ensures evidenceCurrent == |keys| <==> forall i :: 0 <= i < |keys| ==> Current(evidenceStaging[i], now)
      ensures evidenceSweepAt == now && evidenceChecked == |keys| == evidenceCurrent + evidenceMissing
    {
      hide Current, OperationPlanScheduler.StagingValid, ErrorsOf, IsEarliest, CountCurrent,
           OperationPlanScheduler.DistinctKeys, OperationPlanScheduler.SlotsValid,
           OperationPlanScheduler.ErrorsValid, ReadFrom;
      AllCurrent(evidenceStaging, now);
      var current, missing, validUntil := Tally(evidenceStaging, now);
      assert SlotsValid() && ErrorsValid() && StagingValid() && DistinctKeys();
      evidenceSweepAt, evidenceChecked, evidenceCurrent, evidenceMissing, evidenceValidUntil
        := now, |keys|, current, missing, validUntil;
      published := Some(Sweep(now, evidenceSweepEpoch, evidenceStaging, readings));
      assert TotalsValid();
    }

    /** Clears every latched error, if the finished sweep answers all of them. */
    method ClearErrors(now: int)
      requires Valid() && |evidenceStaging| == |keys| && errorEpoch == evidenceSweepEpoch
      requires published == Some(Sweep(now, evidenceSweepEpoch, evidenceStaging, readings))
      requires forall i :: 0 <= i < |keys| ==> Current(evidenceStaging[i], now)
      modifies `lastErrorReason, `lastErrorAt, `identityErrors, `cleared
      ensures Valid() && (cleared == old(cleared) || ClearedBy(old(cleared)))
      ensures cleared == if Answered(keys, old(identityErrors), evidenceStaging) then |latched| else old(cleared)
    {
      hide ErrorsOf, IsEarliest, Answered, CountCurrent, OperationPlanScheduler.DistinctKeys,
           OperationPlanScheduler.SlotsValid, OperationPlanScheduler.StagingValid,
           OperationPlanScheduler.TotalsValid;
      var recovered := AllAnswered();
      if recovered {
        NoErrors(latched);
        identityErrors := map[];
        lastErrorReason, lastErrorAt := None, 0;
        cleared := |latched|;
      }
    }

    method AllAnswered() returns (ok: bool)
      requires |evidenceStaging| == |keys|
      ensures ok <==> Answered(keys, identityErrors, evidenceStaging)
    {
      var i := 0;
      while i < |keys|
        invariant 0 <= i <= |keys|
        invariant forall j :: 0 <= j < i && keys[j] in identityErrors ==>
          evidenceStaging[j].proven
          && (identityErrors[keys[j]].requiresNewProof ==> evidenceStaging[j].proofAt >= identityErrors[keys[j]].at)
      {
        if keys[i] in identityErrors {
          var failure := identityErrors[keys[i]];
          if !evidenceStaging[i].proven || (failure.requiresNewProof && evidenceStaging[i].proofAt < failure.at) { return false; }
        }
        i := i + 1;
      }
      return true;
    }

    /** The status at a time. Ready is said exactly if every target can be probed, passes
        still run, every error ever latched has been cleared by a sweep that began after
        it, and the last complete sweep read for every target an attempt that proved it
        then and proves it still. */
    function StatusAt(at: int): (s: Status)
      requires Valid()
      reads this
      ensures s == Ready <==> feasible && RunningAt(at) && ReadyAt(at)
      ensures (s == NotFeasible <==> !feasible) && (s == LoopStale <==> feasible && !RunningAt(at))
      ensures s.Failing? <==> feasible && RunningAt(at) && cleared < |latched| && (published.Some? ==> published.value.at <= at)
      ensures s.Failing? ==> s.reason == latched[|latched| - 1].reason
      ensures s == AwaitingSweep <==> feasible && RunningAt(at) && cleared == |latched| && published.None?
    {
      ProvenIff(at);
      hide OperationPlanScheduler.DistinctKeys, OperationPlanScheduler.SlotsValid, OperationPlanScheduler.StagingValid,
           ErrorsOf, IsEarliest, CountCurrent, ReadFrom, ReadProven;
      if !feasible then NotFeasible
      else if passes == 0 || (lastPass != 0 && at < lastPass) || (lastPass != 0 && (at - lastPass) / SECOND > 3) then LoopStale
      else if evidenceSweepAt != 0 && at < evidenceSweepAt then Incomplete
      else if lastErrorReason.Some? then Failing(lastErrorReason.value)
      else if evidenceSweepAt == 0 || evidenceChecked != |keys| then AwaitingSweep
      else if evidenceCurrent != |keys| then
        if evidenceValidUntil != 0 && at >= evidenceValidUntil then Stale else Incomplete
      else if evidenceValidUntil == 0 || at >= evidenceValidUntil then Stale
      else Ready
    }

    /** Passes run: the last one was less than four seconds before. */
    predicate RunningAt(at: int)
      reads `passes, `lastPass
    {
      passes > 0 && lastPass <= at < lastPass + 4 * SECOND
    }

    ghost predicate ReadyAt(at: int)
      reads this
    {
      && published.Some? && |published.value.readings| == |keys| == |bindings| && published.value.at <= at
      && cleared == |latched|
      && forall i :: 0 <= i < |keys| ==>
           published.value.readings[i].Some? && ReadProven(bindings[i], published.value, i, at)
    }

    /** Evidence that was current at the sweep's end and is not expired now is just what
        was read from attempts that proved their target then and do so now. */
    lemma EntryProvenIff(i: nat, at: int)
      requires Valid() && published.Some? && i < |keys|
      ensures |published.value.evidence| == |published.value.readings| == |keys|
      ensures var e := published.value.evidence[i];
              Current(e, published.value.at) && at < e.validUntil
              <==> published.value.readings[i].Some? && ReadProven(bindings[i], published.value, i, at)
      ensures var e := published.value.evidence[i]; e.proven ==> e.validUntil > 0
    {
      hide ErrorsOf, IsEarliest, CountCurrent, OperationPlanScheduler.SlotsValid, OperationPlanScheduler.StagingValid,
           OperationPlanScheduler.ErrorsValid, ProvenBy, ReadAs, SettledSince;
      var sweep := published.value;
      ProvenIsRead(bindings[i], sweep.readings[i], sweep.evidence[i], at);
      ProvenIsRead(bindings[i], sweep.readings[i], sweep.evidence[i], sweep.at);
    }

    lemma ProvenIff(at: int)
      requires Valid()
      ensures published.Some? ==> |published.value.readings| == |keys| == |bindings|
      ensures published.Some? ==>
                (evidenceCurrent == |keys| && evidenceValidUntil != 0 && at < evidenceValidUntil
                 <==> forall i :: 0 <= i < |keys| ==>
                        published.value.readings[i].Some? && ReadProven(bindings[i], published.value, i, at))
    {
      hide ErrorsOf, CountCurrent, OperationPlanScheduler.DistinctKeys, OperationPlanScheduler.SlotsValid,
           OperationPlanScheduler.StagingValid, OperationPlanScheduler.ErrorsValid, ReadProven, ReadFrom;
      if published.Some? {
        var evidence := published.value.evidence;
        AllCurrent(evidence, published.value.at);
        forall i | 0 <= i < |keys|
          ensures |published.value.readings| == |keys|
          ensures Current(evidence[i], published.value.at) && at < evidence[i].validUntil
                  <==> published.value.readings[i].Some? && ReadProven(bindings[i], published.value, i, at)
          ensures evidence[i].proven ==> evidence[i].validUntil > 0
        {
          EntryProvenIff(i, at);
        }
        if evidenceCurrent == |keys| { EarliestBounds(evidence, evidenceValidUntil, published.value.at, at); }
      }
    }

    /** An error of a target that asked for new proof is cleared only by an attempt that was
        read back, or where nothing had to be sent received, at the error's time or later. */
    lemma ClearedByNewProof(before: nat, i: nat, j: nat)
      requires Valid() && ClearedBy(before)
      requires before <= i < |latched| && j < |keys| && latched[i].key == Some(keys[j]) && latched[i].requiresNewProof
      requires forall a, b :: before <= a < b < |latched| && latched[a].key == latched[b].key == Some(keys[j])
                 ==> latched[a].at <= latched[b].at
      ensures |published.value.readings| == |keys| && published.value.readings[j].Some?
      ensures var r := published.value.readings[j].value;
              ProvenBy(bindings[j], r, published.value.at) && SettledSince(bindings[j], r, latched[i].at)
    {
      hide ErrorsOf, IsEarliest, CountCurrent, OperationPlanScheduler.SlotsValid, OperationPlanScheduler.StagingValid,
           OperationPlanScheduler.ErrorsValid, ProvenBy, ReadAs, SettledSince, Answered;
      var sweep := published.value;
      ProofAfterLatch(keys, latched[before..], sweep.evidence, i - before, j);
      ProvenIsRead(bindings[j], sweep.readings[j], sweep.evidence[j], sweep.at);
    }

    // -------------------------------------------------------------------
    // One pass
    // -------------------------------------------------------------------

    predicate ReadingsFor(clocks: Clocks) { |clocks.delivery| == |clocks.execution| == |clocks.sweep| == |keys| }

    /** Offers the delivery of one target: an unreadable attempt file is an error, a target
        with nothing to deliver gives its kept slot up, any other is launched if it can be. */
    method OfferDelivery(index: nat, clock: int, alive: bool, pending: Option<bool>) returns (launched: bool)
      requires Valid() && index < |keys|
      modifies `active, `activeCount, `deliveryReservation, `slotKept
      modifies `lastErrorReason, `lastErrorAt, `errorEpoch, `identityErrors, `latched
      ensures Valid() && active == if launched then old(active)[keys[index] := Delivery] else old(active)
      ensures activeCount == old(activeCount) + if launched then 1 else 0
      ensures latched == if pending.None? then old(latched) + [Latch(Some(keys[index]), DeliveryStoreUnavailable, clock, false)] else old(latched)
      ensures launched ==> pending == Some(true) && alive
      ensures alive && pending == Some(true) ==> keys[index] in active || activeCount >= maxConcurrent - 1
      ensures old(slotKept) && alive && old(deliveryReservation) == index && pending == Some(true) ==> keys[index] in active
    {
      hide OperationPlanScheduler.ErrorsValid, OperationPlanScheduler.StagingValid,
           OperationPlanScheduler.TotalsValid;
      launched := false;
      match pending {
        case None => LatchError(Latch(Some(keys[index]), DeliveryStoreUnavailable, clock, false));
        case Some(false) => ClearDeliveryReservation(index);
        case Some(true) => launched := Launch(alive, keys[index], Delivery, index);
      }
    }

    /** Offers deliveries from the reserved target on, or from where the last scan ended.
        A delivery for which a slot has been kept is started unless its identity is busy. */
    method DeliveryScan(clock: seq<int>, alive: bool, pending: seq<Option<bool>>) returns (scanned: nat, started: nat)
      requires Valid() && |pending| == |clock| == |keys| && maxDeliveries > 0 && scanBudget > 0
      modifies `active, `activeCount, `deliveryReservation, `slotKept, `deliveryCursor
      modifies `lastErrorReason, `lastErrorAt, `errorEpoch, `identityErrors, `latched
      ensures Valid() && 0 < scanned <= |keys| && old(latched) <= latched
      ensures scanned == |keys| || scanned == scanBudget || started == maxDeliveries
      ensures activeCount == old(activeCount) + started && old(active).Keys <= active.Keys
      ensures alive ==> Offered(keys, active, activeCount, maxConcurrent - 1, pending, old(DeliveryScanStart()), scanned)
      ensures deliveryCursor ==
              if deliveryReservation >= 0 then deliveryReservation else PlaceOf(old(DeliveryScanStart()), scanned, |keys|)
      ensures old(slotKept) && alive && pending[old(deliveryReservation)] == Some(true)
              ==> keys[old(deliveryReservation)] in active
    {
      hide OperationPlanScheduler.ErrorsValid, OperationPlanScheduler.StagingValid,
           OperationPlanScheduler.TotalsValid, Offered;
      var start := DeliveryScanStart();
      ghost var promised := slotKept && alive && pending[start] == Some(true);
      scanned, started := 0, 0;
      NothingOffered(keys, active, activeCount, maxConcurrent - 1, pending, start);
      while scanned < scanBudget && scanned < |keys| && started < maxDeliveries
        invariant Valid() && scanned <= |keys| && scanned <= scanBudget && started <= maxDeliveries
        invariant (scanned == 0 ==> started == 0) && old(latched) <= latched
        invariant activeCount == old(activeCount) + started && old(active).Keys <= active.Keys
        invariant scanned == 0 ==> slotKept == old(slotKept) && deliveryReservation == old(deliveryReservation)
        invariant scanned > 0 && promised ==> keys[start] in active
        invariant alive ==> Offered(keys, active, activeCount, maxConcurrent - 1, pending, start, scanned)
        decreases |keys| - scanned
      {
        var index := PlaceOf(start, scanned, |keys|);
        if scanned == 0 { FirstPlace(start, |keys|); }
        ghost var before, count := active, activeCount;
        var launched := OfferDelivery(index, clock[index], alive, pending[index]);
        if alive { OfferedMore(keys, before, count, active, activeCount, maxConcurrent - 1, pending, start, scanned); }
        scanned := scanned + 1;
        if launched { started := started + 1; }
      }
      FinishDeliveryScan(start, scanned);
    }

    /** Offers the observation of one target, if it is due. */
    method OfferExecution(index: nat, clock: int, alive: bool, due: Option<bool>) returns (launched: bool)
      requires Valid() && index < |keys|
      modifies `active, `activeCount, `deliveryReservation, `slotKept
      modifies `lastErrorReason, `lastErrorAt, `errorEpoch, `identityErrors, `latched
      ensures Valid() && active == if launched then old(active)[keys[index] := Execution] else old(active)
      ensures activeCount == old(activeCount) + if launched then 1 else 0
      ensures latched == if due.None? then old(latched) + [Latch(Some(keys[index]), AttemptStoreUnavailable, clock, false)] else old(latched)
      ensures launched ==> due == Some(true) && alive
      ensures deliveryReservation == old(deliveryReservation) && (old(slotKept) ==> slotKept)
      ensures alive && due == Some(true) ==> keys[index] in active || activeCount >= ExecutionLimit()
    {
      hide OperationPlanScheduler.ErrorsValid, OperationPlanScheduler.StagingValid,
           OperationPlanScheduler.TotalsValid;
      launched := false;
      if due.None? {
        LatchError(Latch(Some(keys[index]), AttemptStoreUnavailable, clock, false));
      } else if due.value {
        launched := Launch(alive, keys[index], Execution, -1);
      }
    }

    /** The slots observations may use: all but the one a reserved delivery is waiting for. */
    function ExecutionLimit(): int
      reads `deliveryReservation
    {
      if deliveryReservation >= 0 then maxConcurrent - 1 else maxConcurrent
    }

    /** Starts due observations round robin; the next scan goes on where this one stopped. */
    method ExecutionScan(clock: seq<int>, alive: bool, due: seq<Option<bool>>) returns (scanned: nat, started: nat)
      requires Valid() && |due| == |clock| == |keys|
      modifies `active, `activeCount, `deliveryReservation, `slotKept, `executionCursor
      modifies `lastErrorReason, `lastErrorAt, `errorEpoch, `identityErrors, `latched
      ensures Valid() && executionCursor == PlaceOf(old(executionCursor), scanned, |keys|)
      ensures scanned <= |keys| && started <= maxStarts && started <= scanned && old(latched) <= latched
      ensures scanned == |keys| || scanned == scanBudget || started == maxStarts
      ensures deliveryReservation == old(deliveryReservation) && (old(slotKept) ==> slotKept)
      ensures activeCount == old(activeCount) + started && old(active).Keys <= active.Keys
      ensures alive ==> Offered(keys, active, activeCount, ExecutionLimit(), due, old(executionCursor), scanned)
    {
      hide OperationPlanScheduler.ErrorsValid, OperationPlanScheduler.StagingValid,
           OperationPlanScheduler.TotalsValid, Offered;
      scanned, started := 0, 0;
      NothingOffered(keys, active, activeCount, ExecutionLimit(), due, executionCursor);
      while scanned < scanBudget && scanned < |keys| && started < maxStarts
        invariant Valid() && scanned <= |keys| && scanned <= scanBudget && started <= maxStarts && old(latched) <= latched
        invariant executionCursor == old(executionCursor) && deliveryReservation == old(deliveryReservation)
        invariant started <= scanned && (old(slotKept) ==> slotKept)
        invariant activeCount == old(activeCount) + started && old(active).Keys <= active.Keys
        invariant alive ==> Offered(keys, active, activeCount, ExecutionLimit(), due, executionCursor, scanned)
      {
        var index := PlaceOf(executionCursor, scanned, |keys|);
        ghost var before, count := active, activeCount;
        var launched := OfferExecution(index, clock[index], alive, due[index]);
        if alive { OfferedMore(keys, before, count, active, activeCount, ExecutionLimit(), due, executionCursor, scanned); }
        scanned := scanned + 1;
        if launched { started := started + 1; }
      }
      executionCursor := PlaceOf(executionCursor, scanned, |keys|);
    }

    /** A pass is due a second after the last one, and never before it. */
    method RecordPassIfDue(now: int) returns (isDue: bool)
      requires Valid() && now > 0
      modifies `passes, `lastPass
      ensures Valid()
      ensures isDue <==> old(lastPass) == 0 || now >= old(lastPass) + PASS_INTERVAL
      ensures if isDue then passes == old(passes) + 1 && lastPass == now
              else passes == old(passes) && lastPass == old(lastPass)
    {
      hide OperationPlanScheduler.TotalsValid, ErrorsOf, IsEarliest, CountCurrent,
           OperationPlanScheduler.DistinctKeys, OperationPlanScheduler.SlotsValid,
           OperationPlanScheduler.ErrorsValid, ReadFrom;
      isDue := lastPass == 0 || !(now < lastPass || now - lastPass < PASS_INTERVAL);
      if isDue && evidenceScanCursor > 0 { ReadLater(bindings, readings, evidenceStaging, lastPass, now); }
      if isDue { passes, lastPass := passes + 1, now; }
    }

    /** The two scans of a pass; without the capacity for all targets nothing new is observed. */
    method ScanTargets(now: int, clocks: Clocks, alive: bool, pending: seq<Option<bool>>, due: seq<Option<bool>>)
      returns (offered: nat, scanned: nat)
      requires Valid() && maxDeliveries > 0 && scanBudget > 0 && |pending| == |due| == |keys| && ReadingsFor(clocks)
      modifies `active, `activeCount, `deliveryReservation, `slotKept, `deliveryCursor, `executionCursor
      modifies `lastErrorReason, `lastErrorAt, `errorEpoch, `identityErrors, `latched
      ensures Valid() && old(latched) <= latched && executionCursor == PlaceOf(old(executionCursor), scanned, |keys|)
      ensures alive ==> Offered(keys, active, activeCount, maxConcurrent - 1, pending, old(DeliveryScanStart()), offered)
      ensures offered == |keys| || offered == scanBudget || activeCount >= old(activeCount) + maxDeliveries
      ensures feasible && alive ==> Offered(keys, active, activeCount, ExecutionLimit(), due, old(executionCursor), scanned)
      ensures feasible ==> scanned == |keys| || scanned == scanBudget || activeCount >= old(activeCount) + maxStarts
      ensures !feasible ==> scanned == 0 && old(latched) + [Latch(None, CapacityInfeasible, now, false)] <= latched
      ensures old(slotKept) && alive && pending[old(deliveryReservation)] == Some(true)
              ==> keys[old(deliveryReservation)] in active
    {
      hide OperationPlanScheduler.ErrorsValid, OperationPlanScheduler.StagingValid,
           OperationPlanScheduler.TotalsValid, Offered, PlaceOf;
      if !feasible { LatchError(Latch(None, CapacityInfeasible, now, false)); }
      var started;
      ghost var start := DeliveryScanStart();
      offered, started := DeliveryScan(clocks.delivery, alive, pending);
      scanned := 0;
      FirstPlace(executionCursor, |keys|);
      if feasible {
        ghost var before, count := active, activeCount;
        scanned, started := ExecutionScan(clocks.execution, alive, due);
        if alive { OfferedStays(keys, before, count, active, activeCount, maxConcurrent - 1, pending, start, offered); }
      }
    }

    /** One pass: deliveries first, then observations, then a slice of the sweep. */
    method ProcessDue(now: int, clocks: Clocks, alive: bool, pending: seq<Option<bool>>, due: seq<Option<bool>>,
                      snapshots: seq<Snapshot>, others: seq<seq<Latch>>, last: seq<Latch>, stop: nat)
      returns (ok: bool, offered: nat, scanned: nat)
      requires Valid() && now > 0 && maxDeliveries > 0 && scanBudget > 0
      requires |pending| == |due| == |snapshots| == |others| == |keys| && ReadingsFor(clocks)
      modifies this
      ensures Valid() && old(latched) <= latched
      ensures !old(DueAt(now)) ==> unchanged(this)
      ensures old(DueAt(now)) ==> passes == old(passes) + 1 && lastPass == now
      ensures old(DueAt(now)) && old(slotKept) && alive && pending[old(deliveryReservation)] == Some(true)
              ==> keys[old(deliveryReservation)] in active
      ensures old(DueAt(now)) ==> executionCursor == PlaceOf(old(executionCursor), scanned, |keys|)
      ensures old(DueAt(now)) && alive
              ==> Offered(keys, active, activeCount, maxConcurrent - 1, pending, old(DeliveryScanStart()), offered)
      ensures old(DueAt(now)) ==> offered == |keys| || offered == scanBudget || activeCount >= old(activeCount) + maxDeliveries
      ensures old(DueAt(now)) && feasible && alive
              ==> Offered(keys, active, activeCount, ExecutionLimit(), due, old(executionCursor), scanned)
      ensures old(DueAt(now)) && feasible ==> scanned == |keys| || scanned == scanBudget || activeCount >= old(activeCount) + maxStarts
      ensures old(DueAt(now)) && !feasible ==> old(latched) + [Latch(None, CapacityInfeasible, now, false)] <= latched
      ensures old(DueAt(now)) && !ok ==> |latched| > 0 && latched[|latched| - 1] == Latch(None, AttemptStoreUnavailable, now, false)
      ensures old(DueAt(now)) ==> (ok <==> SliceReadable(bindings, snapshots, now, old(evidenceScanCursor), SliceEnd(old(evidenceScanCursor)), stop))
      ensures old(DueAt(now)) && ok && SliceEnd(old(evidenceScanCursor)) == |keys| ==> published.Some? && published.value.at == now
      ensures cleared == old(cleared) || ClearedBy(old(cleared))
    {
      hide OperationPlanScheduler.ErrorsValid, OperationPlanScheduler.StagingValid,
           OperationPlanScheduler.TotalsValid, OperationPlanScheduler.ClearedBy, OperationPlanScheduler.DistinctKeys,
           OperationPlanScheduler.SlotsValid, Offered, SliceReadable, OperationPlanScheduler.StagedBy, PlaceOf,
           OperationPlanScheduler.SliceEnd, OperationPlanScheduler.ExecutionLimit, ErrorsOf, ReadFrom, IsEarliest, CountCurrent;
      ok, offered, scanned := true, 0, 0;
      var isDue := RecordPassIfDue(now);
      if !isDue { return; }
      offered, scanned := ScanTargets(now, clocks, alive, pending, due);
      ok := AdvanceEvidenceSweep(now, clocks.sweep, snapshots, others, last, stop);
      if !ok { LatchError(Latch(None, AttemptStoreUnavailable, now, false)); }
    }

    /** A pass is due a second after the last one. */
    predicate DueAt(now: int)
      reads `lastPass
    {
      lastPass == 0 || now >= lastPass + PASS_INTERVAL
    }
  }

  // ---------------------------------------------------------------------
  // Round robin
  // ---------------------------------------------------------------------

  function Wrap(x: nat, n: nat): (r: nat)
    requires n > 0
    ensures r < n
  {
    x % n
  }

  function CursorAfter(cursor: nat, lengths: seq<nat>, n: nat): nat
    requires n > 0
  {
    if |lengths| == 0 then cursor else Wrap(CursorAfter(cursor, lengths[..|lengths| - 1], n) + lengths[|lengths| - 1], n)
  }

  function Total(lengths: seq<nat>): nat {
    if |lengths| == 0 then 0 else Total(lengths[..|lengths| - 1]) + lengths[|lengths| - 1]
  }

  lemma MultipleBelow(n: int, k: int, d: int)
    requires n > 0 && n * k == d && -n < d < n
    ensures d == 0
  {
    assert k >= 1 ==> n * k >= n;
    assert k <= -1 ==> n * k <= -n;
  }

  lemma WrapUnique(x: nat, q: int, r: nat, n: nat)
    requires r < n && x == n * q + r
    ensures Wrap(x, n) == r
  {
    assert x == n * (x / n) + x % n;
    assert n * (x / n - q) == n * (x / n) - n * q;
    MultipleBelow(n, x / n - q, r - x % n);
  }

  /** Wrapping the cursor around does not change where a scan goes. */
  lemma WrapShift(a: nat, b: nat, n: nat)
    requires n > 0
    ensures Wrap(Wrap(a, n) + b, n) == Wrap(a + b, n)
  {
    var q, r := (a + b) / n, (a + b) % n;
    assert a == n * (a / n) + a % n;
    assert a + b == n * q + r;
    assert n * (q - a / n) == n * q - n * (a / n);
    WrapUnique(a % n + b, q - a / n, r, n);
  }

  lemma {:induction false} CursorIsTotal(cursor: nat, lengths: seq<nat>, n: nat)
    requires cursor < n
    ensures CursorAfter(cursor, lengths, n) == Wrap(cursor + Total(lengths), n)
  {
    hide Wrap;
    if |lengths| == 0 {
      WrapUnique(cursor, 0, cursor, n);
    } else {
      var shorter := lengths[..|lengths| - 1];
      CursorIsTotal(cursor, shorter, n);
      WrapShift(cursor + Total(shorter), lengths[|lengths| - 1], n);
    }
  }

  /** The target is the `j`-th that the `k`-th of the scans looks at. */
  predicate ScannedIn(cursor: nat, lengths: seq<nat>, n: nat, t: nat, k: nat, j: nat)
    requires n > 0
  {
    k < |lengths| && j < lengths[k] && Wrap(CursorAfter(cursor, lengths[..k], n) + j, n) == t
  }

  /** The scans of consecutive passes look at consecutive targets. */
  lemma {:induction false} PositionScanned(cursor: nat, lengths: seq<nat>, n: nat, p: nat, t: nat)
    requires cursor < n && p < Total(lengths) && t == Wrap(cursor + p, n)
    ensures exists k: nat, j: nat :: ScannedIn(cursor, lengths, n, t, k, j)
  {
    hide Wrap;
    var m := |lengths| - 1;
    var shorter := lengths[..m];
    if p < Total(shorter) {
      PositionScanned(cursor, shorter, n, p, t);
      var k: nat, j: nat :| ScannedIn(cursor, shorter, n, t, k, j);
      assert shorter[..k] == lengths[..k];
      assert ScannedIn(cursor, lengths, n, t, k, j);
    } else {
      var j := p - Total(shorter);
      CursorIsTotal(cursor, shorter, n);
      WrapShift(cursor + Total(shorter), j, n);
      assert ScannedIn(cursor, lengths, n, t, m, j);
    }
  }

  /** No target is passed over: once the scans of consecutive passes add up to the number
      of targets, every target has been looked at. */
  lemma {:induction false} EveryTargetScanned(cursor: nat, lengths: seq<nat>, n: nat, t: nat)
    requires cursor < n && t < n && Total(lengths) >= n
    ensures exists k: nat, j: nat :: ScannedIn(cursor, lengths, n, t, k, j)
  {
    var p := if t >= cursor then t - cursor else t + n - cursor;
    WrapUnique(cursor + p, if t >= cursor then 0 else 1, t, n);
    PositionScanned(cursor, lengths, n, p, t);
  }

  lemma NoErrors(latches: seq<Latch>)
    ensures ErrorsOf(latches[|latches|..]) == map[]
  {}
}
