/** The worker's path across the two stores: claim, reservation, quota, child, append,
    completion. Every store call may fail at any of its writes, and the worker then
    stops where the program does; so what holds on every return is what holds at every
    crash point. Clocks, tokens, the quota authority and the child are parameters. */
module Worker {
  import opened Foundations
  import H = HistoryModel
  import HS = HistoryStore
  import HI = HistoryInvariant
  import HP = HistorySteps
  import opened AttemptModel
  import opened AttemptHistory
  import AS = AttemptStore
  import opened Probe

  // ---------------------------------------------------------------------
  // How the two stores belong together
  // ---------------------------------------------------------------------

  function IdentityOf(b: Binding, attemptId: string, generation: nat): H.Identity {
    H.Identity(b.sourceId, b.operationId, attemptId, generation, b.registryRevision, b.releaseManifest, b.index, b.shard)
  }

  function AttemptIdentity(a: Attempt): H.Identity { IdentityOf(a.binding, a.attemptId, a.generation) }

  function ClaimIdentity(c: Claim): H.Identity { IdentityOf(c.binding, c.attemptId, c.generation) }

  type Histories = map<H.OperationKey, seq<Attempt>>

  /** Some attempt ever made has the identity. */
  ghost predicate Attempted(histories: Histories, id: H.Identity) {
    var h := AS.HistoryIn(histories, H.KeyOf(id));
    exists i :: 0 <= i < |h| && AttemptIdentity(h[i]) == id
  }

  ghost predicate HasRecord(log: seq<H.AckRef>, id: H.Identity) { exists s :: 0 < s <= |log| && HI.At(log, s).id == id }

  ghost predicate Logged(log: seq<H.AckRef>, ref: HistoryRef) {
    exists s :: 0 < s <= |log| && HI.At(log, s).id == ref.id && HI.At(log, s).sha == ref.sha
  }

  /** Every accepted record belongs to an attempt. */
  ghost predicate RecordsAttempted(histories: Histories, log: seq<H.AckRef>) {
    forall s :: 0 < s <= |log| ==> Attempted(histories, HI.At(log, s).id)
  }

  /** Every attempt recorded as observed has its own record, with the digest it names. */
  ghost predicate ObservationsBacked(histories: Histories, log: seq<H.AckRef>) {
    forall k, i :: k in histories && 0 <= i < |histories[k]| ==> Backed(histories[k][i], log)
  }

  ghost predicate Backed(a: Attempt, log: seq<H.AckRef>) {
    a.status == Observed ==>
      && a.result.Some? && a.result.value.history.Some?
      && a.result.value.history.value.id == AttemptIdentity(a)
      && Logged(log, a.result.value.history.value)
  }

  /** A child was only ever run for an attempt, and what it may have found still has a
      reservation or already has its record. */
  ghost predicate RunsCovered(ran: set<H.Identity>, histories: Histories, directory: H.Disk, log: seq<H.AckRef>) {
    forall id :: id in ran ==>
      Attempted(histories, id) && (id in directory.reservations || exists s :: 0 < s <= |log| && HI.At(log, s).id == id)
  }

  /** Capacity is only ever reserved for an attempt. */
  ghost predicate ReservationsAttempted(histories: Histories, reservations: map<H.Identity, H.Reservation>) {
    forall id :: id in reservations ==> Attempted(histories, id)
  }

  ghost predicate Coupled(histories: Histories, log: seq<H.AckRef>, directory: H.Disk, ran: set<H.Identity>) {
    && RecordsAttempted(histories, log)
    && ObservationsBacked(histories, log)
    && ReservationsAttempted(histories, directory.reservations)
    && RunsCovered(ran, histories, directory, log)
  }

  datatype QuotaClaim = QuotaClaim(attemptId: string, generation: nat, expiresAt: int)

  datatype QuotaError = Exhausted | WindowIsDraining | OtherQuotaError(category: DeferredCategory)

  /** The latest time the child may run to: well inside the claim and every quota claim. */
  function ExecutionDeadline(now: int, requestTimeout: int, expiresAt: int, attemptId: string,
                             quotas: seq<QuotaClaim>): (deadline: Option<int>)
    ensures deadline.Some? ==> now < deadline.value < expiresAt && deadline.value - now <= MAX_PROBE_DEADLINE && |quotas| > 0
    ensures deadline.Some? ==>
              forall i :: 0 <= i < |quotas| ==> quotas[i].attemptId == attemptId && quotas[i].generation > 0
                                                && deadline.value < quotas[i].expiresAt
  {
    var end := now + requestTimeout + PROCESS_OVERHEAD;
    if now <= 0 || expiresAt <= 0 || requestTimeout <= 0 || attemptId == "" || |quotas| == 0 then None
    else if end <= now || end - now > MAX_PROBE_DEADLINE || end >= expiresAt then None
    else if forall i :: 0 <= i < |quotas| ==>
              quotas[i].generation > 0 && quotas[i].attemptId == attemptId && quotas[i].expiresAt > 0 && end < quotas[i].expiresAt
    then Some(end) else None
  }

  /** One activated operation. */
  datatype Target = Target(binding: Binding, requestTimeout: int, observationOnly: bool)

  /** Everything one call finds out from outside: clock readings, tokens, and results. */
  datatype World = World(
    attemptId: string, now: int, expectation: bool, token: string, reservedAt: int, reservationCategory: DeferredCategory,
    quotaAt: int, quota: Result<seq<QuotaClaim>, QuotaError>, deadlineAt: int, child: Option<Receipt>, recordValid: bool,
    appendedAt: int, failedAt: int, completedAt: int, quotaReleased: bool)

  /** The operation's file, the directory and the next number when a claim has been made. */
  datatype Origin = Origin(found: Option<State>, directory: H.Disk, next: nat)

  datatype Step =
    | NoAttempt | AttemptClaimed | AttemptDeferred | AttemptUnknown | AttemptBlocked | AttemptStarted | AttemptObserved

  datatype Failure =
    | AttemptBegin | PreDispatchCleanup | QuotaCleanup | QuotaRelease | Runner | HistoryValidate | HistoryAppend
    | AttemptComplete

  // ---------------------------------------------------------------------
  // The coupling under each store's steps
  // ---------------------------------------------------------------------

  predicate Grows(before: Histories, after: Histories) {
    forall k :: k in before ==> k in after && Evolves(before[k], after[k])
  }

  lemma AttemptedGrows(before: Histories, after: Histories, id: H.Identity)
    requires Grows(before, after) && Attempted(before, id)
    ensures Attempted(after, id)
  {
    var k := H.KeyOf(id);
    var h, later := AS.HistoryIn(before, k), AS.HistoryIn(after, k);
    var i :| 0 <= i < |h| && AttemptIdentity(h[i]) == id;
    assert EvolvesTo(h[i], later[i]);
    assert AttemptIdentity(later[i]) == id;
  }

  /** Everything but the observations only needs attempts to live on. */
  lemma CouplingGrows(before: Histories, after: Histories, log: seq<H.AckRef>, d: H.Disk, ran: set<H.Identity>)
    requires Grows(before, after)
    requires RecordsAttempted(before, log) && ReservationsAttempted(before, d.reservations) && RunsCovered(ran, before, d, log)
    ensures RecordsAttempted(after, log) && ReservationsAttempted(after, d.reservations) && RunsCovered(ran, after, d, log)
  {
    hide Grows, Attempted;
    forall s | 0 < s <= |log| ensures Attempted(after, HI.At(log, s).id) { AttemptedGrows(before, after, HI.At(log, s).id); }
    forall id | id in d.reservations ensures Attempted(after, id) { AttemptedGrows(before, after, id); }
    forall id | id in ran ensures Attempted(after, id) { AttemptedGrows(before, after, id); }
  }

  lemma ClaimKeepsCoupling(before: Histories, key: H.OperationKey, c: Attempt, log: seq<H.AckRef>, d: H.Disk,
                           ran: set<H.Identity>, after: Histories)
    requires Coupled(before, log, d, ran) && c.status == Claimed
    requires after == before[key := AS.HistoryIn(before, key) + [c]] && Grows(before, after)
    ensures Coupled(after, log, d, ran)
  {
    hide Grows, Attempted, Backed;
    CouplingGrows(before, after, log, d, ran);
    ClaimedIsBacked(c, log);
    forall k, i | k in after && 0 <= i < |after[k]| ensures Backed(after[k][i], log) {
      if k in before && i < |before[k]| { assert Backed(before[k][i], log); }
    }
  }

  lemma ClaimedIsBacked(c: Attempt, log: seq<H.AckRef>)
    requires c.status != Observed
    ensures Backed(c, log)
  {}

  lemma FinishKeepsCoupling(before: Histories, key: H.OperationKey, a: Attempt, log: seq<H.AckRef>, d: H.Disk,
                            ran: set<H.Identity>, after: Histories)
    requires Coupled(before, log, d, ran) && Backed(a, log)
    requires |AS.HistoryIn(before, key)| > 0
    requires after == before[key := AS.HistoryIn(before, key)[|AS.HistoryIn(before, key)| - 1 := a]] && Grows(before, after)
    ensures Coupled(after, log, d, ran)
  {
    hide Grows, Attempted, Backed;
    CouplingGrows(before, after, log, d, ran);
    forall k, i | k in after && 0 <= i < |after[k]| ensures Backed(after[k][i], log) {
      if k in before && i < |before[k]| { assert Backed(before[k][i], log); }
    }
  }

  /** What the report of a valid receipt does to a claim is backed by the record it refers to. */
  lemma ReportedIsBacked(a: Attempt, r: Report, now: int, log: seq<H.AckRef>)
    requires r.Result? ==> r.observation.history.Some? && r.observation.history.value.id == AttemptIdentity(a)
                           && Logged(log, r.observation.history.value)
    requires a.status == Claimed
    ensures Backed(Reported(a, r, now).0, log)
  {}

  lemma ReserveKeepsCoupling(histories: Histories, log: seq<H.AckRef>, d: H.Disk, ran: set<H.Identity>, id: H.Identity,
                             r: H.Reservation)
    requires Coupled(histories, log, d, ran) && Attempted(histories, id)
    ensures Coupled(histories, log, HP.WithReservation(d, id, r), ran)
  {
    hide Attempted, ObservationsBacked, RecordsAttempted;
  }

  /** Cancelling is harmless exactly for attempts whose child has not run. */
  lemma CancelKeepsCoupling(histories: Histories, log: seq<H.AckRef>, d: H.Disk, ran: set<H.Identity>, id: H.Identity)
    requires Coupled(histories, log, d, ran) && id !in ran
    ensures Coupled(histories, log, HP.WithoutReservation(d, id), ran)
  {
    hide Attempted, ObservationsBacked, RecordsAttempted;
  }

  lemma RunKeepsCoupling(histories: Histories, log: seq<H.AckRef>, d: H.Disk, ran: set<H.Identity>, id: H.Identity)
    requires Coupled(histories, log, d, ran) && id in d.reservations
    ensures Coupled(histories, log, d, ran + {id})
  {
    hide Attempted, ObservationsBacked, RecordsAttempted;
  }

  lemma LoggedLonger(log: seq<H.AckRef>, r: H.AckRef, ref: HistoryRef)
    requires Logged(log, ref)
    ensures Logged(log + [r], ref)
  {
    var s :| 0 < s <= |log| && HI.At(log, s).id == ref.id && HI.At(log, s).sha == ref.sha;
    assert HI.At(log + [r], s) == HI.At(log, s);
  }

  lemma AppendKeepsCoupling(histories: Histories, log: seq<H.AckRef>, d: H.Disk, ran: set<H.Identity>, c: H.Codec,
                            s: H.StoredRecord)
    requires Coupled(histories, log, d, ran) && Attempted(histories, s.record.identity)
    ensures Coupled(histories, log + [HP.RefOf(s)], HP.Appended(c, d, s), ran)
  {
    hide Attempted, Logged;
    var longer := log + [HP.RefOf(s)];
    var e := HP.Appended(c, d, s);
    forall t | 0 < t <= |log| ensures HI.At(longer, t) == HI.At(log, t) {}
    assert HI.At(longer, |longer|) == HP.RefOf(s);
    forall k, i | k in histories && 0 <= i < |histories[k]| ensures Backed(histories[k][i], longer) {
      assert Backed(histories[k][i], log);
      if histories[k][i].status == Observed { LoggedLonger(log, HP.RefOf(s), histories[k][i].result.value.history.value); }
    }
    forall id | id in ran
      ensures id in e.reservations || exists t :: 0 < t <= |longer| && HI.At(longer, t).id == id
    {
      if id in d.reservations {
        assert id == s.record.identity ==> HI.At(longer, |longer|).id == id;
      } else {
        var t :| 0 < t <= |log| && HI.At(log, t).id == id;
        assert HI.At(longer, t).id == id;
      }
    }
    hide Backed, HP.Appended;
    assert ObservationsBacked(histories, longer);
    assert RecordsAttempted(histories, longer);
  }

  /** The coupling reads nothing of the directory but its reservations. */
  lemma PublicationKeepsCoupling(histories: Histories, log: seq<H.AckRef>, d: H.Disk, e: H.Disk, ran: set<H.Identity>)
    requires Coupled(histories, log, d, ran) && e.reservations == d.reservations
    ensures Coupled(histories, log, e, ran)
  {
    hide Attempted, ObservationsBacked, RecordsAttempted;
  }

  // ---------------------------------------------------------------------
  // Several operations side by side
  // ---------------------------------------------------------------------

  /** What the workers of all operations share. */
  datatype Shared = Shared(histories: Histories, log: seq<H.AckRef>, reservations: map<H.Identity, H.Reservation>,
                           ran: set<H.Identity>)

  /** From one state to the other only the given operation's attempts, records,
      reservations and runs have changed; the log has at most grown. */
  ghost predicate OnlyOf(key: H.OperationKey, a: Shared, b: Shared) {
    && (forall k :: k != key ==> AS.HistoryIn(b.histories, k) == AS.HistoryIn(a.histories, k))
    && a.log <= b.log
    && (forall id: H.Identity :: H.KeyOf(id) != key ==> (id in b.reservations <==> id in a.reservations))
    && (forall id: H.Identity :: H.KeyOf(id) != key ==> (id in b.ran <==> id in a.ran))
  }

  lemma OnlyOfNothing(key: H.OperationKey, a: Shared)
    ensures OnlyOf(key, a, a)
  {}

  lemma OnlyOfBoth(key: H.OperationKey, a: Shared, b: Shared, c: Shared)
    requires OnlyOf(key, a, b) && OnlyOf(key, b, c)
    ensures OnlyOf(key, a, c)
  {}

  /** A step on one identity of the operation, or on its attempts. */
  lemma OnlyOfStep(key: H.OperationKey, a: Shared, b: Shared, id: H.Identity)
    requires H.KeyOf(id) == key
    requires b.histories == a.histories || (key in b.histories && b.histories == a.histories[key := b.histories[key]])
    requires a.log <= b.log
    requires b.reservations.Keys - {id} == a.reservations.Keys - {id} && b.ran - {id} == a.ran - {id}
    ensures OnlyOf(key, a, b)
  {
    forall other: H.Identity | H.KeyOf(other) != key
      ensures (other in b.reservations <==> other in a.reservations) && (other in b.ran <==> other in a.ran)
    {
      assert other in b.reservations <==> other in b.reservations.Keys - {id};
      assert other in a.reservations <==> other in a.reservations.Keys - {id};
      assert other in b.ran <==> other in b.ran - {id};
      assert other in a.ran <==> other in a.ran - {id};
    }
  }

  /** What one call of a worker leaves for the next about its claim. */
  datatype Standing = Standing(held: bool, attempted: bool, reserved: bool, ran: bool, recorded: bool)

  ghost function StandingOf(c: Claim, s: Shared): Standing {
    var h := AS.HistoryIn(s.histories, KeyOf(c.binding));
    Standing(|h| > 0 && Owns(c, h[|h| - 1]) && ValidClaim(c), Attempted(s.histories, ClaimIdentity(c)),
             ClaimIdentity(c) in s.reservations, ClaimIdentity(c) in s.ran, HasRecord(s.log, ClaimIdentity(c)))
  }

  /** Nothing another operation does in between changes what a worker relies on from one
      call to the next. */
  lemma OthersKeepStanding(c: Claim, key: H.OperationKey, a: Shared, b: Shared)
    requires OnlyOf(key, a, b) && KeyOf(c.binding) != key
    ensures StandingOf(c, b) == StandingOf(c, a).(recorded := StandingOf(c, b).recorded)
    ensures StandingOf(c, a).recorded ==> StandingOf(c, b).recorded
  {
    hide Owns, ValidClaim;
    assert H.KeyOf(ClaimIdentity(c)) == KeyOf(c.binding);
    assert AS.HistoryIn(b.histories, KeyOf(c.binding)) == AS.HistoryIn(a.histories, KeyOf(c.binding));
    if HasRecord(a.log, ClaimIdentity(c)) {
      var s :| 0 < s <= |a.log| && HI.At(a.log, s).id == ClaimIdentity(c);
      assert HI.At(b.log, s) == HI.At(a.log, s);
    }
  }

  // ---------------------------------------------------------------------
  // A fresh claim
  // ---------------------------------------------------------------------

  /** The identity of a new claim has never been used: its generation is new. */
  lemma FreshClaim(before: Histories, c: Attempt, generation: nat)
    requires GenerationsOrdered(AS.HistoryIn(before, H.KeyOf(AttemptIdentity(c))) + [c], generation)
    ensures !Attempted(before, AttemptIdentity(c))
  {
    var h := AS.HistoryIn(before, H.KeyOf(AttemptIdentity(c)));
    forall i | 0 <= i < |h| ensures AttemptIdentity(h[i]) != AttemptIdentity(c) {
      assert (h + [c])[i].generation < (h + [c])[|h|].generation;
    }
  }

  lemma ClaimedIsFresh(s: State, before: Histories, after: Histories, c: Attempt)
    requires s.key == H.KeyOf(AttemptIdentity(c)) && AttemptInv(s, AS.HistoryIn(after, s.key))
    requires after == before[s.key := AS.HistoryIn(before, s.key) + [c]]
    ensures !Attempted(before, AttemptIdentity(c)) && Attempted(after, AttemptIdentity(c))
  {
    hide AttemptInv;
    InvParts(s, AS.HistoryIn(after, s.key));
    FreshClaim(before, c, s.generation);
    var h := AS.HistoryIn(after, s.key);
    assert AttemptIdentity(h[|h| - 1]) == AttemptIdentity(c);
  }

  /** So nothing is reserved, recorded or running under it. */
  lemma FreshIsUnused(histories: Histories, log: seq<H.AckRef>, d: H.Disk, ran: set<H.Identity>, id: H.Identity)
    requires Coupled(histories, log, d, ran) && !Attempted(histories, id)
    ensures id !in ran && id !in d.reservations
  {
    hide Attempted, ObservationsBacked, RecordsAttempted;
  }

  /** The caller contract of append: every other pending record of the operation is
      that of an earlier attempt. */
  lemma RecordIsLogged(records: map<H.Identity, H.StoredRecord>, from: nat, log: seq<H.AckRef>, p: H.Identity)
    requires HI.RecordsWithin(records, from, log) && p in records
    ensures exists q :: 0 < q <= |log| && HI.At(log, q).id == p
  {
    var q := records[p].sequence;
    assert HI.RecordFits(p, records[p], from, log);
    assert HI.At(log, q).id == p;
  }

  lemma LatestIsInOrder(histories: Histories, log: seq<H.AckRef>, b: H.Disk, c: H.Codec, s: State, id: H.Identity)
    requires RecordsAttempted(histories, log) && HI.Full(c, b, log)
    requires H.KeyOf(id) == s.key && AttemptInv(s, AS.HistoryIn(histories, s.key))
    requires AttemptIdentity(Last(s.attempts)) == id
    ensures id in b.records || HP.InOrder(b.records, id)
  {
    hide *;
    var h := AS.HistoryIn(histories, s.key);
    InvParts(s, h);
    HP.FullLog(c, b, log);
    if id !in b.records {
      forall p | p in b.records && H.KeyOf(p) == H.KeyOf(id) ensures p.generation < id.generation {
        RecordIsLogged(b.records, H.CheckpointSequence(b), log, p);
        EarlierAttempt(histories, log, h, s.generation, p, id);
      }
      InOrderIntro(b.records, id);
    }
  }

  lemma EarlierAttempt(histories: Histories, log: seq<H.AckRef>, h: seq<Attempt>, generation: nat, p: H.Identity, id: H.Identity)
    requires RecordsAttempted(histories, log) && exists q :: 0 < q <= |log| && HI.At(log, q).id == p
    requires h == AS.HistoryIn(histories, H.KeyOf(p)) && |h| > 0 && GenerationsOrdered(h, generation)
    requires AttemptIdentity(h[|h| - 1]) == id && p != id
    ensures p.generation < id.generation
  {
    var q :| 0 < q <= |log| && HI.At(log, q).id == p;
    assert Attempted(histories, HI.At(log, q).id);
    var i :| 0 <= i < |h| && AttemptIdentity(h[i]) == p;
    assert h[i].generation < h[|h| - 1].generation;
  }

  lemma InOrderIntro(records: map<H.Identity, H.StoredRecord>, id: H.Identity)
    requires forall p :: p in records && H.KeyOf(p) == H.KeyOf(id) ==> p.generation < id.generation
    ensures HP.InOrder(records, id)
  {}

  /** The evidence kept with a deferral; a category another stage owns is not recorded. */
  function HistoryDeferral(category: DeferredCategory): (d: Deferral)
    ensures ValidDeferral(d)
  {
    var d := Deferral(HistoryReservationStage, category);
    if ValidDeferral(d) then d else Deferral(HistoryReservationStage, OtherUnavailable)
  }

  function QuotaDeferral(cause: QuotaError): (r: (BlockReason, Deferral))
    ensures ValidDeferredReason(r.0) && ValidDeferral(r.1)
  {
    match cause
    case Exhausted => (QuotaCapacity, Deferral(QuotaStage, CapacityFull))
    case WindowIsDraining => (QuotaWindowDraining, Deferral(QuotaStage, WindowDraining))
    case OtherQuotaError(category) =>
      var d := Deferral(QuotaStage, category);
      (ChildUnavailable, if ValidDeferral(d) then d else Deferral(QuotaStage, OtherUnavailable))
  }

  lemma ReservationRefused(c: Claim, target: Target, w: World, error: Option<H.HistoryError>, reason: BlockReason)
    requires error.Some? && reason == (if error.value.Capacity? then HistoryCapacity else ChildUnavailable) && w.expectation
    ensures var d := HistoryDeferral(w.reservationCategory);
            && DeferredFor(c, target, w, error, reason, d) && Justifies(reason, d, w) && HeldAt(d, w) == w.now
            && d.stage == HistoryReservationStage
  {}

  /** Only the other two stages ask for more. */
  lemma QuotaDeferred(c: Claim, target: Target, w: World, verdict: Option<H.HistoryError>, reason: BlockReason, d: Deferral)
    requires d.stage == QuotaStage || d.stage == ExpectationStage
    ensures DeferredFor(c, target, w, verdict, reason, d)
  {}

  lemma QuotaStaged(cause: QuotaError, w: World)
    requires w.expectation && w.quota == Err(cause)
    ensures var (reason, d) := QuotaDeferral(cause); d.stage == QuotaStage && Justifies(reason, d, w)
  {}

  predicate DeferredAttempt(a: Attempt) { a.status == Deferred && a.requestStarted == Some(false) }

  /** The reason and the evidence kept with a deferral are those of what stopped the attempt. */
  predicate Justifies(reason: BlockReason, d: Deferral, w: World) {
    && (d.stage == ExpectationStage <==> !w.expectation)
    && (d.stage == ExpectationStage ==> reason == ChildUnavailable && d.category == Validation)
    && (d.stage == HistoryReservationStage ==> reason in {HistoryCapacity, ChildUnavailable})
    && (d.stage == QuotaStage ==> w.quota.Err?)
    && (d.stage == QuotaStage && w.quota == Err(Exhausted) ==> reason == QuotaCapacity && d.category == CapacityFull)
    && (d.stage == QuotaStage ==> (reason == QuotaWindowDraining <==> w.quota == Err(WindowIsDraining)))
    && (reason == QuotaWindowDraining ==> d == Deferral(QuotaStage, WindowDraining))
    && (d.stage == DeadlineStage ==> w.quota.Ok? && reason == ChildUnavailable && d.category == Infeasible)
  }

  /** When a deferral is reported. */
  function HeldAt(d: Deferral, w: World): int {
    if d.stage == QuotaStage then w.quotaAt else if d.stage == DeadlineStage then w.deadlineAt else w.now
  }

  /** A deferral for want of a reservation or of a deadline was really without one. */
  predicate DeferredFor(c: Claim, target: Target, w: World, verdict: Option<H.HistoryError>, reason: BlockReason, d: Deferral) {
    && (d.stage == HistoryReservationStage ==>
          verdict.Some? && reason == if verdict.value.Capacity? then HistoryCapacity else ChildUnavailable)
    && (d.stage == DeadlineStage ==>
          w.quota.Ok? && ExecutionDeadline(w.deadlineAt, target.requestTimeout, c.expiresAt, c.attemptId, w.quota.value).None?)
  }

  /** The record of a child's receipt, and the reference to it. */
  function RecordOf(c: Claim, receipt: Receipt): H.Record {
    H.Record(ClaimIdentity(c), receipt.bytes, c.startedAt, receipt.receivedAt)
  }

  function ReferenceOf(c: Claim, receipt: Receipt): HistoryRef {
    HistoryRef(ClaimIdentity(c), H.RecordDigest(RecordOf(c, receipt)))
  }

  /** The receipt may be made a record. */
  predicate Usable(c: Claim, target: Target, w: World) {
    && w.child.Some? && w.recordValid && ValidReceipt(w.child.value, target.observationOnly, c.startedAt)
    && H.ValidRecord(RecordOf(c, w.child.value))
  }

  /** The step a usable receipt leads to. */
  predicate StepOf(step: Step, r: Receipt) {
    && (step == AttemptObserved <==> r.responseObserved)
    && (step == AttemptStarted <==> r.requestStarted && !r.responseObserved)
    && (step == AttemptBlocked <==> !r.requestStarted)
  }

  // ---------------------------------------------------------------------
  // The worker
  // ---------------------------------------------------------------------

  class OperationPlanWorker {
    const history: HS.OperationHistoryStore
    const attempts: AS.OperationAttemptStore
    const attemptLease: int
    ghost var ran: set<H.Identity>

    ghost predicate Valid()
      reads this, history, attempts
    {
      && history.Valid() && attempts.Valid()
      && MAX_PROBE_DEADLINE <= attemptLease <= MAX_LEASE
      && Coupled(attempts.histories, history.log, history.Directory(), ran)
    }

    constructor (history: HS.OperationHistoryStore, attempts: AS.OperationAttemptStore, attemptLease: int)
      requires history.Valid() && attempts.Valid() && MAX_PROBE_DEADLINE <= attemptLease <= MAX_LEASE
      requires Coupled(attempts.histories, history.log, history.Directory(), {})
      ensures Valid() && ran == {} && this.history == history && this.attempts == attempts
    {
      this.history, this.attempts, this.attemptLease, ran := history, attempts, attemptLease, {};
    }

    ghost function Now(): Shared
      requires history.Valid()
      reads this, history, attempts
    {
      Shared(attempts.histories, history.log, history.Directory().reservations, ran)
    }

    /** The last attempt of a claim's operation. */
    ghost function Latest(c: Claim): Attempt
      requires KeyOf(c.binding) in attempts.histories && |attempts.histories[KeyOf(c.binding)]| > 0
      reads attempts
    {
      attempts.histories[KeyOf(c.binding)][|attempts.histories[KeyOf(c.binding)]| - 1]
    }

    /** The child is only ever run under an open claim, with capacity reserved for its
        record, once, and to a deadline before the claim and every quota claim expire. */
    method RunChild(c: Claim, deadline: int, quotas: seq<QuotaClaim>, child: Option<Receipt>) returns (r: Option<Receipt>)
      requires Valid() && attempts.Holds(c)
      requires ClaimIdentity(c) in history.Directory().reservations && ClaimIdentity(c) !in ran
      requires deadline < c.expiresAt && |quotas| > 0
      requires forall i :: 0 <= i < |quotas| ==> quotas[i].attemptId == c.attemptId && deadline < quotas[i].expiresAt
      modifies `ran
      ensures Valid() && ran == old(ran) + {ClaimIdentity(c)} && r == child
      ensures OnlyOf(KeyOf(c.binding), old(Now()), Now())
    {
      hide OnlyOf, HI.Inv, H.WfCodec, AttemptInv, Coupled, H.ReadUsage;
      RunKeepsCoupling(attempts.histories, history.log, history.Directory(), ran, ClaimIdentity(c));
      ghost var start := Now();
      ran := ran + {ClaimIdentity(c)};
      OnlyOfStep(KeyOf(c.binding), start, Now(), ClaimIdentity(c));
      r := child;
    }

    /** Gives a reservation back; never after the child has run. */
    method CancelReservation(c: Claim, grant: H.Grant) returns (error: Option<H.HistoryError>)
      requires Valid() && ClaimIdentity(c) !in ran
      modifies history
      ensures Valid() && history.log == old(history.log)
      ensures OnlyOf(KeyOf(c.binding), old(Now()), Now())
      ensures error.None? ==> ClaimIdentity(c) !in history.Directory().reservations
      ensures history.Directory().reservations.Keys <= old(history.Directory()).reservations.Keys
      ensures history.faults >= old(history.faults)
      ensures Calm(attempts.faults, old(history.faults), old(history.disk))
              ==> error == HS.CancelVerdict(old(history.Directory()), ClaimIdentity(c), grant)
    {
      hide OnlyOf, HI.Inv, H.WfCodec, AttemptInv, Coupled, H.ReadUsage, HI.Settled, HI.Clean, H.Fits, HI.Target;
      ghost var d := history.Directory();
      ghost var start := Now();
      error := history.CancelReservation(ClaimIdentity(c), grant);
      OnlyOfStep(KeyOf(c.binding), start, Now(), ClaimIdentity(c));
      CancelKeepsCoupling(attempts.histories, history.log, d, ran, ClaimIdentity(c));
    }

    /** Reports on the claim; the coupling only needs an observation to be backed. */
    method Report(c: Claim, report: Report, now: int) returns (r: Result<(), AttemptError>)
      requires Valid() && attempts.Holds(c)
      requires report.Result? ==> report.observation.history.Some?
                                  && report.observation.history.value.id == ClaimIdentity(c)
                                  && Logged(history.log, report.observation.history.value)
      modifies attempts
      ensures Valid() && attempts.Continues(old(attempts.histories))
      ensures OnlyOf(KeyOf(c.binding), old(Now()), Now())
      ensures r.Ok? ==> attempts.Settles(c, report, now, old(attempts.histories))
      ensures attempts.faults >= old(attempts.faults)
      ensures r.Err? && attempts.faults == old(attempts.faults) ==> ReportRefused(old(FileOf(c.binding)), c, report, now)
    {
      hide OnlyOf, HI.Inv, H.WfCodec, AttemptInv, Coupled, H.ReadUsage, HI.Target, Logged, Backed, Reported, Evolves,
           CompleteDecision, AS.OperationAttemptStore.Accepts;
      ghost var before := attempts.histories;
      ghost var h := AS.HistoryIn(before, KeyOf(c.binding));
      ReportedIsBacked(h[|h| - 1], report, now, history.log);
      ghost var start := Now();
      r := attempts.Complete(c, report, now);
      OnlyOfStep(KeyOf(c.binding), start, Now(), ClaimIdentity(c));
      if attempts.histories != before {
        FinishKeepsCoupling(before, KeyOf(c.binding), Reported(h[|h| - 1], report, now).0, history.log, history.Directory(), ran,
                            attempts.histories);
      }
    }

    /** What every return of ExecuteOne guarantees about the claim it made. Before the
        child nothing ran and, after a deferral, nothing is reserved and the evidence says
        why. After it, a receipt that can be used has its record, and the attempt, unless
        completing it failed, records what the receipt found. */
    ghost predicate Resolved(c: Claim, step: Step, failure: Option<Failure>, target: Target, w: World)
      reads this, history, attempts
    {
      && history.Valid() && KeyOf(c.binding) in attempts.histories && |attempts.histories[KeyOf(c.binding)]| > 0
      && match step
         case NoAttempt => false
         case AttemptClaimed => ClaimIdentity(c) !in ran && failure.Some?
         case AttemptDeferred =>
           && ClaimIdentity(c) !in ran && DeferredAttempt(Latest(c))
           && Latest(c).blockReason.Some? && Latest(c).deferral.Some?
           && Justifies(Latest(c).blockReason.value, Latest(c).deferral.value, w)
           && (failure.None? ==> ClaimIdentity(c) !in history.Directory().reservations)
         case AttemptUnknown =>
           && ClaimIdentity(c) in ran && failure in {Some(Runner), Some(HistoryValidate), Some(HistoryAppend)}
           && (failure == Some(Runner) <==> w.child.None?)
           && (failure == Some(HistoryAppend) <==> Usable(c, target, w))
         case _ =>
           && ClaimIdentity(c) in ran && Usable(c, target, w) && StepOf(step, w.child.value)
           && Logged(history.log, ReferenceOf(c, w.child.value))
           && failure in {None, Some(AttemptComplete), Some(QuotaRelease)}
           && (failure != Some(AttemptComplete) ==>
                 Records(Latest(c), w.child.value, ReferenceOf(c, w.child.value)) && (failure.None? <==> w.quotaReleased))
    }

    /** Not what the file allows, or more than it can hold. */
    predicate Rejects<T>(outcome: AttemptModel.Outcome<T>) {
      !(outcome.Update? && outcome.answer.Ok? && attempts.Accepts(outcome.next))
    }

    /** The operation's file as it is does not take the report. */
    predicate ReportRefused(found: Option<State>, c: Claim, report: Report, now: int) {
      Rejects(CompleteDecision(found, c, report, now))
    }

    /** The claim would not be granted. */
    predicate ClaimRefused(found: Option<State>, binding: Binding, attemptId: string, now: int) {
      Rejects(BeginDecision(found, binding, attemptId, now, attemptLease))
    }

    /** The summary may not be sent, was not taken by the monitor, or was taken too early. */
    predicate NotSent(found: Option<State>, attemptId: string, generation: nat, now: int, lease: int, pushedAt: Option<int>) {
      var sending := DeliveryDecision(found, attemptId, generation, now, lease);
      || Rejects(sending) || pushedAt.None?
      || Rejects(AcknowledgeDecision(Some(sending.next), sending.answer.value, pushedAt.value))
    }

    /** The file once the summary has been taken. */
    function SentFile(found: Option<State>, attemptId: string, generation: nat, now: int, lease: int, pushedAt: Option<int>): Option<State>
      requires !NotSent(found, attemptId, generation, now, lease, pushedAt)
    {
      var sending := DeliveryDecision(found, attemptId, generation, now, lease);
      Some(AcknowledgeDecision(Some(sending.next), sending.answer.value, pushedAt.value).next)
    }

    /** Why a summary has not been read back, when no write failed. */
    predicate NotDelivered(found: Option<State>, attemptId: string, generation: nat, now: int, lease: int, pushedAt: Option<int>,
                           readback: Option<(int, GatusResult)>) {
      || found.None?
      || (var ring := found.value.attempts;
          var i := Find(ring, attemptId, generation);
          || i == |ring| || ring[i].status != Observed || ring[i].result.None?
          || (ring[i].delivery in {NotReady, Pending} && NotSent(found, attemptId, generation, now, lease, pushedAt))
          || readback.None?
          || (var sent := if ring[i].delivery in {NotReady, Pending} then SentFile(found, attemptId, generation, now, lease, pushedAt) else found;
              Rejects(ReadbackDecision(sent, attemptId, generation, readback.value.0, readback.value.1))))
    }

    /** The operation's file once the claim is written. */
    function ClaimedFile(found: Option<State>, binding: Binding, attemptId: string, now: int): Option<State> {
      var outcome := BeginDecision(found, binding, attemptId, now, attemptLease);
      if outcome.Update? then Some(outcome.next) else found
    }

    ghost function FileOf(b: Binding): Option<State>
      reads attempts
    {
      AS.Found(attempts.states, KeyOf(b))
    }

    /** The history's answer to appending the receipt's record after the reservation. */
    ghost function AppendAnswer(c: Claim, receipt: Receipt, w: World, was: Origin): Result<H.RecordRef, H.HistoryError> {
      var record := RecordOf(c, receipt);
      var grant := H.Grant(ClaimIdentity(c), w.token);
      HS.Answer(HS.AppendDecision(history.codec, HP.WithReservation(was.directory, ClaimIdentity(c), H.Reservation(w.token, w.reservedAt)),
                                  grant, record, w.appendedAt, was.next), record)
    }

    /** A receipt whose record was durable at the given time could not be reported. */
    predicate NotReported(c: Claim, receipt: Receipt, appendedAt: int, at: int, found: Option<State>) {
      var report := ReportFor(receipt, ReferenceOf(c, receipt));
      at < appendedAt || report.None? || ReportRefused(found, c, report.value, at)
    }

    /** The directory is the one at the claim, with the reservation added. */
    ghost predicate AsReserved(c: Claim, grant: H.Grant, w: World, was: Origin)
      requires history.Valid()
      reads history
    {
      && history.Directory() == HP.WithReservation(was.directory, ClaimIdentity(c), H.Reservation(w.token, w.reservedAt))
      && grant == H.Grant(ClaimIdentity(c), w.token) && was.next == |history.log| + 1
    }

    /** No write has failed and the history needed no rebuild. */
    ghost predicate Calm(faultsA: nat, faultsH: nat, disk: H.Disk)
      reads history, attempts
    {
      attempts.faults == faultsA && history.faults == faultsH && HI.Clean(disk, history.maximum)
    }

    /** Why a claim did not get further, when nothing failed: each way it can end short of
        a reported receipt has the one cause that is given here, in terms of the file and
        the directory as they were after the claim. */
    ghost predicate Excused(c: Claim, step: Step, failure: Option<Failure>, target: Target, w: World, was: Origin)
      reads attempts
    {
      && KeyOf(c.binding) in attempts.histories && |attempts.histories[KeyOf(c.binding)]| > 0
      && match step
         case NoAttempt => false
         case AttemptClaimed =>
           exists reason, deferral: Deferral ::
             Justifies(reason, deferral, w) && ReportRefused(was.found, c, Hold(reason, Some(deferral)), HeldAt(deferral, w))
         case AttemptDeferred =>
           && Latest(c).deferral.Some? && Latest(c).blockReason.Some?
           && DeferredFor(c, target, w, HS.ReserveVerdict(history.codec, history.maximum, was.directory, ClaimIdentity(c)),
                          Latest(c).blockReason.value, Latest(c).deferral.value)
           && failure == (if Latest(c).deferral.value.stage == DeadlineStage && !w.quotaReleased then Some(QuotaRelease) else None)
         case AttemptUnknown => failure == Some(HistoryAppend) ==> w.child.Some? && AppendAnswer(c, w.child.value, w, was).Err?
         case _ =>
           failure == Some(AttemptComplete) ==>
             && w.child.Some? && AppendAnswer(c, w.child.value, w, was).Ok?
             && NotReported(c, w.child.value, AppendAnswer(c, w.child.value, w, was).value.appendedAt, w.completedAt, was.found)
    }

    /** Ends a claim before anything was dispatched. */
    method Defer(c: Claim, reason: BlockReason, deferral: Deferral, now: int, ghost target: Target, ghost w: World)
      returns (step: Step, failure: Option<Failure>)
      requires Valid() && attempts.Holds(c) && ClaimIdentity(c) !in ran
      requires ValidDeferredReason(reason) && ValidDeferral(deferral) && Justifies(reason, deferral, w)
      modifies attempts
      ensures Valid()
      ensures OnlyOf(KeyOf(c.binding), old(Now()), Now())
      ensures ClaimIdentity(c) !in history.Directory().reservations ==> Resolved(c, step, failure, target, w)
      ensures Resolved(c, step, Some(PreDispatchCleanup), target, w)
      ensures if failure.None? then step == AttemptDeferred else step == AttemptClaimed
      ensures attempts.faults >= old(attempts.faults)
      ensures failure.Some? && attempts.faults == old(attempts.faults)
              ==> ReportRefused(old(FileOf(c.binding)), c, Hold(reason, Some(deferral)), now)
      ensures failure.None? ==> KeyOf(c.binding) in attempts.histories && |attempts.histories[KeyOf(c.binding)]| > 0
                                && Latest(c).blockReason == Some(reason) && Latest(c).deferral == Some(deferral)
    {
      hide OnlyOf, HI.Inv, H.WfCodec, AttemptInv, Coupled, H.ReadUsage, HI.Target, Evolves, H.ValidIdentity, ValidClaim, HasRecord,
           Owns, H.Matches, Justifies, Usable, Records, Logged, StepOf, OperationPlanWorker.ReportRefused;
      ghost var before := attempts.histories;
      var reported := Report(c, Hold(reason, Some(deferral)), now);
      attempts.StillThere(before, KeyOf(c.binding));
      step, failure := if reported.Ok? then AttemptDeferred else AttemptClaimed,
                       if reported.Ok? then None else Some(PreDispatchCleanup);
    }

    lemma ClaimWritten(binding: Binding, attemptId: string, now: int, r: Result<Claim, AttemptError>, before: map<H.OperationKey, State>,
                       faultsBefore: nat)
      requires KeyOf(binding) in before ==> before[KeyOf(binding)].key == KeyOf(binding)
      requires attempts.Carried(BeginDecision(AS.Found(before, KeyOf(binding)), binding, attemptId, now, attemptLease), r, before, faultsBefore)
      ensures r.Ok? ==> FileOf(binding) == ClaimedFile(AS.Found(before, KeyOf(binding)), binding, attemptId, now)
      ensures r.Err? && attempts.faults == faultsBefore ==> ClaimRefused(AS.Found(before, KeyOf(binding)), binding, attemptId, now)
    {
      hide BeginDecision, AS.OperationAttemptStore.Accepts;
      var found := AS.Found(before, KeyOf(binding));
      BeginKey(found, binding, attemptId, now, attemptLease);
      if r.Ok? { attempts.CarriedOk(BeginDecision(found, binding, attemptId, now, attemptLease), r, before, faultsBefore); }
    }

    lemma DeferralExcused(c: Claim, reason: BlockReason, deferral: Deferral, target: Target, w: World, was: Origin)
      requires KeyOf(c.binding) in attempts.histories && |attempts.histories[KeyOf(c.binding)]| > 0
      requires Latest(c).blockReason == Some(reason) && Latest(c).deferral == Some(deferral)
      requires DeferredFor(c, target, w, HS.ReserveVerdict(history.codec, history.maximum, was.directory, ClaimIdentity(c)), reason, deferral)
      ensures Excused(c, AttemptDeferred, if deferral.stage == DeadlineStage && !w.quotaReleased then Some(QuotaRelease) else None,
                      target, w, was)
    {
      hide HS.ReserveVerdict, DeferredFor;
    }

    lemma RefusalExcused(c: Claim, reason: BlockReason, deferral: Deferral, failure: Option<Failure>, target: Target, w: World, was: Origin)
      requires KeyOf(c.binding) in attempts.histories && |attempts.histories[KeyOf(c.binding)]| > 0
      requires Justifies(reason, deferral, w) && ReportRefused(was.found, c, Hold(reason, Some(deferral)), HeldAt(deferral, w))
      ensures Excused(c, AttemptClaimed, failure, target, w, was)
    {
      hide OperationPlanWorker.ReportRefused, Justifies, HeldAt;
    }

    lemma UnknownExcused(c: Claim, failure: Option<Failure>, target: Target, w: World, was: Origin)
      requires KeyOf(c.binding) in attempts.histories && |attempts.histories[KeyOf(c.binding)]| > 0
      requires failure == Some(HistoryAppend) ==> w.child.Some? && AppendAnswer(c, w.child.value, w, was).Err?
      ensures Excused(c, AttemptUnknown, failure, target, w, was)
    {
      hide OperationPlanWorker.AppendAnswer;
    }

    lemma ReceiptExcused(c: Claim, step: Step, failure: Option<Failure>, target: Target, w: World, was: Origin)
      requires KeyOf(c.binding) in attempts.histories && |attempts.histories[KeyOf(c.binding)]| > 0
      requires step !in {NoAttempt, AttemptClaimed, AttemptDeferred, AttemptUnknown}
      requires failure == Some(AttemptComplete) ==>
                 && w.child.Some? && AppendAnswer(c, w.child.value, w, was).Ok?
                 && NotReported(c, w.child.value, AppendAnswer(c, w.child.value, w, was).value.appendedAt, w.completedAt, was.found)
      ensures Excused(c, step, failure, target, w, was)
    {
      hide OperationPlanWorker.AppendAnswer, OperationPlanWorker.NotReported;
    }

    /** Claims the next attempt; its identity is fresh in both stores. */
    method ClaimAttempt(binding: Binding, attemptId: string, now: int) returns (r: Result<Claim, AttemptError>)
      requires Valid()
      modifies attempts
      ensures Valid() && attempts.Continues(old(attempts.histories))
      ensures OnlyOf(KeyOf(binding), old(Now()), Now())
      ensures r.Ok? ==> attempts.Holds(r.value) && r.value.binding == binding && r.value.attemptId == attemptId
                        && r.value.startedAt == now && r.value.expiresAt == now + attemptLease
                        && ClaimIdentity(r.value) !in ran
                        && ClaimIdentity(r.value) !in history.Directory().reservations
                        && Attempted(attempts.histories, ClaimIdentity(r.value))
      ensures attempts.faults >= old(attempts.faults)
      ensures r.Err? && attempts.faults == old(attempts.faults) ==> ClaimRefused(old(FileOf(binding)), binding, attemptId, now)
      ensures r.Ok? ==> FileOf(binding) == ClaimedFile(old(FileOf(binding)), binding, attemptId, now)
    {
      hide OnlyOf, HI.Inv, H.WfCodec, AttemptInv, Coupled, H.ReadUsage, HI.Target, EvolvesTo, Attempted, BeginDecision, ValidBinding,
           AS.OperationAttemptStore.Accepts;
      ghost var before := attempts.histories;
      ghost var start := Now();
      ghost var files, faultsBefore := attempts.states, attempts.faults;
      r := attempts.BeginAttempt(binding, attemptId, now, attemptLease);
      var key := KeyOf(binding);
      ClaimWritten(binding, attemptId, now, r, files, faultsBefore);
      OnlyOfStep(key, start, Now(), IdentityOf(binding, attemptId, 0));
      if r.Ok? {
        ghost var c := ClaimedAttempt(binding, attemptId, r.value.generation, now, attemptLease);
        ClaimedIsFresh(attempts.states[key], before, attempts.histories, c);
        FreshIsUnused(before, history.log, history.Directory(), ran, AttemptIdentity(c));
        ClaimKeepsCoupling(before, key, c, history.log, history.Directory(), ran, attempts.histories);
      } else if attempts.histories != before {
        if attempts.Expires(before, key, now) {
          ghost var h := AS.HistoryIn(before, key);
          ClaimedIsBacked(Expire(h[|h| - 1], now), history.log);
          FinishKeepsCoupling(before, key, Expire(h[|h| - 1], now), history.log, history.Directory(), ran, attempts.histories);
        } else {
          ghost var g: nat :| attempts.histories == before[key := AS.HistoryIn(before, key)
                                                              + [ClaimedAttempt(binding, attemptId, g, now, attemptLease)]];
          ClaimKeepsCoupling(before, key, ClaimedAttempt(binding, attemptId, g, now, attemptLease), history.log,
                             history.Directory(), ran, attempts.histories);
        }
      }
    }

    /** Appends the claim's record. It comes in the order of the operation's generations,
        because the claim is the operation's last attempt. */
    method Append(c: Claim, grant: H.Grant, record: H.Record, now: int) returns (r: Result<H.RecordRef, H.HistoryError>)
      requires Valid() && attempts.Holds(c) && record.identity == ClaimIdentity(c)
      modifies history
      ensures Valid()
      ensures OnlyOf(KeyOf(c.binding), old(Now()), Now())
      ensures r.Ok? ==> r.value.id == ClaimIdentity(c) && r.value.sha == H.RecordDigest(record)
                        && HasRecord(history.log, ClaimIdentity(c))
                        && Logged(history.log, HistoryRef(r.value.id, r.value.sha)) && r.value.appendedAt >= record.validatedAt
      ensures history.faults >= old(history.faults)
      ensures Calm(attempts.faults, old(history.faults), old(history.disk))
              ==> r == HS.Answer(HS.AppendDecision(history.codec, old(history.Directory()), grant, record, now, |old(history.log)| + 1),
                                 record)
    {
      hide OnlyOf, HI.Inv, H.WfCodec, AttemptInv, Coupled, H.ReadUsage, HI.Target, HI.Settled, HI.Clean, H.Fits, H.Matches,
           H.ValidRecord, Logged, HasRecord, HS.Accepted, HS.AppendDecision, HP.InOrder, Attempted, HI.Full, HI.Bounded;
      ghost var d, log := history.Directory(), history.log;
      ghost var s := attempts.states[KeyOf(c.binding)];
      CoupledParts(attempts.histories, log, d, ran);
      HoldsIsLast(attempts.histories, s, c);
      history.DirectoryIsFull();
      LatestIsInOrder(attempts.histories, log, d, history.codec, s, ClaimIdentity(c));
      ghost var start := Now();
      r := history.AppendValidated(grant, record, now);
      AppendedReservations(history.codec, d, log, grant, record, now);
      if history.log != log {
        ghost var decision := HS.AppendDecision(history.codec, d, grant, record, now, |log| + 1);
        StoresRecord(history.codec, d, grant, record, now, |log| + 1);
        assert HP.InOrder(d.records, decision.stored.record.identity);
        AppendKeepsCoupling(attempts.histories, log, d, ran, history.codec, decision.stored);
      }
      OnlyOfStep(KeyOf(c.binding), start, Now(), ClaimIdentity(c));
      if r.Ok? { AcceptedIsLogged(history.log, r.value); }
    }

    /** A claim whose child ran but left nothing to record ends as an unknown outcome;
        the reservation stays. */
    method Abandon(c: Claim, now: int, because: Failure, ghost target: Target, ghost w: World)
      returns (step: Step, failure: Option<Failure>)
      requires Valid() && attempts.Holds(c) && ClaimIdentity(c) in ran
      requires because in {Runner, HistoryValidate, HistoryAppend}
      requires (because == Runner <==> w.child.None?) && (because == HistoryAppend <==> Usable(c, target, w))
      modifies attempts
      ensures Valid() && Resolved(c, step, failure, target, w)
      ensures OnlyOf(KeyOf(c.binding), old(Now()), Now())
      ensures step == AttemptUnknown && failure == Some(because) && attempts.faults >= old(attempts.faults)
    {
      hide OnlyOf, HI.Inv, H.WfCodec, AttemptInv, Coupled, H.ReadUsage, HI.Target, Evolves, ValidClaim, HasRecord, Owns;
      ghost var before := attempts.histories;
      var _ := Report(c, Failure, now);
      attempts.StillThere(before, KeyOf(c.binding));
      return AttemptUnknown, Some(because);
    }

    /** Validates the receipt, makes its record durable, and only then reports it. */
    method CommitReceipt(c: Claim, grant: H.Grant, receipt: Receipt, target: Target, w: World, ghost was: Origin)
      returns (step: Step, failure: Option<Failure>)
      requires Valid() && attempts.Holds(c) && ClaimIdentity(c) in ran && w.child == Some(receipt)
      requires was.found == FileOf(c.binding)
      modifies history, attempts
      ensures Valid() && Resolved(c, step, failure, target, w)
      ensures OnlyOf(KeyOf(c.binding), old(Now()), Now())
      ensures attempts.faults >= old(attempts.faults) && history.faults >= old(history.faults)
      ensures Calm(old(attempts.faults), old(history.faults), old(history.disk)) && old(AsReserved(c, grant, w, was))
              ==> Excused(c, step, failure, target, w, was)
    {
      hide OnlyOf, HI.Inv, H.WfCodec, AttemptInv, Coupled, H.ReadUsage, HI.Target, Evolves, ValidClaim, HasRecord, Owns, Logged,
           H.ValidRecord, ValidReceipt, ValidReport, Records, Justifies, StepOf, HS.Answer, HS.AppendDecision,
           OperationPlanWorker.NotReported, DeferredFor, OperationPlanWorker.Excused, HP.WithReservation;
      var record := H.Record(ClaimIdentity(c), receipt.bytes, c.startedAt, receipt.receivedAt);
      if !w.recordValid || !ValidReceipt(receipt, target.observationOnly, c.startedAt) || !H.ValidRecord(record) {
        step, failure := Abandon(c, w.failedAt, HistoryValidate, target, w);
        UnknownExcused(c, failure, target, w, was);
        return;
      }
      ghost var start := Now();
      var appended := Append(c, grant, record, w.appendedAt);
      ghost var middle := Now();
      if appended.Err? {
        step, failure := Abandon(c, w.failedAt, HistoryAppend, target, w);
        OnlyOfBoth(KeyOf(c.binding), start, middle, Now());
        if appended == AppendAnswer(c, receipt, w, was) { UnknownExcused(c, failure, target, w, was); }
        return;
      }
      ghost var filed := FileOf(c.binding);
      step, failure := ReportReceipt(c, receipt, target, appended.value, w);
      OnlyOfBoth(KeyOf(c.binding), start, middle, Now());
      if appended == AppendAnswer(c, receipt, w, was) && attempts.faults == old(attempts.faults) {
        ReceiptExcused(c, step, failure, target, w, was);
      }
    }

    /** Reports a receipt whose record is durable. */
    method ReportReceipt(c: Claim, receipt: Receipt, target: Target, ref: H.RecordRef, w: World)
      returns (step: Step, failure: Option<Failure>)
      requires Valid() && attempts.Holds(c) && ClaimIdentity(c) in ran && w.child == Some(receipt) && Usable(c, target, w)
      requires ref.id == ClaimIdentity(c) && ref.sha == H.RecordDigest(RecordOf(c, receipt)) && HasRecord(history.log, ref.id) && Logged(history.log, HistoryRef(ref.id, ref.sha))
      modifies attempts
      ensures Valid() && Resolved(c, step, failure, target, w)
      ensures OnlyOf(KeyOf(c.binding), old(Now()), Now())
      ensures step !in {NoAttempt, AttemptClaimed, AttemptDeferred, AttemptUnknown} && attempts.faults >= old(attempts.faults)
      ensures failure == Some(AttemptComplete) && attempts.faults == old(attempts.faults)
              ==> NotReported(c, receipt, ref.appendedAt, w.completedAt, old(FileOf(c.binding)))
    {
      hide OnlyOf, HI.Inv, H.WfCodec, AttemptInv, Coupled, H.ReadUsage, HI.Target, Evolves, ValidClaim, HasRecord, Owns, Logged,
           OperationPlanWorker.ReportRefused,
           H.ValidRecord, ValidReceipt, ValidReport, Reported, HS.OperationHistoryStore.Valid,
           AS.OperationAttemptStore.Valid, Records, Justifies, ReportFor, RecordOf;
      ghost var before := attempts.histories;
      attempts.ContinuesSame();
      ClaimIsBlank(c);
      ReceiptStep(receipt, target.observationOnly, c.startedAt);
      var reference := HistoryRef(ref.id, ref.sha);
      EveryReceiptIsReported(receipt, target.observationOnly, c.startedAt, reference);
      var report := ReportFor(receipt, reference).value;
      OnlyOfNothing(KeyOf(c.binding), Now());
      var reported := Err(Unavailable);
      if ref.appendedAt <= w.completedAt { reported := Report(c, report, w.completedAt); }
      attempts.StillThere(before, KeyOf(c.binding));
      if reported.Ok? {
        ghost var h := AS.HistoryIn(before, KeyOf(c.binding));
        ReceiptIsRecorded(h[|h| - 1], receipt, target.observationOnly, reference, w.completedAt);
      }
      step := if !receipt.requestStarted then AttemptBlocked
              else if receipt.observedAt == 0 then AttemptStarted else AttemptObserved;
      failure := if reported.Err? then Some(AttemptComplete) else if !w.quotaReleased then Some(QuotaRelease) else None;
    }

    lemma ClaimIsBlank(c: Claim)
      requires Valid() && attempts.Holds(c)
      ensures var h := AS.HistoryIn(attempts.histories, KeyOf(c.binding)); h[|h| - 1].result.None? && h[|h| - 1].startedAt == c.startedAt
    {
      hide HI.Inv, H.WfCodec, Coupled, H.ReadUsage, HI.Target;
      var h := AS.HistoryIn(attempts.histories, KeyOf(c.binding));
      BlankClaim(attempts.states[KeyOf(c.binding)], h, c);
    }

    /** Reserves capacity for the claim's record. */
    method Reserve(c: Claim, token: string, now: int) returns (issued: Option<string>, error: Option<H.HistoryError>)
      requires Valid() && Attempted(attempts.histories, ClaimIdentity(c))
      modifies history
      ensures Valid()
      ensures OnlyOf(KeyOf(c.binding), old(Now()), Now())
      ensures error.None? ==> issued.Some? && ClaimIdentity(c) in history.Directory().reservations
      ensures error.Some? ==> issued.None? || (issued == Some(token) && history.faults > old(history.faults))
      ensures issued.None? ==> history.Directory().reservations.Keys <= old(history.Directory()).reservations.Keys
      ensures history.log == old(history.log) && history.faults >= old(history.faults)
      ensures error.None? ==> HI.Clean(history.disk, history.maximum)
                              && history.Directory().reservations[ClaimIdentity(c)].token == issued.value
      ensures Calm(attempts.faults, old(history.faults), old(history.disk))
              ==> error == HS.ReserveVerdict(history.codec, history.maximum, old(history.Directory()), ClaimIdentity(c))
                  && (error.None? && ClaimIdentity(c) !in old(history.Directory()).reservations
                      ==> history.Directory() == HP.WithReservation(old(history.Directory()), ClaimIdentity(c), H.Reservation(token, now)))
    {
      hide OnlyOf, HI.Inv, H.WfCodec, AttemptInv, Coupled, H.ReadUsage, HI.Target, HI.Settled, HI.Clean, H.Fits, Attempted,
           HS.ReserveVerdict, HS.AfterReserve, H.ValidIdentity;
      ghost var d := history.Directory();
      ReserveKeepsCoupling(attempts.histories, history.log, d, ran, ClaimIdentity(c), H.Reservation(token, now));
      ghost var start := Now();
      issued, error := history.Reserve(ClaimIdentity(c), token, now);
      OnlyOfStep(KeyOf(c.binding), start, Now(), ClaimIdentity(c));
    }

    lemma GrantMatches(c: Claim, token: string)
      requires attempts.Holds(c) && token != ""
      ensures H.Matches(H.Grant(ClaimIdentity(c), token), ClaimIdentity(c))
    {}

    lemma ClaimedResolved(c: Claim, f: Failure, target: Target, w: World)
      requires Valid() && attempts.Holds(c) && ClaimIdentity(c) !in ran
      ensures Resolved(c, AttemptClaimed, Some(f), target, w)
    {
      hide HI.Inv, H.WfCodec, AttemptInv, Coupled, H.ReadUsage, HI.Target, ValidClaim, Owns;
    }

    /** What has just been reserved can be given back. */
    lemma ReservedIsReleased(c: Claim, grant: H.Grant, w: World, d: H.Disk)
      requires attempts.Holds(c)
      ensures grant == H.Grant(ClaimIdentity(c), w.token) && w.token != ""
              ==> HS.CancelVerdict(HP.WithReservation(d, ClaimIdentity(c), H.Reservation(w.token, w.reservedAt)), ClaimIdentity(c), grant).None?
    {
      if w.token != "" { GrantMatches(c, w.token); }
      hide H.Matches;
    }

    /** The quota authority refused: the reservation goes back, then the claim is deferred. */
    method ReleaseAndDefer(c: Claim, grant: H.Grant, cause: QuotaError, now: int, ghost target: Target, ghost w: World, ghost was: Origin)
      returns (step: Step, failure: Option<Failure>)
      requires Valid() && attempts.Holds(c) && ClaimIdentity(c) !in ran && w.expectation && w.quota == Err(cause)
      requires was.found == FileOf(c.binding) && now == w.quotaAt
      modifies history, attempts
      ensures Valid() && Resolved(c, step, failure, target, w)
      ensures OnlyOf(KeyOf(c.binding), old(Now()), Now())
      ensures attempts.faults >= old(attempts.faults) && history.faults >= old(history.faults)
      ensures Calm(old(attempts.faults), old(history.faults), old(history.disk)) && old(AsReserved(c, grant, w, was)) && w.token != ""
              ==> Excused(c, step, failure, target, w, was)
    {
      hide OperationPlanWorker.ReportRefused, HS.ReserveVerdict, H.ValidIdentity, OperationPlanWorker.Excused, HP.WithReservation,
           HS.CancelVerdict, DeferredFor, QuotaDeferral, Justifies, OnlyOf, HI.Inv, H.WfCodec, AttemptInv, Coupled, H.ReadUsage, HI.Target, ValidClaim, Owns, HasRecord, Evolves;
      ghost var start := Now();
      var cancelled := CancelReservation(c, grant);
      ghost var middle := Now();
      var (reason, deferral) := QuotaDeferral(cause);
      QuotaStaged(cause, w);
      ReservedIsReleased(c, grant, w, was.directory);
      step, failure := Defer(c, reason, deferral, now, target, w);
      OnlyOfBoth(KeyOf(c.binding), start, middle, Now());
      if failure.None? {
        QuotaDeferred(c, target, w, HS.ReserveVerdict(history.codec, history.maximum, was.directory, ClaimIdentity(c)), reason, deferral);
        DeferralExcused(c, reason, deferral, target, w, was);
      } else if attempts.faults == old(attempts.faults) {
        RefusalExcused(c, reason, deferral, failure, target, w, was);
      }
      if cancelled.Some? { failure := Some(QuotaCleanup); }
    }

    /** No deadline fits inside the leases. */
    method DeferInfeasible(c: Claim, grant: H.Grant, ghost target: Target, w: World, ghost was: Origin)
      returns (step: Step, failure: Option<Failure>)
      requires Valid() && attempts.Holds(c) && ClaimIdentity(c) !in ran && w.expectation && w.quota.Ok?
      requires ExecutionDeadline(w.deadlineAt, target.requestTimeout, c.expiresAt, c.attemptId, w.quota.value).None?
      requires was.found == FileOf(c.binding)
      modifies history, attempts
      ensures Valid() && Resolved(c, step, failure, target, w)
      ensures OnlyOf(KeyOf(c.binding), old(Now()), Now())
      ensures attempts.faults >= old(attempts.faults) && history.faults >= old(history.faults)
      ensures Calm(old(attempts.faults), old(history.faults), old(history.disk)) && old(AsReserved(c, grant, w, was)) && w.token != ""
              ==> Excused(c, step, failure, target, w, was)
    {
      hide OperationPlanWorker.ReportRefused, HS.ReserveVerdict, H.ValidIdentity, OperationPlanWorker.Excused, HP.WithReservation,
           HS.CancelVerdict, OnlyOf, ExecutionDeadline, HI.Inv, H.WfCodec, AttemptInv, Coupled, H.ReadUsage, HI.Target, ValidClaim, Owns, HasRecord, Evolves;
      ghost var start := Now();
      var cancelled := CancelReservation(c, grant);
      ghost var middle := Now();
      ReservedIsReleased(c, grant, w, was.directory);
      if cancelled.Some? {
        ClaimedResolved(c, PreDispatchCleanup, target, w);
        return AttemptClaimed, Some(PreDispatchCleanup);
      }
      step, failure := Defer(c, ChildUnavailable, Deferral(DeadlineStage, Infeasible), w.deadlineAt, target, w);
      OnlyOfBoth(KeyOf(c.binding), start, middle, Now());
      if failure.None? {
        DeferralExcused(c, ChildUnavailable, Deferral(DeadlineStage, Infeasible), target, w, was);
      } else if attempts.faults == old(attempts.faults) {
        RefusalExcused(c, ChildUnavailable, Deferral(DeadlineStage, Infeasible), failure, target, w, was);
      }
      if failure.None? && !w.quotaReleased { failure := Some(QuotaRelease); }
    }

    /** No reservation was given. One that may have become durable all the same is first
        taken back. */
    method DeferUnreserved(c: Claim, issued: Option<string>, error: H.HistoryError, ghost target: Target, w: World, ghost was: Origin)
      returns (step: Step, failure: Option<Failure>)
      requires Valid() && attempts.Holds(c) && ClaimIdentity(c) !in ran && w.expectation
      requires if issued.Some? then issued.value == w.token != "" else ClaimIdentity(c) !in history.Directory().reservations
      requires was.found == FileOf(c.binding)
      modifies history, attempts
      ensures Valid() && Resolved(c, step, failure, target, w)
      ensures OnlyOf(KeyOf(c.binding), old(Now()), Now())
      ensures attempts.faults >= old(attempts.faults) && history.faults >= old(history.faults)
      ensures issued.None? && attempts.faults == old(attempts.faults)
              && Some(error) == HS.ReserveVerdict(history.codec, history.maximum, was.directory, ClaimIdentity(c))
              ==> Excused(c, step, failure, target, w, was)
    {
      hide OnlyOf, HI.Inv, H.WfCodec, AttemptInv, Coupled, H.ReadUsage, HI.Target, Evolves, ValidClaim, Owns, HasRecord, Attempted,
           H.Matches, OperationPlanWorker.ReportRefused, HS.ReserveVerdict, H.ValidIdentity, OperationPlanWorker.Excused, DeferredFor,
           HS.CancelVerdict, Justifies, HeldAt, HistoryDeferral;
      ghost var key, start := KeyOf(c.binding), Now();
      OnlyOfNothing(key, start);
      if issued.Some? {
        GrantMatches(c, w.token);
        if H.Matches(H.Grant(ClaimIdentity(c), issued.value), ClaimIdentity(c)) {
          var cancelled := CancelReservation(c, H.Grant(ClaimIdentity(c), issued.value));
          if cancelled.Some? {
            ClaimedResolved(c, PreDispatchCleanup, target, w);
            return AttemptClaimed, Some(PreDispatchCleanup);
          }
        }
      }
      ghost var middle := Now();
      var reason := if error.Capacity? then HistoryCapacity else ChildUnavailable;
      var deferral := HistoryDeferral(w.reservationCategory);
      ReservationRefused(c, target, w, Some(error), reason);
      step, failure := Defer(c, reason, deferral, w.now, target, w);
      OnlyOfBoth(key, start, middle, Now());
      if Some(error) == HS.ReserveVerdict(history.codec, history.maximum, was.directory, ClaimIdentity(c)) {
        if failure.None? {
          DeferralExcused(c, reason, deferral, target, w, was);
        } else if attempts.faults == old(attempts.faults) {
          RefusalExcused(c, reason, deferral, failure, target, w, was);
        }
      }
    }

    /** Reserves capacity for the record and takes the quota claims; runs the child only
        with both, and gives the reservation back if it does not. */
    method Dispatch(c: Claim, target: Target, w: World, ghost was: Origin) returns (step: Step, failure: Option<Failure>)
      requires Valid() && attempts.Holds(c) && Attempted(attempts.histories, ClaimIdentity(c))
      requires ClaimIdentity(c) !in ran && ClaimIdentity(c) !in history.Directory().reservations
      requires c.attemptId == w.attemptId && w.token != "" && w.expectation
      requires was == Origin(FileOf(c.binding), history.Directory(), |history.log| + 1)
      modifies this, history, attempts
      ensures Valid() && Resolved(c, step, failure, target, w)
      ensures OnlyOf(KeyOf(c.binding), old(Now()), Now())
      ensures attempts.faults >= old(attempts.faults) && history.faults >= old(history.faults)
      ensures Calm(old(attempts.faults), old(history.faults), old(history.disk)) ==> Excused(c, step, failure, target, w, was)
    {
      hide OnlyOf, HI.Inv, H.WfCodec, AttemptInv, Coupled, H.ReadUsage, HI.Target, Evolves, ValidClaim, Owns, HasRecord, Attempted,
           H.Matches, OperationPlanWorker.ReportRefused, HS.ReserveVerdict, H.ValidIdentity, ExecutionDeadline, HS.Answer,
           HS.AppendDecision, HP.WithReservation, OperationPlanWorker.NotReported, OperationPlanWorker.Excused, DeferredFor,
           HS.CancelVerdict, Justifies, HeldAt;
      var id := ClaimIdentity(c);
      ghost var key, start := KeyOf(c.binding), Now();
      GrantMatches(c, w.token);
      var issued, error := Reserve(c, w.token, w.reservedAt);
      ghost var reserved := Now();
      if error.Some? {
        step, failure := DeferUnreserved(c, issued, error.value, target, w, was);
        OnlyOfBoth(key, start, reserved, Now());
        return;
      }
      var grant := H.Grant(id, issued.value);
      ReservedToken(was.directory, id, H.Reservation(w.token, w.reservedAt));
      assert Calm(old(attempts.faults), old(history.faults), old(history.disk)) ==> AsReserved(c, grant, w, was);
      if w.quota.Err? {
        step, failure := ReleaseAndDefer(c, grant, w.quota.error, w.quotaAt, target, w, was);
        OnlyOfBoth(key, start, reserved, Now());
        return;
      }
      var deadline := ExecutionDeadline(w.deadlineAt, target.requestTimeout, c.expiresAt, c.attemptId, w.quota.value);
      if deadline.None? {
        step, failure := DeferInfeasible(c, grant, target, w, was);
        OnlyOfBoth(key, start, reserved, Now());
        return;
      }
      var child := RunChild(c, deadline.value, w.quota.value, w.child);
      OnlyOfBoth(key, start, reserved, Now());
      ghost var afterRun := Now();
      if child.None? {
        step, failure := Abandon(c, w.failedAt, Runner, target, w);
        UnknownExcused(c, failure, target, w, was);
        OnlyOfBoth(key, start, afterRun, Now());
        return;
      }
      step, failure := CommitReceipt(c, grant, child.value, target, w, was);
      OnlyOfBoth(key, start, afterRun, Now());
    }

    /** Publishes the oldest pending batch: no record, reservation or attempt is lost over it. */
    method PublishPending(publisher: seq<H.AckRef> -> Option<H.Confirmation>) returns (r: Result<bool, H.HistoryError>)
      requires Valid()
      modifies history
      ensures Valid() && Now() == old(Now())
      ensures r == Ok(true) ==> H.CheckpointSequence(history.Directory()) > H.CheckpointSequence(old(history.Directory()))
      ensures r == Ok(false) ==> history.Directory() == old(history.Directory())
                                 && H.CheckpointSequence(history.Directory()) == |history.log|
      ensures r.Err? && Calm(attempts.faults, old(history.faults), old(history.disk))
              ==> HS.DescriptorTooLarge(history.codec, old(history.Directory()), history.log)
                  || exists batch :: HS.IsCurrent(history.codec, old(history.Directory()), history.log, batch)
                                     && HS.Unpublished(history.codec, old(history.Directory()), batch, publisher(batch))
    {
      hide HI.Inv, H.WfCodec, AttemptInv, Coupled, H.ReadUsage, HI.Settled, HI.Target, H.CheckpointSequence, HS.DescriptorTooLarge,
           HS.IsCurrent, HS.Unpublished, HI.Clean, H.Fits;
      ghost var d := history.Directory();
      r := history.PublishPending(publisher);
      PublicationKeepsCoupling(attempts.histories, history.log, d, history.Directory(), ran);
    }

    /** One observation of one target, from the claim to its report. */
    method ExecuteOne(target: Target, w: World) returns (claim: Option<Claim>, step: Step, failure: Option<Failure>)
      requires Valid() && w.token != ""
      modifies this, history, attempts
      ensures Valid()
      ensures OnlyOf(KeyOf(target.binding), old(Now()), Now())
      ensures claim.None? ==> step == NoAttempt && failure == Some(AttemptBegin)
      ensures claim.Some? ==> Resolved(claim.value, step, failure, target, w)
      ensures attempts.faults >= old(attempts.faults) && history.faults >= old(history.faults)
      ensures claim.None? && attempts.faults == old(attempts.faults)
              ==> ClaimRefused(old(FileOf(target.binding)), target.binding, w.attemptId, w.now)
      ensures claim.Some? && Calm(old(attempts.faults), old(history.faults), old(history.disk)) ==>
                Excused(claim.value, step, failure, target, w,
                        Origin(ClaimedFile(old(FileOf(target.binding)), target.binding, w.attemptId, w.now), old(history.Directory()),
                               |old(history.log)| + 1))
    {
      hide OnlyOf, HI.Inv, H.WfCodec, AttemptInv, Coupled, H.ReadUsage, HI.Target, Evolves, ValidClaim, Owns, HasRecord, Attempted,
           OperationPlanWorker.ReportRefused, OperationPlanWorker.ClaimRefused, HS.ReserveVerdict, ExecutionDeadline,
           HS.AppendDecision, HS.Answer, BeginDecision, OperationPlanWorker.NotReported, OperationPlanWorker.Excused, DeferredFor;
      ghost var start := Now();
      var claimed := ClaimAttempt(target.binding, w.attemptId, w.now);
      if claimed.Err? { return None, NoAttempt, Some(AttemptBegin); }
      var c := claimed.value;
      ghost var middle := Now();
      ghost var was := Origin(FileOf(target.binding), history.Directory(), |history.log| + 1);
      claim := Some(c);
      if !w.expectation {
        var deferral := Deferral(ExpectationStage, Validation);
        step, failure := Defer(c, ChildUnavailable, deferral, w.now, target, w);
        OnlyOfBoth(KeyOf(target.binding), start, middle, Now());
        if failure.None? {
          QuotaDeferred(c, target, w, HS.ReserveVerdict(history.codec, history.maximum, was.directory, ClaimIdentity(c)), ChildUnavailable, deferral);
          DeferralExcused(c, ChildUnavailable, deferral, target, w, was);
        } else if attempts.faults == old(attempts.faults) {
          RefusalExcused(c, ChildUnavailable, deferral, failure, target, w, was);
        }
        return;
      }
      step, failure := Dispatch(c, target, w, was);
      OnlyOfBoth(KeyOf(target.binding), start, middle, Now());
    }

    /** Sends one summary, or only reads it back if it has been accepted before. The
        provider is never asked again, and nothing an attempt reported changes. */
    method DeliverOne(key: H.OperationKey, attemptId: string, generation: nat, now: int, lease: int, pushedAt: Option<int>,
                      readback: Option<(int, GatusResult)>) returns (r: Result<(), AttemptError>)
      requires Valid()
      modifies attempts
      ensures Valid() && attempts.Delivers(key, old(attempts.histories))
      ensures OnlyOf(key, old(Now()), Now())
      ensures r.Ok? ==> DeliveredAs(AS.AttemptAt(old(attempts.states), key, attemptId, generation),
                                    AS.AttemptAt(attempts.states, key, attemptId, generation), now, pushedAt, readback)
      ensures NotSentAgain(AS.AttemptAt(old(attempts.states), key, attemptId, generation),
                           AS.AttemptAt(attempts.states, key, attemptId, generation))
      ensures r.Err? && attempts.faults == old(attempts.faults)
              ==> NotDelivered(AS.Found(old(attempts.states), key), attemptId, generation, now, lease, pushedAt, readback)
    {
      hide OnlyOf, HI.Inv, H.WfCodec, AttemptInv, Coupled, H.ReadUsage, HI.Target, Evolves, AS.OnlyDelivered, DeliveryDecision,
           AcknowledgeDecision, ReadbackDecision, AS.Accepted, OperationPlanWorker.NotSent, OperationPlanWorker.SentFile,
           OperationPlanWorker.Rejects;
      attempts.DeliversNothing(key);
      ghost var before, start := attempts.histories, Now();
      OnlyOfNothing(key, start);
      if key !in attempts.states { return Err(Unavailable); }
      var ring := attempts.states[key].attempts;
      var i := Find(ring, attemptId, generation);
      if i == |ring| || ring[i].status != Observed || ring[i].result.None? { return Err(Unavailable); }
      if ring[i].delivery == NotApplicable || ring[i].delivery == ReadbackVerified { return Ok(()); }
      if ring[i].delivery != Acknowledged {
        r := Push(key, attemptId, generation, now, lease, pushedAt);
        DeliveredIsOnlyOf(key, start, Now());
        if r.Err? { return; }
      }
      ghost var middle := attempts.histories;
      if readback.None? { return Err(Unavailable); }
      r := ReadBack(key, attemptId, generation, readback.value.0, readback.value.1);
      DeliveredTwice(key, before, middle, attempts.histories);
      DeliveredIsOnlyOf(key, start, Now());
    }

    lemma CarriedRejects<T(!new)>(outcome: AttemptModel.Outcome<T>, r: Result<T, AttemptError>, before: map<H.OperationKey, State>,
                                  faultsBefore: nat)
      requires attempts.Carried(outcome, r, before, faultsBefore)
      ensures r.Err? && attempts.faults == faultsBefore ==> Rejects(outcome)
      ensures r.Ok? ==> !Rejects(outcome)
    {
      hide AS.OperationAttemptStore.Accepts;
    }

    lemma SendingSteps(found: Option<State>, attemptId: string, generation: nat, now: int, lease: int, pushedAt: Option<int>)
      ensures var sending := DeliveryDecision(found, attemptId, generation, now, lease);
              && (Rejects(sending) || pushedAt.None? ==> NotSent(found, attemptId, generation, now, lease, pushedAt))
              && (!Rejects(sending) && pushedAt.Some? ==>
                    var accepting := AcknowledgeDecision(Some(sending.next), sending.answer.value, pushedAt.value);
                    && (NotSent(found, attemptId, generation, now, lease, pushedAt) <==> Rejects(accepting))
                    && (!Rejects(accepting) ==> SentFile(found, attemptId, generation, now, lease, pushedAt) == Some(accepting.next)))
    {
      hide DeliveryDecision, AcknowledgeDecision, AS.OperationAttemptStore.Accepts;
    }

    /** Asks the monitor for the summary it has accepted, and records its answer. */
    method ReadBack(key: H.OperationKey, attemptId: string, generation: nat, at: int, result: GatusResult) returns (r: Result<(), AttemptError>)
      requires Valid()
      modifies attempts
      ensures Valid() && attempts.Delivers(key, old(attempts.histories))
      ensures var a := AS.AttemptAt(old(attempts.states), key, attemptId, generation);
              var b := AS.AttemptAt(attempts.states, key, attemptId, generation);
              && (r.Ok? ==> a.Some? && a.value.delivery == Acknowledged && a.value.deliveryAckAt <= at && b == Some(AS.ReadBack(a.value, at, result)))
              && (a == b || (a.Some? && b == Some(AS.ReadBack(a.value, at, result))))
      ensures attempts.faults >= old(attempts.faults)
      ensures r.Err? && attempts.faults == old(attempts.faults)
              ==> Rejects(ReadbackDecision(AS.Found(old(attempts.states), key), attemptId, generation, at, result))
    {
      hide HI.Inv, H.WfCodec, AttemptInv, Coupled, H.ReadUsage, HI.Target, Evolves, AS.OnlyDelivered, ReadbackDecision, AS.AttemptAt,
           OperationPlanWorker.Rejects;
      ghost var before, files, faultsBefore := attempts.histories, attempts.states, attempts.faults;
      r := attempts.RecordGatusReadback(key, attemptId, generation, at, result);
      CarriedRejects(ReadbackDecision(AS.Found(files, key), attemptId, generation, at, result), r, files, faultsBefore);
      DeliveryKeepsCoupling(key, before, attempts.histories, history.log, history.Directory(), ran);
      ghost var decision := ReadbackDecision(AS.Found(files, key), attemptId, generation, at, result);
      if decision.Update? { AS.ReadBackAt(files, key, attemptId, generation, at, result); }
      if r.Ok? { attempts.CarriedOk(decision, r, files, faultsBefore); }
      if r.Err? { r := Err(Unavailable); }
    }

    method Push(key: H.OperationKey, attemptId: string, generation: nat, now: int, lease: int, pushedAt: Option<int>)
      returns (r: Result<(), AttemptError>)
      requires Valid()
      modifies attempts
      ensures Valid() && attempts.Delivers(key, old(attempts.histories))
      ensures r.Ok? ==>
                var a := AS.AttemptAt(old(attempts.states), key, attemptId, generation);
                && a.Some? && pushedAt.Some?
                && AS.AttemptAt(attempts.states, key, attemptId, generation) == Some(AS.Accepted(StartDelivery(a.value, now), pushedAt.value))
      ensures attempts.faults >= old(attempts.faults)
      ensures var found := AS.Found(old(attempts.states), key);
              && (r.Err? && attempts.faults == old(attempts.faults) ==> NotSent(found, attemptId, generation, now, lease, pushedAt))
              && (r.Ok? && !NotSent(found, attemptId, generation, now, lease, pushedAt)
                  ==> AS.Found(attempts.states, key) == SentFile(found, attemptId, generation, now, lease, pushedAt))
    {
      hide HI.Inv, H.WfCodec, AttemptInv, Coupled, H.ReadUsage, HI.Target, Evolves, AS.OnlyDelivered, DeliveryDecision,
           AcknowledgeDecision, AS.AttemptAt, AS.Accepted, OperationPlanWorker.NotSent, OperationPlanWorker.SentFile,
           OperationPlanWorker.Rejects;
      ghost var before, files, faultsBefore := attempts.histories, attempts.states, attempts.faults;
      FiledAttempt(key, attemptId, generation);
      SendingSteps(AS.Found(files, key), attemptId, generation, now, lease, pushedAt);
      var claimed := attempts.ClaimDelivery(key, attemptId, generation, now, lease);
      CarriedRejects(DeliveryDecision(AS.Found(files, key), attemptId, generation, now, lease), claimed, files, faultsBefore);
      DeliveryKeepsCoupling(key, before, attempts.histories, history.log, history.Directory(), ran);
      if claimed.Err? { return Err(claimed.error); }
      attempts.CarriedOk(DeliveryDecision(AS.Found(files, key), attemptId, generation, now, lease), claimed, files, faultsBefore);
      AS.ClaimedAt(files, key, attemptId, generation, now, lease);
      if pushedAt.None? { return Err(Unavailable); }
      ghost var middle, filed, faultsMiddle := attempts.histories, attempts.states, attempts.faults;
      var acknowledged := attempts.AcknowledgeDelivery(claimed.value, pushedAt.value);
      CarriedRejects(AcknowledgeDecision(AS.Found(filed, key), claimed.value, pushedAt.value), acknowledged, filed, faultsMiddle);
      DeliveredTwice(key, before, middle, attempts.histories);
      DeliveryKeepsCoupling(key, middle, attempts.histories, history.log, history.Directory(), ran);
      if acknowledged.Ok? {
        attempts.CarriedOk(AcknowledgeDecision(AS.Found(filed, KeyOf(claimed.value.binding)), claimed.value, pushedAt.value), acknowledged, filed, faultsMiddle);
        AS.AcknowledgedAt(filed, claimed.value, pushedAt.value);
        AcknowledgedKey(filed, key, claimed.value, pushedAt.value);
      }
      r := if acknowledged.Err? then Err(Unavailable) else Ok(());
    }

    /** An operation's file holds attempts of that operation. */
    lemma FiledAttempt(key: H.OperationKey, attemptId: string, generation: nat)
      requires Valid()
      ensures var a := AS.AttemptAt(attempts.states, key, attemptId, generation); a.Some? ==> KeyOf(a.value.binding) == key
    {
      hide HI.Inv, H.WfCodec, Coupled, H.ReadUsage, HI.Target, Find;
      if AS.AttemptAt(attempts.states, key, attemptId, generation).Some? {
        AS.RingBindings(attempts.states[key], attempts.histories[key]);
      }
    }
  }

  /** What a successful delivery has made of the attempt. */
  predicate DeliveredAs(a: Option<Attempt>, b: Option<Attempt>, now: int, pushedAt: Option<int>, readback: Option<(int, GatusResult)>) {
    && a.Some?
    && if a.value.delivery == NotApplicable || a.value.delivery == ReadbackVerified then b == a
       else
         && readback.Some? && (a.value.delivery != Acknowledged ==> pushedAt.Some?)
         && var sent := if a.value.delivery == Acknowledged then a.value else AS.Accepted(StartDelivery(a.value, now), pushedAt.value);
            sent.deliveryAckAt <= readback.value.0 && b == Some(AS.ReadBack(sent, readback.value.0, readback.value.1))
  }

  /** A summary the monitor has accepted is not sent a second time, whatever happens. */
  predicate NotSentAgain(a: Option<Attempt>, b: Option<Attempt>) {
    a.Some? && a.value.delivery == Acknowledged ==>
      b.Some? && b.value.deliveryAttempts == a.value.deliveryAttempts && b.value.deliveryAckAt == a.value.deliveryAckAt
  }

  lemma DeliveredTwice(key: H.OperationKey, h1: Histories, h2: Histories, h3: Histories)
    requires AS.DeliveredOnly(key, h1, h2) && AS.DeliveredOnly(key, h2, h3)
    ensures AS.DeliveredOnly(key, h1, h3)
  {
    forall k | k in h1 ensures AS.OnlyDelivered(h1[k], h3[k]) {
      assert AS.OnlyDelivered(h1[k], h2[k]) && AS.OnlyDelivered(h2[k], h3[k]);
    }
  }

  lemma DeliveredIsOnlyOf(key: H.OperationKey, a: Shared, b: Shared)
    requires AS.DeliveredOnly(key, a.histories, b.histories) && b == a.(histories := b.histories)
    ensures OnlyOf(key, a, b)
  {
    hide AS.OnlyDelivered;
  }

  lemma DeliveryKeepsCoupling(key: H.OperationKey, before: Histories, after: Histories, log: seq<H.AckRef>, d: H.Disk,
                              ran: set<H.Identity>)
    requires Coupled(before, log, d, ran) && AS.DeliveredOnly(key, before, after)
    ensures Coupled(after, log, d, ran)
  {
    forall id | Attempted(before, id) ensures Attempted(after, id) {
      var k := H.KeyOf(id);
      var i :| 0 <= i < |AS.HistoryIn(before, k)| && AttemptIdentity(AS.HistoryIn(before, k)[i]) == id;
      assert AS.OnlyDelivered(before[k], after[k]);
      assert AttemptIdentity(AS.HistoryIn(after, k)[i]) == id;
    }
    forall k, i | k in after && 0 <= i < |after[k]| ensures Backed(after[k][i], log) {
      assert AS.OnlyDelivered(before[k], after[k]);
      assert Backed(before[k][i], log);
    }
    hide Attempted, Backed;
  }

  lemma BlankClaim(s: State, h: seq<Attempt>, c: Claim)
    requires AttemptInv(s, h) && |h| > 0 && Owns(c, h[|h| - 1])
    ensures h[|h| - 1].result.None? && h[|h| - 1].startedAt == c.startedAt
  {
    InvParts(s, h);
    hide AttemptInv;
    assert ValidAttempt(h[|h| - 1], s.key);
  }

  lemma ReceiptStep(r: Receipt, observationOnly: bool, startedAt: int)
    requires ValidReceipt(r, observationOnly, startedAt)
    ensures StepOf(if !r.requestStarted then AttemptBlocked else if r.observedAt == 0 then AttemptStarted else AttemptObserved, r)
  {}

  lemma AcknowledgedKey(before: map<H.OperationKey, State>, key: H.OperationKey, claim: DeliveryClaim, at: int)
    requires key in before && before[key].key == key && AcknowledgeDecision(AS.Found(before, key), claim, at).Update?
    ensures AcknowledgeDecision(AS.Found(before, key), claim, at).next.key == key
  {
    hide Find, ValidDeliveryClaim;
  }

  lemma ReservedToken(d: H.Disk, id: H.Identity, r: H.Reservation)
    ensures id in HP.WithReservation(d, id, r).reservations && HP.WithReservation(d, id, r).reservations[id] == r
  {}

  lemma BeginKey(found: Option<State>, binding: Binding, attemptId: string, now: int, lease: int)
    requires found.Some? ==> found.value.key == KeyOf(binding)
    ensures var outcome := BeginDecision(found, binding, attemptId, now, lease); outcome.Update? ==> outcome.next.key == KeyOf(binding)
  {
    hide ValidBinding, Due, Keeps;
  }

  lemma CoupledParts(histories: Histories, log: seq<H.AckRef>, d: H.Disk, ran: set<H.Identity>)
    requires Coupled(histories, log, d, ran)
    ensures RecordsAttempted(histories, log)
  {}

  lemma HoldsIsLast(histories: Histories, s: State, c: Claim)
    requires s.key == KeyOf(c.binding) && AttemptInv(s, AS.HistoryIn(histories, s.key))
    requires Owns(c, AS.HistoryIn(histories, s.key)[|AS.HistoryIn(histories, s.key)| - 1])
    ensures |s.attempts| > 0 && AttemptIdentity(Last(s.attempts)) == ClaimIdentity(c)
    ensures Attempted(histories, ClaimIdentity(c))
  {
    var h := AS.HistoryIn(histories, s.key);
    InvParts(s, h);
    assert AttemptIdentity(h[|h| - 1]) == ClaimIdentity(c);
    hide AttemptInv;
  }

  lemma StoresRecord(c: H.Codec, d: H.Disk, grant: H.Grant, record: H.Record, now: int, next: nat)
    ensures var decision := HS.AppendDecision(c, d, grant, record, now, next);
            decision.Store? ==> decision.stored.record == record && record.identity !in d.records
  {}

  /** An append touches no reservation but that of its record. */
  lemma AppendedReservations(c: H.Codec, d: H.Disk, log: seq<H.AckRef>, grant: H.Grant, record: H.Record, now: int)
    ensures var decision := HS.AppendDecision(c, d, grant, record, now, |log| + 1);
            decision.Store? ==> HP.Appended(c, d, decision.stored).reservations.Keys - {record.identity}
                                == d.reservations.Keys - {record.identity}
  {}

  lemma AcceptedIsLogged(log: seq<H.AckRef>, r: H.RecordRef)
    requires HS.Accepted(log, r)
    ensures Logged(log, HistoryRef(r.id, r.sha)) && HasRecord(log, r.id)
  {
    var s :| 0 < s <= |log| && HI.At(log, s).id == r.id && HI.At(log, s).sha == r.sha && HI.At(log, s).appendedAt == r.appendedAt;
    assert HI.At(log, s).id == r.id;
  }
}
