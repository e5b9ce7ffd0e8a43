/** What every reachable attempt file keeps, stated against the whole unbounded
    history of the operation's attempts, of which the file holds the end. */
module AttemptHistory {
  import opened Foundations
  import H = HistoryModel
  import opened AttemptModel

  // ---------------------------------------------------------------------
  // The invariant
  // ---------------------------------------------------------------------

  predicate Tracks(attempts: seq<Attempt>, h: seq<Attempt>) {
    |attempts| <= |h| && attempts == h[|h| - |attempts|..]
  }

  predicate OnlyLastClaimed(h: seq<Attempt>) { forall i :: 0 <= i < |h| - 1 ==> h[i].status != Claimed }

  predicate Untouched(a: Attempt) { a.deliveryAttempts == 0 && a.deliveryStartedAt == 0 && a.deliveryAckAt == 0 }

  /** Every try of a delivery has had its own generation, and none came before the
      delivery was marked as begun; the file format does not say so. */
  predicate Counted(a: Attempt) {
    a.deliveryGeneration == a.deliveryAttempts && (a.delivery == NotReady ==> Untouched(a))
  }

  predicate AllCounted(h: seq<Attempt>) { forall i :: 0 <= i < |h| ==> Counted(h[i]) }

  predicate AllValid(h: seq<Attempt>, key: H.OperationKey) { forall i :: 0 <= i < |h| ==> ValidAttempt(h[i], key) }

  predicate Started(a: Attempt) { a.requestStarted == Some(true) }

  predicate SomeStarted(h: seq<Attempt>) { exists i :: 0 <= i < |h| && Started(h[i]) }

  /** The attempts from `i` on all belong to the given plan. */
  predicate SamePlanFrom(h: seq<Attempt>, i: nat, plan: Plan) { forall j :: i <= j < |h| ==> PlanOf(h[j].binding) == plan }

  /** Some attempt of the unbroken run of attempts under the given plan started a request. */
  predicate SomeStartedUnder(h: seq<Attempt>, plan: Plan) {
    exists i :: 0 <= i < |h| && Started(h[i]) && SamePlanFrom(h, i, plan)
  }

  /** Summaries are delivered in order: behind an undelivered one nothing is under way. */
  predicate DeliveredInOrder(h: seq<Attempt>) {
    forall i, j :: 0 <= i < j < |h| && Undelivered(h[i]) ==> h[j].delivery in {NotReady, NotApplicable}
  }

  /** Nothing that still matters has left the ring. */
  predicate EvictedSafely(h: seq<Attempt>, kept: nat) { forall i :: 0 <= i < |h| - kept ==> !Keeps(h[i]) }

  /** Later attempts start later; and after an attempt that may have made a request, no
      sooner than its observation period. */
  predicate Spaced(h: seq<Attempt>) {
    forall i, j :: 0 <= i < j < |h| ==>
      && h[i].startedAt < h[j].startedAt
      && (!ProvenDrain(h[i]) ==> h[j].startedAt >= h[i].startedAt + h[i].binding.period)
  }

  predicate AttemptInv(s: State, h: seq<Attempt>) {
    && ValidState(s, s.key)
    && Tracks(s.attempts, h)
    && OnlyLastClaimed(h)
    && AllCounted(h)
    && AllValid(h, s.key)
    && GenerationsOrdered(h, s.generation)
    && (s.everRequestStarted <==> SomeStarted(h))
    && (s.currentPlanEverRequestStarted <==> SomeStartedUnder(h, s.currentPlan))
    && DeliveredInOrder(h)
    && EvictedSafely(h, |s.attempts|)
    && Spaced(h)
  }

  // ---------------------------------------------------------------------
  // What may happen to one attempt
  // ---------------------------------------------------------------------

  function Rank(d: DeliveryStatus): nat {
    match d
    case NotReady => 0
    case Pending => 1
    case Acknowledged => 2
    case ReadbackVerified => 3
    case NotApplicable => 3
  }

  /** The fields a finished attempt never changes again. */
  predicate SameOutcome(a: Attempt, b: Attempt) {
    && a.status == b.status && a.finishedAt == b.finishedAt && a.receiptValidated == b.receiptValidated
    && a.receiptSha == b.receiptSha && a.requestStarted == b.requestStarted && a.blockReason == b.blockReason
    && a.deferral == b.deferral && a.result == b.result
  }

  /** One terminal transition, then deliveries, then one acknowledgement, then one readback. */
  predicate EvolvesTo(a: Attempt, b: Attempt) {
    && a.binding == b.binding && a.attemptId == b.attemptId && a.generation == b.generation
    && a.startedAt == b.startedAt && a.leaseExpiresAt == b.leaseExpiresAt
    && (a.status != Claimed ==> SameOutcome(a, b) && Rank(a.delivery) <= Rank(b.delivery)
                                && a.deliveryAttempts <= b.deliveryAttempts)
    && (a.status != Claimed && Rank(a.delivery) >= 2 ==> b.deliveryAckAt == a.deliveryAckAt)
    && (a.status != Claimed && Rank(a.delivery) == 3 ==> b == a)
  }

  predicate Evolves(h: seq<Attempt>, later: seq<Attempt>) {
    |h| <= |later| && forall i :: 0 <= i < |h| ==> EvolvesTo(h[i], later[i])
  }

  lemma EvolvesReflexive(h: seq<Attempt>)
    ensures Evolves(h, h)
  {}

  /** So a claim is finished at most once, and delivery acknowledged at most once, over any run. */
  lemma EvolvesTransitive(h1: seq<Attempt>, h2: seq<Attempt>, h3: seq<Attempt>)
    requires Evolves(h1, h2) && Evolves(h2, h3)
    ensures Evolves(h1, h3)
  {
    forall i | 0 <= i < |h1| ensures EvolvesTo(h1[i], h3[i]) {
      assert EvolvesTo(h1[i], h2[i]) && EvolvesTo(h2[i], h3[i]);
    }
  }

  // ---------------------------------------------------------------------
  // Changing one attempt of the ring
  // ---------------------------------------------------------------------

  function At(s: State, h: seq<Attempt>, i: nat): int { |h| - |s.attempts| + i }

  /** The history after one attempt of the ring has changed. */
  function Changed(s: State, h: seq<Attempt>, i: nat, a: Attempt): seq<Attempt>
    requires Tracks(s.attempts, h) && i < |s.attempts|
  {
    h[At(s, h, i) := a]
  }

  lemma ChangedTracks(s: State, h: seq<Attempt>, i: nat, a: Attempt)
    requires Tracks(s.attempts, h) && i < |s.attempts|
    ensures Tracks(s.attempts[i := a], Changed(s, h, i, a))
    ensures h[At(s, h, i)] == s.attempts[i]
  {}

  // ---------------------------------------------------------------------
  // Reports on a claim
  // ---------------------------------------------------------------------

  /** A report is written exactly if the clock has not gone back behind the claim's
      start and, for a result in time, the result's own times lie in the window. */
  predicate ReportFits(a: Attempt, r: Report, now: int) {
    && now >= a.startedAt
    && (r.Result? && now < a.leaseExpiresAt ==> InWindow(a, r.observation, now))
  }

  lemma ReportedValidIff(a: Attempt, r: Report, now: int, key: H.OperationKey)
    requires ValidAttempt(a, key) && a.status == Claimed && Counted(a) && ValidReport(r) && now > 0
    ensures ValidAttempt(Reported(a, r, now).0, key) <==> ReportFits(a, r, now)
  {}

  lemma ReportedEvolves(a: Attempt, r: Report, now: int, key: H.OperationKey)
    requires ValidAttempt(a, key) && a.status == Claimed
    ensures EvolvesTo(a, Reported(a, r, now).0) && Reported(a, r, now).0.status != Claimed
    ensures Reported(a, r, now).0.delivery in {NotReady, NotApplicable}
    ensures Started(Reported(a, r, now).0) <==> RecordsStart(a, r, now)
    ensures Undelivered(Reported(a, r, now).0) ==> Reported(a, r, now).0.delivery == NotReady
  {}

  // ---------------------------------------------------------------------
  // Every component of the invariant under a change of one attempt
  // ---------------------------------------------------------------------

  lemma StartedSome(h: seq<Attempt>, k: nat, a: Attempt)
    requires k < |h| && (Started(h[k]) ==> Started(a))
    ensures SomeStarted(h[k := a]) <==> SomeStarted(h) || Started(a)
  {
    var later := h[k := a];
    if SomeStarted(h) {
      var i :| 0 <= i < |h| && Started(h[i]);
      assert Started(later[i]);
    }
    if Started(a) { assert Started(later[k]); }
    if SomeStarted(later) {
      var i :| 0 <= i < |later| && Started(later[i]);
      assert i != k ==> Started(h[i]);
    }
  }

  lemma StartedUnder(h: seq<Attempt>, k: nat, a: Attempt, plan: Plan)
    requires k < |h| && (Started(h[k]) ==> Started(a)) && a.binding == h[k].binding
    ensures SomeStartedUnder(h[k := a], plan) <==> SomeStartedUnder(h, plan) || (Started(a) && SamePlanFrom(h, k, plan))
  {
    var later := h[k := a];
    forall i: nat | i < |h| ensures SamePlanFrom(later, i, plan) <==> SamePlanFrom(h, i, plan) {
      if SamePlanFrom(h, i, plan) {
        forall j | i <= j < |later| ensures PlanOf(later[j].binding) == plan { assert PlanOf(h[j].binding) == plan; }
      }
      if SamePlanFrom(later, i, plan) {
        forall j | i <= j < |h| ensures PlanOf(h[j].binding) == plan { assert PlanOf(later[j].binding) == plan; }
      }
    }
    if SomeStartedUnder(h, plan) {
      var i :| 0 <= i < |h| && Started(h[i]) && SamePlanFrom(h, i, plan);
      assert Started(later[i]);
    }
    if Started(a) && SamePlanFrom(h, k, plan) { assert Started(later[k]); }
    if SomeStartedUnder(later, plan) {
      var i :| 0 <= i < |later| && Started(later[i]) && SamePlanFrom(later, i, plan);
      assert i != k ==> Started(h[i]);
    }
  }

  /** What a change of one attempt has to satisfy for the invariant's unordered parts. */
  predicate Harmless(claimed: Attempt, a: Attempt, key: H.OperationKey) {
    && ValidAttempt(a, key) && Counted(a)
    && a.binding == claimed.binding && a.generation == claimed.generation && a.startedAt == claimed.startedAt
    && a.status != Claimed
    && (Started(claimed) ==> Started(a))
    && (claimed.status != Claimed ==> (ProvenDrain(a) <==> ProvenDrain(claimed)) && (Keeps(a) ==> Keeps(claimed)))
  }

  lemma ChangeKeepsParts(h: seq<Attempt>, k: nat, a: Attempt, key: H.OperationKey, kept: nat, generation: nat)
    requires k < |h| && Harmless(h[k], a, key) && |h| - kept <= k
    requires OnlyLastClaimed(h) && AllCounted(h) && AllValid(h, key) && EvictedSafely(h, kept)
    requires GenerationsOrdered(h, generation)
    requires Spaced(h)
    ensures var later := h[k := a];
            && OnlyLastClaimed(later) && AllCounted(later) && AllValid(later, key) && EvictedSafely(later, kept)
            && GenerationsOrdered(later, generation + 1) && Spaced(later)
  {
    hide ValidAttempt, ProvenDrain, Keeps;
  }

  lemma RingOfHistory(s: State, h: seq<Attempt>, key: H.OperationKey)
    requires Tracks(s.attempts, h) && |s.attempts| > 0
    requires AllValid(h, key) && GenerationsOrdered(h, s.generation)
    ensures Last(s.attempts) == h[|h| - 1]
    ensures GenerationsOrdered(s.attempts, s.generation)
    ensures forall i :: 0 <= i < |s.attempts| ==> s.attempts[i] == h[At(s, h, i)] && ValidAttempt(s.attempts[i], key)
  {
    hide ValidAttempt;
    forall i | 0 <= i < |s.attempts| ensures s.attempts[i] == h[At(s, h, i)] && ValidAttempt(s.attempts[i], key) {}
    forall i, j | 0 <= i < j < |s.attempts| ensures s.attempts[i].generation < s.attempts[j].generation {
      assert s.attempts[i] == h[At(s, h, i)] && s.attempts[j] == h[At(s, h, j)];
    }
  }

  /** A change of one attempt keeps the invariant if it is harmless, in order, and the
      state's flags say what they should about it. */
  lemma ReplaceKeeps(s: State, h: seq<Attempt>, i: nat, a: Attempt, next: State)
    requires AttemptInv(s, h) && i < |s.attempts|
    requires Harmless(s.attempts[i], a, s.key)
    requires next == WithAttempt(s, i, a).(everRequestStarted := next.everRequestStarted,
                                           currentPlanEverRequestStarted := next.currentPlanEverRequestStarted)
    requires next.everRequestStarted <==> s.everRequestStarted || Started(a)
    requires next.currentPlanEverRequestStarted
             <==> s.currentPlanEverRequestStarted || (Started(a) && SamePlanFrom(h, At(s, h, i), s.currentPlan))
    requires DeliveredInOrder(Changed(s, h, i, a))
    requires EvolvesTo(s.attempts[i], a)
    ensures AttemptInv(next, Changed(s, h, i, a)) && Evolves(h, Changed(s, h, i, a))
  {
    hide AttemptInv, ValidState, Harmless, AllValid, GenerationsOrdered, Spaced, OnlyLastClaimed, AllCounted,
         EvictedSafely, DeliveredInOrder, SomeStarted, SomeStartedUnder, SamePlanFrom, Started, EvolvesTo;
    var k := At(s, h, i);
    InvParts(s, h);
    var later := Changed(s, h, i, a);
    ChangedTracks(s, h, i, a);
    HarmlessParts(h[k], a, s.key);
    ChangeKeepsParts(h, k, a, s.key, |s.attempts|, s.generation);
    StartedSome(h, k, a);
    StartedUnder(h, k, a, s.currentPlan);
    assert later[|later| - 1].binding == h[|h| - 1].binding;
    ReplacedState(next, later);
    OneEvolves(h, k, a);
  }

  lemma HarmlessParts(claimed: Attempt, a: Attempt, key: H.OperationKey)
    requires Harmless(claimed, a, key)
    ensures a.binding == claimed.binding && (Started(claimed) ==> Started(a))
  {}

  lemma OneEvolves(h: seq<Attempt>, k: nat, a: Attempt)
    requires k < |h| && EvolvesTo(h[k], a)
    ensures Evolves(h, h[k := a])
  {
    EvolvesReflexive(h);
    hide EvolvesTo;
  }

  lemma InvParts(s: State, h: seq<Attempt>)
    requires AttemptInv(s, h)
    ensures 0 < |s.attempts| <= RING && s.currentPlan == PlanOf(h[|h| - 1].binding) && s.generation > 0
    ensures Tracks(s.attempts, h) && OnlyLastClaimed(h) && AllCounted(h) && AllValid(h, s.key)
    ensures GenerationsOrdered(h, s.generation) && DeliveredInOrder(h) && EvictedSafely(h, |s.attempts|) && Spaced(h)
    ensures s.everRequestStarted <==> SomeStarted(h)
    ensures s.currentPlanEverRequestStarted <==> SomeStartedUnder(h, s.currentPlan)
    ensures Last(s.attempts) == h[|h| - 1]
    ensures ValidState(s, s.key)
  {}

  /** The flags of a state follow from what its history says about them. */
  lemma ReplacedState(next: State, later: seq<Attempt>)
    requires 0 < |next.attempts| <= RING && Tracks(next.attempts, later)
    requires next.currentPlan == PlanOf(later[|later| - 1].binding) && next.generation > 0
    requires OnlyLastClaimed(later) && AllCounted(later) && AllValid(later, next.key)
    requires GenerationsOrdered(later, next.generation) && DeliveredInOrder(later)
    requires EvictedSafely(later, |next.attempts|) && Spaced(later)
    requires next.everRequestStarted <==> SomeStarted(later)
    requires next.currentPlanEverRequestStarted <==> SomeStartedUnder(later, next.currentPlan)
    ensures AttemptInv(next, later)
  {
    RingOfHistory(next, later, next.key);
    hide OnlyLastClaimed, AllCounted, AllValid, ValidAttempt, DeliveredInOrder, EvictedSafely, Spaced,
         GenerationsOrdered;
    if Started(Last(next.attempts)) {
      assert SamePlanFrom(later, |later| - 1, next.currentPlan);
      assert SomeStartedUnder(later, next.currentPlan);
    }
    if SomeStartedUnder(later, next.currentPlan) { assert SomeStarted(later); }
    forall i | 0 <= i < |next.attempts| && next.attempts[i].requestStarted == Some(true) ensures next.everRequestStarted {
      assert Started(later[At(next, later, i)]);
    }
    hide SomeStartedUnder, SomeStarted;
  }

  // ---------------------------------------------------------------------
  // Claiming
  // ---------------------------------------------------------------------

  lemma ExpireKeeps(s: State, h: seq<Attempt>, now: int)
    requires AttemptInv(s, h) && Last(s.attempts).status == Claimed && now >= Last(s.attempts).leaseExpiresAt
    ensures var i := |s.attempts| - 1;
            var a := Expire(s.attempts[i], now);
            AttemptInv(WithAttempt(s, i, a), Changed(s, h, i, a)) && Evolves(h, Changed(s, h, i, a))
  {
    var i := |s.attempts| - 1;
    var a := Expire(s.attempts[i], now);
    InvParts(s, h);
    RingOfHistory(s, h, s.key);
    hide AttemptInv, ValidState, AllValid, GenerationsOrdered, Spaced, OnlyLastClaimed, AllCounted, EvictedSafely,
         SomeStarted, SomeStartedUnder, SamePlanFrom;
    assert DeliveredInOrder(Changed(s, h, i, a));
    hide DeliveredInOrder;
    ReplaceKeeps(s, h, i, a, WithAttempt(s, i, a));
  }

  /** The new attempt starts after every earlier one, by its period unless that one
      provably made no request. */
  lemma SpacedMore(h: seq<Attempt>, c: Attempt, key: H.OperationKey)
    requires Spaced(h) && AllValid(h, key)
    requires |h| > 0 ==> Due(h[|h| - 1], c.binding, c.startedAt)
    ensures Spaced(h + [c])
  {
    var later := h + [c];
    if |h| > 0 {
      var last := h[|h| - 1];
      assert ValidAttempt(last, key);
      assert last.startedAt < c.startedAt && (!ProvenDrain(last) ==> c.startedAt >= last.startedAt + last.binding.period);
      forall i, j | 0 <= i < j < |later|
        ensures later[i].startedAt < later[j].startedAt
                && (!ProvenDrain(later[i]) ==> later[j].startedAt >= later[i].startedAt + later[i].binding.period)
      {
        if j == |h| && i < |h| - 1 { assert h[i].startedAt < last.startedAt; }
      }
    }
  }

  lemma StartedMore(h: seq<Attempt>, c: Attempt)
    requires !Started(c)
    ensures SomeStarted(h + [c]) <==> SomeStarted(h)
    ensures SomeStartedUnder(h + [c], PlanOf(c.binding)) <==> SomeStartedUnder(h, PlanOf(c.binding))
  {
    var later, plan := h + [c], PlanOf(c.binding);
    forall i: nat | i < |h| ensures SamePlanFrom(later, i, plan) <==> SamePlanFrom(h, i, plan) {
      if SamePlanFrom(h, i, plan) {
        forall j | i <= j < |later| ensures PlanOf(later[j].binding) == plan {
          if j < |h| { assert PlanOf(h[j].binding) == plan; }
        }
      }
      if SamePlanFrom(later, i, plan) {
        forall j | i <= j < |h| ensures PlanOf(h[j].binding) == plan { assert PlanOf(later[j].binding) == plan; }
      }
    }
    if SomeStarted(h) {
      var i :| 0 <= i < |h| && Started(h[i]);
      assert Started(later[i]);
    }
    if SomeStartedUnder(h, plan) {
      var i :| 0 <= i < |h| && Started(h[i]) && SamePlanFrom(h, i, plan);
      assert Started(later[i]);
    }
    if SomeStarted(later) {
      var i :| 0 <= i < |later| && Started(later[i]);
      assert Started(h[i]);
    }
    if SomeStartedUnder(later, plan) {
      var i :| 0 <= i < |later| && Started(later[i]) && SamePlanFrom(later, i, plan);
      assert Started(h[i]);
    }
  }

  lemma OtherPlan(h: seq<Attempt>, plan: Plan)
    requires |h| > 0 && PlanOf(h[|h| - 1].binding) != plan
    ensures !SomeStartedUnder(h, plan)
  {
    forall i: nat | i < |h| ensures !SamePlanFrom(h, i, plan) {
      assert PlanOf(h[|h| - 1].binding) != plan;
    }
  }

  /** The history after a claim has been written: all of it, whatever left the ring. */
  function WithClaim(s: State, h: seq<Attempt>, binding: Binding, attemptId: string, now: int, lease: int): seq<Attempt> {
    h + [ClaimedAttempt(binding, attemptId, s.generation + 1, now, lease)]
  }

  predicate MayClaim(s: State, h: seq<Attempt>, binding: Binding, now: int) {
    (h == [] && s == EmptyState(KeyOf(binding)))
    || (AttemptInv(s, h) && Last(s.attempts).status != Claimed && Due(Last(s.attempts), binding, now)
        && (|s.attempts| >= RING ==> !Keeps(s.attempts[0])))
  }

  lemma RoomTracks(s: State, h: seq<Attempt>, c: Attempt)
    requires Tracks(s.attempts, h) && |s.attempts| <= RING
    ensures Tracks(Room(s.attempts) + [c], h + [c]) && 0 < |Room(s.attempts) + [c]| <= RING
  {}

  lemma RoomEvicts(s: State, h: seq<Attempt>, c: Attempt)
    requires Tracks(s.attempts, h) && |s.attempts| <= RING && EvictedSafely(h, |s.attempts|)
    requires |s.attempts| >= RING ==> !Keeps(s.attempts[0])
    ensures EvictedSafely(h + [c], |Room(s.attempts) + [c]|)
  {
    hide Keeps;
    var kept := |Room(s.attempts) + [c]|;
    forall i | 0 <= i < |h + [c]| - kept ensures !Keeps((h + [c])[i]) {
      if i == |h| - |s.attempts| { assert h[i] == s.attempts[0]; }
    }
  }

  lemma AppendParts(h: seq<Attempt>, c: Attempt, key: H.OperationKey, generation: nat)
    requires OnlyLastClaimed(h) && (|h| > 0 ==> h[|h| - 1].status != Claimed)
    requires AllCounted(h) && AllValid(h, key) && GenerationsOrdered(h, generation) && DeliveredInOrder(h)
    requires ValidAttempt(c, key) && Counted(c) && c.delivery == NotReady && c.generation == generation + 1
    ensures OnlyLastClaimed(h + [c]) && AllCounted(h + [c]) && AllValid(h + [c], key)
    ensures GenerationsOrdered(h + [c], generation + 1) && DeliveredInOrder(h + [c])
  {
    hide ValidAttempt, Undelivered, Counted;
  }

  lemma ClaimedIsValid(binding: Binding, attemptId: string, generation: nat, now: int, lease: int)
    requires ValidBinding(binding) && attemptId != "" && now > 0 && SECOND <= lease <= MAX_LEASE
    ensures var c := ClaimedAttempt(binding, attemptId, generation, now, lease);
            ValidAttempt(c, KeyOf(binding)) && Counted(c) && !Started(c)
  {}

  lemma MayClaimParts(s: State, h: seq<Attempt>, binding: Binding, now: int)
    requires MayClaim(s, h, binding, now) && s.key == KeyOf(binding)
    ensures Tracks(s.attempts, h) && |s.attempts| <= RING && EvictedSafely(h, |s.attempts|)
    ensures |s.attempts| >= RING ==> !Keeps(s.attempts[0])
    ensures OnlyLastClaimed(h) && (|h| > 0 ==> h[|h| - 1].status != Claimed)
    ensures AllCounted(h) && AllValid(h, s.key) && GenerationsOrdered(h, s.generation) && DeliveredInOrder(h)
    ensures Spaced(h) && (|h| > 0 ==> Due(h[|h| - 1], binding, now))
    ensures s.everRequestStarted <==> SomeStarted(h)
    ensures s.currentPlanEverRequestStarted <==> SomeStartedUnder(h, s.currentPlan)
    ensures |h| > 0 ==> s.currentPlan == PlanOf(h[|h| - 1].binding)
  {
    if h != [] {
      assert AttemptInv(s, h);
      InvParts(s, h);
    }
    hide AttemptInv, ValidAttempt, Due, Keeps, PlanOf, Undelivered, ProvenDrain;
  }

  lemma BeginKeeps(s: State, h: seq<Attempt>, binding: Binding, attemptId: string, now: int, lease: int)
    requires MayClaim(s, h, binding, now) && s.key == KeyOf(binding)
    requires ValidBinding(binding) && attemptId != "" && now > 0 && SECOND <= lease <= MAX_LEASE
    ensures AttemptInv(BeginState(s, binding, attemptId, now, lease), WithClaim(s, h, binding, attemptId, now, lease))
    ensures Evolves(h, WithClaim(s, h, binding, attemptId, now, lease))
  {
    hide AttemptInv, MayClaim, ValidState, ValidAttempt, AllValid, GenerationsOrdered, Spaced, OnlyLastClaimed,
         AllCounted, EvictedSafely, DeliveredInOrder, SomeStarted, SomeStartedUnder, SamePlanFrom, Started, EvolvesTo,
         Due, Keeps, ValidBinding, Tracks, Room;
    var c := ClaimedAttempt(binding, attemptId, s.generation + 1, now, lease);
    var next := BeginState(s, binding, attemptId, now, lease);
    MayClaimParts(s, h, binding, now);
    ClaimedIsValid(binding, attemptId, s.generation + 1, now, lease);
    RoomTracks(s, h, c);
    RoomEvicts(s, h, c);
    AppendParts(h, c, s.key, s.generation);
    SpacedMore(h, c, s.key);
    StartedMore(h, c);
    if |h| > 0 && s.currentPlan != PlanOf(binding) { OtherPlan(h, PlanOf(binding)); }
    if |h| == 0 { NoneStarted(PlanOf(binding)); }
    ReplacedState(next, h + [c]);
    PrefixEvolves(h, c);
  }

  lemma NoneStarted(plan: Plan)
    ensures !SomeStartedUnder([], plan) && !SomeStarted([])
  {}

  lemma PrefixEvolves(h: seq<Attempt>, c: Attempt)
    ensures Evolves(h, h + [c])
  {
    EvolvesReflexive(h);
    hide EvolvesTo;
  }

  // ---------------------------------------------------------------------
  // Completing
  // ---------------------------------------------------------------------

  /** Only the last attempt can be claimed, so only that one can be completed. */
  lemma OwnedIsLast(s: State, h: seq<Attempt>, i: nat)
    requires AttemptInv(s, h) && i < |s.attempts| && s.attempts[i].status == Claimed
    ensures i == |s.attempts| - 1 && At(s, h, i) == |h| - 1
    ensures ValidAttempt(s.attempts[i], s.key) && Counted(s.attempts[i])
    ensures PlanOf(s.attempts[i].binding) == s.currentPlan && !Started(s.attempts[i])
  {
    InvParts(s, h);
    RingOfHistory(s, h, s.key);
    hide AttemptInv, ValidState, AllValid, GenerationsOrdered, Spaced, EvictedSafely, DeliveredInOrder, SomeStarted,
         SomeStartedUnder, SamePlanFrom, ValidBinding;
  }

  /** Every report on a claim either leads to a state the store accepts and that keeps
      the invariant, or to one it refuses to write; the two cases are told apart by
      the clock and, for results, their window. */
  lemma CompleteKeeps(s: State, h: seq<Attempt>, i: nat, r: Report, now: int)
    requires AttemptInv(s, h) && i < |s.attempts| && s.attempts[i].status == Claimed
    requires ValidReport(r) && now > 0
    ensures var a := Reported(s.attempts[i], r, now).0;
            && (ReportFits(s.attempts[i], r, now)
                ==> AttemptInv(AfterReport(s, i, r, now), Changed(s, h, i, a)) && Evolves(h, Changed(s, h, i, a)))
            && (ValidState(AfterReport(s, i, r, now), s.key) <==> ReportFits(s.attempts[i], r, now))
  {
    var claimed := s.attempts[i];
    var a := Reported(claimed, r, now).0;
    hide AttemptInv, ValidState, AllValid, GenerationsOrdered, Spaced, OnlyLastClaimed, AllCounted, EvictedSafely,
         DeliveredInOrder, SomeStarted, SomeStartedUnder, ValidAttempt, ReportFits, EvolvesTo, ValidReport, Reported;
    OwnedIsLast(s, h, i);
    ReportedValidIff(claimed, r, now, s.key);
    ReportedEvolves(claimed, r, now, s.key);
    if ReportFits(claimed, r, now) {
      CompletedInOrder(s, h, i, a);
      ReportedHarmless(claimed, r, now, s.key);
      InvParts(s, h);
      PlanIsCurrent(h, s.currentPlan);
      ReplaceKeeps(s, h, i, a, AfterReport(s, i, r, now));
      InvParts(AfterReport(s, i, r, now), Changed(s, h, i, a));
    } else {
      InvalidAttempt(AfterReport(s, i, r, now), i, s.key);
    }
  }

  lemma PlanIsCurrent(h: seq<Attempt>, plan: Plan)
    requires |h| > 0 && plan == PlanOf(h[|h| - 1].binding)
    ensures SamePlanFrom(h, |h| - 1, plan)
  {}

  lemma InvalidAttempt(s: State, i: nat, key: H.OperationKey)
    requires i < |s.attempts| && !ValidAttempt(s.attempts[i], key)
    ensures !ValidState(s, key)
  {
    hide ValidAttempt, GenerationsOrdered;
  }

  lemma ReportedHarmless(a: Attempt, r: Report, now: int, key: H.OperationKey)
    requires a.status == Claimed && ValidAttempt(a, key) && Counted(a) && ValidAttempt(Reported(a, r, now).0, key)
    ensures Harmless(a, Reported(a, r, now).0, key)
  {
    ReportedEvolves(a, r, now, key);
    hide ValidAttempt, Reported;
  }

  lemma CompletedInOrder(s: State, h: seq<Attempt>, i: nat, a: Attempt)
    requires AttemptInv(s, h) && i == |s.attempts| - 1 && a.delivery in {NotReady, NotApplicable}
    ensures Tracks(s.attempts, h) && DeliveredInOrder(Changed(s, h, i, a))
  {
    InvParts(s, h);
    hide AttemptInv, ValidState, Undelivered;
  }

  // ---------------------------------------------------------------------
  // Delivering
  // ---------------------------------------------------------------------

  /** No attempt before this one still waits for its summary, not even one that has
      left the ring. */
  lemma NothingBefore(s: State, h: seq<Attempt>, i: nat)
    requires AttemptInv(s, h) && i < |s.attempts|
    requires forall j :: 0 <= j < i ==> !Undelivered(s.attempts[j])
    ensures forall k :: 0 <= k < At(s, h, i) ==> !Undelivered(h[k])
  {
    InvParts(s, h);
    hide AttemptInv, ValidState;
    forall k | 0 <= k < At(s, h, i) ensures !Undelivered(h[k]) {
      if k < |h| - |s.attempts| {
        assert !Keeps(h[k]);
      } else {
        assert h[k] == s.attempts[k - (|h| - |s.attempts|)];
      }
    }
  }

  /** Behind an attempt whose summary is under way, every earlier one is done. */
  lemma NothingBeforePending(s: State, h: seq<Attempt>, i: nat)
    requires AttemptInv(s, h) && i < |s.attempts| && s.attempts[i].delivery in {Pending, Acknowledged}
    ensures forall k :: 0 <= k < At(s, h, i) ==> !Undelivered(h[k])
  {
    hide *;
    InvParts(s, h);
    RingEntry(s, h, i);
    NothingBeforeUnderWay(h, At(s, h, i));
  }

  lemma RingEntry(s: State, h: seq<Attempt>, i: nat)
    requires Tracks(s.attempts, h) && i < |s.attempts|
    ensures 0 <= At(s, h, i) < |h| && h[At(s, h, i)] == s.attempts[i]
  {}

  lemma NothingBeforeUnderWay(h: seq<Attempt>, k: nat)
    requires DeliveredInOrder(h) && k < |h| && h[k].delivery in {Pending, Acknowledged}
    ensures forall j :: 0 <= j < k ==> !Undelivered(h[j])
  {
    hide Undelivered;
  }

  lemma DeliveryInOrder(h: seq<Attempt>, k: nat, a: Attempt)
    requires DeliveredInOrder(h) && k < |h| && (Undelivered(a) ==> Undelivered(h[k]))
    requires forall j :: 0 <= j < k ==> !Undelivered(h[j])
    ensures DeliveredInOrder(h[k := a])
  {
    hide Undelivered;
  }

  lemma HarmlessDelivery(a: Attempt, b: Attempt, key: H.OperationKey)
    requires a.status == Observed && Undelivered(a) && ValidAttempt(b, key) && Counted(b) && EvolvesTo(a, b)
    ensures Harmless(a, b, key) && (Undelivered(b) ==> Undelivered(a)) && (Started(b) ==> Started(a))
  {
    hide ValidByStatus, ValidByDelivery, ValidBinding;
  }

  /** A delivery step keeps the invariant: it neither starts a request nor changes
      what the attempt reported. */
  lemma DeliveryKeeps(s: State, h: seq<Attempt>, i: nat, a: Attempt)
    requires AttemptInv(s, h) && i < |s.attempts|
    requires s.attempts[i].status == Observed && Undelivered(s.attempts[i])
    requires ValidAttempt(a, s.key) && Counted(a) && EvolvesTo(s.attempts[i], a)
    requires forall k :: 0 <= k < At(s, h, i) && k < |h| ==> !Undelivered(h[k])
    ensures Tracks(s.attempts, h)
    ensures AttemptInv(WithAttempt(s, i, a), Changed(s, h, i, a)) && Evolves(h, Changed(s, h, i, a))
  {
    var current := s.attempts[i];
    hide AttemptInv, ValidState, AllValid, GenerationsOrdered, Spaced, OnlyLastClaimed, AllCounted, EvictedSafely,
         DeliveredInOrder, SomeStarted, SomeStartedUnder, SamePlanFrom, ValidAttempt, EvolvesTo, Harmless, Undelivered;
    HarmlessDelivery(current, a, s.key);
    InvParts(s, h);
    assert h[At(s, h, i)] == current;
    DeliveryInOrder(h, At(s, h, i), a);
    StartedAlready(s, h, i);
    ReplaceKeeps(s, h, i, a, WithAttempt(s, i, a));
  }

  /** The flags already cover an attempt that is in the history. */
  lemma StartedAlready(s: State, h: seq<Attempt>, i: nat)
    requires AttemptInv(s, h) && i < |s.attempts| && Tracks(s.attempts, h)
    ensures Started(s.attempts[i]) ==> s.everRequestStarted
    ensures Started(s.attempts[i]) && SamePlanFrom(h, At(s, h, i), s.currentPlan) ==> s.currentPlanEverRequestStarted
  {
    InvParts(s, h);
    hide AttemptInv, ValidState, SamePlanFrom;
    assert h[At(s, h, i)] == s.attempts[i];
    if Started(s.attempts[i]) {
      assert SomeStarted(h);
      if SamePlanFrom(h, At(s, h, i), s.currentPlan) { assert SomeStartedUnder(h, s.currentPlan); }
    }
  }

  lemma RingAttempt(s: State, h: seq<Attempt>, i: nat)
    requires AttemptInv(s, h) && i < |s.attempts|
    ensures ValidAttempt(s.attempts[i], s.key) && Counted(s.attempts[i])
  {
    RingEntry(s, h, i);
    hide ValidAttempt, Counted;
  }

  lemma StartedDelivery(a: Attempt, now: int, key: H.OperationKey)
    requires ValidAttempt(a, key) && Counted(a) && Deliverable(a, now) && now > 0
    ensures Counted(StartDelivery(a, now))
    ensures a.status == Observed && Undelivered(a) && EvolvesTo(a, StartDelivery(a, now))
    ensures ValidAttempt(StartDelivery(a, now), key) <==> a.deliveryAttempts < MAX_DELIVERY_ATTEMPTS
  {}

  lemma AcknowledgedDelivery(a: Attempt, at: int, key: H.OperationKey)
    requires ValidAttempt(a, key) && Counted(a) && a.delivery == Pending && a.result.Some?
    requires at > 0 && at >= a.deliveryStartedAt
    ensures var b := a.(delivery := Acknowledged, deliveryAckAt := at);
            Counted(b) && a.status == Observed && Undelivered(a) && EvolvesTo(a, b) && ValidAttempt(b, key)
  {}

  lemma VerifiedDelivery(a: Attempt, at: int, result: GatusResult, key: H.OperationKey)
    requires ValidAttempt(a, key) && Counted(a) && a.delivery == Acknowledged && a.result.Some?
    requires at > 0 && at >= a.deliveryAckAt
    ensures var b := a.(gatusReceivedAt := at, gatusResult := Some(result), delivery := ReadbackVerified);
            Counted(b) && a.status == Observed && Undelivered(a) && EvolvesTo(a, b) && ValidAttempt(b, key)
  {}

  /** Starting a delivery is written unless it was tried a million times before. */
  lemma StartDeliveryKeeps(s: State, h: seq<Attempt>, i: nat, now: int)
    requires AttemptInv(s, h) && i < |s.attempts| && Deliverable(s.attempts[i], now) && now > 0
    requires forall j :: 0 <= j < i ==> !Undelivered(s.attempts[j])
    ensures var a := StartDelivery(s.attempts[i], now);
            var fits := s.attempts[i].deliveryAttempts < MAX_DELIVERY_ATTEMPTS;
            && Tracks(s.attempts, h)
            && (fits ==> AttemptInv(WithAttempt(s, i, a), Changed(s, h, i, a)) && Evolves(h, Changed(s, h, i, a)))
            && (ValidState(WithAttempt(s, i, a), s.key) <==> fits)
  {
    hide AttemptInv, ValidState, ValidAttempt, EvolvesTo, Undelivered, Deliverable, Tracks, Evolves, StartDelivery;
    var a := StartDelivery(s.attempts[i], now);
    RingAttempt(s, h, i);
    StartedDelivery(s.attempts[i], now, s.key);
    TracksOf(s, h);
    if ValidAttempt(a, s.key) {
      NothingBefore(s, h, i);
      DeliveryKeeps(s, h, i, a);
      StateOfInv(WithAttempt(s, i, a), Changed(s, h, i, a));
    } else {
      InvalidAttempt(WithAttempt(s, i, a), i, s.key);
    }
  }

  lemma TracksOf(s: State, h: seq<Attempt>)
    requires AttemptInv(s, h)
    ensures Tracks(s.attempts, h)
  {}

  lemma StateOfInv(s: State, h: seq<Attempt>)
    requires AttemptInv(s, h)
    ensures ValidState(s, s.key)
  {}

  lemma AcknowledgeKeeps(s: State, h: seq<Attempt>, i: nat, at: int)
    requires AttemptInv(s, h) && i < |s.attempts| && s.attempts[i].delivery == Pending && s.attempts[i].result.Some?
    requires at > 0 && at >= s.attempts[i].deliveryStartedAt
    ensures var a := s.attempts[i].(delivery := Acknowledged, deliveryAckAt := at);
            && Tracks(s.attempts, h)
            && AttemptInv(WithAttempt(s, i, a), Changed(s, h, i, a)) && Evolves(h, Changed(s, h, i, a))
  {
    hide AttemptInv, ValidState, ValidAttempt, EvolvesTo, Undelivered, Tracks, Evolves;
    var a := s.attempts[i].(delivery := Acknowledged, deliveryAckAt := at);
    RingAttempt(s, h, i);
    TracksOf(s, h);
    AcknowledgedDelivery(s.attempts[i], at, s.key);
    NothingBeforePending(s, h, i);
    DeliveryKeeps(s, h, i, a);
  }

  lemma ReadbackKeeps(s: State, h: seq<Attempt>, i: nat, at: int, result: GatusResult)
    requires AttemptInv(s, h) && i < |s.attempts| && s.attempts[i].delivery == Acknowledged && s.attempts[i].result.Some?
    requires at > 0 && at >= s.attempts[i].deliveryAckAt
    ensures var a := s.attempts[i].(gatusReceivedAt := at, gatusResult := Some(result), delivery := ReadbackVerified);
            && Tracks(s.attempts, h)
            && AttemptInv(WithAttempt(s, i, a), Changed(s, h, i, a)) && Evolves(h, Changed(s, h, i, a))
  {
    hide AttemptInv, ValidState, ValidAttempt, EvolvesTo, Undelivered, Tracks, Evolves;
    var a := s.attempts[i].(gatusReceivedAt := at, gatusResult := Some(result), delivery := ReadbackVerified);
    RingAttempt(s, h, i);
    TracksOf(s, h);
    VerifiedDelivery(s.attempts[i], at, result, s.key);
    NothingBeforePending(s, h, i);
    DeliveryKeeps(s, h, i, a);
  }

  // ---------------------------------------------------------------------
  // What the invariant says to a reader
  // ---------------------------------------------------------------------

  /** What has left the ring will not be missed: no unknown outcome, no summary still to be
      read back, and the flag for a request ever started still covers it. */
  lemma EvictionIsSafe(s: State, h: seq<Attempt>, i: nat)
    requires AttemptInv(s, h) && i < |h| - |s.attempts|
    ensures h[i].status != Claimed && h[i].status != Unknown
    ensures h[i].status == Observed ==> h[i].delivery in {ReadbackVerified, NotApplicable}
    ensures h[i].requestStarted == Some(true) ==> s.everRequestStarted
    ensures s.everRequestStarted ==> exists j :: 0 <= j < |h| && h[j].requestStarted == Some(true)
  {
    hide ValidAttempt, AllValid, GenerationsOrdered, Spaced, DeliveredInOrder, SomeStartedUnder, AllCounted;
  }

  /** At most one attempt of an operation is claimed, and it is the last. */
  lemma OneClaim(s: State, h: seq<Attempt>, i: nat)
    requires AttemptInv(s, h) && i < |h| && h[i].status == Claimed
    ensures i == |h| - 1
  {
    hide ValidState, AllValid, GenerationsOrdered, Spaced, EvictedSafely, DeliveredInOrder, SomeStarted, SomeStartedUnder;
  }

  predicate UnderWay(a: Attempt) { a.delivery in {Pending, Acknowledged} }

  /** At most one summary is under way, all earlier observations have been read back or
      are not applicable, all later ones have not been touched. */
  lemma OneDelivery(s: State, h: seq<Attempt>, i: nat, j: nat)
    requires AttemptInv(s, h) && i < |h| && j < |h| && i != j && UnderWay(h[i])
    ensures !UnderWay(h[j])
    ensures j < i && h[j].status == Observed ==> h[j].delivery in {ReadbackVerified, NotApplicable}
    ensures j > i ==> h[j].delivery in {NotReady, NotApplicable}
  {
    assert ValidAttempt(h[i], s.key) && ValidAttempt(h[j], s.key);
    assert Undelivered(h[i]);
    hide ValidState, AllValid, GenerationsOrdered, Spaced, EvictedSafely, SomeStarted, SomeStartedUnder;
  }

  /** Request spacing over the whole history, and start times that only grow. */
  lemma RequestSpacing(s: State, h: seq<Attempt>, i: nat, j: nat)
    requires AttemptInv(s, h) && i < j < |h|
    ensures h[i].startedAt < h[j].startedAt
    ensures ProvenDrain(h[i]) || h[j].startedAt >= h[i].startedAt + h[i].binding.period
    ensures ProvenDrain(h[i]) ==> h[i].requestStarted == Some(false)
  {
    hide ValidState, AllValid, GenerationsOrdered, EvictedSafely, DeliveredInOrder, SomeStarted, SomeStartedUnder;
  }
}
