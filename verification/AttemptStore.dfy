/** The attempt store: one state file per operation, replaced atomically. A write is
    refused if the new state is not valid or too large, and may fail otherwise. */
module AttemptStore {
  import opened Foundations
  import H = HistoryModel
  import opened AttemptModel
  import opened AttemptHistory

  function Found<K, V>(m: map<K, V>, k: K): Option<V> { if k in m then Some(m[k]) else None }

  function HistoryIn(histories: map<H.OperationKey, seq<Attempt>>, key: H.OperationKey): seq<Attempt> {
    if key in histories then histories[key] else []
  }

  class OperationAttemptStore {
    const size: State -> nat
    var states: map<H.OperationKey, State>
    ghost var histories: map<H.OperationKey, seq<Attempt>>
    ghost var faults: nat

    ghost predicate Valid()
      reads this
    {
      && states.Keys == histories.Keys
      && forall k :: k in states ==> states[k].key == k && AttemptInv(states[k], histories[k])
    }

    constructor (size: State -> nat)
      ensures Valid() && states == map[] && faults == 0 && this.size == size
    {
      this.size := size;
      states, histories, faults := map[], map[], 0;
    }

    predicate Accepts(next: State) { ValidState(next, next.key) && size(next) <= MAX_STATE_BYTES }

    /** Every attempt ever made lives on, and only moves forward. */
    ghost predicate Continues(before: map<H.OperationKey, seq<Attempt>>)
      reads this
    {
      forall k :: k in before ==> k in histories && Evolves(before[k], histories[k])
    }

    /** The decision is carried out: refused, written and answered, or lost to a fault
        that may have struck before or after the rename. */
    ghost predicate Carried<T(!new)>(outcome: Outcome<T>, r: Result<T, AttemptError>, before: map<H.OperationKey, State>,
                                     faultsBefore: nat)
      reads this
    {
      match outcome
      case Refuse(e) => r == Err(e) && states == before && faults == faultsBefore
      case Update(next, answer) =>
        if !Accepts(next) then r == Err(Unavailable) && states == before && faults == faultsBefore
        else if faults == faultsBefore then r == answer && states == before[next.key := next]
        else r == Err(Unavailable) && (states == before || states == before[next.key := next])
    }

    /** A positive answer means the decision was to write, and that it has been written. */
    lemma CarriedOk<T(!new)>(outcome: Outcome<T>, r: Result<T, AttemptError>, before: map<H.OperationKey, State>, faultsBefore: nat)
      requires Carried(outcome, r, before, faultsBefore) && r.Ok?
      ensures outcome.Update? && outcome.answer == r && states == before[outcome.next.key := outcome.next]
    {
      hide Accepts;
    }

    method WriteState(next: State, ghost h: seq<Attempt>) returns (ok: bool)
      requires Valid() && (ValidState(next, next.key) ==> AttemptInv(next, h))
      requires Evolves(HistoryIn(histories, next.key), h) || !ValidState(next, next.key)
      modifies `states, `histories, `faults
      ensures Valid() && Continues(old(histories)) && faults >= old(faults)
      ensures !Accepts(next) ==> !ok && states == old(states) && histories == old(histories) && faults == old(faults)
      ensures Accepts(next) && faults == old(faults)
              ==> ok && states == old(states)[next.key := next] && histories == old(histories)[next.key := h]
      ensures Accepts(next) && faults > old(faults)
              ==> !ok && ((states == old(states) && histories == old(histories))
                          || (states == old(states)[next.key := next] && histories == old(histories)[next.key := h]))
    {
      hide AttemptInv, ValidState, Evolves;
      forall k | k in histories ensures Evolves(histories[k], histories[k]) { EvolvesReflexive(histories[k]); }
      if !Accepts(next) { return false; }
      if * {
        faults := faults + 1;
        if * { return false; }
        ok := false;
      } else {
        ok := true;
      }
      states := states[next.key := next];
      histories := histories[next.key := h];
    }

    // -------------------------------------------------------------------
    // Claiming and reporting
    // -------------------------------------------------------------------

    /** Claims the next observation of one operation, if it is due. A claim that ran
        out is first turned into an unknown outcome. */
    method BeginAttempt(binding: Binding, attemptId: string, now: int, lease: int) returns (r: Result<Claim, AttemptError>)
      requires Valid()
      modifies `states, `histories, `faults
      ensures Valid() && Continues(old(histories)) && faults >= old(faults)
      ensures Carried(BeginDecision(Found(old(states), KeyOf(binding)), binding, attemptId, now, lease), r, old(states), old(faults))
      ensures r.Ok? ==> Claims(r.value, binding, attemptId, now, lease, old(histories))
      ensures histories == old(histories) || Extends(old(histories), binding, attemptId, now, lease)
              || Expires(old(histories), KeyOf(binding), now)
    {
      ContinuesSame();
      hide AttemptInv, ValidState, Evolves, Due, Keeps, MayClaim, ValidBinding, Room, Tracks;
      var key := KeyOf(binding);
      if !ValidBinding(binding) || attemptId == "" || now <= 0 || !(SECOND <= lease <= MAX_LEASE) { return Err(Unavailable); }
      var s := if key in states then states[key] else EmptyState(key);
      ghost var h := HistoryIn(histories, key);
      MayClaimNow(Found(states, key), h, binding, now);
      if |s.attempts| > 0 {
        var last := |s.attempts| - 1;
        if s.attempts[last].status == Claimed {
          if now < s.attempts[last].leaseExpiresAt { return Err(Held); }
          r := ExpireClaim(s, h, now);
          return;
        }
        if !Due(s.attempts[last], binding, now) { return Err(NotDue); }
      }
      if |s.attempts| >= RING && Keeps(s.attempts[0]) { return Err(Capacity); }
      r := StartAttempt(s, h, binding, attemptId, now, lease);
    }

    /** Writes a claim; the oldest attempt leaves a full ring. */
    method StartAttempt(s: State, ghost h: seq<Attempt>, binding: Binding, attemptId: string, now: int, lease: int)
      returns (r: Result<Claim, AttemptError>)
      requires Valid() && s.key == KeyOf(binding) && HistoryIn(histories, s.key) == h && MayClaim(s, h, binding, now)
      requires ValidBinding(binding) && attemptId != "" && now > 0 && SECOND <= lease <= MAX_LEASE
      modifies `states, `histories, `faults
      ensures Valid() && Continues(old(histories)) && faults >= old(faults)
      ensures var next := BeginState(s, binding, attemptId, now, lease);
              Carried(Update(next, Ok(ClaimOf(Last(next.attempts)))), r, old(states), old(faults))
      ensures r.Ok? ==> Claims(r.value, binding, attemptId, now, lease, old(histories))
      ensures histories == old(histories) || Extends(old(histories), binding, attemptId, now, lease)
    {
      hide AttemptInv, ValidState, Evolves, Due, Keeps, MayClaim, ValidBinding, Room, Tracks;
      BeginKeeps(s, h, binding, attemptId, now, lease);
      var next := BeginState(s, binding, attemptId, now, lease);
      var ok := WriteState(next, WithClaim(s, h, binding, attemptId, now, lease));
      r := if ok then Ok(ClaimOf(Last(next.attempts))) else Err(Unavailable);
    }

    /** One claimed attempt more. */
    ghost predicate Extends(before: map<H.OperationKey, seq<Attempt>>, binding: Binding, attemptId: string, now: int, lease: int)
      reads this
    {
      exists g: nat :: histories == before[KeyOf(binding) := HistoryIn(before, KeyOf(binding))
                                                             + [ClaimedAttempt(binding, attemptId, g, now, lease)]]
    }

    /** The open claim has become an unknown outcome. */
    ghost predicate Expires(before: map<H.OperationKey, seq<Attempt>>, key: H.OperationKey, now: int)
      reads this
    {
      var h := HistoryIn(before, key);
      && |h| > 0 && h[|h| - 1].status == Claimed
      && histories == before[key := h[|h| - 1 := Expire(h[|h| - 1], now)]]
    }

    /** Turns a claim whose lease has run out into an unknown outcome. */
    method ExpireClaim(s: State, ghost h: seq<Attempt>, now: int) returns (r: Result<Claim, AttemptError>)
      requires Valid() && |s.attempts| > 0 && AttemptInv(s, h) && HistoryIn(histories, s.key) == h
      requires Last(s.attempts).status == Claimed && now >= Last(s.attempts).leaseExpiresAt
      modifies `states, `histories, `faults
      ensures Valid() && Continues(old(histories)) && faults >= old(faults) && r.Err?
      ensures Carried(Update(WithAttempt(s, |s.attempts| - 1, Expire(Last(s.attempts), now)), Err(Ambiguous)), r,
                      old(states), old(faults))
      ensures histories == old(histories) || Expires(old(histories), s.key, now)
    {
      hide AttemptInv, ValidState, Evolves, Tracks;
      var last := |s.attempts| - 1;
      ExpireKeeps(s, h, now);
      TracksOf(s, h);
      var next := WithAttempt(s, last, s.attempts[last].(status := Unknown, finishedAt := now));
      var ok := WriteState(next, Changed(s, h, last, Expire(s.attempts[last], now)));
      return Err(if ok then Ambiguous else Unavailable);
    }

    /** The claim is the last attempt of its operation, and still open. */
    ghost predicate Holds(c: Claim)
      reads this
    {
      var h := HistoryIn(histories, KeyOf(c.binding));
      |h| > 0 && Owns(c, h[|h| - 1]) && ValidClaim(c)
    }

    /** One more attempt in the history, claimed by the given caller. */
    ghost predicate Claims(c: Claim, binding: Binding, attemptId: string, now: int, lease: int,
                           before: map<H.OperationKey, seq<Attempt>>)
      reads this
    {
      && Holds(c)
      && c == Claim(binding, attemptId, c.generation, now, now + lease)
      && histories == before[KeyOf(binding) := HistoryIn(before, KeyOf(binding))
                                               + [ClaimedAttempt(binding, attemptId, c.generation, now, lease)]]
    }

    /** The claimed attempt, and nothing else, has become what the report makes of it. */
    ghost predicate Finishes(c: Claim, report: Report, now: int, before: map<H.OperationKey, seq<Attempt>>)
      reads this
    {
      var h := HistoryIn(before, KeyOf(c.binding));
      && |h| > 0 && Owns(c, h[|h| - 1])
      && histories == before[KeyOf(c.binding) := h[|h| - 1 := Reported(h[|h| - 1], report, now).0]]
    }

    lemma ContinuesSame()
      ensures Continues(histories)
    {
      forall k | k in histories ensures Evolves(histories[k], histories[k]) { EvolvesReflexive(histories[k]); }
    }

    lemma StillThere(before: map<H.OperationKey, seq<Attempt>>, key: H.OperationKey)
      requires Continues(before) && |HistoryIn(before, key)| > 0
      ensures key in histories && |histories[key]| > 0
    {
      assert Evolves(before[key], histories[key]);
    }

    /** And the holder was told so. */
    ghost predicate Settles(c: Claim, report: Report, now: int, before: map<H.OperationKey, seq<Attempt>>)
      reads this
    {
      var h := HistoryIn(before, KeyOf(c.binding));
      Finishes(c, report, now, before) && Reported(h[|h| - 1], report, now).1.None?
    }

    /** Reports what became of a claim. */
    method Complete(claim: Claim, report: Report, now: int) returns (r: Result<(), AttemptError>)
      requires Valid()
      modifies `states, `histories, `faults
      ensures Valid() && Continues(old(histories)) && faults >= old(faults)
      ensures Carried(CompleteDecision(Found(old(states), KeyOf(claim.binding)), claim, report, now), r, old(states), old(faults))
      ensures histories == old(histories) || Finishes(claim, report, now, old(histories))
      ensures r.Ok? ==> Settles(claim, report, now, old(histories))
    {
      ContinuesSame();
      hide AttemptInv, ValidState, Evolves, ValidReport, ReportFits, Reported, Tracks, Owns, ValidClaim;
      var key := KeyOf(claim.binding);
      if !ValidClaim(claim) || !ValidReport(report) || now <= 0 || key !in states { return Err(Unavailable); }
      var s := states[key];
      var i := Find(s.attempts, claim.attemptId, claim.generation);
      if i == |s.attempts| || !Owns(claim, s.attempts[i]) { return Err(Fenced); }
      r := WriteReport(claim, report, now, s, histories[key], i);
    }

    /** Writes the attempt a report leads to, and the flags it raises. */
    method WriteReport(claim: Claim, report: Report, now: int, s: State, ghost h: seq<Attempt>, i: nat)
      returns (r: Result<(), AttemptError>)
      requires Valid() && AttemptInv(s, h) && HistoryIn(histories, s.key) == h && s.key == KeyOf(claim.binding)
      requires i < |s.attempts| && Owns(claim, s.attempts[i]) && ValidReport(report) && now > 0
      modifies `states, `histories, `faults
      ensures Valid() && Continues(old(histories)) && faults >= old(faults)
      ensures var error := Reported(s.attempts[i], report, now).1;
              Carried(Update(AfterReport(s, i, report, now), if error.None? then Ok(()) else Err(error.value)), r,
                      old(states), old(faults))
      ensures histories == old(histories) || Finishes(claim, report, now, old(histories))
      ensures r.Ok? ==> Settles(claim, report, now, old(histories))
    {
      hide AttemptInv, ValidState, Evolves, ValidReport, ReportFits, Reported, Tracks, Owns, ValidClaim, RecordsStart,
           ValidAttempt, Counted, Changed, OperationAttemptStore.Accepts, OperationAttemptStore.Continues;
      OwnsIsClaimed(claim, s.attempts[i]);
      OwnedIsLast(s, h, i);
      TracksOf(s, h);
      RingEntry(s, h, i);
      CompleteKeeps(s, h, i, report, now);
      LastChanged(s, h, i, Reported(s.attempts[i], report, now).0);
      var (a, error) := Reported(s.attempts[i], report, now);
      var next := WithAttempt(s, i, a);
      if RecordsStart(s.attempts[i], report, now) {
        next := next.(everRequestStarted := true);
        if next.currentPlan == PlanOf(a.binding) { next := next.(currentPlanEverRequestStarted := true); }
      }
      var ok := WriteState(next, Changed(s, h, i, a));
      r := if !ok then Err(Unavailable) else if error.Some? then Err(error.value) else Ok(());
    }

    // -------------------------------------------------------------------
    // Delivering
    // -------------------------------------------------------------------

    /** Nothing but the progress of one operation's deliveries has changed. */
    ghost predicate Delivers(key: H.OperationKey, before: map<H.OperationKey, seq<Attempt>>)
      reads this
    {
      DeliveredOnly(key, before, histories)
    }

    lemma DeliversNothing(key: H.OperationKey)
      ensures Delivers(key, histories) && Continues(histories)
    {
      ContinuesSame();
    }

    /** Marks a summary as being sent, or takes over a delivery whose lease ran out. */
    method ClaimDelivery(key: H.OperationKey, attemptId: string, generation: nat, now: int, lease: int)
      returns (r: Result<DeliveryClaim, AttemptError>)
      requires Valid()
      modifies `states, `histories, `faults
      ensures Valid() && Continues(old(histories)) && faults >= old(faults)
      ensures Carried(DeliveryDecision(Found(old(states), key), attemptId, generation, now, lease), r, old(states), old(faults))
      ensures Delivers(key, old(histories))
    {
      DeliversNothing(key);
      hide AttemptInv, ValidState, Evolves, OnlyDelivered, Deliverable, Undelivered, Tracks;
      if attemptId == "" || generation == 0 || now <= 0 || !(SECOND <= lease <= MAX_LEASE) || key !in states {
        return Err(Unavailable);
      }
      var s := states[key];
      ghost var h := histories[key];
      var i := Find(s.attempts, attemptId, generation);
      if i == |s.attempts| || !Deliverable(s.attempts[i], now) { return Err(Fenced); }
      var blocked := FirstUndelivered(s.attempts, i);
      if blocked { return Err(DeliveryPending); }
      if s.attempts[i].delivery == Pending && now < s.attempts[i].deliveryStartedAt + lease { return Err(Held); }
      StartDeliveryKeeps(s, h, i, now);
      DeliverableResult(s.attempts[i], now);
      var a := StartDelivery(s.attempts[i], now);
      ChangedDelivers(s, h, i, a);
      var ok := WriteState(WithAttempt(s, i, a), Changed(s, h, i, a));
      r := if ok then Ok(DeliveryClaim(a.binding, a.attemptId, a.generation, a.deliveryGeneration, a.deliveryAttempts, a.result.value))
           else Err(Unavailable);
    }

    method AcknowledgeDelivery(claim: DeliveryClaim, at: int) returns (r: Result<(), AttemptError>)
      requires Valid()
      modifies `states, `histories, `faults
      ensures Valid() && Continues(old(histories)) && faults >= old(faults)
      ensures Carried(AcknowledgeDecision(Found(old(states), KeyOf(claim.binding)), claim, at), r, old(states), old(faults))
      ensures Delivers(KeyOf(claim.binding), old(histories))
    {
      DeliversNothing(KeyOf(claim.binding));
      hide AttemptInv, ValidState, Evolves, OnlyDelivered, ValidDeliveryClaim, Tracks;
      var key := KeyOf(claim.binding);
      if !ValidDeliveryClaim(claim) || at <= 0 || key !in states { return Err(Unavailable); }
      var s := states[key];
      ghost var h := histories[key];
      var i := Find(s.attempts, claim.attemptId, claim.attemptGeneration);
      if i == |s.attempts| { return Err(Fenced); }
      var a := s.attempts[i];
      if a.delivery != Pending || a.deliveryGeneration != claim.deliveryGeneration || a.result.None? || at < a.deliveryStartedAt {
        return Err(Fenced);
      }
      AcknowledgeKeeps(s, h, i, at);
      a := a.(delivery := Acknowledged, deliveryAckAt := at);
      ChangedDelivers(s, h, i, a);
      StateOfInv(WithAttempt(s, i, a), Changed(s, h, i, a));
      var ok := WriteState(WithAttempt(s, i, a), Changed(s, h, i, a));
      r := if ok then Ok(()) else Err(Unavailable);
    }

    method RecordGatusReadback(key: H.OperationKey, attemptId: string, generation: nat, at: int, result: GatusResult)
      returns (r: Result<(), AttemptError>)
      requires Valid()
      modifies `states, `histories, `faults
      ensures Valid() && Continues(old(histories)) && faults >= old(faults)
      ensures Carried(ReadbackDecision(Found(old(states), key), attemptId, generation, at, result), r, old(states), old(faults))
      ensures Delivers(key, old(histories))
    {
      DeliversNothing(key);
      hide AttemptInv, ValidState, Evolves, OnlyDelivered, Tracks;
      if attemptId == "" || generation == 0 || at <= 0 || key !in states { return Err(Unavailable); }
      var s := states[key];
      ghost var h := histories[key];
      var i := Find(s.attempts, attemptId, generation);
      if i == |s.attempts| { return Err(Fenced); }
      var a := s.attempts[i];
      if a.delivery != Acknowledged || a.result.None? || at < a.deliveryAckAt { return Err(Fenced); }
      ReadbackKeeps(s, h, i, at, result);
      a := a.(gatusReceivedAt := at, gatusResult := Some(result), delivery := ReadbackVerified);
      ChangedDelivers(s, h, i, a);
      StateOfInv(WithAttempt(s, i, a), Changed(s, h, i, a));
      var ok := WriteState(WithAttempt(s, i, a), Changed(s, h, i, a));
      r := if ok then Ok(()) else Err(Unavailable);
    }
  }

  /** Whether an attempt before the given one still waits for its summary. */
  method FirstUndelivered(attempts: seq<Attempt>, i: nat) returns (found: bool)
    requires i <= |attempts|
    ensures found <==> exists j :: 0 <= j < i && Undelivered(attempts[j])
  {
    var k := 0;
    while k < i
      invariant 0 <= k <= i && forall j :: 0 <= j < k ==> !Undelivered(attempts[j])
    {
      if Undelivered(attempts[k]) { return true; }
      k := k + 1;
    }
    return false;
  }

  predicate DeliveredOnly(key: H.OperationKey, before: map<H.OperationKey, seq<Attempt>>,
                          after: map<H.OperationKey, seq<Attempt>>) {
    && after.Keys == before.Keys
    && forall k :: k in before ==> OnlyDelivered(before[k], after[k]) && (k != key ==> after[k] == before[k])
  }

  predicate OnlyDelivered(h: seq<Attempt>, later: seq<Attempt>) {
    |h| == |later| && forall i :: 0 <= i < |h| ==>
      SameOutcome(h[i], later[i]) && later[i].binding == h[i].binding && later[i].attemptId == h[i].attemptId
      && later[i].generation == h[i].generation
  }

  lemma ChangedDelivers(s: State, h: seq<Attempt>, i: nat, a: Attempt)
    requires Tracks(s.attempts, h) && i < |s.attempts|
    requires SameOutcome(s.attempts[i], a) && a.binding == s.attempts[i].binding && a.attemptId == s.attempts[i].attemptId
    requires a.generation == s.attempts[i].generation
    ensures OnlyDelivered(h, Changed(s, h, i, a))
  {
    RingEntry(s, h, i);
  }

  lemma LastChanged(s: State, h: seq<Attempt>, i: nat, a: Attempt)
    requires Tracks(s.attempts, h) && i < |s.attempts| && At(s, h, i) == |h| - 1
    ensures |h| > 0 && Changed(s, h, i, a) == h[|h| - 1 := a]
  {}

  lemma OwnsIsClaimed(c: Claim, a: Attempt)
    requires Owns(c, a)
    ensures a.status == Claimed
  {}

  lemma DeliverableResult(a: Attempt, now: int)
    requires Deliverable(a, now)
    ensures a.result.Some?
  {}

  /** The file, or its absence, tells whether a claim may be written. */
  lemma MayClaimNow(found: Option<State>, h: seq<Attempt>, binding: Binding, now: int)
    requires found.Some? ==> AttemptInv(found.value, h)
    requires found.None? ==> h == []
    ensures var s := if found.Some? then found.value else EmptyState(KeyOf(binding));
            && (|s.attempts| > 0 <==> found.Some?)
            && ((found.Some? ==> Last(s.attempts).status != Claimed && Due(Last(s.attempts), binding, now)
                                 && (|s.attempts| >= RING ==> !Keeps(s.attempts[0])))
                ==> MayClaim(s, h, binding, now))
  {
    hide AttemptInv, Due, Keeps;
    if found.Some? { InvParts(found.value, h); }
  }

  // ---------------------------------------------------------------------
  // One attempt's delivery, in terms of the files
  // ---------------------------------------------------------------------

  type States = map<H.OperationKey, State>

  /** The attempt a delivery is about, as the operation's file has it. */
  function AttemptAt(states: States, key: H.OperationKey, attemptId: string, generation: nat): Option<Attempt> {
    if key !in states then None
    else
      var i := Find(states[key].attempts, attemptId, generation);
      if i == |states[key].attempts| then None else Some(states[key].attempts[i])
  }

  function Accepted(a: Attempt, at: int): Attempt { a.(delivery := Acknowledged, deliveryAckAt := at) }

  function ReadBack(a: Attempt, at: int, result: GatusResult): Attempt {
    a.(gatusReceivedAt := at, gatusResult := Some(result), delivery := ReadbackVerified)
  }

  lemma {:induction false} FindSame(attempts: seq<Attempt>, i: nat, a: Attempt, attemptId: string, generation: nat)
    requires i < |attempts| && Find(attempts, attemptId, generation) == i && a.attemptId == attemptId && a.generation == generation
    ensures Find(attempts[i := a], attemptId, generation) == i
  {
    if i > 0 {
      assert attempts[i := a][1..] == attempts[1..][i - 1 := a];
      FindSame(attempts[1..], i - 1, a, attemptId, generation);
    }
  }

  lemma {:induction false} WrittenAt(before: States, key: H.OperationKey, i: nat, a: Attempt, attemptId: string, generation: nat)
    requires key in before && before[key].key == key && i < |before[key].attempts|
    requires Find(before[key].attempts, attemptId, generation) == i && a.attemptId == attemptId && a.generation == generation
    ensures var next := WithAttempt(before[key], i, a);
            AttemptAt(before[next.key := next], key, attemptId, generation) == Some(a)
  {
    hide Find;
    FindSame(before[key].attempts, i, a, attemptId, generation);
  }

  lemma ClaimedAt(before: States, key: H.OperationKey, attemptId: string, generation: nat, now: int, lease: int)
    requires key in before ==> before[key].key == key
    requires var d := DeliveryDecision(Found(before, key), attemptId, generation, now, lease); d.Update?
    ensures var d := DeliveryDecision(Found(before, key), attemptId, generation, now, lease);
            var a := AttemptAt(before, key, attemptId, generation);
            && a.Some? && d.answer.Ok? && Deliverable(a.value, now)
            && AttemptAt(before[d.next.key := d.next], key, attemptId, generation) == Some(StartDelivery(a.value, now))
            && d.answer.value.binding == a.value.binding && d.answer.value.attemptId == attemptId && d.answer.value.attemptGeneration == generation
            && d.next.key == key
  {
    hide Find, Deliverable, Undelivered;
    var s := before[key];
    var i := Find(s.attempts, attemptId, generation);
    WrittenAt(before, key, i, StartDelivery(s.attempts[i], now), attemptId, generation);
  }

  lemma AcknowledgedAt(before: States, claim: DeliveryClaim, at: int)
    requires KeyOf(claim.binding) in before ==> before[KeyOf(claim.binding)].key == KeyOf(claim.binding)
    requires AcknowledgeDecision(Found(before, KeyOf(claim.binding)), claim, at).Update?
    ensures var d := AcknowledgeDecision(Found(before, KeyOf(claim.binding)), claim, at);
            var key := KeyOf(claim.binding);
            var a := AttemptAt(before, key, claim.attemptId, claim.attemptGeneration);
            a.Some? && AttemptAt(before[d.next.key := d.next], key, claim.attemptId, claim.attemptGeneration) == Some(Accepted(a.value, at))
  {
    hide Find, ValidDeliveryClaim;
    var s := before[KeyOf(claim.binding)];
    var i := Find(s.attempts, claim.attemptId, claim.attemptGeneration);
    WrittenAt(before, KeyOf(claim.binding), i, Accepted(s.attempts[i], at), claim.attemptId, claim.attemptGeneration);
  }

  lemma ReadBackAt(before: States, key: H.OperationKey, attemptId: string, generation: nat, at: int, result: GatusResult)
    requires key in before ==> before[key].key == key
    requires ReadbackDecision(Found(before, key), attemptId, generation, at, result).Update?
    ensures var d := ReadbackDecision(Found(before, key), attemptId, generation, at, result);
            var a := AttemptAt(before, key, attemptId, generation);
            && a.Some? && a.value.delivery == Acknowledged && at >= a.value.deliveryAckAt
            && AttemptAt(before[d.next.key := d.next], key, attemptId, generation) == Some(ReadBack(a.value, at, result))
  {
    hide Find;
    var s := before[key];
    var i := Find(s.attempts, attemptId, generation);
    WrittenAt(before, key, i, ReadBack(s.attempts[i], at, result), attemptId, generation);
  }

  lemma RingBindings(s: State, h: seq<Attempt>)
    requires AttemptInv(s, h)
    ensures forall i :: 0 <= i < |s.attempts| ==> KeyOf(s.attempts[i].binding) == s.key
  {
    hide Tracks, ValidByStatus, ValidByDelivery, ValidBinding;
    forall i | 0 <= i < |s.attempts| ensures KeyOf(s.attempts[i].binding) == s.key { assert ValidAttempt(s.attempts[i], s.key); }
  }
}
