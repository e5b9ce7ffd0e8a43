/** Whole runs of one operation's attempt file: every sequence of calls, with any
    parameters and at any times, starting with no file. And the runs after which no
    attempt can ever begin again: exactly those that leave an unknown outcome oldest
    in a full ring. */
module AttemptRuns {
  import opened Foundations
  import H = HistoryModel
  import opened AttemptModel
  import opened AttemptHistory

  /** A call of the store, with everything its caller and its clock supply. */
  datatype Call =
    | Begin(binding: Binding, attemptId: string, now: int, lease: int)
    | Complete(claim: Claim, report: Report, now: int)
    | Deliver(attemptId: string, generation: nat, now: int, lease: int)
    | Acknowledge(delivery: DeliveryClaim, at: int)
    | ReadBack(attemptId: string, generation: nat, at: int, result: GatusResult)

  /** The call is about the given operation. */
  predicate Concerns(call: Call, key: H.OperationKey) {
    match call
    case Begin(binding, _, _, _) => KeyOf(binding) == key
    case Complete(claim, _, _) => KeyOf(claim.binding) == key
    case Acknowledge(delivery, _) => KeyOf(delivery.binding) == key
    case _ => true
  }

  function Written<T>(found: Option<State>, outcome: Outcome<T>): Option<State> {
    if outcome.Update? && ValidState(outcome.next, outcome.next.key) then Some(outcome.next) else found
  }

  /** The operation's file after the call. */
  function After(key: H.OperationKey, found: Option<State>, call: Call): Option<State> {
    if !Concerns(call, key) then found
    else
      match call
      case Begin(binding, attemptId, now, lease) => Written(found, BeginDecision(found, binding, attemptId, now, lease))
      case Complete(claim, report, now) => Written(found, CompleteDecision(found, claim, report, now))
      case Deliver(attemptId, generation, now, lease) =>
        Written(found, DeliveryDecision(found, attemptId, generation, now, lease))
      case Acknowledge(delivery, at) => Written(found, AcknowledgeDecision(found, delivery, at))
      case ReadBack(attemptId, generation, at, result) =>
        Written(found, ReadbackDecision(found, attemptId, generation, at, result))
  }

  function Run(key: H.OperationKey, found: Option<State>, calls: seq<Call>): Option<State> {
    if |calls| == 0 then found else After(key, Run(key, found, calls[..|calls| - 1]), calls[|calls| - 1])
  }

  lemma {:induction false} RunMore(key: H.OperationKey, found: Option<State>, calls: seq<Call>, call: Call)
    ensures Run(key, found, calls + [call]) == After(key, Run(key, found, calls), call)
  {
    hide After;
    assert (calls + [call])[..|calls|] == calls;
  }

  /** The file, or its absence, goes with the history. */
  predicate FileInv(key: H.OperationKey, found: Option<State>, h: seq<Attempt>) {
    if found.Some? then found.value.key == key && AttemptInv(found.value, h) else h == []
  }

  // ---------------------------------------------------------------------
  // What each call writes
  // ---------------------------------------------------------------------

  function StateIn(found: Option<State>, key: H.OperationKey): State {
    if found.Some? then found.value else EmptyState(key)
  }

  lemma BeginWrites(found: Option<State>, binding: Binding, attemptId: string, now: int, lease: int)
    requires BeginDecision(found, binding, attemptId, now, lease).Update?
    requires found.Some? ==> |found.value.attempts| > 0
    ensures var outcome := BeginDecision(found, binding, attemptId, now, lease);
            var s := StateIn(found, KeyOf(binding));
            if found.Some? && Last(s.attempts).status == Claimed then
              && now >= Last(s.attempts).leaseExpiresAt && outcome.answer.Err?
              && outcome.next == WithAttempt(s, |s.attempts| - 1, Expire(Last(s.attempts), now))
            else
              && ValidBinding(binding) && attemptId != "" && now > 0 && SECOND <= lease <= MAX_LEASE
              && (found.Some? ==> Due(Last(s.attempts), binding, now) && (|s.attempts| >= RING ==> !Keeps(s.attempts[0])))
              && outcome.next == BeginState(s, binding, attemptId, now, lease)
  {
    hide ValidBinding, Due, Keeps, BeginState, Expire;
  }

  lemma CompleteWrites(found: Option<State>, claim: Claim, report: Report, now: int) returns (i: nat)
    requires CompleteDecision(found, claim, report, now).Update?
    ensures found.Some? && i < |found.value.attempts| && found.value.attempts[i].status == Claimed
    ensures ValidReport(report) && now > 0
    ensures CompleteDecision(found, claim, report, now).next == AfterReport(found.value, i, report, now)
  {
    i := Find(found.value.attempts, claim.attemptId, claim.generation);
    hide ValidClaim, ValidReport, AfterReport, Reported;
  }

  lemma DeliverWrites(found: Option<State>, attemptId: string, generation: nat, now: int, lease: int) returns (i: nat)
    requires DeliveryDecision(found, attemptId, generation, now, lease).Update?
    ensures found.Some? && i < |found.value.attempts| && Deliverable(found.value.attempts[i], now) && now > 0
    ensures i == Find(found.value.attempts, attemptId, generation)
    ensures forall j :: 0 <= j < i ==> !Undelivered(found.value.attempts[j])
    ensures DeliveryDecision(found, attemptId, generation, now, lease).next
            == WithAttempt(found.value, i, StartDelivery(found.value.attempts[i], now))
  {
    i := Find(found.value.attempts, attemptId, generation);
    hide Undelivered, StartDelivery;
  }

  lemma AcknowledgeWrites(found: Option<State>, claim: DeliveryClaim, at: int) returns (i: nat)
    requires AcknowledgeDecision(found, claim, at).Update?
    ensures found.Some? && i < |found.value.attempts|
    ensures found.value.attempts[i].delivery == Pending && found.value.attempts[i].result.Some?
    ensures at > 0 && at >= found.value.attempts[i].deliveryStartedAt
    ensures AcknowledgeDecision(found, claim, at).next
            == WithAttempt(found.value, i, found.value.attempts[i].(delivery := Acknowledged, deliveryAckAt := at))
  {
    i := Find(found.value.attempts, claim.attemptId, claim.attemptGeneration);
    hide ValidDeliveryClaim;
  }

  lemma ReadBackWrites(found: Option<State>, attemptId: string, generation: nat, at: int, result: GatusResult)
    returns (i: nat)
    requires ReadbackDecision(found, attemptId, generation, at, result).Update?
    ensures found.Some? && i < |found.value.attempts|
    ensures found.value.attempts[i].delivery == Acknowledged && found.value.attempts[i].result.Some?
    ensures at > 0 && at >= found.value.attempts[i].deliveryAckAt
    ensures ReadbackDecision(found, attemptId, generation, at, result).next
            == WithAttempt(found.value, i, found.value.attempts[i].(gatusReceivedAt := at, gatusResult := Some(result),
                                                                    delivery := ReadbackVerified))
  {
    i := Find(found.value.attempts, attemptId, generation);
  }

  // ---------------------------------------------------------------------
  // Every run keeps the invariant
  // ---------------------------------------------------------------------

  lemma BeginStep(key: H.OperationKey, found: Option<State>, h: seq<Attempt>, call: Call) returns (later: seq<Attempt>)
    requires FileInv(key, found, h) && call.Begin? && Concerns(call, key)
    ensures FileInv(key, After(key, found, call), later) && Evolves(h, later)
  {
    var Begin(binding, attemptId, now, lease) := call;
    var s := StateIn(found, key);
    hide AttemptInv, ValidState, Evolves, Due, Keeps, ValidBinding, Room, MayClaim, BeginDecision, BeginState, WithAttempt;
    EvolvesReflexive(h);
    later := h;
    var outcome := BeginDecision(found, binding, attemptId, now, lease);
    if outcome.Update? && ValidState(outcome.next, outcome.next.key) {
      if found.Some? { InvParts(s, h); }
      BeginWrites(found, binding, attemptId, now, lease);
      if found.Some? && Last(s.attempts).status == Claimed {
        ExpireKeeps(s, h, now);
        later := Changed(s, h, |s.attempts| - 1, Expire(Last(s.attempts), now));
      } else {
        MayClaimIntro(found, h, binding, now);
        BeginKeeps(s, h, binding, attemptId, now, lease);
        later := WithClaim(s, h, binding, attemptId, now, lease);
      }
      KeysKept(s, binding, attemptId, now, lease);
    }
  }

  lemma KeysKept(s: State, binding: Binding, attemptId: string, now: int, lease: int)
    ensures BeginState(s, binding, attemptId, now, lease).key == s.key
    ensures forall i: nat, a: Attempt :: i < |s.attempts| ==> WithAttempt(s, i, a).key == s.key
  {}

  lemma MayClaimIntro(found: Option<State>, h: seq<Attempt>, binding: Binding, now: int)
    requires FileInv(KeyOf(binding), found, h)
    requires found.Some? ==> |found.value.attempts| > 0
    requires found.Some? ==> Last(found.value.attempts).status != Claimed && Due(Last(found.value.attempts), binding, now)
                             && (|found.value.attempts| >= RING ==> !Keeps(found.value.attempts[0]))
    ensures MayClaim(StateIn(found, KeyOf(binding)), h, binding, now)
  {
    hide AttemptInv, Due, Keeps;
  }

  lemma CompleteStep(key: H.OperationKey, found: Option<State>, h: seq<Attempt>, call: Call) returns (later: seq<Attempt>)
    requires FileInv(key, found, h) && call.Complete?
    ensures FileInv(key, After(key, found, call), later) && Evolves(h, later)
  {
    var Complete(claim, report, now) := call;
    hide AttemptInv, ValidState, Evolves, ReportFits, Reported, Changed, ValidAttempt, ValidReport, RecordsStart, Tracks,
         AfterReport, WithAttempt, BeginDecision, CompleteDecision, DeliveryDecision, AcknowledgeDecision, ReadbackDecision;
    EvolvesReflexive(h);
    later := h;
    var outcome := CompleteDecision(found, claim, report, now);
    if Concerns(call, key) && outcome.Update? && ValidState(outcome.next, outcome.next.key) {
      var i := CompleteWrites(found, claim, report, now);
      var s := found.value;
      CompleteKeeps(s, h, i, report, now);
      ReportedRing(s, i, report, now);
      RingKey(s, i, Reported(s.attempts[i], report, now).0);
      TracksOf(s, h);
      later := Changed(s, h, i, Reported(s.attempts[i], report, now).0);
    }
  }

  lemma DeliverStep(key: H.OperationKey, found: Option<State>, h: seq<Attempt>, call: Call) returns (later: seq<Attempt>)
    requires FileInv(key, found, h) && call.Deliver?
    ensures FileInv(key, After(key, found, call), later) && Evolves(h, later)
  {
    var Deliver(attemptId, generation, now, lease) := call;
    hide AttemptInv, ValidState, Evolves, Undelivered, Deliverable, Changed, StartDelivery, ValidAttempt, Tracks,
         BeginDecision, CompleteDecision, DeliveryDecision, AcknowledgeDecision, ReadbackDecision;
    EvolvesReflexive(h);
    later := h;
    var outcome := DeliveryDecision(found, attemptId, generation, now, lease);
    if outcome.Update? && ValidState(outcome.next, outcome.next.key) {
      var i := DeliverWrites(found, attemptId, generation, now, lease);
      var s := found.value;
      StartDeliveryKeeps(s, h, i, now);
      later := Changed(s, h, i, StartDelivery(s.attempts[i], now));
    }
  }

  lemma AcknowledgeStep(key: H.OperationKey, found: Option<State>, h: seq<Attempt>, call: Call) returns (later: seq<Attempt>)
    requires FileInv(key, found, h) && call.Acknowledge?
    ensures FileInv(key, After(key, found, call), later) && Evolves(h, later)
  {
    var Acknowledge(delivery, at) := call;
    hide AttemptInv, ValidState, Evolves, Changed, ValidAttempt, Tracks,
         BeginDecision, CompleteDecision, DeliveryDecision, AcknowledgeDecision, ReadbackDecision;
    EvolvesReflexive(h);
    later := h;
    var outcome := AcknowledgeDecision(found, delivery, at);
    if Concerns(call, key) && outcome.Update? && ValidState(outcome.next, outcome.next.key) {
      var i := AcknowledgeWrites(found, delivery, at);
      var s := found.value;
      AcknowledgeKeeps(s, h, i, at);
      later := Changed(s, h, i, s.attempts[i].(delivery := Acknowledged, deliveryAckAt := at));
    }
  }

  lemma ReadBackStep(key: H.OperationKey, found: Option<State>, h: seq<Attempt>, call: Call) returns (later: seq<Attempt>)
    requires FileInv(key, found, h) && call.ReadBack?
    ensures FileInv(key, After(key, found, call), later) && Evolves(h, later)
  {
    var ReadBack(attemptId, generation, at, result) := call;
    hide AttemptInv, ValidState, Evolves, Changed, ValidAttempt, Tracks, WithAttempt,
         BeginDecision, CompleteDecision, DeliveryDecision, AcknowledgeDecision, ReadbackDecision;
    EvolvesReflexive(h);
    later := h;
    var outcome := ReadbackDecision(found, attemptId, generation, at, result);
    if outcome.Update? && ValidState(outcome.next, outcome.next.key) {
      var i := ReadBackWrites(found, attemptId, generation, at, result);
      var s := found.value;
      ReadbackKeeps(s, h, i, at, result);
      RingKey(s, i, s.attempts[i].(gatusReceivedAt := at, gatusResult := Some(result), delivery := ReadbackVerified));
      later := Changed(s, h, i, s.attempts[i].(gatusReceivedAt := at, gatusResult := Some(result),
                                               delivery := ReadbackVerified));
    }
  }

  lemma StepKeeps(key: H.OperationKey, found: Option<State>, h: seq<Attempt>, call: Call) returns (later: seq<Attempt>)
    requires FileInv(key, found, h)
    ensures FileInv(key, After(key, found, call), later) && Evolves(h, later)
  {
    hide FileInv, Evolves, Written, BeginDecision, CompleteDecision, DeliveryDecision, AcknowledgeDecision, ReadbackDecision;
    EvolvesReflexive(h);
    if !Concerns(call, key) { return h; }
    match call
    case Begin(_, _, _, _) => later := BeginStep(key, found, h, call);
    case Complete(_, _, _) => later := CompleteStep(key, found, h, call);
    case Deliver(_, _, _, _) => later := DeliverStep(key, found, h, call);
    case Acknowledge(_, _) => later := AcknowledgeStep(key, found, h, call);
    case ReadBack(_, _, _, _) => later := ReadBackStep(key, found, h, call);
  }

  /** After any run, some history goes with the file, and it continues the one before. */
  lemma {:induction false} RunKeeps(key: H.OperationKey, found: Option<State>, h: seq<Attempt>, calls: seq<Call>)
    returns (later: seq<Attempt>)
    requires FileInv(key, found, h)
    ensures FileInv(key, Run(key, found, calls), later) && Evolves(h, later)
  {
    hide FileInv, Evolves, After;
    EvolvesReflexive(h);
    later := h;
    if |calls| > 0 {
      var middle := RunKeeps(key, found, h, calls[..|calls| - 1]);
      later := StepKeeps(key, Run(key, found, calls[..|calls| - 1]), middle, calls[|calls| - 1]);
      EvolvesTransitive(h, middle, later);
    }
  }

  lemma AfterIsValid(s: State, call: Call)
    requires ValidState(s, s.key)
    ensures var found := After(s.key, Some(s), call); found.Some? && ValidState(found.value, found.value.key)
  {
    hide ValidState, BeginDecision, CompleteDecision, DeliveryDecision, AcknowledgeDecision, ReadbackDecision;
  }

  // ---------------------------------------------------------------------
  // Deliveries over a run
  // ---------------------------------------------------------------------

  /** The call writes what it decides. */
  predicate Writes<T>(outcome: Outcome<T>) { outcome.Update? && ValidState(outcome.next, outcome.next.key) }

  /** The call is granted the delivery of the given attempt. */
  predicate Grants(found: Option<State>, call: Call, attemptId: string, generation: nat) {
    && call.Deliver? && call.attemptId == attemptId && call.generation == generation
    && Writes(DeliveryDecision(found, attemptId, generation, call.now, call.lease))
  }

  /** The attempt's summary was handed out at the given time or later, or it is not there any more. */
  predicate HandedOut(a: Attempt, since: int) {
    (a.delivery == Pending && a.deliveryStartedAt >= since) || a.delivery in {Acknowledged, ReadbackVerified}
  }

  predicate SentSince(s: State, attemptId: string, generation: nat, since: int) {
    && s.generation >= generation
    && forall i :: 0 <= i < |s.attempts| && s.attempts[i].attemptId == attemptId && s.attempts[i].generation == generation
         ==> HandedOut(s.attempts[i], since)
  }

  lemma GrantSends(s: State, call: Call, attemptId: string, generation: nat)
    requires ValidState(s, s.key) && Grants(Some(s), call, attemptId, generation)
    ensures var next := After(s.key, Some(s), call);
            next.Some? && SentSince(next.value, attemptId, generation, call.now) && next.value.key == s.key
  {
    hide ValidState, Deliverable, Undelivered, BeginDecision, CompleteDecision, AcknowledgeDecision, ReadbackDecision;
    var i := Find(s.attempts, attemptId, generation);
    GenerationsDiffer(s);
  }

  lemma GenerationsDiffer(s: State)
    requires ValidState(s, s.key)
    ensures forall i, j :: 0 <= i < j < |s.attempts| ==> s.attempts[i].generation < s.attempts[j].generation
    ensures forall i :: 0 <= i < |s.attempts| ==> s.attempts[i].generation <= s.generation
  {
    hide ValidAttempt;
  }

  /** A delivery granted later waits for the lease of the one before. */
  lemma GrantWaits(s: State, call: Call, attemptId: string, generation: nat, since: int)
    requires SentSince(s, attemptId, generation, since) && Grants(Some(s), call, attemptId, generation)
    ensures call.now >= since + call.lease && call.lease >= SECOND
  {
    hide ValidState, Undelivered, StartDelivery;
  }

  lemma SentOne(s: State, i: nat, a: Attempt, attemptId: string, generation: nat, since: int)
    requires SentSince(s, attemptId, generation, since) && i < |s.attempts|
    requires a.attemptId == s.attempts[i].attemptId && a.generation == s.attempts[i].generation
    requires HandedOut(s.attempts[i], since) ==> HandedOut(a, since)
    ensures SentSince(WithAttempt(s, i, a), attemptId, generation, since)
  {
    hide HandedOut;
  }

  /** No call hands a summary back. */
  lemma SentStays(s: State, call: Call, attemptId: string, generation: nat, since: int)
    requires ValidState(s, s.key) && SentSince(s, attemptId, generation, since)
    ensures var next := After(s.key, Some(s), call);
            next.Some? && next.value.key == s.key && SentSince(next.value, attemptId, generation, since)
  {
    hide ValidState, ValidAttempt, BeginDecision, CompleteDecision, DeliveryDecision, AcknowledgeDecision, ReadbackDecision,
         WithAttempt, Reported, RecordsStart, ValidBinding, Due, Undelivered, BeginState, ValidReport, SentSince, Keeps;
    var found := Some(s);
    NothingEmpty(s);
    if After(s.key, found, call) != found {
      match call
      case Begin(binding, attemptId', now, lease) =>
        BeginWrites(found, binding, attemptId', now, lease);
        KeysKept(s, binding, attemptId', now, lease);
        if Last(s.attempts).status == Claimed {
          ClaimedIsNotSent(s, |s.attempts| - 1);
          SentOne(s, |s.attempts| - 1, Expire(Last(s.attempts), now), attemptId, generation, since);
        } else {
          SentBegin(s, binding, attemptId', now, lease, attemptId, generation, since);
        }
      case Complete(claim, report, now) =>
        var i := CompleteWrites(found, claim, report, now);
        ClaimedIsNotSent(s, i);
        ReportedSame(s.attempts[i], report, now);
        SentOne(s, i, Reported(s.attempts[i], report, now).0, attemptId, generation, since);
        SentReported(s, i, report, now, attemptId, generation, since);
      case Deliver(attemptId', generation', now, lease) =>
        var i := DeliverWrites(found, attemptId', generation', now, lease);
        DeliverWaits(s, attemptId', generation', now, lease, i, since);
        RingKey(s, i, StartDelivery(s.attempts[i], now));
        SentOne(s, i, StartDelivery(s.attempts[i], now), attemptId, generation, since);
      case Acknowledge(claim, at) =>
        var i := AcknowledgeWrites(found, claim, at);
        RingKey(s, i, s.attempts[i].(delivery := Acknowledged, deliveryAckAt := at));
        SentOne(s, i, s.attempts[i].(delivery := Acknowledged, deliveryAckAt := at), attemptId, generation, since);
      case ReadBack(attemptId', generation', at, result) =>
        var i := ReadBackWrites(found, attemptId', generation', at, result);
        var a := s.attempts[i].(gatusReceivedAt := at, gatusResult := Some(result), delivery := ReadbackVerified);
        RingKey(s, i, a);
        SentOne(s, i, a, attemptId, generation, since);
    }
  }

  lemma NothingEmpty(s: State)
    requires ValidState(s, s.key)
    ensures |s.attempts| > 0
  {}

  lemma ClaimedIsNotSent(s: State, i: nat)
    requires ValidState(s, s.key) && i < |s.attempts| && s.attempts[i].status == Claimed
    ensures s.attempts[i].delivery == NotReady
  {
    assert ValidAttempt(s.attempts[i], s.key);
    hide ValidState, ValidBinding, ValidByDelivery;
  }

  lemma ReportedSame(a: Attempt, report: Report, now: int)
    ensures Reported(a, report, now).0.attemptId == a.attemptId && Reported(a, report, now).0.generation == a.generation
  {}

  lemma SentReported(s: State, i: nat, report: Report, now: int, attemptId: string, generation: nat, since: int)
    requires i < |s.attempts|
    requires SentSince(WithAttempt(s, i, Reported(s.attempts[i], report, now).0), attemptId, generation, since)
    ensures SentSince(AfterReport(s, i, report, now), attemptId, generation, since)
    ensures AfterReport(s, i, report, now).key == s.key
  {
    hide Reported, RecordsStart, HandedOut;
  }

  lemma SentBegin(s: State, binding: Binding, claimId: string, now: int, lease: int, attemptId: string, generation: nat, since: int)
    requires SentSince(s, attemptId, generation, since)
    ensures SentSince(BeginState(s, binding, claimId, now, lease), attemptId, generation, since)
  {
    hide HandedOut;
    var next := BeginState(s, binding, claimId, now, lease);
    var kept := Room(s.attempts);
    forall i | 0 <= i < |kept| && kept[i].attemptId == attemptId && kept[i].generation == generation
      ensures HandedOut(kept[i], since)
    {
      assert kept[i] == s.attempts[|s.attempts| - |kept| + i];
    }
  }

  lemma {:induction false} DeliverWaits(s: State, attemptId: string, generation: nat, now: int, lease: int, i: nat, since: int)
    requires DeliveryDecision(Some(s), attemptId, generation, now, lease).Update?
    requires i == Find(s.attempts, attemptId, generation) && i < |s.attempts|
    ensures StartDelivery(s.attempts[i], now).attemptId == s.attempts[i].attemptId
    ensures StartDelivery(s.attempts[i], now).generation == s.attempts[i].generation
    ensures HandedOut(s.attempts[i], since) ==> HandedOut(StartDelivery(s.attempts[i], now), since)
  {
    hide Undelivered;
  }

  lemma {:induction false} SentUntil(key: H.OperationKey, found: Option<State>, calls: seq<Call>, attemptId: string,
                                     generation: nat, since: int)
    requires found.Some? && found.value.key == key && ValidState(found.value, key)
    requires SentSince(found.value, attemptId, generation, since)
    ensures var later := Run(key, found, calls);
            && later.Some? && later.value.key == key && ValidState(later.value, key)
            && SentSince(later.value, attemptId, generation, since)
  {
    if |calls| > 0 {
      hide ValidState, SentSince, After;
      SentUntil(key, found, calls[..|calls| - 1], attemptId, generation, since);
      var middle := Run(key, found, calls[..|calls| - 1]).value;
      SentStays(middle, calls[|calls| - 1], attemptId, generation, since);
      AfterIsValid(middle, calls[|calls| - 1]);
    }
  }

  lemma {:induction false} RunSplits(key: H.OperationKey, found: Option<State>, calls: seq<Call>, more: seq<Call>)
    ensures Run(key, found, calls + more) == Run(key, Run(key, found, calls), more)
  {
    hide After;
    if |more| == 0 {
      assert calls + more == calls;
    } else {
      var shorter := more[..|more| - 1];
      assert (calls + more)[..|calls + more| - 1] == calls + shorter;
      RunSplits(key, found, calls, shorter);
    }
  }

  /** A summary is never in two hands: over any run, two granted deliveries of one attempt
      are at least the later one's lease apart. */
  lemma {:induction false} DeliveriesApart(key: H.OperationKey, found: Option<State>, h: seq<Attempt>, calls: seq<Call>, i: nat, j: nat,
                        attemptId: string, generation: nat)
    requires FileInv(key, found, h) && i < j < |calls|
    requires Grants(Run(key, found, calls[..i]), calls[i], attemptId, generation)
    requires Grants(Run(key, found, calls[..j]), calls[j], attemptId, generation)
    ensures calls[j].now >= calls[i].now + calls[j].lease
  {
    hide FileInv, ValidState, SentSince, After, Grants;
    var at := RunKeeps(key, found, h, calls[..i]);
    FileIsValid(key, Run(key, found, calls[..i]), at, calls[i], attemptId, generation);
    var s := Run(key, found, calls[..i]).value;
    GrantSends(s, calls[i], attemptId, generation);
    AfterIsValid(s, calls[i]);
    var between := calls[i + 1..j];
    RunMore(key, found, calls[..i], calls[i]);
    assert calls[..i] + [calls[i]] == calls[..i + 1];
    assert calls[..i + 1] + between == calls[..j];
    RunSplits(key, found, calls[..i + 1], between);
    GrantIsDeliver(Run(key, found, calls[..i]), calls[i], attemptId, generation);
    GrantIsDeliver(Run(key, found, calls[..j]), calls[j], attemptId, generation);
    SentUntil(key, After(key, Some(s), calls[i]), between, attemptId, generation, calls[i].now);
    GrantWaits(Run(key, found, calls[..j]).value, calls[j], attemptId, generation, calls[i].now);
  }

  lemma GrantIsDeliver(found: Option<State>, call: Call, attemptId: string, generation: nat)
    requires Grants(found, call, attemptId, generation)
    ensures call.Deliver? && call.attemptId == attemptId && call.generation == generation
  {}

  lemma FileIsValid(key: H.OperationKey, found: Option<State>, h: seq<Attempt>, call: Call, attemptId: string, generation: nat)
    requires FileInv(key, found, h) && Grants(found, call, attemptId, generation)
    ensures found.Some? && found.value.key == key && ValidState(found.value, key)
  {
    hide ValidState;
    if found.Some? { InvParts(found.value, h); }
    hide AttemptInv;
  }

  /** The delivery generation of the last claim that was granted for the attempt. */
  function LastGrant(key: H.OperationKey, calls: seq<Call>, attemptId: string, generation: nat): Option<nat> {
    if |calls| == 0 then None
    else
      var before, call := Run(key, None, calls[..|calls| - 1]), calls[|calls| - 1];
      if Grants(before, call, attemptId, generation) then
        var answer := DeliveryDecision(before, attemptId, generation, call.now, call.lease).answer;
        if answer.Ok? then Some(answer.value.deliveryGeneration) else None
      else LastGrant(key, calls[..|calls| - 1], attemptId, generation)
  }

  /** Every summary under way carries the generation of the last claim granted for it. */
  predicate GrantsFiled(key: H.OperationKey, calls: seq<Call>, s: State) {
    forall i :: 0 <= i < |s.attempts| && s.attempts[i].delivery == Pending ==>
      LastGrant(key, calls, s.attempts[i].attemptId, s.attempts[i].generation) == Some(s.attempts[i].deliveryGeneration)
  }

  /** Of the attempts the file has afterwards, those with a summary under way had it
      before, under the same generation, but for the one a delivery is granted for. */
  predicate OnlyGranted(s: State, next: State, call: Call) {
    forall k :: 0 <= k < |next.attempts| && next.attempts[k].delivery == Pending ==>
      var a := next.attempts[k];
      if Grants(Some(s), call, a.attemptId, a.generation) then
        var answer := DeliveryDecision(Some(s), a.attemptId, a.generation, call.now, call.lease).answer;
        answer.Ok? && answer.value.deliveryGeneration == a.deliveryGeneration
      else StillPending(s, a)
  }

  predicate StillPending(s: State, a: Attempt) {
    exists i :: 0 <= i < |s.attempts| && s.attempts[i].delivery == Pending && s.attempts[i].attemptId == a.attemptId
                && s.attempts[i].generation == a.generation && s.attempts[i].deliveryGeneration == a.deliveryGeneration
  }

  lemma PendingStays(s: State, next: State, i: nat, a: Attempt, call: Call)
    requires i < |s.attempts| && next.attempts == s.attempts[i := a]
    requires !call.Deliver?
    requires a.delivery == Pending ==> StillPending(s, a)
    ensures OnlyGranted(s, next, call)
  {
    forall k | 0 <= k < |next.attempts| && next.attempts[k].delivery == Pending ensures StillPending(s, next.attempts[k]) {
      if k != i { assert next.attempts[k] == s.attempts[k]; }
    }
    hide StillPending, DeliveryDecision;
  }

  lemma PendingClaimed(s: State, binding: Binding, claimId: string, now: int, lease: int, call: Call)
    requires !call.Deliver?
    ensures OnlyGranted(s, BeginState(s, binding, claimId, now, lease), call)
  {
    var next := BeginState(s, binding, claimId, now, lease);
    var kept := Room(s.attempts);
    forall k | 0 <= k < |next.attempts| && next.attempts[k].delivery == Pending ensures StillPending(s, next.attempts[k]) {
      assert k < |kept| && kept[k] == s.attempts[|s.attempts| - |kept| + k];
    }
    hide StillPending, DeliveryDecision;
  }

  lemma PendingGranted(s: State, i: nat, call: Call)
    requires ValidState(s, s.key) && call.Deliver? && i == Find(s.attempts, call.attemptId, call.generation) && i < |s.attempts|
    requires Writes(DeliveryDecision(Some(s), call.attemptId, call.generation, call.now, call.lease))
    ensures OnlyGranted(s, WithAttempt(s, i, StartDelivery(s.attempts[i], call.now)), call)
  {
    GenerationsDiffer(s);
    hide ValidState, Deliverable, Undelivered;
    var next := WithAttempt(s, i, StartDelivery(s.attempts[i], call.now));
    forall k | 0 <= k < |next.attempts| && k != i && next.attempts[k].delivery == Pending
      ensures StillPending(s, next.attempts[k]) && next.attempts[k].generation != call.generation
    {
      assert next.attempts[k] == s.attempts[k];
    }
    hide StillPending;
  }

  lemma PendingKeeps(s: State, call: Call)
    requires ValidState(s, s.key)
    ensures var next := After(s.key, Some(s), call); next.Some? && OnlyGranted(s, next.value, call)
  {
    hide ValidState, ValidAttempt, BeginDecision, CompleteDecision, DeliveryDecision, AcknowledgeDecision, ReadbackDecision,
         Reported, RecordsStart, ValidBinding, Due, Undelivered, BeginState, ValidReport, Keeps, OnlyGranted;
    var found := Some(s);
    NothingEmpty(s);
    if After(s.key, found, call) == found {
      NothingGranted(s, call);
    } else {
      match call
      case Begin(binding, attemptId, now, lease) =>
        BeginWrites(found, binding, attemptId, now, lease);
        if Last(s.attempts).status == Claimed {
          ClaimedIsNotSent(s, |s.attempts| - 1);
          PendingStays(s, WithAttempt(s, |s.attempts| - 1, Expire(Last(s.attempts), now)), |s.attempts| - 1,
                       Expire(Last(s.attempts), now), call);
        } else {
          PendingClaimed(s, binding, attemptId, now, lease, call);
        }
      case Complete(claim, report, now) =>
        var i := CompleteWrites(found, claim, report, now);
        ClaimedIsNotSent(s, i);
        ReportedUnsent(s.attempts[i], report, now);
        ReportedRing(s, i, report, now);
        PendingStays(s, AfterReport(s, i, report, now), i, Reported(s.attempts[i], report, now).0, call);
      case Deliver(attemptId, generation, now, lease) =>
        var i := DeliverWrites(found, attemptId, generation, now, lease);
        PendingGranted(s, i, call);
      case Acknowledge(claim, at) =>
        var i := AcknowledgeWrites(found, claim, at);
        PendingStays(s, WithAttempt(s, i, s.attempts[i].(delivery := Acknowledged, deliveryAckAt := at)), i,
                     s.attempts[i].(delivery := Acknowledged, deliveryAckAt := at), call);
      case ReadBack(attemptId, generation, at, result) =>
        var i := ReadBackWrites(found, attemptId, generation, at, result);
        var a := s.attempts[i].(gatusReceivedAt := at, gatusResult := Some(result), delivery := ReadbackVerified);
        PendingStays(s, WithAttempt(s, i, a), i, a, call);
    }
  }

  lemma ReportedUnsent(a: Attempt, report: Report, now: int)
    requires a.delivery == NotReady
    ensures Reported(a, report, now).0.delivery != Pending
  {}

  lemma NothingGranted(s: State, call: Call)
    requires After(s.key, Some(s), call) == Some(s)
    ensures OnlyGranted(s, s, call)
  {
    hide ValidState, BeginDecision, CompleteDecision, AcknowledgeDecision, ReadbackDecision, Deliverable, Undelivered;
    forall k | 0 <= k < |s.attempts| && s.attempts[k].delivery == Pending
      ensures StillPending(s, s.attempts[k]) && !Grants(Some(s), call, s.attempts[k].attemptId, s.attempts[k].generation)
    {}
    hide StillPending, Grants;
  }

  lemma {:induction false} GrantsAreFiled(key: H.OperationKey, calls: seq<Call>)
    ensures var found := Run(key, None, calls);
            found.Some? ==> found.value.key == key && ValidState(found.value, key) && GrantsFiled(key, calls, found.value)
  {
    if |calls| > 0 {
      var earlier, call := calls[..|calls| - 1], calls[|calls| - 1];
      GrantsAreFiled(key, earlier);
      var found := Run(key, None, earlier);
      if found.Some? {
        hide ValidState, After, Grants, DeliveryDecision;
        PendingKeeps(found.value, call);
        AfterIsValid(found.value, call);
        var h := RunKeeps(key, None, [], calls);
        assert Run(key, None, calls) == After(key, found, call);
        FiledNext(key, calls, found.value, After(key, found, call).value);
        if Run(key, None, calls).Some? { KeyOfFile(key, Run(key, None, calls), h); }
      } else {
        FirstCall(key, calls);
      }
    }
  }

  lemma KeyOfFile(key: H.OperationKey, found: Option<State>, h: seq<Attempt>)
    requires FileInv(key, found, h) && found.Some?
    ensures found.value.key == key && ValidState(found.value, key)
  {
    InvParts(found.value, h);
    hide AttemptInv, ValidState;
  }

  lemma {:induction false} FiledNext(key: H.OperationKey, calls: seq<Call>, s: State, next: State)
    requires |calls| > 0 && Run(key, None, calls[..|calls| - 1]) == Some(s)
    requires GrantsFiled(key, calls[..|calls| - 1], s) && OnlyGranted(s, next, calls[|calls| - 1])
    ensures GrantsFiled(key, calls, next)
  {
    hide Run, Grants, DeliveryDecision;
    forall k | 0 <= k < |next.attempts| && next.attempts[k].delivery == Pending
      ensures LastGrant(key, calls, next.attempts[k].attemptId, next.attempts[k].generation)
              == Some(next.attempts[k].deliveryGeneration)
    {
      var a := next.attempts[k];
      if !Grants(Some(s), calls[|calls| - 1], a.attemptId, a.generation) {
        var i :| 0 <= i < |s.attempts| && s.attempts[i].delivery == Pending && s.attempts[i].attemptId == a.attemptId
                 && s.attempts[i].generation == a.generation && s.attempts[i].deliveryGeneration == a.deliveryGeneration;
        assert LastGrant(key, calls[..|calls| - 1], s.attempts[i].attemptId, s.attempts[i].generation) == Some(a.deliveryGeneration);
      }
    }
  }

  lemma {:induction false} FirstCall(key: H.OperationKey, calls: seq<Call>)
    requires |calls| > 0 && Run(key, None, calls[..|calls| - 1]).None?
    ensures var found := Run(key, None, calls);
            found.Some? ==> found.value.key == key && ValidState(found.value, key) && GrantsFiled(key, calls, found.value)
  {
    var h := RunKeeps(key, None, [], calls);
    var call := calls[|calls| - 1];
    if Run(key, None, calls).Some? {
      KeyOfFile(key, Run(key, None, calls), h);
      hide ValidState, ValidBinding, CompleteDecision, DeliveryDecision, AcknowledgeDecision, ReadbackDecision, AttemptInv, Evolves;
      assert call.Begin? by { OnlyBeginCreates(key, call); }
      FirstClaim(key, call);
    }
  }

  lemma OnlyBeginCreates(key: H.OperationKey, call: Call)
    requires After(key, None, call).Some?
    ensures call.Begin?
  {
    hide ValidState;
  }

  lemma FirstClaim(key: H.OperationKey, call: Call)
    requires call.Begin? && After(key, None, call).Some?
    ensures forall i :: 0 <= i < |After(key, None, call).value.attempts| ==>
              After(key, None, call).value.attempts[i].delivery == NotReady
  {
    hide ValidState, ValidBinding;
  }

  /** An acknowledgement is only ever written under the last claim that was granted: the
      holder of an earlier one has lost it. */
  lemma {:induction false} AcknowledgedByLast(key: H.OperationKey, calls: seq<Call>, claim: DeliveryClaim, at: int)
    requires KeyOf(claim.binding) == key && Writes(AcknowledgeDecision(Run(key, None, calls), claim, at))
    ensures LastGrant(key, calls, claim.attemptId, claim.attemptGeneration) == Some(claim.deliveryGeneration)
  {
    GrantsAreFiled(key, calls);
    hide ValidState, LastGrant, Run, ValidDeliveryClaim;
  }

  // ---------------------------------------------------------------------
  // A full ring behind an unknown outcome
  // ---------------------------------------------------------------------

  predicate Wedged(s: State) { |s.attempts| == RING && s.attempts[0].status == Unknown }

  /** The call claims a new attempt. */
  predicate Claims(key: H.OperationKey, found: Option<State>, call: Call) {
    && call.Begin? && Concerns(call, key)
    && var outcome := BeginDecision(found, call.binding, call.attemptId, call.now, call.lease);
       outcome.Update? && outcome.answer.Ok? && ValidState(outcome.next, outcome.next.key)
  }

  /** Some run of calls leads to a claim. */
  ghost predicate MayClaimAgain(s: State) {
    exists calls: seq<Call>, call: Call :: Claims(s.key, Run(s.key, Some(s), calls), call)
  }

  lemma LaterChange(s: State, i: nat, a: Attempt)
    requires Wedged(s) && i < |s.attempts| && s.attempts[i].status != Unknown
    ensures Wedged(WithAttempt(s, i, a))
  {}

  lemma UnderWayIsObserved(s: State, i: nat)
    requires ValidState(s, s.key) && i < |s.attempts| && s.attempts[i].delivery in {Pending, Acknowledged}
    ensures s.attempts[i].status == Observed
  {
    assert ValidAttempt(s.attempts[i], s.key);
    hide ValidState, ValidByStatus;
  }

  /** The oldest attempt is never the one a call changes. */
  lemma OldestStays(s: State, call: Call)
    requires ValidState(s, s.key) && Wedged(s)
    ensures var found := After(s.key, Some(s), call); found.Some? && found.value.key == s.key && Wedged(found.value)
  {
    hide ValidState, ValidAttempt, BeginDecision, CompleteDecision, DeliveryDecision, AcknowledgeDecision, ReadbackDecision,
         WithAttempt, Wedged, Reported, RecordsStart, StartDelivery, ValidBinding, Due, Undelivered, BeginState, ValidReport,
         Expire;
    assert |s.attempts| == RING && Keeps(s.attempts[0]) by { WedgedParts(s); }
    if After(s.key, Some(s), call) != Some(s) {
      match call
      case Begin(binding, attemptId, now, lease) =>
        BeginWrites(Some(s), binding, attemptId, now, lease);
        LaterChange(s, |s.attempts| - 1, Expire(Last(s.attempts), now));
        KeysKept(s, binding, attemptId, now, lease);
      case Complete(claim, report, now) =>
        var i := CompleteWrites(Some(s), claim, report, now);
        LaterChange(s, i, Reported(s.attempts[i], report, now).0);
        ReportedRing(s, i, report, now);
      case Deliver(attemptId, generation, now, lease) =>
        var i := DeliverWrites(Some(s), attemptId, generation, now, lease);
        LaterChange(s, i, StartDelivery(s.attempts[i], now));
        RingKey(s, i, StartDelivery(s.attempts[i], now));
      case Acknowledge(claim, at) =>
        var i := AcknowledgeWrites(Some(s), claim, at);
        UnderWayIsObserved(s, i);
        LaterChange(s, i, s.attempts[i].(delivery := Acknowledged, deliveryAckAt := at));
        RingKey(s, i, s.attempts[i].(delivery := Acknowledged, deliveryAckAt := at));
      case ReadBack(attemptId, generation, at, result) =>
        var i := ReadBackWrites(Some(s), attemptId, generation, at, result);
        var a := s.attempts[i].(gatusReceivedAt := at, gatusResult := Some(result), delivery := ReadbackVerified);
        UnderWayIsObserved(s, i);
        LaterChange(s, i, a);
        RingKey(s, i, a);
    }
  }

  lemma WedgedParts(s: State)
    requires Wedged(s)
    ensures |s.attempts| == RING && Keeps(s.attempts[0])
  {}

  lemma RingKey(s: State, i: nat, a: Attempt)
    requires i < |s.attempts|
    ensures WithAttempt(s, i, a).key == s.key
  {}

  lemma ReportedRing(s: State, i: nat, report: Report, now: int)
    requires i < |s.attempts|
    ensures var next := WithAttempt(s, i, Reported(s.attempts[i], report, now).0);
            AfterReport(s, i, report, now).attempts == next.attempts && AfterReport(s, i, report, now).key == s.key
    ensures Wedged(WithAttempt(s, i, Reported(s.attempts[i], report, now).0)) <==> Wedged(AfterReport(s, i, report, now))
  {
    hide Reported, RecordsStart;
  }

  lemma WedgedRefuses(s: State, call: Call)
    requires Wedged(s)
    ensures !Claims(s.key, Some(s), call)
  {
    hide ValidState, ValidBinding, Due;
  }

  /** An outcome that stayed unknown never leaves the ring. Once it is the oldest of a
      full one, it stays so over every run, and no run leads to a claim. */
  lemma {:induction false} WedgedForever(s: State, calls: seq<Call>)
    requires ValidState(s, s.key) && Wedged(s)
    ensures var found := Run(s.key, Some(s), calls);
            found.Some? && ValidState(found.value, found.value.key) && found.value.key == s.key && Wedged(found.value)
  {
    if |calls| > 0 {
      hide ValidState, Wedged, After;
      WedgedForever(s, calls[..|calls| - 1]);
      var middle := Run(s.key, Some(s), calls[..|calls| - 1]).value;
      OldestStays(middle, calls[|calls| - 1]);
      AfterIsValid(middle, calls[|calls| - 1]);
    }
  }

  lemma WedgedNeverClaims(s: State)
    requires ValidState(s, s.key) && Wedged(s)
    ensures !MayClaimAgain(s)
  {
    hide ValidState, Wedged, Claims, Run;
    forall calls: seq<Call>, call: Call ensures !Claims(s.key, Run(s.key, Some(s), calls), call) {
      WedgedForever(s, calls);
      WedgedRefuses(Run(s.key, Some(s), calls).value, call);
    }
  }

  // ---------------------------------------------------------------------
  // When the next claim is granted
  // ---------------------------------------------------------------------

  /** The reporter asked no provider because the quota's window is being drained. */
  predicate ReportsDrain(r: Report) { r == Hold(QuotaWindowDraining, Some(Deferral(QuotaStage, WindowDraining))) }

  /** A minimum period after the claim's start, the longer of both bindings' own; but half a
      minute after a drain that was reported in time, for the same binding. */
  predicate TimeHasCome(c: Claim, r: Report, at: int, binding: Binding, now: int) {
    if ReportsDrain(r) && at < c.expiresAt && binding == c.binding && at <= now then now >= at + 30 * SECOND
    else now >= c.startedAt + c.binding.period && now >= c.startedAt + binding.period
  }

  lemma LastIsFound(s: State, c: Claim)
    requires ValidState(s, s.key) && Owns(c, Last(s.attempts))
    ensures Find(s.attempts, c.attemptId, c.generation) == |s.attempts| - 1
  {
    hide ValidAttempt;
  }

  /** How soon the reported attempt lets another begin. */
  lemma ReportedIsDueIff(a: Attempt, c: Claim, r: Report, at: int, binding: Binding, now: int)
    requires ValidAttempt(a, KeyOf(binding)) && Owns(c, a) && ValidAttempt(Reported(a, r, at).0, KeyOf(binding))
    requires ValidBinding(binding) && now > 0
    ensures Due(Reported(a, r, at).0, binding, now) <==> TimeHasCome(c, r, at, binding, now)
    ensures Reported(a, r, at).0.status != Claimed
  {}

  /** After a report that was written, the next claim is granted exactly when its time has
      come and the oldest attempt of a full ring may leave it. */
  lemma NextClaimIff(s: State, c: Claim, r: Report, at: int, binding: Binding, attemptId: string, now: int, lease: int)
    requires ValidState(s, s.key) && Owns(c, Last(s.attempts)) && KeyOf(binding) == s.key
    requires var reported := CompleteDecision(Some(s), c, r, at); reported.Update? && ValidState(reported.next, s.key)
    requires ValidBinding(binding) && attemptId != "" && now > 0 && SECOND <= lease <= MAX_LEASE
    ensures var next := CompleteDecision(Some(s), c, r, at).next;
            var outcome := BeginDecision(Some(next), binding, attemptId, now, lease);
            && (outcome.Update? && outcome.answer.Ok?
                <==> TimeHasCome(c, r, at, binding, now) && (|s.attempts| < RING || !Keeps(next.attempts[0])))
            && (outcome == Refuse(NotDue) <==> !TimeHasCome(c, r, at, binding, now))
  {
    hide Reported, ValidAttempt, ValidBinding, TimeHasCome, Due, Keeps, BeginState, RecordsStart, ValidReport, Find;
    LastIsFound(s, c);
    var last := |s.attempts| - 1;
    var next := CompleteDecision(Some(s), c, r, at).next;
    assert next.attempts == s.attempts[last := Reported(s.attempts[last], r, at).0];
    ReportedIsDueIff(s.attempts[last], c, r, at, binding, now);
  }

  // ---------------------------------------------------------------------
  // What a report makes of a claim, and who may deliver
  // ---------------------------------------------------------------------

  /** A report is taken if it is a failure, or comes before the lease is over with an
      observation, if any, made in between. Anything late, and every failure, is an unknown
      outcome; an observation whose meaning is not established is never to be delivered. */
  lemma ReportedOutcome(a: Attempt, r: Report, now: int)
    ensures var (b, error) := Reported(a, r, now);
            var inTime := now < a.leaseExpiresAt;
            var fits := r.Result? ==> a.startedAt <= r.observation.observedAt <= now
                                      && (r.observation.receivedAt != 0 ==> r.observation.observedAt <= r.observation.receivedAt <= now);
            && b.finishedAt == now && (error.None? <==> r.Failure? || (inTime && fits))
            && (b.status == Unknown <==> r.Failure? || !inTime)
            && (b.status == Observed <==> inTime && r.Result? && fits)
            && (b.status == RequestStarted <==> inTime && r.Started?)
            && (b.status == Deferred <==> inTime && r.Hold?)
            && (b.status == Failed <==> inTime && (r.Blocked? || (r.Result? && !fits)))
            && (b.status == Observed && ValidReport(r) ==>
                  b.delivery == if r.observation.category == SemanticsUnestablished then NotApplicable else NotReady)
  {}

  /** The attempt that is meant, and where it is in the ring. */
  predicate IsAt(s: State, i: nat, attemptId: string, generation: nat) {
    i < |s.attempts| && s.attempts[i].attemptId == attemptId && s.attempts[i].generation == generation
  }

  predicate Settled(a: Attempt) { a.status == Observed ==> a.delivery in {ReadbackVerified, NotApplicable} }

  /** It is there to be delivered: observed, with nothing before it to be delivered first. */
  predicate InTurn(s: State, i: nat, now: int)
    requires i < |s.attempts|
  {
    var a := s.attempts[i];
    && a.status == Observed && a.result.Some? && a.result.value.receivedAt <= now
    && (a.delivery == NotReady || a.delivery == Pending) && forall j: nat :: j < i ==> Settled(s.attempts[j])
  }

  lemma FoundIff(s: State, attemptId: string, generation: nat)
    requires ValidState(s, s.key)
    ensures var i := Find(s.attempts, attemptId, generation);
            forall j: nat :: IsAt(s, j, attemptId, generation) <==> j == i < |s.attempts|
  {
    hide ValidAttempt;
  }

  lemma SettledIff(a: Attempt, key: H.OperationKey)
    requires ValidAttempt(a, key)
    ensures Settled(a) <==> !Undelivered(a)
  {}

  lemma TurnIff(s: State, i: nat, now: int)
    requires ValidState(s, s.key) && i < |s.attempts|
    ensures InTurn(s, i, now) <==> Deliverable(s.attempts[i], now) && !exists j :: 0 <= j < i && Undelivered(s.attempts[j])
  {
    hide ValidAttempt, Settled, Undelivered;
    forall j: nat | j < i ensures Settled(s.attempts[j]) <==> !Undelivered(s.attempts[j]) { SettledIff(s.attempts[j], s.key); }
  }

  /** A summary is handed out exactly to whoever names the attempt whose turn it is, unless a
      lease on it is still running. */
  lemma HandedOutIff(s: State, attemptId: string, generation: nat, now: int, lease: int)
    requires ValidState(s, s.key) && attemptId != "" && generation > 0 && now > 0 && SECOND <= lease <= MAX_LEASE
    ensures var decision := DeliveryDecision(Some(s), attemptId, generation, now, lease);
            && (decision.Update? <==>
                  exists i: nat :: IsAt(s, i, attemptId, generation) && InTurn(s, i, now)
                                   && (s.attempts[i].delivery == Pending ==> s.attempts[i].deliveryStartedAt + lease <= now))
            && (decision == Refuse(Held) <==>
                  exists i: nat :: IsAt(s, i, attemptId, generation) && InTurn(s, i, now)
                                   && s.attempts[i].delivery == Pending && now < s.attempts[i].deliveryStartedAt + lease)
  {
    FoundIff(s, attemptId, generation);
    hide Find, ValidState, InTurn, Deliverable, Undelivered, IsAt, StartDelivery;
    var i := Find(s.attempts, attemptId, generation);
    if i < |s.attempts| {
      assert IsAt(s, i, attemptId, generation);
      TurnIff(s, i, now);
    }
  }

  /** What has been handed out is acknowledged exactly by the generation of the last hand-out
      and not before it; and read back exactly after that. */
  lemma AnsweredIff(s: State, claim: DeliveryClaim, at: int, result: GatusResult)
    requires ValidState(s, s.key) && ValidDeliveryClaim(claim) && at > 0
    ensures AcknowledgeDecision(Some(s), claim, at).Update? <==>
              exists i: nat :: IsAt(s, i, claim.attemptId, claim.attemptGeneration) && s.attempts[i].delivery == Pending
                               && s.attempts[i].deliveryGeneration == claim.deliveryGeneration && s.attempts[i].deliveryStartedAt <= at
    ensures ReadbackDecision(Some(s), claim.attemptId, claim.attemptGeneration, at, result).Update? <==>
              exists i: nat :: IsAt(s, i, claim.attemptId, claim.attemptGeneration) && s.attempts[i].delivery == Acknowledged
                               && s.attempts[i].deliveryAckAt <= at
  {
    FoundIff(s, claim.attemptId, claim.attemptGeneration);
    hide Find;
    var i := Find(s.attempts, claim.attemptId, claim.attemptGeneration);
    if i < |s.attempts| {
      assert IsAt(s, i, claim.attemptId, claim.attemptGeneration);
      assert ValidAttempt(s.attempts[i], s.key);
    }
  }

  // ---------------------------------------------------------------------
  // Every other state gets to its next attempt
  // ---------------------------------------------------------------------

  /** A time at which nothing that is written down is still to come. */
  function Latest(a: Attempt): int {
    Longer(Longer(a.startedAt + a.binding.period, a.finishedAt + RETRY_DELAY),
           Longer(a.leaseExpiresAt, 1))
  }

  lemma LatestIsDue(a: Attempt, key: H.OperationKey)
    requires ValidAttempt(a, key)
    ensures Due(a, a.binding, Latest(a)) && Latest(a) > 0 && Latest(a) >= a.leaseExpiresAt
  {}

  /** Once nobody holds the last claim and the oldest attempt may leave, the next one begins. */
  lemma FreeBegins(s: State, h: seq<Attempt>)
    requires AttemptInv(s, h) && Last(s.attempts).status != Claimed
    requires |s.attempts| >= RING ==> !Keeps(s.attempts[0])
    ensures MayClaimAgain(s)
  {
    hide AttemptInv, ValidState, ValidAttempt, Due, Keeps, Room, Latest;
    InvParts(s, h);
    RingAttempt(s, h, |s.attempts| - 1);
    var last := Last(s.attempts);
    LatestIsDue(last, s.key);
    ValidParts(last, s.key);
    var call := Begin(last.binding, "attempt", Latest(last), SECOND);
    MayClaimIntro(Some(s), h, last.binding, call.now);
    BeginKeeps(s, h, last.binding, "attempt", call.now, SECOND);
    StateOfInv(BeginState(s, last.binding, "attempt", call.now, SECOND),
               WithClaim(s, h, last.binding, "attempt", call.now, SECOND));
    assert Claims(s.key, Some(s), call);
    assert Run(s.key, Some(s), []) == Some(s);
  }

  lemma ValidParts(a: Attempt, key: H.OperationKey)
    requires ValidAttempt(a, key)
    ensures ValidBinding(a.binding) && KeyOf(a.binding) == key && a.attemptId != ""
  {}

  lemma {:induction false} RunFirst(key: H.OperationKey, found: Option<State>, call: Call, calls: seq<Call>)
    ensures Run(key, found, [call] + calls) == Run(key, After(key, found, call), calls)
  {
    hide After;
    if |calls| == 0 {
      assert ([call] + calls)[..0] == [];
      assert Run(key, found, []) == found;
    } else {
      var all := [call] + calls;
      assert all[..|all| - 1] == [call] + calls[..|calls| - 1];
      RunFirst(key, found, call, calls[..|calls| - 1]);
    }
  }

  /** What is possible after a call is possible before it. */
  lemma OneStepBefore(s: State, call: Call, next: State)
    requires After(s.key, Some(s), call) == Some(next) && next.key == s.key && MayClaimAgain(next)
    ensures MayClaimAgain(s)
  {
    hide Claims, Run, After;
    var calls: seq<Call>, last: Call :| Claims(next.key, Run(next.key, Some(next), calls), last);
    RunFirst(s.key, Some(s), call, calls);
    assert Claims(s.key, Run(s.key, Some(s), [call] + calls), last);
  }

  /** The oldest attempt is the one its own identity finds. */
  lemma OldestIsFound(s: State)
    requires ValidState(s, s.key)
    ensures Find(s.attempts, s.attempts[0].attemptId, s.attempts[0].generation) == 0
    ensures s.attempts[0].attemptId != "" && s.attempts[0].generation > 0
  {
    assert ValidAttempt(s.attempts[0], s.key);
    hide ValidByStatus, ValidByDelivery, ValidBinding;
  }

  /** A full ring whose oldest attempt has a summary still to be read back. */
  predicate Waits(s: State, delivery: DeliveryStatus) {
    && |s.attempts| == RING && Last(s.attempts).status != Claimed
    && s.attempts[0].status == Observed && s.attempts[0].delivery == delivery
  }

  lemma WaitingParts(s: State, h: seq<Attempt>)
    requires AttemptInv(s, h) && s.attempts[0].status == Observed
    ensures s.attempts[0].result.Some? && ValidObservation(s.attempts[0].result.value) && ValidBinding(s.attempts[0].binding)
    ensures KeyOf(s.attempts[0].binding) == s.key
    ensures s.attempts[0].delivery == NotReady ==> s.attempts[0].deliveryAttempts == 0
    ensures s.attempts[0].delivery == Pending ==> s.attempts[0].deliveryGeneration > 0
  {
    InvParts(s, h);
    RingAttempt(s, h, 0);
    hide AttemptInv, ValidObservation, ValidBinding;
  }

  lemma AcknowledgedBegins(s: State, h: seq<Attempt>)
    requires AttemptInv(s, h) && Waits(s, Acknowledged)
    ensures MayClaimAgain(s)
  {
    hide AttemptInv, ValidState, ValidAttempt, ValidObservation, ValidBinding, MayClaimAgain, Find;
    var a := s.attempts[0];
    var at := Longer(a.deliveryAckAt, 1);
    StateOfInv(s, h);
    OldestIsFound(s);
    WaitingParts(s, h);
    ReadbackKeeps(s, h, 0, at, GatusHealthy);
    var b := a.(gatusReceivedAt := at, gatusResult := Some(GatusHealthy), delivery := ReadbackVerified);
    var next := WithAttempt(s, 0, b);
    StateOfInv(next, Changed(s, h, 0, b));
    FreeBegins(next, Changed(s, h, 0, b));
    OneStepBefore(s, ReadBack(a.attemptId, a.generation, at, GatusHealthy), next);
  }

  lemma PendingBegins(s: State, h: seq<Attempt>)
    requires AttemptInv(s, h) && Waits(s, Pending)
    ensures MayClaimAgain(s)
  {
    hide AttemptInv, ValidState, ValidAttempt, ValidObservation, ValidBinding, MayClaimAgain, Find;
    var a := s.attempts[0];
    var at := Longer(a.deliveryStartedAt, 1);
    StateOfInv(s, h);
    OldestIsFound(s);
    WaitingParts(s, h);
    AcknowledgeKeeps(s, h, 0, at);
    var b := a.(delivery := Acknowledged, deliveryAckAt := at);
    var next := WithAttempt(s, 0, b);
    StateOfInv(next, Changed(s, h, 0, b));
    AcknowledgedBegins(next, Changed(s, h, 0, b));
    var claim := DeliveryClaim(a.binding, a.attemptId, a.generation, a.deliveryGeneration, 1, a.result.value);
    OneStepBefore(s, Acknowledge(claim, at), next);
  }

  lemma ObservedBegins(s: State, h: seq<Attempt>)
    requires AttemptInv(s, h) && Waits(s, NotReady)
    ensures MayClaimAgain(s)
  {
    hide AttemptInv, ValidState, ValidAttempt, ValidObservation, ValidBinding, MayClaimAgain, Find;
    var a := s.attempts[0];
    StateOfInv(s, h);
    OldestIsFound(s);
    WaitingParts(s, h);
    var now := Longer(a.result.value.receivedAt, 1);
    StartDeliveryKeeps(s, h, 0, now);
    var next := WithAttempt(s, 0, StartDelivery(a, now));
    StateOfInv(next, Changed(s, h, 0, StartDelivery(a, now)));
    PendingBegins(next, Changed(s, h, 0, StartDelivery(a, now)));
    OneStepBefore(s, Deliver(a.attemptId, a.generation, now, SECOND), next);
  }

  lemma IdleBegins(s: State, h: seq<Attempt>)
    requires AttemptInv(s, h) && Last(s.attempts).status != Claimed && !Wedged(s)
    ensures MayClaimAgain(s)
  {
    InvParts(s, h);
    hide AttemptInv, ValidState, MayClaimAgain;
    if |s.attempts| < RING || !Keeps(s.attempts[0]) {
      FreeBegins(s, h);
    } else if s.attempts[0].delivery == NotReady {
      ObservedBegins(s, h);
    } else if s.attempts[0].delivery == Pending {
      PendingBegins(s, h);
    } else {
      AcknowledgedBegins(s, h);
    }
  }

  lemma ClaimedBegins(s: State, h: seq<Attempt>)
    requires AttemptInv(s, h) && Last(s.attempts).status == Claimed && !Wedged(s)
    ensures MayClaimAgain(s)
  {
    hide AttemptInv, ValidState, ValidAttempt, ValidBinding, MayClaimAgain;
    var i := |s.attempts| - 1;
    InvParts(s, h);
    RingAttempt(s, h, i);
    var a := s.attempts[i];
    ValidParts(a, s.key);
    var now := Longer(a.leaseExpiresAt, 1);
    ExpireKeeps(s, h, now);
    var next := WithAttempt(s, i, Expire(a, now));
    StateOfInv(next, Changed(s, h, i, Expire(a, now)));
    IdleBegins(next, Changed(s, h, i, Expire(a, now)));
    OneStepBefore(s, Begin(a.binding, "attempt", now, SECOND), next);
  }

  /** From any reachable file some run of calls leads to a claim, exactly if it is not an
      unknown outcome that is oldest in a full ring. */
  lemma ClaimableIff(s: State, h: seq<Attempt>)
    requires AttemptInv(s, h)
    ensures MayClaimAgain(s) <==> !Wedged(s)
  {
    hide AttemptInv, ValidState, MayClaimAgain, Wedged;
    StateOfInv(s, h);
    if Wedged(s) {
      WedgedNeverClaims(s);
    } else if Last(s.attempts).status == Claimed {
      ClaimedBegins(s, h);
    } else {
      IdleBegins(s, h);
    }
  }

  // ---------------------------------------------------------------------
  // A run that gets stuck
  // ---------------------------------------------------------------------

  function ExampleBinding(): Binding {
    Binding("source", "operation", "revision", "manifest", "index", "shard", "key", SECOND)
  }

  function ExampleBegin(seconds: int): Call { Begin(ExampleBinding(), "attempt", seconds * SECOND, SECOND) }

  /** Claims whose holder never reports, each found expired a second later. */
  function ExpiringCalls(n: nat): seq<Call> {
    if n == 0 then [] else ExpiringCalls(n - 1) + [ExampleBegin(2 * n)] + [ExampleBegin(2 * n + 1)]
  }

  predicate AllUnknown(attempts: seq<Attempt>) { forall i :: 0 <= i < |attempts| ==> attempts[i].status == Unknown }

  /** What the first such claims leave. */
  predicate Expired(found: Option<State>, n: nat) {
    if n == 0 then found == None
    else
      && found.Some? && found.value.key == KeyOf(ExampleBinding())
      && AttemptInv(found.value, found.value.attempts)
      && |found.value.attempts| == n && AllUnknown(found.value.attempts)
      && Last(found.value.attempts).binding == ExampleBinding() && Last(found.value.attempts).startedAt == 2 * n * SECOND
  }

  /** One of them just begun. */
  predicate Begun(s: State, n: nat) {
    && s.key == KeyOf(ExampleBinding()) && AttemptInv(s, s.attempts)
    && |s.attempts| == n + 1 && AllUnknown(s.attempts[..n])
    && s.attempts[n].status == Claimed && s.attempts[n].binding == ExampleBinding()
    && s.attempts[n].startedAt == (2 * n + 2) * SECOND && s.attempts[n].leaseExpiresAt == (2 * n + 3) * SECOND
  }

  lemma ClaimOne(found: Option<State>, n: nat) returns (s: State)
    requires Expired(found, n) && n < RING
    ensures After(KeyOf(ExampleBinding()), found, ExampleBegin(2 * n + 2)) == Some(s) && Begun(s, n)
  {
    hide AttemptInv, ValidState, ValidAttempt;
    var key := KeyOf(ExampleBinding());
    var s0 := StateIn(found, key);
    var now := (2 * n + 2) * SECOND;
    assert found.Some? ==> Last(s0.attempts).status == Unknown;
    MayClaimIntro(found, s0.attempts, ExampleBinding(), now);
    BeginKeeps(s0, s0.attempts, ExampleBinding(), "attempt", now, SECOND);
    s := BeginState(s0, ExampleBinding(), "attempt", now, SECOND);
    assert s.attempts == WithClaim(s0, s0.attempts, ExampleBinding(), "attempt", now, SECOND);
    StateOfInv(s, s.attempts);
    assert s.attempts[..n] == s0.attempts;
  }

  lemma ExpireOne(s: State, n: nat) returns (next: State)
    requires Begun(s, n)
    ensures After(KeyOf(ExampleBinding()), Some(s), ExampleBegin(2 * n + 3)) == Some(next) && Expired(Some(next), n + 1)
  {
    hide AttemptInv, ValidState, ValidAttempt;
    var now := (2 * n + 3) * SECOND;
    ExpireKeeps(s, s.attempts, now);
    var a := Expire(s.attempts[n], now);
    next := WithAttempt(s, n, a);
    TracksOf(s, s.attempts);
    assert Changed(s, s.attempts, n, a) == next.attempts;
    StateOfInv(next, next.attempts);
    assert AllUnknown(next.attempts) by {
      forall i | 0 <= i < n ensures next.attempts[i].status == Unknown { assert next.attempts[i] == s.attempts[..n][i]; }
    }
  }

  lemma ExpiringMore(n: nat)
    ensures ExpiringCalls(n + 1) == ExpiringCalls(n) + [ExampleBegin(2 * n + 2)] + [ExampleBegin(2 * n + 3)]
    ensures ExpiringCalls(0) == []
  {
    hide ExampleBegin;
  }

  lemma {:induction false} ExpiredRun(n: nat)
    requires n <= RING
    ensures Expired(Run(KeyOf(ExampleBinding()), None, ExpiringCalls(n)), n)
  {
    hide Expired, Begun, After, Run, ExampleBegin, ExpiringCalls, ExampleBinding;
    if n == 0 {
      ExpiringMore(0);
      ExpiredNothing();
    } else {
      var key, earlier := KeyOf(ExampleBinding()), ExpiringCalls(n - 1);
      ExpiredRun(n - 1);
      var s := ClaimOne(Run(key, None, earlier), n - 1);
      var next := ExpireOne(s, n - 1);
      ExpiringMore(n - 1);
      RunMore(key, None, earlier, ExampleBegin(2 * n));
      RunMore(key, None, earlier + [ExampleBegin(2 * n)], ExampleBegin(2 * n + 1));
    }
  }

  lemma ExpiredNothing()
    ensures Expired(Run(KeyOf(ExampleBinding()), None, []), 0)
  {}

  /** Such a file can be reached: from no file, by claims that are begun in time and
      whose holders stop. */
  lemma WedgedIsReachable()
    ensures var found := Run(KeyOf(ExampleBinding()), None, ExpiringCalls(RING));
            && found.Some? && AttemptInv(found.value, found.value.attempts)
            && Wedged(found.value) && !MayClaimAgain(found.value)
  {
    hide AttemptInv, MayClaimAgain, ExpiringCalls, Run;
    ExpiredRun(RING);
    var s := Run(KeyOf(ExampleBinding()), None, ExpiringCalls(RING)).value;
    ClaimableIff(s, s.attempts);
  }
}
