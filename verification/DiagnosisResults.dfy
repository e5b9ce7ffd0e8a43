/** What holds between the correlation, the projection and the reader of the snapshot. */
module DiagnosisResults {
  import opened Foundations
  import opened Text
  import opened CorrelationModel
  import opened Correlation
  import opened DiagnosisModel
  import opened DiagnosisProjection

  // ---------------------------------------------------------------------
  // A correlated receipt, piece by piece
  // ---------------------------------------------------------------------

  lemma {:induction false} AscendingDistinct<T(!new)>(before: (T, T) -> bool, s: set<T>)
    requires StrictWeak(before)
    ensures NoDuplicates(Ascending(before, s)) && forall x :: x in Ascending(before, s) <==> x in s
  {
    AscendingLists(before, s);
    NoDuplicatesCount(Ascending(before, s));
    forall x | x in Ascending(before, s) ensures multiset(Ascending(before, s))[x] == 1 {}
  }

  /** The observations a receipt is made of. */
  ghost predicate Sound(s: seq<Observation>, replay: Replay, entries: map<string, Entry>) {
    && (forall o :: o in s ==> Counted(o, replay, entries))
    && (forall i: nat, j: nat :: i < j < |s| ==> s[i].operation != s[j].operation)
  }

  lemma GroupsSound(latest: map<string, Observation>, replay: Replay, entries: map<string, Entry>)
    requires IsLatest(latest, replay.observations, replay, entries)
    ensures Sound(Affected(latest), replay, entries)
    ensures Sound(Affected(latest) + Controls(latest), replay, entries)
  {
    hide Counted, IsAffected, IsControl, Ascending, ByOperation;
    var a, c := Affected(latest), Controls(latest);
    ByOperationIsStrictWeak();
    AscendingDistinct(ByOperation, AffectedSet(latest));
    AscendingDistinct(ByOperation, ControlSet(latest));
    GroupsOf(latest);
    forall o: Observation | o in a + c ensures o.operation in latest && latest[o.operation] == o {
      assert o in a || o in c;
    }
    forall i: nat, j: nat | i < j < |a + c| ensures (a + c)[i].operation != (a + c)[j].operation {
      GroupsApart(latest);
      assert (a + c)[i] in a + c && (a + c)[j] in a + c;
      assert j < |a| ==> a[i] != a[j];
      assert i < |a| <= j ==> (a + c)[i] in a && (a + c)[j] in c;
      assert |a| <= i ==> c[i - |a|] != c[j - |a|];
    }
    forall i: nat, j: nat | i < j < |a| ensures a[i].operation != a[j].operation {
      assert (a + c)[i] == a[i] && (a + c)[j] == a[j];
    }
  }

  lemma GroupsApart(latest: map<string, Observation>)
    ensures AffectedSet(latest) !! ControlSet(latest)
  {
  }

  lemma CountedFacts(o: Observation, replay: Replay, entries: map<string, Entry>)
    requires Counted(o, replay, entries)
    ensures BoundObservation(o, entries)
    ensures -FUTURE_SKEW_SECONDS * SECOND <= replay.assessedAt - o.observedAt <= WINDOW_SECONDS * SECOND
  {
  }

  lemma SoundRefs(a: seq<Observation>, c: seq<Observation>, replay: Replay, entries: map<string, Entry>)
    requires Sound(a + c, replay, entries)
    ensures RefsAccepted(Refs(a) + Refs(c), entries.Keys)
  {
    hide ObservationRef, Counted;
    var s, refs := a + c, Refs(a) + Refs(c);
    forall i: nat | i < |refs|
      ensures refs[i].operation in entries.Keys && ObservationRef(refs[i].observation)
      ensures forall j: nat :: j < i ==> refs[j].operation != refs[i].operation
    {
      assert s[i] in s;
      assert refs[i] == RefOf(s[i]);
      CountedFacts(s[i], replay, entries);
      assert forall j: nat :: j < i ==> refs[j] == RefOf(s[j]);
    }
  }

  /** Every age inside the window has an acceptable timing, and evidence never outlives
      the window. */
  lemma TimingFits(assessedAt: int, observedAt: int)
    requires -FUTURE_SKEW_SECONDS * SECOND <= assessedAt - observedAt <= WINDOW_SECONDS * SECOND
    ensures TimingAccepted(TimingOf(assessedAt, observedAt))
  {
  }

  lemma {:induction false} FindUnique(evidence: seq<Evidence>, i: nat)
    requires i < |evidence| && EvidenceAccepted(evidence)
    ensures FindEvidence(evidence, evidence[i].ref) == Some(evidence[i])
  {
    hide TimingAccepted, WellFormedRef;
    if i < |evidence| - 1 {
      FindUnique(evidence[..|evidence| - 1], i);
    }
  }

  lemma SoundEvidence(r: Receipt, affected: seq<Observation>, replay: Replay, entries: map<string, Entry>)
    requires Sound(affected, replay, entries)
    requires |r.evidence| == |affected|
    requires forall i: nat :: i < |affected| ==> r.evidence[i] == EvidenceOf(affected[i], replay, r.affected, r.controls)
    ensures EvidenceAccepted(r.evidence)
  {
    hide Counted, TimingAccepted, TimingOf, PolicyText;
    forall i: nat | i < |affected|
      ensures TimingAccepted(r.evidence[i].timing) && forall j: nat :: j < i ==> r.evidence[j].ref != r.evidence[i].ref
    {
      assert affected[i] in affected;
      CountedFacts(affected[i], replay, entries);
      TimingFits(replay.assessedAt, affected[i].observedAt);
    }
  }

  lemma SoundBindings(r: Receipt, affected: seq<Observation>, replay: Replay, entries: map<string, Entry>)
    requires Sound(affected, replay, entries) && EvidenceAccepted(r.evidence)
    requires r.affected == Refs(affected) && |r.evidence| == |affected| == |r.bindings|
    requires forall i: nat :: i < |affected| ==> r.evidence[i] == EvidenceOf(affected[i], replay, r.affected, r.controls)
    requires forall i: nat :: i < |affected| ==> r.bindings[i] == BindingOf(affected[i], replay, r.affected, r.controls, entries)
    ensures BindingsAccepted(r, entries)
  {
    hide Counted, TimingOf, PolicyText, EvidenceAccepted, FindEvidence, ObservationRef;
    forall i: nat | i < |affected|
      ensures BindingAccepted(r.bindings[i], r, entries)
      ensures forall j: nat :: j < i ==> r.bindings[j].operation != r.bindings[i].operation
    {
      assert affected[i] in affected;
      CountedFacts(affected[i], replay, entries);
      FindUnique(r.evidence, i);
      assert r.affected[i] == RefOf(affected[i]);
      assert Ref(r.bindings[i].operation, r.bindings[i].observation) in r.affected;
    }
  }

  lemma {:induction false} ExpiryUnique(bindings: seq<Binding>, r: Receipt, i: nat)
    requires i < |bindings| && FindEvidence(r.evidence, bindings[i].evidence).Some?
    requires forall j: nat, k: nat :: j < k < |bindings| ==> bindings[j].operation != bindings[k].operation
    ensures ExpiryOf(bindings, r, bindings[i].operation)
            == Some(r.assessedAt + FindEvidence(r.evidence, bindings[i].evidence).value.timing.remaining * SECOND)
  {
    hide FindEvidence;
    if i < |bindings| - 1 {
      ExpiryUnique(bindings[..|bindings| - 1], r, i);
    }
  }

  lemma {:induction false} FirstCoveringIs(active: seq<Notice>, dependency: string, affected: seq<Observation>)
    ensures var linked := FirstCovering(active, dependency, affected);
            && ((exists n :: n in active && Covers(n, dependency, affected) && NoticeRef(n) == linked) || linked == "")
            && (linked == "" && (forall n :: n in active ==> NoticeRef(n) != "") ==> forall n :: n in active ==> !Covers(n, dependency, affected))
  {
    hide Covers, NoticeRef;
    if active != [] {
      FirstCoveringIs(active[1..], dependency, affected);
      assert active == [active[0]] + active[1..];
    }
  }

  /** The link of a correlation: there exactly when a notice in force covers the incident. */
  lemma {:induction false} LinkOf(replay: Replay, entries: map<string, Entry>, affected: seq<Observation>)
    requires forall n :: n in replay.notices ==> ValidNotice(n, entries)
    ensures var linked := FirstCovering(Active(replay.notices, replay.assessedAt), replay.scope.dependency, affected);
            && (linked != "" <==> exists n :: InForce(n, replay.notices, replay.assessedAt) && Covers(n, replay.scope.dependency, affected))
            && (linked != "" ==> LinkedNoticeRef(linked) && linked in Considered(replay.notices) && linked !in Superseded(replay.notices))
  {
    hide Covers, NoticeRef, NoticeId, Sha256Text, LinkedNoticeRef, IsSuperseded, Ascending, CurrentNotice;
    var notices, active := replay.notices, Active(replay.notices, replay.assessedAt);
    var linked := FirstCovering(active, replay.scope.dependency, affected);
    ReferencesOrdered();
    LessIsStrictWeak();
    AscendingDistinct(ByReference, ActiveSet(notices, replay.assessedAt));
    forall n | n in active ensures InForce(n, notices, replay.assessedAt) && LinkedNoticeRef(NoticeRef(n)) && NoticeRef(n) != "" {
      NoticeRefShape(n);
    }
    forall n | InForce(n, notices, replay.assessedAt) ensures n in active { assert n in ActiveSet(notices, replay.assessedAt); }
    FirstCoveringIs(active, replay.scope.dependency, affected);
    if linked != "" {
      var n :| n in active && Covers(n, replay.scope.dependency, affected) && NoticeRef(n) == linked;
      CitedOnce(notices, entries, n);
    }
  }

  lemma CitedOnce(notices: seq<Notice>, entries: map<string, Entry>, n: Notice)
    requires forall m :: m in notices ==> ValidNotice(m, entries)
    requires n in notices && !IsSuperseded(n, notices)
    ensures NoticeRef(n) in Considered(notices) && NoticeRef(n) !in Superseded(notices)
  {
    hide NoticeRef, NoticeId, Ascending;
    LessIsStrictWeak();
    var all := set m | m in notices :: NoticeRef(m);
    var older := set m | m in notices && IsSuperseded(m, notices) :: NoticeRef(m);
    AscendingDistinct(Less, all);
    AscendingDistinct(Less, older);
    forall m | m in notices && IsSuperseded(m, notices) ensures NoticeRef(m) != NoticeRef(n) {
      if NoticeRef(m) == NoticeRef(n) { NoticeRefUnique(m, n); assert false; }
    }
  }

  lemma CitationsAccepted(replay: Replay, entries: map<string, Entry>, r: Receipt)
    requires forall n :: n in replay.notices ==> ValidNotice(n, entries)
    requires r.considered == Considered(replay.notices) && r.superseded == Superseded(replay.notices)
    requires r.linked != "" ==> r.linked in r.considered && r.linked !in r.superseded
    ensures NoticesAccepted(r)
  {
    hide NoticeRef, NoticeId, Sha256Text, LinkedNoticeRef, IsSuperseded, Ascending;
    LessIsStrictWeak();
    var notices := replay.notices;
    var all := set m | m in notices :: NoticeRef(m);
    var older := set m | m in notices && IsSuperseded(m, notices) :: NoticeRef(m);
    AscendingDistinct(Less, all);
    AscendingDistinct(Less, older);
    forall s | s in r.considered ensures LinkedNoticeRef(s) {
      var m :| m in notices && NoticeRef(m) == s;
      NoticeRefShape(m);
    }
  }

  // ---------------------------------------------------------------------
  // Agreement
  // ---------------------------------------------------------------------

  /** A degraded receipt is sealed evidence by evidence. */
  lemma DegradedPieces(latest: map<string, Observation>, replay: Replay, entries: map<string, Entry>)
    requires IsLatest(latest, replay.observations, replay, entries) && forall n :: n in replay.notices ==> ValidNotice(n, entries)
    ensures var r := ReceiptOf(latest, replay, entries);
            r.state == Degraded ==>
              && NoticesAccepted(r) && EvidenceAccepted(r.evidence) && BindingsAccepted(r, entries)
              && |r.evidence| == |r.affected| == |r.bindings|
              && (r.determination == ObservedDetermination <==> LinkedNoticeRef(r.linked))
  {
    hide Latest, IsLatest, ValidNotice, Affected, Controls, Active, Considered, Superseded, FirstCovering, EvidenceOf, BindingOf, NoticeRef,
         EvidenceAccepted, BindingsAccepted, Covers, IdPart, NoticesAccepted, Sound, InForce;
    var r := ReceiptOf(latest, replay, entries);
    if r.state == Degraded {
      var affected := Affected(latest);
      GroupsSound(latest, replay, entries);
      SoundEvidence(r, affected, replay, entries);
      SoundBindings(r, affected, replay, entries);
      LinkOf(replay, entries, affected);
      CitationsAccepted(replay, entries, r);
    }
  }

  lemma ReceiptRefs(latest: map<string, Observation>, replay: Replay, entries: map<string, Entry>)
    requires IsLatest(latest, replay.observations, replay, entries)
    ensures var r := ReceiptOf(latest, replay, entries);
            && r.affected == Refs(Affected(latest)) && r.controls == Refs(Controls(latest))
            && RefsAccepted(r.affected + r.controls, entries.Keys)
  {
    hide IsLatest, Affected, Controls, Active, Considered, Superseded, FirstCovering, EvidenceOf, BindingOf, RefsAccepted, Sound;
    GroupsSound(latest, replay, entries);
    SoundRefs(Affected(latest), Controls(latest), replay, entries);
  }

  lemma {:induction false} CorrelatedParts(bound: bool, canaries: seq<string>, catalog: map<string, Entry>, replay: Replay)
    requires Correlate(bound, canaries, catalog, replay).Ok?
    ensures var entries := EntriesOf(canaries, catalog);
            && replay.scope.provider == PROVIDER && replay.scope.canaryScope == CANARY_SCOPE
            && (forall c :: c in canaries ==> c in catalog) && entries.Keys == (set c | c in canaries)
            && Latest(replay.observations, replay, entries).Ok?
            && IsLatest(Latest(replay.observations, replay, entries).value, replay.observations, replay, entries)
            && (forall n :: n in replay.notices ==> ValidNotice(n, entries))
            && Correlate(bound, canaries, catalog, replay).value == ReceiptOf(Latest(replay.observations, replay, entries).value, replay, entries)
  {
    hide Latest, IsLatest, ValidNotice, ReceiptOf, ChainsContiguous;
    LatestIsMaximum(replay.observations, replay, EntriesOf(canaries, catalog));
  }

  /** Every receipt the correlation returns is one the snapshot takes, as long as and only
      as long as its time window is open; the two states go to the two validators. */
  lemma ReceiptAgreement(bound: bool, canaries: seq<string>, catalog: map<string, Entry>, replay: Replay, at: int)
    requires Correlate(bound, canaries, catalog, replay).Ok?
    ensures var r := Correlate(bound, canaries, catalog, replay).value;
            && (r.state == Insufficient || r.state == Degraded)
            && (InsufficientAccepted(r, at, set c | c in canaries) <==> r.state == Insufficient && InTime(r.assessedAt, at))
            && (DegradedAccepted(r, at, canaries, catalog) <==> r.state == Degraded && InTime(r.assessedAt, at))
  {
    hide Latest, IsLatest, ValidNotice, ReceiptOf, NoticesAccepted, EvidenceAccepted, BindingsAccepted, RefsAccepted, EntriesOf, LinkedNoticeRef, InTime, Correlate;
    CorrelatedParts(bound, canaries, catalog, replay);
    var entries := EntriesOf(canaries, catalog);
    var latest := Latest(replay.observations, replay, entries).value;
    ReceiptRefs(latest, replay, entries);
    DegradedPieces(latest, replay, entries);
    ReceiptHeader(latest, replay, entries);
  }

  lemma ReceiptHeader(latest: map<string, Observation>, replay: Replay, entries: map<string, Entry>)
    ensures var r := ReceiptOf(latest, replay, entries);
            && r.schema == ReceiptV1 && r.assessedAt == replay.assessedAt && r.rule == AcceptedRule && r.scope == replay.scope
            && r.affectedCount == |r.affected| && r.controlCount == |r.controls| && r.boundaries == Minimized
            && (r.state == Insufficient || r.state == Degraded)
            && (r.state == Degraded <==> r.affectedCount >= 2 && r.controlCount >= 1)
            && (r.state == Insufficient ==>
                  r.cause == UnknownCause && r.determination == UnknownDetermination && r.evidence == [] && r.bindings == [] && r.linked == "")
            && (r.state == Degraded ==> r.cause == OutageCause && (r.determination == Inferred || r.determination == ObservedDetermination))
  {
    hide Affected, Controls, Active, Considered, Superseded, FirstCovering, EvidenceOf, BindingOf;
  }

  /** The observation that speaks for its operation: no eligible one of it is newer. */
  ghost predicate Newest(o: Observation, replay: Replay, entries: map<string, Entry>) {
    && o in replay.observations && Counted(o, replay, entries)
    && forall p :: p in replay.observations && Counted(p, replay, entries) && p.operation == o.operation ==> p.observedAt <= o.observedAt
  }

  ghost predicate NewestWith(o: Observation, outcome: Outcome, replay: Replay, entries: map<string, Entry>) {
    Newest(o, replay, entries) && o.outcome == outcome
  }

  lemma NewestIff(o: Observation, latest: map<string, Observation>, replay: Replay, entries: map<string, Entry>)
    requires IsLatest(latest, replay.observations, replay, entries)
    ensures Newest(o, replay, entries) <==> o.operation in latest && latest[o.operation] == o
  {
    hide Counted;
  }

  /** An eligible observation is affected or a control by its outcome alone. */
  lemma GroupedByOutcome(o: Observation, replay: Replay, entries: map<string, Entry>)
    requires Counted(o, replay, entries)
    ensures IsAffected(o) <==> o.outcome == UnhealthyOutcome
    ensures IsControl(o) <==> o.outcome == HealthyOutcome
  {
    hide BoundObservation;
  }

  /** What an eligible observation can be: healthy with a status in the 200s, or one of three
      kinds of failure, each with the statuses of its own. */
  lemma EligibleKinds(o: Observation, replay: Replay, entries: map<string, Entry>)
    requires BoundObservation(o, entries)
    requires -30 * SECOND <= replay.assessedAt - o.observedAt <= 900 * SECOND
    ensures Judge(o, replay, entries) == Eligible <==>
              o.redacted && (|| (o.outcome == HealthyOutcome && o.category == HealthyCategory && 200 <= o.status <= 299)
                             || (o.outcome == UnhealthyOutcome
                                 && (|| (o.category == ProviderFailure && 500 <= o.status <= 599)
                                     || (o.category == Timeout && o.status in {0, 408, 504})
                                     || (o.category == TransportFailure && o.status == 0))))
  {
    hide BoundObservation;
  }

  lemma GroupMembers(latest: map<string, Observation>, replay: Replay, entries: map<string, Entry>)
    requires IsLatest(latest, replay.observations, replay, entries)
    ensures forall o :: o in Affected(latest) <==> NewestWith(o, UnhealthyOutcome, replay, entries)
    ensures forall o :: o in Controls(latest) <==> NewestWith(o, HealthyOutcome, replay, entries)
  {
    hide Counted, IsAffected, IsControl, Ascending, ByOperation, Newest;
    ByOperationIsStrictWeak();
    AscendingDistinct(ByOperation, AffectedSet(latest));
    AscendingDistinct(ByOperation, ControlSet(latest));
    GroupsOf(latest);
    forall o
      ensures o in Affected(latest) <==> NewestWith(o, UnhealthyOutcome, replay, entries)
      ensures o in Controls(latest) <==> NewestWith(o, HealthyOutcome, replay, entries)
    {
      NewestIff(o, latest, replay, entries);
      if o.operation in latest && latest[o.operation] == o { GroupedByOutcome(o, replay, entries); }
    }
  }

  /** An outage is found exactly if the newest eligible observations of two operations are
      unhealthy and that of some operation is healthy. */
  lemma DegradedIff(bound: bool, canaries: seq<string>, catalog: map<string, Entry>, replay: Replay)
    requires Correlate(bound, canaries, catalog, replay).Ok?
    ensures var entries := EntriesOf(canaries, catalog);
            Correlate(bound, canaries, catalog, replay).value.state == Degraded
            <==> exists a, b, c :: NewestWith(a, UnhealthyOutcome, replay, entries) && NewestWith(b, UnhealthyOutcome, replay, entries)
                              && NewestWith(c, HealthyOutcome, replay, entries) && a.operation != b.operation
  {
    hide Latest, IsLatest, ValidNotice, Affected, Controls, Correlate, ReceiptOf, NewestWith, EntriesOf, Counted;
    CorrelatedParts(bound, canaries, catalog, replay);
    var entries := EntriesOf(canaries, catalog);
    var latest := Latest(replay.observations, replay, entries).value;
    ReceiptHeader(latest, replay, entries);
    ReceiptRefs(latest, replay, entries);
    GroupMembers(latest, replay, entries);
    GroupsSound(latest, replay, entries);
    var affected, controls := Affected(latest), Controls(latest);
    if |affected| >= 2 && |controls| >= 1 {
      assert affected[0] in affected && affected[1] in affected && controls[0] in controls;
      assert affected[0].operation != affected[1].operation;
    }
    if a, b, c :| NewestWith(a, UnhealthyOutcome, replay, entries) && NewestWith(b, UnhealthyOutcome, replay, entries)
                  && NewestWith(c, HealthyOutcome, replay, entries) && a.operation != b.operation {
      assert a in affected && b in affected && c in controls;
    }
  }

  /** A notice speaks for the outage: it is the newest version, not withdrawn, at most a day
      old, for the dependency in question, and it covers time and operation of every
      newest unhealthy observation. */
  ghost predicate Announces(n: Notice, replay: Replay, entries: map<string, Entry>) {
    && n in replay.notices && n.state != WithdrawnNotice && (forall m :: m in replay.notices && m.id == n.id ==> m.version <= n.version)
    && n.observedAt - 30 * SECOND <= replay.assessedAt <= n.observedAt + 24 * 3600 * SECOND
    && n.dependency == replay.scope.dependency
    && forall o :: NewestWith(o, UnhealthyOutcome, replay, entries) ==>
         n.effectiveFrom <= o.observedAt <= n.effectiveUntil && (n.operations == [] || o.operation in n.operations)
  }

  lemma AnnouncesIff(n: Notice, latest: map<string, Observation>, replay: Replay, entries: map<string, Entry>)
    requires IsLatest(latest, replay.observations, replay, entries)
    ensures Announces(n, replay, entries)
            <==> InForce(n, replay.notices, replay.assessedAt) && Covers(n, replay.scope.dependency, Affected(latest))
  {
    hide IsLatest, Affected, NewestWith;
    GroupMembers(latest, replay, entries);
    var affected := Affected(latest);
    assert forall o :: o in affected <==> exists i: nat :: i < |affected| && affected[i] == o;
  }

  /** A correlation says "observed" exactly when a notice speaks for the outage; otherwise it
      infers it. */
  lemma ObservedIffCovered(bound: bool, canaries: seq<string>, catalog: map<string, Entry>, replay: Replay)
    requires Correlate(bound, canaries, catalog, replay).Ok? && Correlate(bound, canaries, catalog, replay).value.state == Degraded
    ensures Correlate(bound, canaries, catalog, replay).value.determination in {Inferred, ObservedDetermination}
    ensures Correlate(bound, canaries, catalog, replay).value.determination == ObservedDetermination
            <==> exists n :: Announces(n, replay, EntriesOf(canaries, catalog))
  {
    hide Latest, IsLatest, ValidNotice, Affected, Controls, Active, Considered, Superseded, FirstCovering, EvidenceOf, BindingOf, Covers, InForce, LinkedNoticeRef, EntriesOf, Correlate,
         Announces;
    CorrelatedParts(bound, canaries, catalog, replay);
    var entries := EntriesOf(canaries, catalog);
    var latest := Latest(replay.observations, replay, entries).value;
    LinkOf(replay, entries, Affected(latest));
    forall n ensures Announces(n, replay, entries)
                     <==> InForce(n, replay.notices, replay.assessedAt) && Covers(n, replay.scope.dependency, Affected(latest)) {
      AnnouncesIff(n, latest, replay, entries);
    }
  }

  // ---------------------------------------------------------------------
  // Every entry is valid
  // ---------------------------------------------------------------------

  lemma {:induction false} ExpiryBounded(bindings: seq<Binding>, r: Receipt, op: string)
    requires EvidenceAccepted(r.evidence) && ExpiryOf(bindings, r, op).Some?
    ensures r.assessedAt < ExpiryOf(bindings, r, op).value <= r.assessedAt + MAX_EVIDENCE_AGE
  {
    hide FindEvidence, WellFormedRef;
    var b := bindings[|bindings| - 1];
    if b.operation == op && FindEvidence(r.evidence, b.evidence).Some? {
      FoundIn(r.evidence, b.evidence);
    } else {
      ExpiryBounded(bindings[..|bindings| - 1], r, op);
    }
  }

  lemma {:induction false} FoundIn(evidence: seq<Evidence>, ref: EvidenceRef)
    requires FindEvidence(evidence, ref).Some?
    ensures FindEvidence(evidence, ref).value in evidence
  {
    if evidence[|evidence| - 1].ref != ref { FoundIn(evidence[..|evidence| - 1], ref); }
  }

  lemma RefsCount(refs: seq<Ref>, known: set<string>)
    requires RefsAccepted(refs, known)
    ensures |refs| <= |known|
  {
    hide ObservationRef;
    var ops := seq(|refs|, i requires 0 <= i < |refs| => refs[i].operation);
    assert NoDuplicates(ops);
    DistinctCount(ops);
    var used := set c | c in ops;
    assert used <= known;
    SubsetSize(used, known);
  }

  /** The reader's check allows ten affected and ten control operations. */
  predicate WithinCounts(e: SnapshotEntry) {
    e.body.correlation.Some? ==> e.body.correlation.value.affectedCount <= 10 && e.body.correlation.value.controlCount <= 10
  }

  lemma ReceiptEntryValidIff(op: string, inputs: Inputs, r: Receipt)
    requires op in inputs.contract
    ensures var e := FromReceipt(op, inputs.contract[op].revision, inputs, r);
            ValidSnapshotEntry(e, inputs.at, inputs.contract) <==> WithinCounts(e)
  {
    hide NoticesAccepted, EvidenceAccepted, BindingsAccepted, RefsAccepted, EntriesOf, ExpiryOf, LinkedNoticeRef;
    var until := ExpiryOf(r.bindings, r, op);
    if DegradedAccepted(r, inputs.at, inputs.canaries, inputs.catalog) && until.Some? && inputs.at <= until.value {
      ExpiryBounded(r.bindings, r, op);
      LinkIffObserved(r);
    }
  }

  /** Eleven canaries cannot exceed the counts: at least one is a control, and two are affected. */
  lemma ReceiptCounts(op: string, inputs: Inputs, r: Receipt)
    requires op in inputs.contract && |set c | c in inputs.canaries| <= 11
    ensures WithinCounts(FromReceipt(op, inputs.contract[op].revision, inputs, r))
  {
    hide NoticesAccepted, EvidenceAccepted, BindingsAccepted, RefsAccepted, EntriesOf, ExpiryOf, LinkedNoticeRef;
    if DegradedAccepted(r, inputs.at, inputs.canaries, inputs.catalog) {
      RefsCount(r.affected + r.controls, EntriesOf(inputs.canaries, inputs.catalog).Keys);
      EntryKeys(inputs.canaries, inputs.catalog);
      SubsetSize(EntriesOf(inputs.canaries, inputs.catalog).Keys, set c | c in inputs.canaries);
    }
  }

  lemma EntryKeys(canaries: seq<string>, catalog: map<string, Entry>)
    ensures EntriesOf(canaries, catalog).Keys <= set c | c in canaries
  {
  }

  lemma LinkIffObserved(r: Receipt)
    requires NoticesAccepted(r)
    ensures r.linked != "" <==> LinkedNoticeRef(r.linked)
  {
    hide IdPart, NoDuplicates;
  }

  lemma MergedValidIff(current: SnapshotEntry, candidate: SnapshotEntry, now: int, contract: map<string, Policy>)
    requires ValidSnapshotEntry(current, now, contract) <==> WithinCounts(current)
    requires ValidSnapshotEntry(candidate, now, contract) && candidate.body.correlation.None?
    requires current.body.operation in contract && current.body.revision == contract[current.body.operation].revision
    ensures ValidSnapshotEntry(Merge(current, candidate), now, contract) <==> WithinCounts(Merge(current, candidate))
    ensures WithinCounts(current) ==> WithinCounts(Merge(current, candidate))
  {
    hide ReceiptEntryValid, RequestEntryValid;
  }

  lemma RequestEntryIsValid(q: Request, at: int, contract: map<string, Policy>, canaries: seq<string>)
    requires AcceptedContract(contract, canaries) && Assess(q, at, contract).valid
    ensures ValidSnapshotEntry(RequestEntry(q, Assess(q, at, contract)), at, contract)
    ensures RequestEntry(q, Assess(q, at, contract)).body.correlation.None?
  {
    hide UniqueSafe, AcceptedContract, Evaluate;
    AdmissibleIsValid(q, at, contract, canaries);
    AssessedState(q, at, contract, canaries);
  }

  lemma AssessedState(q: Request, at: int, contract: map<string, Policy>, canaries: seq<string>)
    requires AcceptedContract(contract, canaries) && Assess(q, at, contract).valid
    ensures var a := Assess(q, at, contract);
            && (a.evaluation.outcome == Pass || a.evaluation.outcome == Fail ==> a.state == AcceptedState && a.evaluation.dimension == Contract && a.evaluation.fieldCount > 0)
            && (a.evaluation.outcome == NotObservedOutcome ==> a.state == NotObservedState && (a.evaluation.dimension == Contract ==> a.evaluation.fieldCount == 0))
  {
    hide UniqueSafe, InTime, Sha256Text, NoDuplicates;
    AdmissibleIsValid(q, at, contract, canaries);
    assert AcceptedPolicy(contract[q.operation]);
  }

  lemma MentionsEntryValidIff(op: string, inputs: Inputs, mentions: seq<Receipt>)
    requires op in inputs.contract
    ensures var e := FromMentions(op, inputs.contract[op].revision, inputs, mentions);
            && (ValidSnapshotEntry(e, inputs.at, inputs.contract) <==> WithinCounts(e))
            && (|set c | c in inputs.canaries| <= 11 ==> WithinCounts(e))
  {
    hide FromReceipt, ReceiptEntryValid, RequestEntryValid;
    if |mentions| == 1 {
      ReceiptEntryValidIff(op, inputs, mentions[0]);
      if |set c | c in inputs.canaries| <= 11 { ReceiptCounts(op, inputs, mentions[0]); }
    }
  }

  lemma AboutSubject(op: string, requests: seq<Request>)
    ensures forall q :: q in About(op, requests) ==> q.operation == op
  {
    forall q | q in About(op, requests) ensures q.operation == op {
      ExpandMembers((x: Request) => if x.operation == op then 1 else 0, requests, q);
    }
  }

  /** An entry a projection emits passes the check a reader makes, at the time it was
      generated, if and only if its counts are within that check's limits. */
  lemma EntryValidIff(inputs: Inputs, receipts: seq<Receipt>, requests: seq<Request>, op: string)
    requires AcceptedContract(inputs.contract, inputs.canaries) && op in inputs.contract
    ensures var e := FinalEntry(op, inputs, receipts, requests);
            && (ValidSnapshotEntry(e, inputs.at, inputs.contract) <==> WithinCounts(e))
            && (|set c | c in inputs.canaries| <= 11 ==> WithinCounts(e)) && e.body.operation == op
  {
    hide FromMentions, Mentions, About, Merge, Assess, AcceptedContract, RequestEntry, ReceiptEntryValid, RequestEntryValid, WithinCounts;
    var mentions, about := Mentions(op, inputs, receipts), About(op, requests);
    UnknownIsValid(op, inputs);
    MentionsEntryValidIff(op, inputs, mentions);
    MentionsSubject(op, inputs, mentions);
    AboutSubject(op, requests);
    if |about| == 1 && Assess(about[0], inputs.at, inputs.contract).valid {
      assert about[0] in about;
      RequestEntryIsValid(about[0], inputs.at, inputs.contract, inputs.canaries);
      RequestSubject(about[0], inputs.at, inputs.contract);
      MergedValidIff(FromMentions(op, inputs.contract[op].revision, inputs, mentions),
                     RequestEntry(about[0], Assess(about[0], inputs.at, inputs.contract)), inputs.at, inputs.contract);
      MergeSubject(FromMentions(op, inputs.contract[op].revision, inputs, mentions),
                   RequestEntry(about[0], Assess(about[0], inputs.at, inputs.contract)));
    }
  }

  lemma UnknownIsValid(op: string, inputs: Inputs)
    requires op in inputs.contract
    ensures var e := UnknownEntry(op, inputs.contract[op].revision, RejectedState);
            ValidSnapshotEntry(e, inputs.at, inputs.contract) && WithinCounts(e)
  {
  }

  /** For the accepted canary set of ten, and up to eleven, every entry is valid. */
  lemma EveryEntryIsValid(inputs: Inputs, receipts: seq<Receipt>, requests: seq<Request>, op: string)
    requires AcceptedContract(inputs.contract, inputs.canaries) && |inputs.canaries| <= 11 && op in inputs.contract
    ensures ValidSnapshotEntry(FinalEntry(op, inputs, receipts, requests), inputs.at, inputs.contract)
    ensures FinalEntry(op, inputs, receipts, requests).body.operation == op
  {
    hide FinalEntry, WithinCounts, AcceptedContract, ValidSnapshotEntry;
    CanaryCount(inputs);
    EntryValidIff(inputs, receipts, requests, op);
  }

  lemma CanaryCount(inputs: Inputs)
    requires AcceptedContract(inputs.contract, inputs.canaries)
    ensures |set c | c in inputs.canaries| == |inputs.canaries|
  {
    DistinctCount(inputs.canaries);
  }

  lemma MentionsSubject(op: string, inputs: Inputs, mentions: seq<Receipt>)
    requires op in inputs.contract
    ensures var b := FromMentions(op, inputs.contract[op].revision, inputs, mentions).body;
            b.operation == op && b.revision == inputs.contract[op].revision
  {
    hide DegradedAccepted, ExpiryOf;
  }

  lemma RequestSubject(q: Request, at: int, contract: map<string, Policy>)
    ensures RequestEntry(q, Assess(q, at, contract)).body.operation == q.operation
  {
    hide UniqueSafe, Sha256Text, InTime;
  }

  lemma MergeSubject(a: SnapshotEntry, b: SnapshotEntry)
    requires a.body.operation == b.body.operation
    ensures Merge(a, b).body.operation == a.body.operation
  {
  }

  // ---------------------------------------------------------------------
  // Order independence and rejection
  // ---------------------------------------------------------------------

  lemma SameSingle<T>(a: seq<T>, b: seq<T>)
    requires multiset(a) == multiset(b)
    ensures |a| == |b| && (|a| == 1 ==> a == b)
  {
    assert |a| == |multiset(a)| && |b| == |multiset(b)|;
    if |a| == 1 {
      assert a[0] in multiset(a);
      assert b[0] in multiset(b);
      assert a == [a[0]] && b == [b[0]];
    }
  }

  /** The entries depend on which receipts and requests there are, not on their order. */
  lemma ProjectionOrderFree(op: string, inputs: Inputs, receipts: seq<Receipt>, receipts': seq<Receipt>, requests: seq<Request>, requests': seq<Request>)
    requires op in inputs.contract && multiset(receipts) == multiset(receipts') && multiset(requests) == multiset(requests')
    ensures FinalEntry(op, inputs, receipts, requests) == FinalEntry(op, inputs, receipts', requests')
  {
    hide Expand, FromReceipt, Assess, Merge, MentionsIn;
    ExpandPermutation((r: Receipt) => MentionsIn(op, inputs, r), receipts, receipts');
    ExpandPermutation((q: Request) => if q.operation == op then 1 else 0, requests, requests');
    SameSingle(Mentions(op, inputs, receipts), Mentions(op, inputs, receipts'));
    SameSingle(About(op, requests), About(op, requests'));
  }

  predicate Diagnoses(op: string, inputs: Inputs, r: Receipt) {
    && DegradedAccepted(r, inputs.at, inputs.canaries, inputs.catalog)
    && ExpiryOf(r.bindings, r, op).Some? && inputs.at <= ExpiryOf(r.bindings, r, op).value
  }

  lemma MentionState(op: string, inputs: Inputs, m: seq<Receipt>)
    requires op in inputs.contract
    ensures var e := FromMentions(op, inputs.contract[op].revision, inputs, m).body;
            && (e.state == RejectedState <==> |m| > 1 || (|m| == 1 && !DegradedAccepted(m[0], inputs.at, inputs.canaries, inputs.catalog)))
            && (e.diagnosis != UnknownDiagnosis <==> |m| == 1 && Diagnoses(op, inputs, m[0]))
  {
    hide DegradedAccepted, ExpiryOf;
  }

  lemma RequestState(q: Request, at: int, contract: map<string, Policy>, canaries: seq<string>)
    requires AcceptedContract(contract, canaries)
    ensures Assess(q, at, contract).valid <==> Admissible(q, at, contract)
    ensures Admissible(q, at, contract) ==>
              var e := RequestEntry(q, Assess(q, at, contract)).body;
              e.state != RejectedState && (e.diagnosis != UnknownDiagnosis <==> Evaluate(q, contract).outcome == Fail)
  {
    hide Admissible, Evaluate, AcceptedContract, Assess;
    AdmissibleIsValid(q, at, contract, canaries);
    if Admissible(q, at, contract) { AssessedState(q, at, contract, canaries); }
  }

  /** The request is about the contract and names a field the contract does not declare. */
  predicate Drifts(q: Request, contract: map<string, Policy>) {
    && q.dimension == Contract && q.operation in contract
    && exists i: nat :: i < |q.fields| && q.fields[i] !in contract[q.operation].contract.declared
  }

  predicate WellMade(q: Request) {
    && q.schema == AssertionV1 && q.assessedAt != 0 && Sha256Text(q.revision) && q.dimension != OtherDimension
    && q.fieldsSafe && NoDuplicates(q.fields)
  }

  predicate BoundTo(q: Request, contract: map<string, Policy>) {
    && q.operation in contract && q.revision == contract[q.operation].revision
    && q.binding == Some(AcceptedBinding) && q.activeBinding in {None, Some(AcceptedBinding)}
  }

  /** Something is concluded exactly from well-made requests that are bound to the accepted
      policy; and then a failure exactly from an undeclared field, a pass exactly from
      fields all declared. */
  lemma ConcludedIff(q: Request, contract: map<string, Policy>, canaries: seq<string>)
    requires AcceptedContract(contract, canaries)
    ensures var e := Evaluate(q, contract);
            && (e.outcome != UnknownOutcome <==> WellMade(q) && BoundTo(q, contract))
            && (e.reason == UnsafeObservation <==> !WellMade(q))
            && (e.reason == StaleBinding <==> WellMade(q) && !BoundTo(q, contract))
            && (e.outcome == Fail <==> WellMade(q) && BoundTo(q, contract) && Drifts(q, contract))
            && (e.outcome == Pass <==> WellMade(q) && BoundTo(q, contract) && q.dimension == Contract && q.fields != [] && !Drifts(q, contract))
            && e.assessedAt == q.assessedAt && e.operation == q.operation && e.dimension == q.dimension
  {
    hide Sha256Text;
    UniqueIffNoDuplicates(q.fields);
    if q.operation in contract { assert AcceptedPolicy(contract[q.operation]); }
  }

  lemma UniqueIffNoDuplicates(s: seq<string>)
    ensures NoDuplicates(s) <==> forall i: nat, j: nat :: i < j < |s| ==> s[i] != s[j]
  {}

  lemma AdmittedIsSound(q: Request, at: int, contract: map<string, Policy>, canaries: seq<string>)
    requires AcceptedContract(contract, canaries) && Admissible(q, at, contract)
    ensures WellMade(q) && BoundTo(q, contract)
  {
    hide Sha256Text;
    UniqueIffNoDuplicates(q.fields);
    assert AcceptedPolicy(contract[q.operation]);
  }

  /** What makes an operation rejected, in whatever order it is found: being named twice, a
      receipt or request that is refused, or two diagnoses at once. Nothing clears it. */
  lemma RejectedIff(op: string, inputs: Inputs, receipts: seq<Receipt>, requests: seq<Request>)
    requires AcceptedContract(inputs.contract, inputs.canaries) && op in inputs.contract
    ensures var m, q := Mentions(op, inputs, receipts), About(op, requests);
            FinalEntry(op, inputs, receipts, requests).body.state == RejectedState <==>
              || |m| > 1 || |q| > 1
              || (|m| == 1 && !DegradedAccepted(m[0], inputs.at, inputs.canaries, inputs.catalog))
              || (|q| == 1 && !Admissible(q[0], inputs.at, inputs.contract))
              || (|m| == 1 && |q| == 1 && Diagnoses(op, inputs, m[0]) && Drifts(q[0], inputs.contract))
  {
    hide Mentions, About, DegradedAccepted, Diagnoses, Admissible, Evaluate, AcceptedContract, Assess, FromMentions, RequestEntry, Drifts,
         WellMade, BoundTo;
    var q := About(op, requests);
    MentionState(op, inputs, Mentions(op, inputs, receipts));
    if |q| == 1 {
      RequestState(q[0], inputs.at, inputs.contract, inputs.canaries);
      ConcludedIff(q[0], inputs.contract, inputs.canaries);
      if Admissible(q[0], inputs.at, inputs.contract) { AdmittedIsSound(q[0], inputs.at, inputs.contract, inputs.canaries); }
    }
  }

  /** An outage: the receipt's own determination, times, counts and digest. */
  predicate ShowsOutage(b: Body, op: string, r: Receipt) {
    && b.state == AcceptedState && b.diagnosis == OutageDiagnosis(r.determination)
    && b.assessedAt == Some(r.assessedAt) && b.validUntil == ExpiryOf(r.bindings, r, op)
    && b.source == Some(Source(CorrelationSource, ReceiptV1, ReceiptSha(r)))
    && b.correlation == Some(CorrelationBoundary(r.affectedCount, r.controlCount, r.linked != ""))
    && b.assertion.None?
  }

  /** An assertion: a contract drift if a field is undeclared, accepted without a diagnosis if
      all are declared, and otherwise not observed. */
  predicate ShowsAssertion(b: Body, q: Request, contract: map<string, Policy>) {
    && b.assessedAt == Some(q.assessedAt) && b.validUntil == Some(q.assessedAt + 900 * SECOND)
    && b.source == Some(Source(AssertionSource, AssertionV1, RequestSha(q))) && b.correlation.None?
    && b.assertion.Some? && b.assertion.value.dimension == q.dimension && b.assertion.value.fieldCount == |q.fields|
    && if q.dimension != Contract || q.fields == [] then
         b.state == NotObservedState && b.assertion.value.outcome == NotObservedOutcome && b.diagnosis == UnknownDiagnosis
       else if Drifts(q, contract) then
         b.state == AcceptedState && b.assertion.value.outcome == Fail && b.diagnosis == DriftDiagnosis
       else
         b.state == AcceptedState && b.assertion.value.outcome == Pass && b.diagnosis == UnknownDiagnosis
  }

  predicate ShowsNothing(b: Body) {
    && b.state == UnknownState && b.diagnosis == UnknownDiagnosis && b.assessedAt.None? && b.validUntil.None?
    && b.source.None? && b.correlation.None? && b.assertion.None?
  }

  lemma AssertionShown(q: Request, at: int, contract: map<string, Policy>, canaries: seq<string>)
    requires AcceptedContract(contract, canaries) && Admissible(q, at, contract)
    ensures var a := Assess(q, at, contract);
            a.valid && ShowsAssertion(RequestEntry(q, a).body, q, contract)
    ensures RequestEntry(q, Assess(q, at, contract)).body.operation == q.operation
    ensures RequestEntry(q, Assess(q, at, contract)).body.revision == contract[q.operation].revision
  {
    hide AcceptedContract, Evaluate, Drifts, UniqueSafe, InTime, WellMade, BoundTo;
    AdmissibleIsValid(q, at, contract, canaries);
    AssessedState(q, at, contract, canaries);
    AdmittedIsSound(q, at, contract, canaries);
    ConcludedIff(q, contract, canaries);
  }

  lemma OutageShown(op: string, inputs: Inputs, m: seq<Receipt>)
    requires op in inputs.contract
    requires |m| == 0 || (|m| == 1 && DegradedAccepted(m[0], inputs.at, inputs.canaries, inputs.catalog))
    ensures var b := FromMentions(op, inputs.contract[op].revision, inputs, m).body;
            && b.operation == op && b.revision == inputs.contract[op].revision
            && if |m| == 1 && Diagnoses(op, inputs, m[0]) then ShowsOutage(b, op, m[0]) else ShowsNothing(b)
  {
    hide DegradedAccepted, ExpiryOf;
  }

  /** What is published of an operation that is not rejected: the outage of the one receipt
      that still diagnoses it; failing that the assertion of its one request, a contract
      drift exactly when that names an undeclared field; and failing both nothing. */
  lemma EntryShows(op: string, inputs: Inputs, receipts: seq<Receipt>, requests: seq<Request>)
    requires AcceptedContract(inputs.contract, inputs.canaries) && op in inputs.contract
    ensures var m, q := Mentions(op, inputs, receipts), About(op, requests);
            var b := FinalEntry(op, inputs, receipts, requests).body;
            b.state != RejectedState ==>
              && b.operation == op && b.revision == inputs.contract[op].revision
              && (if |m| == 1 && Diagnoses(op, inputs, m[0]) then ShowsOutage(b, op, m[0])
                  else if |q| == 1 then ShowsAssertion(b, q[0], inputs.contract)
                  else ShowsNothing(b))
              && (b.diagnosis == DriftDiagnosis <==> |q| == 1 && Drifts(q[0], inputs.contract))
  {
    hide Mentions, About, DegradedAccepted, Diagnoses, Admissible, AcceptedContract, Assess, FromMentions, RequestEntry, Drifts, ExpiryOf;
    RejectedIff(op, inputs, receipts, requests);
    var m, q := Mentions(op, inputs, receipts), About(op, requests);
    if FinalEntry(op, inputs, receipts, requests).body.state != RejectedState {
      OutageShown(op, inputs, m);
      AboutSubject(op, requests);
      if |q| == 1 {
        assert q[0] in q;
        AssertionShown(q[0], inputs.at, inputs.contract, inputs.canaries);
        if q[0].fields == [] { NoFieldsNoDrift(q[0], inputs.contract); }
        DriftIsContract(q[0], inputs.contract);
      }
    }
  }

  lemma NoFieldsNoDrift(q: Request, contract: map<string, Policy>)
    requires q.fields == []
    ensures !Drifts(q, contract)
  {}

  lemma DriftIsContract(q: Request, contract: map<string, Policy>)
    ensures Drifts(q, contract) ==> q.dimension == Contract
  {}

  /** From observations to the public snapshot: a degraded correlation projected inside its
      window diagnoses exactly the operations it names whose evidence has not run out. */
  lemma {:induction false} OutageIsPublished(bound: bool, replay: Replay, inputs: Inputs, op: string)
    requires Correlate(bound, inputs.canaries, inputs.catalog, replay).Ok? && op in inputs.contract
    requires var r := Correlate(bound, inputs.canaries, inputs.catalog, replay).value; r.state == Degraded && InTime(r.assessedAt, inputs.at)
    ensures var entries := EntriesOf(inputs.canaries, inputs.catalog);
            var latest := Latest(replay.observations, replay, entries).value;
            var r := Correlate(bound, inputs.canaries, inputs.catalog, replay).value;
            var e := FinalEntry(op, inputs, [r], []).body;
            if op in latest && IsAffected(latest[op])
               && inputs.at <= replay.assessedAt + TimingOf(replay.assessedAt, latest[op].observedAt).remaining * SECOND
            then e.state == AcceptedState && e.diagnosis == OutageDiagnosis(r.determination)
            else e.state == UnknownState && e.diagnosis == UnknownDiagnosis
  {
    hide Latest, IsLatest, ValidNotice, ReceiptOf, DegradedAccepted, InsufficientAccepted, EntriesOf, InTime, Correlate, ExpiryOf, IsAffected, TimingOf, Mentions, Refs, Occurrences, Affected;
    var r := Correlate(bound, inputs.canaries, inputs.catalog, replay).value;
    var entries := EntriesOf(inputs.canaries, inputs.catalog);
    CorrelatedParts(bound, inputs.canaries, inputs.catalog, replay);
    ReceiptAgreement(bound, inputs.canaries, inputs.catalog, replay, inputs.at);
    var latest := Latest(replay.observations, replay, entries).value;
    ReceiptRefs(latest, replay, entries);
    MentionsOne(op, inputs, r);
    AffectedOnce(op, latest, replay, entries);
    ReceiptHeader(latest, replay, entries);
    assert About(op, []) == [];
    assert Repeat(r, 1) == [r] && Repeat(r, 0) == [];
    if op in latest && IsAffected(latest[op]) { ExpiryOfAffected(op, latest, replay, entries); }
  }

  /** Evidence lasts for the window from the observation, up to the second its age is rounded
      to; an observation dated ahead counts as made when it was assessed. */
  predicate WindowFrom(assessedAt: int, observedAt: int, validUntil: int) {
    if observedAt >= assessedAt then validUntil == assessedAt + 900 * SECOND
    else observedAt + 900 * SECOND <= validUntil <= observedAt + 901 * SECOND
  }

  lemma TimingWindow(assessedAt: int, observedAt: int)
    requires assessedAt - observedAt <= WINDOW_SECONDS * SECOND
    ensures WindowFrom(assessedAt, observedAt, assessedAt + TimingOf(assessedAt, observedAt).remaining * SECOND)
  {
  }

  /** A published outage names an operation whose newest eligible observation is unhealthy,
      and is good for the window from that observation, however late it was assessed. */
  lemma OutageExpires(bound: bool, replay: Replay, inputs: Inputs, op: string)
    requires Correlate(bound, inputs.canaries, inputs.catalog, replay).Ok? && op in inputs.contract
    requires var r := Correlate(bound, inputs.canaries, inputs.catalog, replay).value; r.state == Degraded && InTime(r.assessedAt, inputs.at)
    ensures var entries := EntriesOf(inputs.canaries, inputs.catalog);
            var e := FinalEntry(op, inputs, [Correlate(bound, inputs.canaries, inputs.catalog, replay).value], []).body;
            e.diagnosis != UnknownDiagnosis ==>
              && e.validUntil.Some? && inputs.at <= e.validUntil.value
              && exists o :: NewestWith(o, UnhealthyOutcome, replay, entries) && o.operation == op
                             && WindowFrom(replay.assessedAt, o.observedAt, e.validUntil.value)
  {
    hide Latest, IsLatest, ValidNotice, ReceiptOf, DegradedAccepted, InsufficientAccepted, EntriesOf, InTime, Correlate, ExpiryOf,
         IsAffected, TimingOf, Mentions, Refs, Occurrences, Affected, Counted, NewestWith;
    var r := Correlate(bound, inputs.canaries, inputs.catalog, replay).value;
    var entries := EntriesOf(inputs.canaries, inputs.catalog);
    CorrelatedParts(bound, inputs.canaries, inputs.catalog, replay);
    ReceiptAgreement(bound, inputs.canaries, inputs.catalog, replay, inputs.at);
    var latest := Latest(replay.observations, replay, entries).value;
    ReceiptRefs(latest, replay, entries);
    MentionsOne(op, inputs, r);
    AffectedOnce(op, latest, replay, entries);
    assert About(op, []) == [];
    assert Repeat(r, 1) == [r] && Repeat(r, 0) == [];
    if op in latest && IsAffected(latest[op]) {
      ExpiryOfAffected(op, latest, replay, entries);
      LatestStands(op, latest, replay, entries);
      CountedFacts(latest[op], replay, entries);
      TimingWindow(replay.assessedAt, latest[op].observedAt);
      ReceiptHeader(latest, replay, entries);
    }
  }

  lemma LatestStands(op: string, latest: map<string, Observation>, replay: Replay, entries: map<string, Entry>)
    requires IsLatest(latest, replay.observations, replay, entries) && op in latest && IsAffected(latest[op])
    ensures latest[op].operation == op && Counted(latest[op], replay, entries)
    ensures NewestWith(latest[op], UnhealthyOutcome, replay, entries)
  {
    hide Counted;
    NewestIff(latest[op], latest, replay, entries);
  }

  lemma {:induction false} MentionsOne(op: string, inputs: Inputs, r: Receipt)
    requires !InsufficientAccepted(r, inputs.at, set c | c in inputs.canaries)
    ensures Mentions(op, inputs, [r]) == Repeat(r, Occurrences(op, r.affected))
  {
    hide InsufficientAccepted;
    MentionsSnoc(op, inputs, [], r);
    assert [] + [r] == [r];
    assert Mentions(op, inputs, []) == [];
  }

  lemma {:induction false} OccursOnce(op: string, refs: seq<Ref>, known: set<string>)
    requires RefsAccepted(refs, known)
    ensures Occurrences(op, refs) == if exists i: nat :: i < |refs| && refs[i].operation == op then 1 else 0
  {
    hide ObservationRef;
    if refs != [] {
      var n := |refs| - 1;
      var init := refs[..n];
      OccursOnce(op, init, known);
      assert forall i: nat :: i < n ==> init[i] == refs[i];
    }
  }

  lemma {:induction false} AffectedOnce(op: string, latest: map<string, Observation>, replay: Replay, entries: map<string, Entry>)
    requires IsLatest(latest, replay.observations, replay, entries)
    ensures Occurrences(op, Refs(Affected(latest))) == if op in latest && IsAffected(latest[op]) then 1 else 0
  {
    hide IsAffected, Ascending, ByOperation, Counted, RefsAccepted, Occurrences;
    var a := Affected(latest);
    ByOperationIsStrictWeak();
    AscendingDistinct(ByOperation, AffectedSet(latest));
    GroupsOf(latest);
    GroupsSound(latest, replay, entries);
    assert a + [] == a;
    SoundRefs(a, [], replay, entries);
    assert Refs(a) + Refs([]) == Refs(a);
    OccursOnce(op, Refs(a), entries.Keys);
    if op in latest && IsAffected(latest[op]) {
      assert latest[op] in a;
      var i: nat :| i < |a| && a[i] == latest[op];
      assert Refs(a)[i].operation == op;
    } else {
      forall i: nat | i < |Refs(a)| ensures Refs(a)[i].operation != op { assert a[i] in a; }
    }
  }

  lemma {:induction false} ExpiryOfAffected(op: string, latest: map<string, Observation>, replay: Replay, entries: map<string, Entry>)
    requires IsLatest(latest, replay.observations, replay, entries) && op in latest && IsAffected(latest[op])
    requires ReceiptOf(latest, replay, entries).state == Degraded
    ensures var r := ReceiptOf(latest, replay, entries);
            ExpiryOf(r.bindings, r, op) == Some(r.assessedAt + TimingOf(replay.assessedAt, latest[op].observedAt).remaining * SECOND)
  {
    hide IsLatest, Controls, Active, Considered, Superseded, FirstCovering, IsAffected, ByOperation, Ascending, Counted, TimingOf, PolicyText, ExpiryOf, FindEvidence, EvidenceAccepted;
    var r := ReceiptOf(latest, replay, entries);
    var a := Affected(latest);
    GroupsSound(latest, replay, entries);
    SoundEvidence(r, a, replay, entries);
    ByOperationIsStrictWeak();
    AscendingDistinct(ByOperation, AffectedSet(latest));
    assert latest[op] in a;
    var i: nat :| i < |a| && a[i] == latest[op];
    FindUnique(r.evidence, i);
    LatestOperation(op, latest, replay, entries);
    assert r.bindings[i].operation == op && r.bindings[i].evidence == r.evidence[i].ref;
    ExpiryUnique(r.bindings, r, i);
  }

  lemma LatestOperation(op: string, latest: map<string, Observation>, replay: Replay, entries: map<string, Entry>)
    requires IsLatest(latest, replay.observations, replay, entries) && op in latest
    ensures latest[op].operation == op
  {
  }

  // ---------------------------------------------------------------------
  // Reading a snapshot back
  // ---------------------------------------------------------------------

  /** A stored item either decodes to an entry or only names an operation. */
  datatype Item = Decoded(entry: SnapshotEntry) | Malformed(operation: string)

  datatype Document = Document(generatedAt: int, pinsAccepted: bool, items: seq<Item>)

  function Subject(i: Item): string { if i.Decoded? then i.entry.body.operation else i.operation }

  predicate Readable(i: Item, now: int, contract: map<string, Policy>) { i.Decoded? && ValidSnapshotEntry(i.entry, now, contract) }

  function ItemsAbout(op: string, items: seq<Item>): seq<Item> { Expand((i: Item) => if Subject(i) == op then 1 else 0, items) }

  /** One readable item is the entry; more than one, or one that is not valid now, is a rejection. */
  function ReadEntry(op: string, items: seq<Item>, now: int, contract: map<string, Policy>): SnapshotEntry
    requires op in contract
  {
    var m := ItemsAbout(op, items);
    if m == [] then UnknownEntry(op, contract[op].revision, UnknownState)
    else if |m| == 1 && Readable(m[0], now, contract) then m[0].entry
    else UnknownEntry(op, contract[op].revision, RejectedState)
  }

  ghost predicate Tracks(byId: map<string, SnapshotEntry>, rejected: set<string>, op: string, m: seq<Item>, now: int, contract: map<string, Policy>) {
    if m == [] then op !in byId && op !in rejected
    else if |m| == 1 && Readable(m[0], now, contract) then op in byId && byId[op] == m[0].entry && op !in rejected
    else op in rejected
  }

  lemma ItemsSnoc(op: string, items: seq<Item>, i: Item)
    ensures ItemsAbout(op, items + [i]) == ItemsAbout(op, items) + (if Subject(i) == op then [i] else [])
  {
    ExpandSnoc((x: Item) => if Subject(x) == op then 1 else 0, items, i);
  }

  method ReadItem(byId: map<string, SnapshotEntry>, rejected: set<string>, item: Item, now: int, contract: map<string, Policy>, ghost items: seq<Item>)
    returns (byId': map<string, SnapshotEntry>, rejected': set<string>)
    requires forall op :: op in contract ==> Tracks(byId, rejected, op, ItemsAbout(op, items), now, contract)
    ensures forall op :: op in contract ==> Tracks(byId', rejected', op, ItemsAbout(op, items + [item]), now, contract)
  {
    hide ValidSnapshotEntry, ItemsAbout;
    forall op ensures ItemsAbout(op, items + [item]) == ItemsAbout(op, items) + (if Subject(item) == op then [item] else []) {
      ItemsSnoc(op, items, item);
    }
    byId', rejected' := byId, rejected;
    var op := Subject(item);
    assert ItemsAbout(op, items) == [] ==> ItemsAbout(op, items + [item]) == [item];
    if !Readable(item, now, contract) {
      if op in contract { rejected' := rejected + {op}; }
    } else if op in byId {
      rejected', byId' := rejected + {op}, byId - {op};
    } else {
      byId' := byId[op := item.entry];
    }
  }

  method ReadDiagnosisSnapshot(document: Option<Document>, now: int, contract: map<string, Policy>) returns (r: Option<seq<SnapshotEntry>>)
    ensures r.Some? <==> document.Some? && document.value.pinsAccepted && document.value.generatedAt != 0
                         && document.value.generatedAt <= now + DIAGNOSIS_FUTURE_SKEW && |document.value.items| <= 20
    ensures r.Some? ==>
              var ids := Ascending(Less, contract.Keys);
              && |r.value| == |ids|
              && forall i: nat :: i < |ids| ==> ids[i] in contract && r.value[i] == ReadEntry(ids[i], document.value.items, now, contract)
  {
    hide ValidSnapshotEntry, ItemsAbout, Less, Ascending;
    if document.None? || !document.value.pinsAccepted || document.value.generatedAt == 0
       || document.value.generatedAt > now + DIAGNOSIS_FUTURE_SKEW || |document.value.items| > 20 {
      return None;
    }
    var items := document.value.items;
    var byId: map<string, SnapshotEntry>, rejected: set<string> := map[], {};
    NothingRead(now, contract);
    assert items[..0] == [];
    for i := 0 to |items|
      invariant forall op :: op in contract ==> Tracks(byId, rejected, op, ItemsAbout(op, items[..i]), now, contract)
    {
      byId, rejected := ReadItem(byId, rejected, items[i], now, contract, items[..i]);
      assert items[..i + 1] == items[..i] + [items[i]];
    }
    assert items[..|items|] == items;
    var ids := SortedOperationIds(contract.Keys);
    LessIsStrictWeak();
    AscendingLists(Less, contract.Keys);
    var out: seq<SnapshotEntry> := [];
    for i := 0 to |ids|
      invariant |out| == i
      invariant forall k: nat :: k < i ==> ids[k] in contract && out[k] == ReadEntry(ids[k], items, now, contract)
    {
      var id := ids[i];
      assert id in ids;
      assert Tracks(byId, rejected, id, ItemsAbout(id, items), now, contract);
      if id !in byId || id in rejected {
        out := out + [UnknownEntry(id, contract[id].revision, if id in rejected then RejectedState else UnknownState)];
      } else {
        out := out + [byId[id]];
      }
    }
    r := Some(out);
  }

  lemma NothingRead(now: int, contract: map<string, Policy>)
    ensures forall op :: op in contract ==> Tracks(map[], {}, op, ItemsAbout(op, []), now, contract)
  {
    hide ValidSnapshotEntry;
  }

  lemma {:induction false} ExpandSingle<T(!new)>(count: T -> nat, s: seq<T>, k: nat)
    requires k < |s| && count(s[k]) == 1 && forall j: nat :: j < |s| && j != k ==> count(s[j]) == 0
    ensures Expand(count, s) == [s[k]]
  {
    hide Expand;
    var l, r := s[..k], s[k + 1..];
    assert s == l + [s[k]] + r;
    ExpandConcat(count, l + [s[k]], r);
    ExpandSnoc(count, l, s[k]);
    ExpandNothing(count, l);
    ExpandNothing(count, r);
    assert Repeat(s[k], 1) == [s[k]];
  }

  lemma {:induction false} ExpandNothing<T>(count: T -> nat, s: seq<T>)
    requires forall j: nat :: j < |s| ==> count(s[j]) == 0
    ensures Expand(count, s) == []
  {
    if s != [] { ExpandNothing(count, s[1..]); }
  }

  /** Reading what a projection wrote, at any time from its generation on: an entry within the
      counts comes back as it was until its evidence expires, and is rejected from then on. */
  lemma SnapshotRoundTrip(inputs: Inputs, receipts: seq<Receipt>, requests: seq<Request>, items: seq<Item>, now: int, op: string)
    requires AcceptedContract(inputs.contract, inputs.canaries) && op in inputs.contract && inputs.at <= now
    requires var ids := Ascending(Less, inputs.contract.Keys);
             && |items| == |ids|
             && forall i: nat :: i < |ids| ==> ids[i] in inputs.contract && items[i] == Decoded(FinalEntry(ids[i], inputs, receipts, requests))
    ensures var e := FinalEntry(op, inputs, receipts, requests);
            ReadEntry(op, items, now, inputs.contract)
            == if WithinCounts(e) && (e.body.validUntil.None? || now <= e.body.validUntil.value) then e
               else UnknownEntry(op, inputs.contract[op].revision, RejectedState)
  {
    hide ValidSnapshotEntry, FinalEntry, Ascending, Less, Expand, AcceptedContract, UnknownEntry, WithinCounts;
    var ids := Ascending(Less, inputs.contract.Keys);
    LessIsStrictWeak();
    AscendingDistinct(Less, inputs.contract.Keys);
    assert op in ids;
    var k: nat :| k < |ids| && ids[k] == op;
    forall i: nat | i < |ids| ensures Subject(items[i]) == ids[i] { EntryValidIff(inputs, receipts, requests, ids[i]); }
    assert forall j: nat :: j < |ids| && j != k ==> ids[j] != op;
    ExpandSingle((i: Item) => if Subject(i) == op then 1 else 0, items, k);
    EntryValidIff(inputs, receipts, requests, op);
    ValidLater(FinalEntry(op, inputs, receipts, requests), inputs.at, now, inputs.contract);
  }

  lemma ValidLater(e: SnapshotEntry, at: int, now: int, contract: map<string, Policy>)
    requires (ValidSnapshotEntry(e, at, contract) <==> WithinCounts(e)) && at <= now
    ensures ValidSnapshotEntry(e, now, contract) <==> WithinCounts(e) && (e.body.validUntil.None? || now <= e.body.validUntil.value)
  {
  }

  /** The published diagnosis of an operation: the snapshot's where it was accepted. */
  function Overlay(base: Diagnosis, e: SnapshotEntry): Diagnosis {
    if e.body.state == AcceptedState then e.body.diagnosis else base
  }

  /** Whatever the file holds, a diagnosis taken from it rests on evidence assessed at most
      fifteen minutes before, and is one of the reviewed ones. */
  lemma NeverStale(op: string, items: seq<Item>, now: int, contract: map<string, Policy>, base: Diagnosis)
    requires op in contract
    ensures var e := ReadEntry(op, items, now, contract);
            e.body.state == AcceptedState ==>
              && e.body.assessedAt.Some? && e.body.validUntil.Some?
              && now - MAX_EVIDENCE_AGE <= e.body.assessedAt.value <= now + DIAGNOSIS_FUTURE_SKEW && now <= e.body.validUntil.value
              && Overlay(base, e) != OtherDiagnosis
    ensures ReadEntry(op, items, now, contract).body.state != AcceptedState ==> Overlay(base, ReadEntry(op, items, now, contract)) == base
  {
    hide ItemsAbout, ReceiptEntryValid, RequestEntryValid;
  }
}
