/** The projector in the program's loops, the agreement between a correlation and the
    snapshot that has to take its receipt, and reading a snapshot back. */
module DiagnosisProjection {
  import opened Foundations
  import opened Text
  import opened CorrelationModel
  import opened Correlation
  import opened DiagnosisModel

  // ---------------------------------------------------------------------
  // The validators
  // ---------------------------------------------------------------------

  method CheckRefs(refs: seq<Ref>, known: set<string>) returns (ok: bool)
    ensures ok <==> RefsAccepted(refs, known)
  {
    hide ObservationRef;
    var seen: set<string> := {};
    for i := 0 to |refs|
      invariant RefsAccepted(refs[..i], known)
      invariant forall s :: s in seen <==> exists j: nat :: j < i && refs[j].operation == s
    {
      assert refs[..i + 1] == refs[..i] + [refs[i]];
      if refs[i].operation !in known || refs[i].operation in seen || !ObservationRef(refs[i].observation) {
        return false;
      }
      seen := seen + {refs[i].operation};
    }
    assert refs[..|refs|] == refs;
    ok := true;
  }

  method CheckNotices(r: Receipt) returns (ok: bool)
    ensures ok <==> NoticesAccepted(r)
  {
    hide LinkedNoticeRef;
    var considered: set<string> := {};
    for i := 0 to |r.considered|
      invariant NoDuplicates(r.considered[..i]) && forall s :: s in r.considered[..i] ==> LinkedNoticeRef(s)
      invariant forall s :: s in considered <==> s in r.considered[..i]
    {
      var s := r.considered[i];
      assert r.considered[..i + 1] == r.considered[..i] + [s];
      if !LinkedNoticeRef(s) { return false; }
      if s in considered {
        var j: nat :| j < i && r.considered[..i][j] == s;
        assert r.considered[j] == r.considered[i];
        return false;
      }
      considered := considered + {s};
    }
    assert r.considered[..|r.considered|] == r.considered;
    var superseded: set<string> := {};
    for i := 0 to |r.superseded|
      invariant NoDuplicates(r.superseded[..i]) && forall s :: s in r.superseded[..i] ==> s in r.considered
      invariant forall s :: s in superseded <==> s in r.superseded[..i]
    {
      var s := r.superseded[i];
      assert r.superseded[..i + 1] == r.superseded[..i] + [s];
      if s !in considered { return false; }
      if s in superseded {
        var j: nat :| j < i && r.superseded[..i][j] == s;
        assert r.superseded[j] == r.superseded[i];
        return false;
      }
      superseded := superseded + {s};
    }
    assert r.superseded[..|r.superseded|] == r.superseded;
    ok := r.linked != "" ==> r.linked in considered && r.linked !in superseded;
  }

  method IndexEvidence(evidence: seq<Evidence>) returns (ok: bool, byRef: map<EvidenceRef, Evidence>)
    ensures ok <==> EvidenceAccepted(evidence)
    ensures ok ==> forall ref :: FindEvidence(evidence, ref) == if ref in byRef then Some(byRef[ref]) else None
  {
    hide TimingAccepted, WellFormedRef;
    byRef := map[];
    for i := 0 to |evidence|
      invariant EvidenceAccepted(evidence[..i])
      invariant forall ref :: FindEvidence(evidence[..i], ref) == if ref in byRef then Some(byRef[ref]) else None
      invariant forall ref :: ref in byRef <==> exists j: nat :: j < i && evidence[j].ref == ref
    {
      var e := evidence[i];
      assert evidence[..i + 1] == evidence[..i] + [e] && evidence[..i + 1][..i] == evidence[..i];
      if e.ref in byRef || !WellFormedRef(e.ref) || !e.standard || e.state != Degraded || !TimingAccepted(e.timing) {
        return false, map[];
      }
      byRef := byRef[e.ref := e];
    }
    assert evidence[..|evidence|] == evidence;
    ok := true;
  }

  /** The expiry of every bound operation. */
  method CheckBindings(r: Receipt, entries: map<string, Entry>, byRef: map<EvidenceRef, Evidence>) returns (ok: bool, until: map<string, int>)
    requires forall ref :: FindEvidence(r.evidence, ref) == if ref in byRef then Some(byRef[ref]) else None
    ensures ok <==> BindingsAccepted(r, entries)
    ensures ok ==> forall op :: ExpiryOf(r.bindings, r, op) == if op in until then Some(until[op]) else None
  {
    hide FindEvidence, PolicyText, BindingAccepted, ExpiryOf;
    until := map[];
    NoExpiry(r);
    var seen: set<string> := {};
    for i := 0 to |r.bindings|
      invariant forall k: nat :: k < i ==>
        && BindingAccepted(r.bindings[k], r, entries) && forall j: nat :: j < k ==> r.bindings[j].operation != r.bindings[k].operation
      invariant forall op :: op in seen <==> exists j: nat :: j < i && r.bindings[j].operation == op
      invariant forall op :: ExpiryOf(r.bindings[..i], r, op) == if op in until then Some(until[op]) else None
    {
      var b := r.bindings[i];
      assert r.bindings[..i + 1] == r.bindings[..i] + [b];
      var e := if b.evidence in byRef then Some(byRef[b.evidence]) else None;
      assert e == FindEvidence(r.evidence, b.evidence);
      if !BindingAccepted(b, r, entries) || b.operation in seen { return false, map[]; }
      ExpiryMore(r.bindings[..i], b, r, entries);
      seen := seen + {b.operation};
      until := until[b.operation := r.assessedAt + e.value.timing.remaining * SECOND];
    }
    assert r.bindings[..|r.bindings|] == r.bindings;
    ok := true;
  }

  lemma {:induction false} NoExpiry(r: Receipt)
    ensures forall op :: ExpiryOf(r.bindings[..0], r, op) == None
  {}

  /** An accepted binding sets its operation's expiry, and no other. */
  lemma {:induction false} ExpiryMore(bindings: seq<Binding>, b: Binding, r: Receipt, entries: map<string, Entry>)
    requires BindingAccepted(b, r, entries)
    ensures var e := FindEvidence(r.evidence, b.evidence);
            e.Some? && forall op :: ExpiryOf(bindings + [b], r, op)
                                    == if op == b.operation then Some(r.assessedAt + e.value.timing.remaining * SECOND)
                                       else ExpiryOf(bindings, r, op)
  {
    hide FindEvidence;
    assert (bindings + [b])[..|bindings|] == bindings;
  }

  method ValidInsufficientReceipt(r: Receipt, inputs: Inputs) returns (ok: bool)
    ensures ok <==> InsufficientAccepted(r, inputs.at, set c | c in inputs.canaries)
  {
    hide InsufficientHeader, RefsAccepted;
    if !InsufficientHeader(r, inputs.at) { return false; }
    ok := CheckRefs(r.affected + r.controls, set c | c in inputs.canaries);
  }

  method ValidateReceipt(r: Receipt, inputs: Inputs) returns (ok: bool, until: map<string, int>)
    ensures ok <==> DegradedAccepted(r, inputs.at, inputs.canaries, inputs.catalog)
    ensures ok ==> forall op :: ExpiryOf(r.bindings, r, op) == if op in until then Some(until[op]) else None
  {
    hide DegradedHeader, NoticesAccepted, RefsAccepted, EvidenceAccepted, BindingsAccepted, EntriesOf, FindEvidence;
    until := map[];
    if !DegradedHeader(r, inputs.at) { return false, map[]; }
    ok := CheckNotices(r);
    if !ok { return; }
    var entries := BuildEntries(inputs.canaries, inputs.catalog);
    if entries.None? { return false, map[]; }
    ok := CheckRefs(r.affected + r.controls, entries.value.Keys);
    if !ok { return; }
    if |r.evidence| != |r.affected| || |r.bindings| != |r.affected| { return false, map[]; }
    var byRef;
    ok, byRef := IndexEvidence(r.evidence);
    if !ok { return; }
    ok, until := CheckBindings(r, entries.value, byRef);
  }

  // ---------------------------------------------------------------------
  // Assertions
  // ---------------------------------------------------------------------

  method EvaluateRequest(q: Request, contract: map<string, Policy>) returns (e: Evaluation)
    ensures e == Evaluate(q, contract)
  {
    hide UniqueSafe, Sha256Text;
    e := Evaluation(q.assessedAt, q.operation, "", q.dimension, UnknownOutcome, StaleBinding, 0);
    if q.schema != AssertionV1 || q.assessedAt == 0 || !Sha256Text(q.revision) || q.dimension == OtherDimension || !UniqueSafe(q) {
      return e.(reason := UnsafeObservation);
    }
    if q.operation !in contract || !Bound(q, contract[q.operation]) { return; }
    e := e.(revision := q.revision, fieldCount := |q.fields|);
    var d := DimensionOf(contract[q.operation], q.dimension);
    if d.state == NotAsserted { return e.(outcome := NotObservedOutcome, reason := d.reason); }
    if q.dimension != Contract || d.state != Asserted { return; }
    if |q.fields| == 0 { return e.(outcome := NotObservedOutcome, reason := EmptyPayload); }
    var declared := set f | f in d.declared;
    for i := 0 to |q.fields|
      invariant forall k: nat :: k < i ==> q.fields[k] in d.declared
    {
      if q.fields[i] !in declared { return e.(outcome := Fail, reason := UndeclaredField); }
    }
    e := e.(outcome := Pass, reason := FieldsMatch);
  }

  /** A request the snapshot admits always gets a result it accepts: one of pass, fail
      and not observed, and pass exactly when every field was declared. */
  lemma AdmissibleIsValid(q: Request, at: int, contract: map<string, Policy>, canaries: seq<string>)
    requires AcceptedContract(contract, canaries)
    ensures Assess(q, at, contract).valid <==> Admissible(q, at, contract)
    ensures Admissible(q, at, contract) ==>
              var e := Assess(q, at, contract).evaluation;
              var declared := contract[q.operation].contract.declared;
              && e == Evaluate(q, contract) && e.operation == q.operation && e.revision == contract[q.operation].revision
              && e.assessedAt == q.assessedAt && e.dimension == q.dimension && e.fieldCount == |q.fields|
              && (e.outcome == Pass <==> q.dimension == Contract && q.fields != [] && forall i: nat :: i < |q.fields| ==> q.fields[i] in declared)
              && (e.outcome == Fail <==> q.dimension == Contract && exists i: nat :: i < |q.fields| && q.fields[i] !in declared)
              && (e.outcome == NotObservedOutcome <==> q.dimension != Contract || q.fields == [])
  {
    hide UniqueSafe, Sha256Text, InTime, NoDuplicates;
    if Admissible(q, at, contract) {
      AdmissibleTimed(q, at, contract);
      assert AcceptedPolicy(contract[q.operation]);
    }
  }

  lemma AdmissibleTimed(q: Request, at: int, contract: map<string, Policy>)
    requires Admissible(q, at, contract)
    ensures q.assessedAt != 0
  {
  }

  // ---------------------------------------------------------------------
  // The projection
  // ---------------------------------------------------------------------

  datatype Refusal = InvalidInput | UncoveredOperation | UnreviewedTemplate | InvalidSnapshot

  lemma {:induction false} OccurrencesSnoc(op: string, refs: seq<Ref>, r: Ref)
    ensures Occurrences(op, refs + [r]) == Occurrences(op, refs) + (if r.operation == op then 1 else 0)
  {
    assert (refs + [r])[..|refs|] == refs;
  }

  lemma MentionsSnoc(op: string, inputs: Inputs, receipts: seq<Receipt>, r: Receipt)
    ensures Mentions(op, inputs, receipts + [r]) == Mentions(op, inputs, receipts) + Repeat(r, MentionsIn(op, inputs, r))
  {
    ExpandSnoc((x: Receipt) => MentionsIn(op, inputs, x), receipts, r);
  }

  lemma AboutSnoc(op: string, requests: seq<Request>, q: Request)
    ensures About(op, requests + [q]) == About(op, requests) + (if q.operation == op then [q] else [])
  {
    ExpandSnoc((x: Request) => if x.operation == op then 1 else 0, requests, q);
  }

  /** The entry of every operation after the given mentions. */
  ghost predicate Reflects(entries: map<string, SnapshotEntry>, seen: set<string>, inputs: Inputs, mentions: string -> seq<Receipt>) {
    && entries.Keys == (set c | c in inputs.canaries)
    && (forall op :: op in entries ==>
          op in inputs.contract && entries[op] == FromMentions(op, inputs.contract[op].revision, inputs, mentions(op)))
    && (forall op :: op in entries ==> (op in seen <==> mentions(op) != []))
  }

  lemma MergeFirst(op: string, revision: string, r: Receipt, validUntil: int)
    ensures Merge(UnknownEntry(op, revision, UnknownState), ReceiptEntry(op, revision, r, validUntil)) == ReceiptEntry(op, revision, r, validUntil)
  {
  }

  /** One affected operation of one receipt: a second mention is a rejection. */
  method NextEntry(current: SnapshotEntry, named: bool, inputs: Inputs, r: Receipt, ok: bool, until: map<string, int>, op: string, revision: string,
                   ghost mentions: seq<Receipt>)
    returns (next: SnapshotEntry)
    requires current == FromMentions(op, revision, inputs, mentions) && (named <==> mentions != [])
    requires ok <==> DegradedAccepted(r, inputs.at, inputs.canaries, inputs.catalog)
    requires ok ==> forall o :: ExpiryOf(r.bindings, r, o) == if o in until then Some(until[o]) else None
    ensures next == FromMentions(op, revision, inputs, mentions + [r])
  {
    hide DegradedAccepted, ExpiryOf, Merge, UnknownEntry, ReceiptEntry;
    assert mentions == [] ==> mentions + [r] == [r];
    if named { return UnknownEntry(op, revision, RejectedState); }
    if !ok { return UnknownEntry(op, revision, RejectedState); }
    if op !in until || inputs.at > until[op] { return UnknownEntry(op, revision, UnknownState); }
    MergeFirst(op, revision, r, until[op]);
    next := Merge(current, ReceiptEntry(op, revision, r, until[op]));
  }

  method TakeAffected(entries: map<string, SnapshotEntry>, seen: set<string>, inputs: Inputs, r: Receipt, ok: bool, until: map<string, int>, op: string,
                      ghost before: string -> seq<Receipt>, ghost after: string -> seq<Receipt>)
    returns (next: map<string, SnapshotEntry>, seen': set<string>)
    requires Reflects(entries, seen, inputs, before)
    requires forall o :: after(o) == if o == op then before(o) + [r] else before(o)
    requires ok <==> DegradedAccepted(r, inputs.at, inputs.canaries, inputs.catalog)
    requires ok ==> forall o :: ExpiryOf(r.bindings, r, o) == if o in until then Some(until[o]) else None
    ensures Reflects(next, seen', inputs, after)
  {
    hide DegradedAccepted, ExpiryOf, FromMentions;
    next, seen' := entries, seen;
    if op in entries {
      var entry := NextEntry(entries[op], op in seen, inputs, r, ok, until, op, inputs.contract[op].revision, before(op));
      next, seen' := entries[op := entry], seen + {op};
    }
  }

  method TakeReceipt(entries: map<string, SnapshotEntry>, seen: set<string>, inputs: Inputs, r: Receipt, ghost receipts: seq<Receipt>)
    returns (next: map<string, SnapshotEntry>, seen': set<string>)
    requires Reflects(entries, seen, inputs, op => Mentions(op, inputs, receipts))
    ensures Reflects(next, seen', inputs, op => Mentions(op, inputs, receipts + [r]))
  {
    hide Reflects, InsufficientAccepted, DegradedAccepted, ExpiryOf, Mentions, FromMentions;
    next, seen' := entries, seen;
    ghost var before := op => Mentions(op, inputs, receipts);
    ghost var after := op => Mentions(op, inputs, receipts + [r]);
    var insufficient := ValidInsufficientReceipt(r, inputs);
    if insufficient {
      forall op ensures before(op) == after(op) { MentionsSnoc(op, inputs, receipts, r); }
      SameMentions(next, seen', inputs, before, after);
      return;
    }
    var ok, until := ValidateReceipt(r, inputs);
    ghost var at: string -> seq<Receipt> := op => Mentions(op, inputs, receipts) + Repeat(r, 0);
    SameMentions(next, seen', inputs, before, at);
    for i := 0 to |r.affected|
      invariant forall op :: at(op) == before(op) + Repeat(r, Occurrences(op, r.affected[..i]))
      invariant Reflects(next, seen', inputs, at)
    {
      var op := r.affected[i].operation;
      ghost var grown: string -> seq<Receipt> := o => Mentions(o, inputs, receipts) + Repeat(r, Occurrences(o, r.affected[..i + 1]));
      assert r.affected[..i + 1] == r.affected[..i] + [r.affected[i]];
      forall o ensures grown(o) == if o == op then at(o) + [r] else at(o) {
        OccurrencesSnoc(o, r.affected[..i], r.affected[i]);
      }
      next, seen' := TakeAffected(next, seen', inputs, r, ok, until, op, at, grown);
      at := grown;
    }
    assert r.affected[..|r.affected|] == r.affected;
    forall op ensures at(op) == after(op) { MentionsSnoc(op, inputs, receipts, r); }
    SameMentions(next, seen', inputs, at, after);
  }

  lemma SameMentions(entries: map<string, SnapshotEntry>, seen: set<string>, inputs: Inputs, before: string -> seq<Receipt>, after: string -> seq<Receipt>)
    requires Reflects(entries, seen, inputs, before) && forall op :: before(op) == after(op)
    ensures Reflects(entries, seen, inputs, after)
  {
    hide FromMentions;
  }

  ghost predicate Answers(entries: map<string, SnapshotEntry>, seen: set<string>, inputs: Inputs, receipts: seq<Receipt>, requests: seq<Request>) {
    && entries.Keys == (set c | c in inputs.canaries)
    && (forall op :: op in entries ==> op in inputs.contract && entries[op] == FinalEntry(op, inputs, receipts, requests))
    && (forall op :: op in entries ==> (op in seen <==> About(op, requests) != []))
  }

  method TakeRequest(entries: map<string, SnapshotEntry>, seen: set<string>, inputs: Inputs, q: Request, ghost receipts: seq<Receipt>, ghost requests: seq<Request>)
    returns (next: map<string, SnapshotEntry>, seen': set<string>)
    requires Answers(entries, seen, inputs, receipts, requests)
    ensures Answers(next, seen', inputs, receipts, requests + [q])
  {
    hide Assess, Merge, About, FromMentions, Mentions;
    next, seen' := entries, seen;
    forall op ensures About(op, requests + [q]) == About(op, requests) + (if q.operation == op then [q] else []) {
      AboutSnoc(op, requests, q);
    }
    var op := q.operation;
    if op in entries {
      var current := entries[op];
      var revision := inputs.contract[op].revision;
      assert About(op, requests) == [] ==> About(op, requests + [q]) == [q];
      if op in seen {
        next := entries[op := UnknownEntry(op, revision, RejectedState)];
      } else {
        seen' := seen + {op};
        var a := AssessRequest(q, inputs);
        next := entries[op := if !a.valid then UnknownEntry(op, revision, RejectedState) else Merge(current, RequestEntry(q, a))];
      }
    }
  }

  method AssessRequest(q: Request, inputs: Inputs) returns (a: Assessment)
    ensures a == Assess(q, inputs.at, inputs.contract)
  {
    var e := EvaluateRequest(q, inputs.contract);
    a := Check(q, e, inputs.at, inputs.contract);
  }

  /** The entries of a snapshot, in ascending order of their operations. */
  ghost function SnapshotOf(inputs: Inputs, receipts: seq<Receipt>, requests: seq<Request>): seq<SnapshotEntry> {
    var ids := Ascending(Less, inputs.contract.Keys);
    seq(|ids|, i requires 0 <= i < |ids| =>
      if ids[i] in inputs.contract then FinalEntry(ids[i], inputs, receipts, requests) else UnknownEntry(ids[i], "", UnknownState))
  }

  method ProjectDiagnosisSnapshot(inputs: Inputs, receipts: seq<Receipt>, requests: seq<Request>, templatesReviewed: bool,
                                  schemaAccepts: seq<SnapshotEntry> -> bool)
    returns (r: Result<seq<SnapshotEntry>, Refusal>)
    requires NoDuplicates(inputs.canaries)
    ensures r.Err? <==> inputs.at == 0 || |receipts| > 100 || |requests| > 1000 || |inputs.contract| != |inputs.canaries|
                        || (exists c :: c in inputs.canaries && c !in inputs.contract) || !templatesReviewed
                        || !schemaAccepts(SnapshotOf(inputs, receipts, requests))
    ensures r.Ok? ==> r.value == SnapshotOf(inputs, receipts, requests)
    ensures r.Ok? ==>
              var ids := Ascending(Less, inputs.contract.Keys);
              && |r.value| == |ids|
              && forall i: nat :: i < |ids| ==> ids[i] in inputs.contract && r.value[i] == FinalEntry(ids[i], inputs, receipts, requests)
  {
    hide FinalEntry, Reflects, Answers, Less, SortBy, Ascending;
    if inputs.at == 0 || |receipts| > 100 || |requests| > 1000 || |inputs.contract| != |inputs.canaries| { return Err(InvalidInput); }
    var start := StartEntries(inputs);
    if start.None? { return Err(UncoveredOperation); }
    if !templatesReviewed { return Err(UnreviewedTemplate); }
    var entries, seen: set<string> := start.value, {};
    assert receipts[..0] == [];
    for i := 0 to |receipts|
      invariant Reflects(entries, seen, inputs, op => Mentions(op, inputs, receipts[..i]))
    {
      entries, seen := TakeReceipt(entries, seen, inputs, receipts[i], receipts[..i]);
      assert receipts[..i + 1] == receipts[..i] + [receipts[i]];
    }
    assert receipts[..|receipts|] == receipts && requests[..0] == [];
    ReflectsAnswers(entries, seen, inputs, receipts);
    seen := {};
    for i := 0 to |requests|
      invariant Answers(entries, seen, inputs, receipts, requests[..i])
    {
      entries, seen := TakeRequest(entries, seen, inputs, requests[i], receipts, requests[..i]);
      assert requests[..i + 1] == requests[..i] + [requests[i]];
    }
    assert requests[..|requests|] == requests;
    var emitted := EmitEntries(entries, seen, inputs, receipts, requests);
    assert emitted == SnapshotOf(inputs, receipts, requests);
    if !schemaAccepts(emitted) { return Err(InvalidSnapshot); }
    r := Ok(emitted);
  }

  method StartEntries(inputs: Inputs) returns (r: Option<map<string, SnapshotEntry>>)
    ensures r.None? <==> exists c :: c in inputs.canaries && c !in inputs.contract
    ensures r.Some? ==> Reflects(r.value, {}, inputs, op => Mentions(op, inputs, []))
  {
    var entries: map<string, SnapshotEntry> := map[];
    for i := 0 to |inputs.canaries|
      invariant forall c :: c in inputs.canaries[..i] ==> c in inputs.contract
      invariant entries.Keys == set c | c in inputs.canaries[..i]
      invariant forall op :: op in entries ==> op in inputs.contract && entries[op] == UnknownEntry(op, inputs.contract[op].revision, UnknownState)
    {
      var c := inputs.canaries[i];
      assert inputs.canaries[..i + 1] == inputs.canaries[..i] + [c];
      if c !in inputs.contract { return None; }
      entries := entries[c := UnknownEntry(c, inputs.contract[c].revision, UnknownState)];
    }
    assert inputs.canaries[..|inputs.canaries|] == inputs.canaries;
    r := Some(entries);
  }

  lemma ReflectsAnswers(entries: map<string, SnapshotEntry>, seen: set<string>, inputs: Inputs, receipts: seq<Receipt>)
    requires Reflects(entries, seen, inputs, op => Mentions(op, inputs, receipts))
    ensures Answers(entries, {}, inputs, receipts, [])
  {
    hide Mentions, FromMentions;
    forall op ensures About(op, []) == [] {}
  }

  lemma {:induction false} DistinctCount(s: seq<string>)
    requires NoDuplicates(s)
    ensures |set c | c in s| == |s|
  {
    if s != [] {
      DistinctCount(s[1..]);
      assert s == [s[0]] + s[1..];
      assert (set c | c in s) == {s[0]} + (set c | c in s[1..]);
    }
  }

  method EmitEntries(entries: map<string, SnapshotEntry>, seen: set<string>, inputs: Inputs, ghost receipts: seq<Receipt>, ghost requests: seq<Request>)
    returns (emitted: seq<SnapshotEntry>)
    requires NoDuplicates(inputs.canaries) && |inputs.contract| == |inputs.canaries|
    requires Answers(entries, seen, inputs, receipts, requests)
    requires forall c :: c in inputs.canaries ==> c in inputs.contract
    ensures var ids := Ascending(Less, inputs.contract.Keys);
            && |emitted| == |ids|
            && forall i: nat :: i < |ids| ==> ids[i] in inputs.contract && emitted[i] == FinalEntry(ids[i], inputs, receipts, requests)
  {
    hide FinalEntry, Less, SortBy, Ascending, About;
    DistinctCount(inputs.canaries);
    SubsetOfSameSize((set c | c in inputs.canaries), inputs.contract.Keys);
    var ids := SortedOperationIds(inputs.contract.Keys);
    LessIsStrictWeak();
    AscendingLists(Less, inputs.contract.Keys);
    emitted := [];
    for i := 0 to |ids|
      invariant |emitted| == i
      invariant forall k: nat :: k < i ==> ids[k] in inputs.contract && emitted[k] == FinalEntry(ids[k], inputs, receipts, requests)
    {
      assert ids[i] in ids;
      emitted := emitted + [entries[ids[i]]];
    }
  }

  method SortedOperationIds(keys: set<string>) returns (ids: seq<string>)
    ensures ids == Ascending(Less, keys)
  {
    hide Less, SortBy, Ascending;
    ids := [];
    var remaining := keys;
    while remaining != {}
      invariant remaining <= keys && NoDuplicates(ids)
      invariant forall s :: s in ids <==> s in keys - remaining
    {
      var id :| id in remaining;
      assert id !in ids;
      ListsConcat(ids, [id], keys - remaining, {id});
      ids := ids + [id];
      remaining := remaining - {id};
    }
    LessIsStrictWeak();
    TextsComparable(keys);
    SortIsAscending(Less, keys, ids);
    ids := SortBy(Less, ids);
  }
}
