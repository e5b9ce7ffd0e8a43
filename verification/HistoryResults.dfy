/** What the history store's design promises, stated over whole directories: the
    usage file refines the full scan, a retried append is answered with the same
    reference, published indices only move forward, a frozen batch stays frozen.
    And where the code does less than its design suggests, the exact condition and
    a concrete directory. */
module HistoryResults {
  import opened Foundations
  import opened HistoryModel
  import opened HistoryReplay
  import opened HistoryInvariant
  import opened HistoryPublication
  import opened HistoryAccounting
  import opened HistoryRecovery
  import opened HistorySteps
  import opened HistoryBatch
  import opened HistoryStore

  // ---------------------------------------------------------------------
  // The fast form refines the simple one
  // ---------------------------------------------------------------------

  /** After an operation has completed, a rebuild would change nothing: every field
      of the incremental usage file is the full scan's. */
  lemma SettledIsRecovered(c: Codec, maximum: int, d: Disk, b: Disk, log: seq<AckRef>)
    requires WfCodec(c) && Inv(c, maximum, d, b, log) && Settled(c, maximum, d, b) && ReadUsage(d, maximum).Some?
    ensures ReplayAccepts(d) && Recover(c, maximum, d) == d
  {
    assert d.(usage := None) == b && d.usage == Some(Scan(c, maximum, b, d.usage.value.blocked));
    InvParts(c, maximum, d, b, log);
    hide *;
    RecoveryReachesTarget(c, maximum, d, b, log);
    TargetIsBase(c, d, b);
    BlockedIs(d, maximum);
  }

  lemma BlockedIs(d: Disk, maximum: int)
    requires ReadUsage(d, maximum).Some?
    ensures d.usage.Some? && BlockedCount(d, maximum) == d.usage.value.blocked
  {}

  /** The batches partition the log: what is published is exactly 1 up to the checkpoint,
      what is pending exactly the rest, each number once. */
  lemma SequencesPartition(c: Codec, b: Disk, log: seq<AckRef>, s: nat)
    requires Full(c, b, log)
    ensures CheckpointSequence(b) <= |log|
    ensures (exists id :: id in b.records && b.records[id].sequence == s) <==> CheckpointSequence(b) < s <= |log|
    ensures s in b.pending <==> CheckpointSequence(b) < s <= |log|
    ensures forall k :: k in b.opIndex ==> 0 < b.opIndex[k].sequence <= CheckpointSequence(b)
    ensures forall p, q :: p in b.records && q in b.records && b.records[p].sequence == b.records[q].sequence ==> p == q
  {
    hide LogOk, CheckpointMatches, DescriptorMatches, ReservationsOk, GenerationsIncrease;
    if CheckpointSequence(b) < s <= |log| { assert At(log, s).id in b.records; }
  }

  /** Any two crashes of one operation recover to the same directory, counted refusals
      aside, if both left the transaction or neither did. A crash before the
      transaction was written recovers to the directory before the publication, a
      crash after it to the directory after; each with its own full scan. */
  lemma CrashesConverge(c: Codec, maximum: int, d1: Disk, d2: Disk, b: Disk, log: seq<AckRef>)
    requires WfCodec(c) && Inv(c, maximum, d1, b, log) && Inv(c, maximum, d2, b, log)
    ensures ReplayAccepts(d1) && ReplayAccepts(d2) && (d2.txn.Some? ==> ApplyAccepts(b, d2.txn.value))
    ensures d1.txn == d2.txn
            ==> Recover(c, maximum, d1) == WithBlocked(Recover(c, maximum, d2), BlockedCount(d1, maximum))
    ensures d1.txn.None? && d2.txn.Some?
            ==> var e := ApplyTransaction(c, b, d2.txn.value);
                && Recover(c, maximum, d1) == b.(usage := Some(Scan(c, maximum, b, BlockedCount(d1, maximum))))
                && Recover(c, maximum, d2) == e.(usage := Some(Scan(c, maximum, e, BlockedCount(d2, maximum))))
  {
    hide *;
    RecoveryReachesTarget(c, maximum, d1, b, log);
    RecoveryReachesTarget(c, maximum, d2, b, log);
    TargetOf(c, d1, b);
    TargetOf(c, d2, b);
    BlockedReplaced(c, maximum, Target(c, d2, b), BlockedCount(d2, maximum), BlockedCount(d1, maximum));
  }

  /** The same usage file, but for the count of refusals. */
  function WithBlocked(d: Disk, blocked: int): Disk {
    if d.usage.Some? then d.(usage := Some(d.usage.value.(blocked := blocked))) else d
  }

  lemma BlockedReplaced(c: Codec, maximum: int, e: Disk, before: int, after: int)
    ensures WithBlocked(e.(usage := Some(Scan(c, maximum, e, before))), after)
            == e.(usage := Some(Scan(c, maximum, e, after)))
  {
    hide UsedBytes;
  }

  lemma TargetOf(c: Codec, d: Disk, b: Disk)
    requires d.txn.Some? ==> ApplyAccepts(b, d.txn.value)
    ensures Target(c, d, b) == if d.txn.Some? then ApplyTransaction(c, b, d.txn.value) else b
  {
    hide ApplyAccepts, ApplyTransaction;
  }

  // ---------------------------------------------------------------------
  // Appends
  // ---------------------------------------------------------------------

  /** A retry with the same record gets the reference of the first append, as long
      as the record is pending. */
  lemma RetryWhilePending(c: Codec, b: Disk, log: seq<AckRef>, s: StoredRecord, grant: Grant, now: int)
    requires Full(c, b, log) && AppendReady(c, b, log, s) && Matches(grant, s.record.identity)
    ensures AppendDecision(c, Appended(c, b, s), grant, s.record, now, |log| + 2) == Known(s.appendedAt)
  {
    hide Full;
  }

  /** And as long as it is its operation's latest publication. */
  lemma RetryWhenPublished(c: Codec, b: Disk, log: seq<AckRef>, k: OperationKey, grant: Grant, now: int, next: nat)
    requires Full(c, b, log) && k in b.opIndex && Matches(grant, b.opIndex[k].identity)
    ensures var i := b.opIndex[k];
            AppendDecision(c, b, grant, i.sha.of, now, next) == Known(i.appendedAt)
  {
    var i := b.opIndex[k];
    assert EntryOk(c, At(log, i.sequence), i.sequence);
    PublishedIsNotPending(c, b, log, i.sequence);
    hide LogOk, RecordsWithin, RecordsCover, PendingWithin, PendingCover, IndexCover, CheckpointMatches, DescriptorMatches;
  }

  lemma PublishedIsNotPending(c: Codec, b: Disk, log: seq<AckRef>, s: nat)
    requires Full(c, b, log) && 0 < s <= CheckpointSequence(b)
    ensures s <= |log| && At(log, s).id !in b.records
  {
    hide *;
    FullLog(c, b, log);
    NotPendingBefore(b.records, CheckpointSequence(b), log, s);
  }

  lemma NotPendingBefore(records: map<Identity, StoredRecord>, from: nat, log: seq<AckRef>, s: nat)
    requires GenerationsIncrease(log) && RecordsWithin(records, from, log) && 0 < s <= from <= |log|
    ensures At(log, s).id !in records
  {
    if At(log, s).id in records {
      var id := At(log, s).id;
      assert RecordFits(id, records[id], from, log);
      LogIdentityUnique(log, s, records[id].sequence);
    }
  }

  // ---------------------------------------------------------------------
  // Publications
  // ---------------------------------------------------------------------

  /** Strictly forward, in sequence and in generation. */
  predicate Advanced(before: OperationIndex, after: OperationIndex) {
    after.sequence > before.sequence && after.identity.generation > before.identity.generation
  }

  /** A publication moves each of its operations strictly forward, and leaves the
      index of every other operation alone. */
  lemma PublicationAdvances(c: Codec, b: Disk, log: seq<AckRef>, t: Transaction, k: OperationKey)
    requires Full(c, b, log) && TransactionFor(b, t)
    ensures ApplyAccepts(b, t)
    ensures var e := ApplyTransaction(c, b, t);
            && (k in Keys(t.records) ==> k in e.opIndex)
            && (k in Keys(t.records) && k in b.opIndex ==> Advanced(b.opIndex[k], e.opIndex[k]))
            && (k !in Keys(t.records) ==> Lookup(e.opIndex, k) == Lookup(b.opIndex, k))
  {
    assert ApplyAccepts(b, t);
    hide *;
    PublicationFields(c, b, log, t);
    FinalIndicesKeys(t.records, t.confirmation);
    BatchAdvances(c, b, log, t.confirmation, k);
  }

  lemma {:induction false} BatchAdvances(c: Codec, b: Disk, log: seq<AckRef>, confirmation: Confirmation, k: OperationKey)
    requires Full(c, b, log) && b.descriptor.Some?
    ensures var final := FinalIndices(b.descriptor.value, confirmation);
            && (k in final && k in b.opIndex ==> Advanced(b.opIndex[k], (b.opIndex + final)[k]))
            && (k !in final ==> Lookup(b.opIndex + final, k) == Lookup(b.opIndex, k))
  {
    hide *;
    FullBatch(c, b, log);
    LogParts(c, log);
    var refs, from := b.descriptor.value, CheckpointSequence(b);
    FinalIndicesLatest(refs, confirmation, from, log);
    FinalAdvances(b.opIndex, FinalIndices(refs, confirmation), confirmation, from, from + |refs|, log, k);
  }

  lemma FinalAdvances(original: map<OperationKey, OperationIndex>, final: map<OperationKey, OperationIndex>,
                      confirmation: Confirmation, from: nat, upto: nat, log: seq<AckRef>, k: OperationKey)
    requires GenerationsIncrease(log) && IndexWithin(original, from, log)
    requires FinalWithin(final, confirmation, from, upto, log)
    ensures k in final && k in original ==> Advanced(original[k], (original + final)[k])
    ensures k !in final ==> Lookup(original + final, k) == Lookup(original, k)
  {
    if k in final && k in original {
      var s, t := original[k].sequence, final[k].sequence;
      assert KeyOf(log[s - 1].id) == KeyOf(log[t - 1].id);
    }
  }

  /** Once a batch is frozen, appends do not reach it; and the batch that would be
      frozen now is the one that would be frozen later, unless the log ended it. */
  lemma FrozenStays(c: Codec, refs: seq<AckRef>, from: nat, log: seq<AckRef>, r: AckRef)
    requires LongestPrefix(c, refs, from, log)
    ensures WithinLimits(c, refs, from, log + [r])
    ensures from + |refs| < |log| || |refs| == MAX_BATCH_RECORDS ==> LongestPrefix(c, refs, from, log + [r])
  {
    assert (log + [r])[from..from + |refs|] == log[from..from + |refs|];
    if from + |refs| < |log| {
      assert (log + [r])[from..from + |refs| + 1] == log[from..from + |refs| + 1];
    }
  }

  // ---------------------------------------------------------------------
  // The order in which the changes of a publication are folded does not matter
  // ---------------------------------------------------------------------

  /** Folding the changes in any other order gives the same checkpoint: the digest
      and the count are functions of the resulting index alone. */
  lemma {:induction false} FoldOrderIrrelevant(c: Codec, original: map<OperationKey, OperationIndex>, changes: seq<IndexChange>,
                            others: seq<IndexChange>, final: map<OperationKey, OperationIndex>)
    requires ChangesDescribe(original, changes, final) && ChangesDescribe(original, others, final)
    requires ChangeKeys(changes) == final.Keys == ChangeKeys(others)
    ensures Advance(c, |original|, XorFold(original, c.fingerprint), changes, final)
            == Advance(c, |original|, XorFold(original, c.fingerprint), others, final)
  {
    AdvanceIsFold(c, original, changes, final);
    AdvanceIsFold(c, original, others, final);
    UpdatedIsOverlay(original, changes, final);
    UpdatedIsOverlay(original, others, final);
  }

  // ---------------------------------------------------------------------
  // References to stored records
  // ---------------------------------------------------------------------

  /** What an attempt's reference is checked against: the record file if it is there,
      else its operation's published index. */
  predicate VerifiesReference(d: Disk, id: Identity, sha: RecordDigest) {
    if id in d.records then d.records[id].sha == sha
    else KeyOf(id) in d.opIndex && d.opIndex[KeyOf(id)].identity == id && d.opIndex[KeyOf(id)].sha == sha
  }

  /** The log entry is pending, or its operation's latest publication. */
  ghost predicate Verifiable(b: Disk, log: seq<AckRef>, s: nat)
    requires 0 < s <= |log|
  {
    s > CheckpointSequence(b)
    || forall u :: s < u <= CheckpointSequence(b) && u <= |log| ==> KeyOf(At(log, u).id) != KeyOf(At(log, s).id)
  }

  ghost predicate NamesVerifiable(b: Disk, log: seq<AckRef>, id: Identity, sha: RecordDigest) {
    exists s :: 0 < s <= |log| && At(log, s).id == id && At(log, s).sha == sha && Verifiable(b, log, s)
  }

  /** On a complete directory a reference is confirmed exactly if it names an accepted
      record that is still pending or is the latest published one of its operation. */
  lemma ReferenceIffAccepted(c: Codec, b: Disk, log: seq<AckRef>, id: Identity, sha: RecordDigest)
    requires Full(c, b, log)
    ensures VerifiesReference(b, id, sha) <==> NamesVerifiable(b, log, id, sha)
  {
    hide *;
    FullLog(c, b, log);
    LogParts(c, log);
    if VerifiesReference(b, id, sha) { VerifiedIsNamed(b, log, id, sha, CheckpointSequence(b)); }
    if NamesVerifiable(b, log, id, sha) { NamedIsVerified(b, log, id, sha, CheckpointSequence(b)); }
  }

  lemma VerifiedIsNamed(b: Disk, log: seq<AckRef>, id: Identity, sha: RecordDigest, from: nat)
    requires from == CheckpointSequence(b) <= |log| && GenerationsIncrease(log)
    requires RecordsWithin(b.records, from, log) && IndexWithin(b.opIndex, from, log) && IndexCover(b.opIndex, from, log)
    requires VerifiesReference(b, id, sha)
    ensures NamesVerifiable(b, log, id, sha)
  {
    if id in b.records {
      assert RecordFits(id, b.records[id], from, log);
      assert Verifiable(b, log, b.records[id].sequence);
    } else {
      assert Verifiable(b, log, b.opIndex[KeyOf(id)].sequence);
    }
  }

  lemma NamedIsVerified(b: Disk, log: seq<AckRef>, id: Identity, sha: RecordDigest, from: nat)
    requires from == CheckpointSequence(b) <= |log| && GenerationsIncrease(log)
    requires RecordsWithin(b.records, from, log) && RecordsCover(b.records, from, log)
    requires IndexWithin(b.opIndex, from, log) && IndexCover(b.opIndex, from, log)
    requires NamesVerifiable(b, log, id, sha)
    ensures VerifiesReference(b, id, sha)
  {
    var s :| 0 < s <= |log| && At(log, s).id == id && At(log, s).sha == sha && Verifiable(b, log, s);
    if s > from {
      assert b.records[id] == StoredOf(At(log, s));
    } else {
      NotPendingBefore(b.records, from, log, s);
      assert b.opIndex[KeyOf(id)].sequence == s;
    }
  }

  /** The reference names a record that was accepted, whatever has become of it. */
  ghost predicate Names(log: seq<AckRef>, id: Identity, sha: RecordDigest) {
    exists s :: 0 < s <= |log| && At(log, s).id == id && At(log, s).sha == sha
  }

  predicate IndexedAs(opIndex: map<OperationKey, OperationIndex>, id: Identity) {
    KeyOf(id) in opIndex && opIndex[KeyOf(id)].identity == id
  }

  /** The check takes no lock, so it may read between any two writes. Outside a
      publication it confirms what it should. During one it confirms the reference of
      an accepted record exactly if the record's file is still there or its operation's
      index already, or still, names it; and at no time a reference to anything else. */
  lemma ReferenceBetweenWrites(c: Codec, maximum: int, d: Disk, b: Disk, log: seq<AckRef>, id: Identity, sha: RecordDigest)
    requires Inv(c, maximum, d, b, log)
    ensures d.txn.None? ==> (VerifiesReference(d, id, sha) <==> NamesVerifiable(b, log, id, sha))
    ensures Names(log, id, sha) ==> (VerifiesReference(d, id, sha) <==> id in d.records || IndexedAs(d.opIndex, id))
    ensures VerifiesReference(d, id, sha) ==> Names(log, id, sha)
  {
    hide *;
    ReachedFiles(c, maximum, d, b, log);
    ReferenceIffAccepted(c, b, log, id, sha);
    SameReference(d, b, id, sha);
    FullLog(c, b, log);
    NamedByFiles(d, log, id, sha);
  }

  predicate RecordNamed(log: seq<AckRef>, r: StoredRecord, id: Identity) {
    0 < r.sequence <= |log| && At(log, r.sequence).id == id && At(log, r.sequence).sha == r.sha
  }

  predicate IndexNamed(log: seq<AckRef>, i: OperationIndex) {
    0 < i.sequence <= |log| && At(log, i.sequence).id == i.identity && At(log, i.sequence).sha == i.sha
  }

  /** Every record and index file on disk is that of a log entry. */
  ghost predicate FilesNamed(d: Disk, log: seq<AckRef>) {
    && (forall id :: id in d.records ==> RecordNamed(log, d.records[id], id))
    && (forall k :: k in d.opIndex ==> IndexNamed(log, d.opIndex[k]))
  }

  lemma NamedByFiles(d: Disk, log: seq<AckRef>, id: Identity, sha: RecordDigest)
    requires GenerationsIncrease(log) && FilesNamed(d, log)
    ensures Names(log, id, sha) ==> (VerifiesReference(d, id, sha) <==> id in d.records || IndexedAs(d.opIndex, id))
    ensures VerifiesReference(d, id, sha) ==> Names(log, id, sha)
  {
    if Names(log, id, sha) && (id in d.records || IndexedAs(d.opIndex, id)) {
      var s :| 0 < s <= |log| && At(log, s).id == id && At(log, s).sha == sha;
      var t := if id in d.records then d.records[id].sequence else d.opIndex[KeyOf(id)].sequence;
      assert if id in d.records then RecordNamed(log, d.records[id], id) else IndexNamed(log, d.opIndex[KeyOf(id)]);
      LogIdentityUnique(log, s, t);
    }
    if VerifiesReference(d, id, sha) {
      assert if id in d.records then RecordNamed(log, d.records[id], id) else IndexNamed(log, d.opIndex[KeyOf(id)]);
    }
  }

  lemma FullNamed(c: Codec, b: Disk, log: seq<AckRef>)
    requires Full(c, b, log)
    ensures FilesNamed(b, log)
  {
    hide LogOk, RecordsCover, PendingWithin, PendingCover, IndexCover, CheckpointMatches, DescriptorMatches;
    forall id | id in b.records ensures RecordNamed(log, b.records[id], id) {
      assert RecordFits(id, b.records[id], CheckpointSequence(b), log);
    }
  }

  lemma SameReference(d: Disk, b: Disk, id: Identity, sha: RecordDigest)
    ensures d.records == b.records && d.opIndex == b.opIndex
            ==> (VerifiesReference(d, id, sha) <==> VerifiesReference(b, id, sha))
  {}

  lemma ReachedFiles(c: Codec, maximum: int, d: Disk, b: Disk, log: seq<AckRef>)
    requires Inv(c, maximum, d, b, log)
    ensures Full(c, b, log) && FilesNamed(d, log)
    ensures d.txn.None? ==> d.records == b.records && d.opIndex == b.opIndex
  {
    hide Full, Bounded, TransactionFor, Progress, Settled, FilesNamed, SubMap;
    FullNamed(c, b, log);
    if d.txn.Some? {
      var t := d.txn.value;
      InFlightNamed(c, b, log, t, d);
    } else {
      SameNamed(d, b, log);
    }
  }

  lemma SameNamed(d: Disk, b: Disk, log: seq<AckRef>)
    requires FilesNamed(b, log) && d.records == b.records && d.opIndex == b.opIndex
    ensures FilesNamed(d, log)
  {}

  lemma InFlightNamed(c: Codec, b: Disk, log: seq<AckRef>, t: Transaction, d: Disk)
    requires Full(c, b, log) && TransactionFor(b, t) && Progress(c, b, t, d)
    ensures FilesNamed(d, log)
  {
    assert ApplyAccepts(b, t);
    hide *;
    PublicationIsFull(c, b, log, t);
    FullNamed(c, b, log);
    FullNamed(c, ApplyTransaction(c, b, t), log);
    ProgressFiles(c, b, t, d);
    MixedNamed(d, b, ApplyTransaction(c, b, t), log);
  }

  lemma ProgressFiles(c: Codec, b: Disk, t: Transaction, d: Disk)
    requires ApplyAccepts(b, t) && Progress(c, b, t, d)
    ensures SubMap(d.records, b.records) && Mixed(d.opIndex, b.opIndex, ApplyTransaction(c, b, t).opIndex)
  {
    hide ApplyAccepts, ApplyTransaction, SubMap, Mixed, PendingOutlives, FilesSettled;
  }

  lemma MixedNamed(d: Disk, b: Disk, e: Disk, log: seq<AckRef>)
    requires FilesNamed(b, log) && FilesNamed(e, log)
    requires SubMap(d.records, b.records) && Mixed(d.opIndex, b.opIndex, e.opIndex)
    ensures FilesNamed(d, log)
  {
    hide RecordNamed, IndexNamed;
  }

  /** So there is a time in every publication at which none of its references is
      confirmed, although each of its records is durable: after the record files have
      gone and before the index files are written. */
  lemma ReferenceLostDuringPublication(c: Codec, b: Disk, log: seq<AckRef>, i: nat)
    requires Full(c, b, log) && b.descriptor.Some? && i < |b.descriptor.value|
    ensures var r := b.descriptor.value[i];
            && VerifiesReference(b, r.id, r.sha)
            && !VerifiesReference(RemovedTo(b, b.descriptor.value, |b.descriptor.value|), r.id, r.sha)
  {
    hide *;
    var refs, from := b.descriptor.value, CheckpointSequence(b);
    FullBatch(c, b, log);
    LogParts(c, log);
    BatchEntry(refs, from, log, i);
    RemovedAll(b, refs);
    NotIndexedAfter(b.opIndex, from, log, from + 1 + i);
    CoversEntry(b.records, from, log, from + 1 + i);
    LostReference(b, refs, i);
  }

  lemma CoversEntry(records: map<Identity, StoredRecord>, from: nat, log: seq<AckRef>, s: nat)
    requires RecordsCover(records, from, log) && from < s <= |log|
    ensures At(log, s).id in records && records[At(log, s).id].sha == At(log, s).sha
  {}

  lemma NotIndexedAfter(opIndex: map<OperationKey, OperationIndex>, from: nat, log: seq<AckRef>, s: nat)
    requires GenerationsIncrease(log) && IndexWithin(opIndex, from, log) && from < s <= |log|
    ensures !IndexedAs(opIndex, At(log, s).id)
  {
    var id := At(log, s).id;
    if IndexedAs(opIndex, id) { LogIdentityUnique(log, opIndex[KeyOf(id)].sequence, s); }
  }

  lemma LostReference(b: Disk, refs: seq<AckRef>, i: nat)
    requires i < |refs| && refs[i].id in b.records && b.records[refs[i].id].sha == refs[i].sha
    requires !IndexedAs(b.opIndex, refs[i].id)
    requires RemovedTo(b, refs, |refs|)
             == b.(records := b.records - Ids(refs), pending := b.pending - Sequences(refs))
    ensures VerifiesReference(b, refs[i].id, refs[i].sha)
    ensures !VerifiesReference(RemovedTo(b, refs, |refs|), refs[i].id, refs[i].sha)
  {
    hide RemovedTo;
  }

  // ---------------------------------------------------------------------
  // Where the code stops short
  // ---------------------------------------------------------------------

  function ExampleIdentity(generation: nat): Identity {
    Identity("source", "operation", "attempt", generation, "", "", "", "")
  }

  function ExampleRecord(generation: nat): Record { Record(ExampleIdentity(generation), "receipt", 0, 0) }

  function ExampleRef(generation: nat, sequence: nat): AckRef {
    AckRef(ExampleIdentity(generation), RecordDigest(ExampleRecord(generation)), sequence, 0)
  }

  /** The smallest sizes an encoder may give. */
  function ExampleCodec(): Codec {
    Codec((r: Record) => 1, (s: StoredRecord) => 2, (p: PendingIndex) => 1, (i: OperationIndex) => 1,
          (k: Checkpoint) => 1, (refs: seq<AckRef>) => 1, (t: Transaction) => 1, (i: OperationIndex) => ZeroDigest())
  }

  function ExampleDisk(): Disk {
    var r := ExampleRef(1, 1);
    EmptyDisk().(records := map[r.id := StoredOf(r)],
                 pending := map[1 := PendingIndexOf(ExampleCodec(), StoredOf(r))],
                 reservations := map[ExampleIdentity(2) := Reservation("token", 1)],
                 descriptor := Some([r]))
  }

  lemma ExampleIsFull()
    ensures WfCodec(ExampleCodec()) && Full(ExampleCodec(), ExampleDisk(), [ExampleRef(1, 1)])
  {
    var c, d, log := ExampleCodec(), ExampleDisk(), [ExampleRef(1, 1)];
    var r := ExampleRef(1, 1);
    assert At(log, 1) == r;
    assert log[0..1] == [r];
    assert BatchBytes(c, [r]) == 2 by { assert [r][..0] == []; }
    assert EntryOk(c, r, 1);
    assert RecordFits(r.id, d.records[r.id], 0, log);
  }

  lemma ExampleUsed()
    ensures UsedBytes(ExampleCodec(), ExampleDisk()) == 24579 + 4097
    ensures DescriptorCharge(ExampleCodec(), ExampleDisk().descriptor) == 4097
  {
    var c, d := ExampleCodec(), ExampleDisk();
    var r := ExampleRef(1, 1);
    SumRemove(d.records, RecordCharge(c), r.id);
    assert d.records - {r.id} == map[];
    assert StoredCharge(c, StoredOf(r)) == 2 + 4096 + 16384 + 1 + 4096;
  }

  /** A directory filled up to its headroom, then frozen: every operation on it works
      until something forces a rebuild, which then reports that capacity is full.
      Freezing never happens where it would leave a directory unreadable otherwise:
      FitsUnlessFrozen gives the exact condition. */
  lemma FrozenRebuildMayBeRefused()
    ensures var c, d, log := ExampleCodec(), ExampleDisk(), [ExampleRef(1, 1)];
            var maximum := 24579 + RESERVED_BYTES + HEADROOM;
            && WfCodec(c) && Inv(c, maximum, d, d, log) && maximum >= RESERVED_BYTES + HEADROOM
            && PassesChecks(c, d) && !Recoverable(c, maximum, d)
  {
    var c, d, log := ExampleCodec(), ExampleDisk(), [ExampleRef(1, 1)];
    var maximum := 24579 + RESERVED_BYTES + HEADROOM;
    ExampleIsFull();
    ExampleUsed();
    ExampleBounded();
    assert d.txn.None? && d.usage.None? && |d.reservations| == 1;
    hide WfCodec, Full, Bounded, ExampleCodec, ExampleDisk, UsedBytes, DescriptorCharge;
    FullIsIncomplete(c, d, log);
    UnusedKeeps(c, maximum, d, log);
    RebuildVerdict(c, maximum, d, d, log);
    FitsUnlessFrozen(c, maximum, d);
    hide Inv, Fits, PassesChecks, Recoverable;
    TargetIsBase(c, d, d);
  }

  lemma ExampleBounded()
    ensures Bounded(ExampleCodec(), 24579 + RESERVED_BYTES + HEADROOM, ExampleDisk())
  {
    ExampleUsed();
    OperationKeysCount(ExampleDisk());
    hide UsedBytes, DescriptorCharge, OperationKeys;
  }

  lemma UnusedKeeps(c: Codec, maximum: int, d: Disk, log: seq<AckRef>)
    requires Full(c, d, log) && Bounded(c, maximum, d) && Incomplete(d, d) && d.txn.None? && d.usage.None?
    ensures Inv(c, maximum, d, d, log)
  {
    hide Full, Bounded, Incomplete;
  }
}
