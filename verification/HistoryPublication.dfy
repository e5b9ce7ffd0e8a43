/** What a publication does to a complete directory: the transaction the store
    writes is accepted, and the directory it leads to is complete again, with the
    checkpoint describing the whole index and no more bytes in use than before. */
module HistoryPublication {
  import opened Foundations
  import opened HistoryModel
  import opened HistoryReplay
  import opened HistoryInvariant

  // ---------------------------------------------------------------------
  // The changes a batch makes to the index
  // ---------------------------------------------------------------------

  /** One change per operation, in the order in which the batch first names it. */
  function ChangesFor(opIndex: map<OperationKey, OperationIndex>, refs: seq<AckRef>): seq<IndexChange> {
    if |refs| == 0 then []
    else
      var earlier := refs[..|refs| - 1];
      var key := KeyOf(refs[|refs| - 1].id);
      ChangesFor(opIndex, earlier) + if key in Keys(earlier) then [] else [IndexChange(key, Lookup(opIndex, key))]
  }

  ghost predicate ChangesCover(opIndex: map<OperationKey, OperationIndex>, changes: seq<IndexChange>, keys: set<OperationKey>) {
    && ChangeKeys(changes) == keys
    && |changes| == |keys|
    && DistinctKeys(changes)
    && (forall i :: 0 <= i < |changes| ==> changes[i].previous == Lookup(opIndex, changes[i].key))
  }

  lemma ChangesCoverMore(opIndex: map<OperationKey, OperationIndex>, changes: seq<IndexChange>, keys: set<OperationKey>,
                         key: OperationKey)
    requires ChangesCover(opIndex, changes, keys) && key !in keys
    ensures ChangesCover(opIndex, changes + [IndexChange(key, Lookup(opIndex, key))], keys + {key})
  {
    var longer := changes + [IndexChange(key, Lookup(opIndex, key))];
    forall i | 0 <= i < |changes| ensures changes[i].key != key {
      assert changes[i].key in ChangeKeys(changes);
    }
    forall k ensures k in ChangeKeys(longer) <==> k in keys + {key} {
      if k in ChangeKeys(changes) {
        var i :| 0 <= i < |changes| && changes[i].key == k;
        assert longer[i] in longer;
      }
      if k == key { assert longer[|changes|] in longer; }
    }
  }

  lemma {:induction false} ChangesForKeys(opIndex: map<OperationKey, OperationIndex>, refs: seq<AckRef>)
    ensures ChangesCover(opIndex, ChangesFor(opIndex, refs), Keys(refs))
  {
    if |refs| > 0 {
      var earlier := refs[..|refs| - 1];
      var key := KeyOf(refs[|refs| - 1].id);
      assert Keys(refs) == Keys(earlier) + {key};
      hide ChangesCover, Keys, Lookup;
      ChangesForKeys(opIndex, earlier);
      if key !in Keys(earlier) {
        ChangesCoverMore(opIndex, ChangesFor(opIndex, earlier), Keys(earlier), key);
      } else {
        assert Keys(refs) == Keys(earlier);
        assert ChangesFor(opIndex, refs) == ChangesFor(opIndex, earlier);
      }
    } else {
      assert Keys(refs) == {};
    }
  }

  /** The index with the given changes made, one after the other. */
  function Updated(original: map<OperationKey, OperationIndex>, changes: seq<IndexChange>,
                   final: map<OperationKey, OperationIndex>): map<OperationKey, OperationIndex>
    requires forall i :: 0 <= i < |changes| ==> changes[i].key in final
  {
    if |changes| == 0 then original
    else
      var key := changes[|changes| - 1].key;
      Updated(original, changes[..|changes| - 1], final)[key := final[key]]
  }

  lemma {:induction false} UpdatedAt(original: map<OperationKey, OperationIndex>, changes: seq<IndexChange>,
                                     final: map<OperationKey, OperationIndex>, k: OperationKey)
    requires forall i :: 0 <= i < |changes| ==> changes[i].key in final
    ensures k in ChangeKeys(changes) ==> k in final
    ensures Lookup(Updated(original, changes, final), k)
            == if k in ChangeKeys(changes) then Some(final[k]) else Lookup(original, k)
  {
    if |changes| > 0 {
      var shorter := changes[..|changes| - 1];
      UpdatedAt(original, shorter, final, k);
      assert ChangeKeys(changes) == ChangeKeys(shorter) + {changes[|changes| - 1].key};
    }
  }

  lemma {:induction false} UpdatedIsOverlay(original: map<OperationKey, OperationIndex>, changes: seq<IndexChange>,
                         final: map<OperationKey, OperationIndex>)
    requires forall i :: 0 <= i < |changes| ==> changes[i].key in final
    requires ChangeKeys(changes) == final.Keys
    ensures Updated(original, changes, final) == original + final
  {
    var updated := Updated(original, changes, final);
    forall k ensures Lookup(updated, k) == Lookup(original + final, k) { UpdatedAt(original, changes, final, k); }
    forall k | k in updated ensures k in original + final && updated[k] == (original + final)[k] {
      assert Lookup(updated, k) == Some(updated[k]);
    }
    forall k | k in original + final ensures k in updated {
      assert Lookup(original + final, k) == Some((original + final)[k]);
    }
  }

  predicate ChangesDescribe(original: map<OperationKey, OperationIndex>, changes: seq<IndexChange>,
                            final: map<OperationKey, OperationIndex>) {
    && DistinctKeys(changes)
    && forall i :: 0 <= i < |changes| ==>
         changes[i].key in final && changes[i].previous == Lookup(original, changes[i].key)
  }

  /** What the last of the changes replaces is what the changes before it left alone. */
  lemma {:induction false} LastChange(original: map<OperationKey, OperationIndex>, changes: seq<IndexChange>,
                   final: map<OperationKey, OperationIndex>)
    requires ChangesDescribe(original, changes, final) && |changes| > 0
    ensures var change := changes[|changes| - 1];
            ChangesDescribe(original, changes[..|changes| - 1], final)
            && change.previous == Lookup(Updated(original, changes[..|changes| - 1], final), change.key)
  {
    var change := changes[|changes| - 1];
    var shorter := changes[..|changes| - 1];
    UpdatedAt(original, shorter, final, change.key);
    forall i | 0 <= i < |shorter| ensures shorter[i].key != change.key {
      assert changes[i].key != change.key;
    }
  }

  /** The running count and digest are those of the whole updated index. */
  lemma {:induction false} AdvanceIsFold(c: Codec, original: map<OperationKey, OperationIndex>, changes: seq<IndexChange>,
                                         final: map<OperationKey, OperationIndex>)
    requires ChangesDescribe(original, changes, final)
    ensures var updated := Updated(original, changes, final);
            Advance(c, |original|, XorFold(original, c.fingerprint), changes, final)
            == (|updated|, XorFold(updated, c.fingerprint))
  {
    if |changes| > 0 {
      var change := changes[|changes| - 1];
      var shorter := changes[..|changes| - 1];
      LastChange(original, changes, final);
      AdvanceIsFold(c, original, shorter, final);
      ReplaceFold(c, Updated(original, shorter, final), change.key, final[change.key]);
      hide ChangesDescribe, Lookup;
    }
  }

  lemma ReplaceFold(c: Codec, m: map<OperationKey, OperationIndex>, key: OperationKey, value: OperationIndex)
    ensures match Lookup(m, key)
            case None => |m[key := value]| == |m| + 1
                         && XorFold(m[key := value], c.fingerprint) == Xor(XorFold(m, c.fingerprint), c.fingerprint(value))
            case Some(p) => |m[key := value]| == |m|
                            && XorFold(m[key := value], c.fingerprint)
                               == Xor(Xor(XorFold(m, c.fingerprint), c.fingerprint(p)), c.fingerprint(value))
  {
    var updated := m[key := value];
    if key in m {
      XorFoldReplace(m, c.fingerprint, key, value);
      assert updated.Keys == m.Keys;
    } else {
      XorFoldInsert(m, c.fingerprint, key, value);
      assert updated.Keys == m.Keys + {key};
    }
    assert |updated| == |updated.Keys| && |m| == |m.Keys|;
  }

  lemma AtInBatch(refs: seq<AckRef>, from: nat, log: seq<AckRef>, s: nat)
    requires from < s <= from + |refs| <= |log| && refs == log[from..from + |refs|]
    ensures At(log, s) in refs
  {
    assert refs[s - from - 1] == At(log, s);
  }

  // ---------------------------------------------------------------------
  // The index after a batch
  // ---------------------------------------------------------------------

  lemma BatchEntry(refs: seq<AckRef>, from: nat, log: seq<AckRef>, i: nat)
    requires from + |refs| <= |log| && refs == log[from..from + |refs|] && i < |refs|
    ensures refs[i] == At(log, from + 1 + i)
  {}

  predicate FinalWithin(final: map<OperationKey, OperationIndex>, confirmation: Confirmation, from: nat, upto: nat,
                        log: seq<AckRef>) {
    forall k :: k in final ==>
      && from < final[k].sequence <= upto <= |log|
      && final[k] == IndexOf(At(log, final[k].sequence), confirmation)
      && KeyOf(At(log, final[k].sequence).id) == k
  }

  predicate FinalCover(final: map<OperationKey, OperationIndex>, from: nat, upto: nat, log: seq<AckRef>) {
    upto <= |log|
    && forall s :: from < s <= upto ==>
         KeyOf(At(log, s).id) in final && final[KeyOf(At(log, s).id)].sequence >= s
  }

  lemma FinalStep(shorter: map<OperationKey, OperationIndex>, r: AckRef, confirmation: Confirmation, from: nat,
                  upto: nat, log: seq<AckRef>)
    requires from <= upto < |log| && r == At(log, upto + 1) && r.sequence == upto + 1
    requires FinalWithin(shorter, confirmation, from, upto, log) && FinalCover(shorter, from, upto, log)
    ensures var final := shorter[KeyOf(r.id) := IndexOf(r, confirmation)];
            FinalWithin(final, confirmation, from, upto + 1, log) && FinalCover(final, from, upto + 1, log)
  {}

  /** The indices a batch leaves are those of its latest record of each operation. */
  lemma {:induction false} FinalIndicesLatest(refs: seq<AckRef>, confirmation: Confirmation, from: nat, log: seq<AckRef>)
    requires from + |refs| <= |log| && refs == log[from..from + |refs|]
    requires forall s :: 0 < s <= |log| ==> At(log, s).sequence == s
    ensures FinalWithin(FinalIndices(refs, confirmation), confirmation, from, from + |refs|, log)
    ensures FinalCover(FinalIndices(refs, confirmation), from, from + |refs|, log)
  {
    if |refs| > 0 {
      var shorter := refs[..|refs| - 1];
      FinalIndicesLatest(shorter, confirmation, from, log);
      BatchEntry(refs, from, log, |refs| - 1);
      assert At(log, from + |refs|).sequence == from + |refs|;
      hide FinalWithin, FinalCover, At;
      FinalStep(FinalIndices(shorter, confirmation), refs[|refs| - 1], confirmation, from, from + |shorter|, log);
    }
  }

  /** Laying a batch's indices over those of the earlier log gives those of the longer log. */
  lemma IndexAfterBatch(original: map<OperationKey, OperationIndex>, final: map<OperationKey, OperationIndex>,
                        confirmation: Confirmation, from: nat, upto: nat, log: seq<AckRef>)
    requires from <= upto <= |log|
    requires FinalWithin(final, confirmation, from, upto, log) && FinalCover(final, from, upto, log)
    requires IndexWithin(original, from, log) && IndexCover(original, from, log)
    ensures IndexWithin(original + final, upto, log)
    ensures IndexCover(original + final, upto, log)
  {
    hide At, KeyOf;
  }

  // ---------------------------------------------------------------------
  // The transaction of a frozen batch
  // ---------------------------------------------------------------------

  function TransactionOf(b: Disk, confirmation: Confirmation): Transaction
    requires b.descriptor.Some?
  {
    Transaction(confirmation, b.descriptor.value, ChangesFor(b.opIndex, b.descriptor.value))
  }

  lemma BatchConsecutive(c: Codec, refs: seq<AckRef>, from: nat, log: seq<AckRef>)
    requires LogOk(c, log) && from + |refs| <= |log| && refs == log[from..from + |refs|]
    ensures Consecutive(refs) && GenerationsIncrease(refs)
    ensures |refs| > 0 ==> refs[0].sequence == from + 1
  {
    BatchIsRun(c, refs, from, log);
    hide EntriesOk, Consecutive;
  }

  /** A stretch of the log has consecutive numbers, in whatever order its generations are. */
  lemma BatchIsRun(c: Codec, refs: seq<AckRef>, from: nat, log: seq<AckRef>)
    requires EntriesOk(c, log) && from + |refs| <= |log| && refs == log[from..from + |refs|]
    ensures Consecutive(refs)
    ensures |refs| > 0 ==> refs[0].sequence == from + 1
  {
    forall i | 0 <= i < |refs|
      ensures refs[i].sequence == from + 1 + i && ValidIdentity(refs[i].id)
    {
      assert EntryOk(c, At(log, from + 1 + i), from + 1 + i);
    }
    hide EntryOk;
  }

  /** An operation's published record comes before every record of a later batch. */
  lemma PreviousIsEarlier(c: Codec, opIndex: map<OperationKey, OperationIndex>, k: OperationKey, refs: seq<AckRef>,
                          from: nat, log: seq<AckRef>)
    requires LogOk(c, log) && from + |refs| <= |log| && refs == log[from..from + |refs|]
    requires IndexWithin(opIndex, from, log) && k in opIndex
    ensures ValidIndexEntry(opIndex[k], k) && opIndex[k].sequence <= from
    ensures forall i :: 0 <= i < |refs| && KeyOf(refs[i].id) == k
              ==> refs[i].id.generation > opIndex[k].identity.generation
  {
    var s := opIndex[k].sequence;
    assert EntryOk(c, At(log, s), s);
    forall i | 0 <= i < |refs| && KeyOf(refs[i].id) == k
      ensures refs[i].id.generation > opIndex[k].identity.generation
    {
      BatchEntry(refs, from, log, i);
      assert KeyOf(log[s - 1].id) == KeyOf(log[from + i].id);
    }
  }

  lemma ChangeIsValid(c: Codec, opIndex: map<OperationKey, OperationIndex>, change: IndexChange, refs: seq<AckRef>,
                      from: nat, log: seq<AckRef>)
    requires LogOk(c, log) && 0 < |refs| && from + |refs| <= |log| && refs == log[from..from + |refs|]
    requires IndexWithin(opIndex, from, log)
    requires change.key in Keys(refs) && change.previous == Lookup(opIndex, change.key)
    ensures ValidChange(change, refs)
  {
    hide LogOk, IndexWithin, Keys, ValidIndexEntry, Consecutive, GenerationsIncrease;
    BatchConsecutive(c, refs, from, log);
    if change.key in opIndex { PreviousIsEarlier(c, opIndex, change.key, refs, from, log); }
  }

  lemma TransactionValid(c: Codec, b: Disk, log: seq<AckRef>, confirmation: Confirmation)
    requires Full(c, b, log) && b.descriptor.Some?
    requires confirmation.batch == b.descriptor.value && ValidConfirmation(confirmation)
    ensures ValidTransaction(TransactionOf(b, confirmation))
    ensures forall i :: 0 <= i < |ChangesFor(b.opIndex, b.descriptor.value)| ==>
              ChangesFor(b.opIndex, b.descriptor.value)[i].previous
              == Lookup(b.opIndex, ChangesFor(b.opIndex, b.descriptor.value)[i].key)
  {
    hide LogOk, RecordsWithin, RecordsCover, PendingWithin, PendingCover, IndexWithin, IndexCover, CheckpointMatches,
         ReservationsOk, Consecutive, GenerationsIncrease, ValidChange, ChangesFor, Keys, ValidConfirmation;
    var refs := b.descriptor.value;
    var changes := ChangesFor(b.opIndex, refs);
    ChangesForKeys(b.opIndex, refs);
    BatchConsecutive(c, refs, CheckpointSequence(b), log);
    forall i | 0 <= i < |changes| ensures ValidChange(changes[i], refs) {
      assert changes[i] in changes;
      assert changes[i].key in ChangeKeys(changes);
      ChangeIsValid(c, b.opIndex, changes[i], refs, CheckpointSequence(b), log);
    }
  }

  lemma FullRecordAgrees(c: Codec, b: Disk, log: seq<AckRef>, s: nat)
    requires WfCodec(c) && EntriesOk(c, log)
    requires RecordsCover(b.records, CheckpointSequence(b), log)
    requires PendingWithin(c, b.pending, CheckpointSequence(b), log) && PendingCover(b.pending, CheckpointSequence(b), log)
    requires CheckpointSequence(b) < s <= |log|
    ensures RecordFilesAgree(b, At(log, s))
  {
    var r := At(log, s);
    assert EntryOk(c, r, s);
    RecordSizes(c, r);
    assert b.pending[s] == PendingIndexOf(c, StoredOf(r));
    hide WfCodec, EntriesOk, PendingWithin, PendingCover;
  }

  /** An accepted record's serialized form is positive and far below the batch limit. */
  lemma RecordSizes(c: Codec, r: AckRef)
    requires WfCodec(c) && StoredCharge(c, StoredOf(r)) <= RESERVED_BYTES
    ensures 0 < c.record(r.sha.of) < RESERVED_BYTES
    ensures StoredCharge(c, StoredOf(r)) > 2 * FILE_CHARGE + METADATA_RESERVE
  {
    assert c.stored(StoredOf(r)) > c.record(StoredOf(r).record);
  }

  lemma BatchRecordAgrees(c: Codec, b: Disk, log: seq<AckRef>, i: nat)
    requires WfCodec(c) && Full(c, b, log) && b.descriptor.Some? && i < |b.descriptor.value|
    ensures RecordFilesAgree(b, b.descriptor.value[i])
  {
    hide *;
    FullBatch(c, b, log);
    BatchEntry(b.descriptor.value, CheckpointSequence(b), log, i);
    FullRecordAgrees(c, b, log, CheckpointSequence(b) + 1 + i);
  }

  /** The parts of a complete directory's invariant, for proofs that hide its definition. */
  lemma FullBatch(c: Codec, b: Disk, log: seq<AckRef>)
    requires Full(c, b, log) && b.descriptor.Some?
    ensures var from := CheckpointSequence(b);
            && EntriesOk(c, log) && LogOk(c, log) && BatchMatches(c, b.descriptor.value, from, log)
            && from + |b.descriptor.value| <= |log|
            && b.descriptor.value == log[from..from + |b.descriptor.value|]
            && RecordsWithin(b.records, from, log) && RecordsCover(b.records, from, log)
            && PendingWithin(c, b.pending, from, log) && PendingCover(b.pending, from, log)
            && IndexWithin(b.opIndex, from, log) && IndexCover(b.opIndex, from, log)
            && CheckpointMatches(c, b.checkpoint, b.opIndex)
  {}

  lemma BatchRecordsAgree(c: Codec, b: Disk, log: seq<AckRef>)
    requires WfCodec(c) && Full(c, b, log) && b.descriptor.Some?
    ensures forall i :: 0 <= i < |b.descriptor.value| ==> RecordFilesAgree(b, b.descriptor.value[i])
    ensures GenerationsIncrease(b.descriptor.value)
  {
    hide *;
    FullBatch(c, b, log);
    BatchConsecutive(c, b.descriptor.value, CheckpointSequence(b), log);
    forall i | 0 <= i < |b.descriptor.value| ensures RecordFilesAgree(b, b.descriptor.value[i]) {
      BatchRecordAgrees(c, b, log, i);
    }
  }

  lemma BatchIsNext(c: Codec, b: Disk, log: seq<AckRef>, t: Transaction)
    requires Full(c, b, log) && |b.opIndex| <= MAX_KEYS
    requires b.descriptor == Some(t.records) && ValidTransaction(t)
    ensures ReadableCheckpoint(b) && !IsReplay(b, t) && CheckpointSequence(b) + 1 == t.records[0].sequence
  {
    hide LogOk, RecordsWithin, RecordsCover, PendingWithin, PendingCover, IndexWithin, IndexCover, ReservationsOk,
         Consecutive, GenerationsIncrease;
    BatchConsecutive(c, t.records, CheckpointSequence(b), log);
    LastSequence(t);
  }

  lemma ChangesAreFinal(b: Disk, t: Transaction)
    requires ValidTransaction(t)
    requires forall i :: 0 <= i < |t.changes| ==> t.changes[i].previous == Lookup(b.opIndex, t.changes[i].key)
    ensures ChangesDescribe(b.opIndex, t.changes, FinalIndices(t.records, t.confirmation))
    ensures ChangeKeys(t.changes) == FinalIndices(t.records, t.confirmation).Keys
    ensures var final := FinalIndices(t.records, t.confirmation);
            forall i :: 0 <= i < |t.changes| ==>
              t.changes[i].key in final && IndexFileAgrees(b, t.changes[i], final[t.changes[i].key])
  {
    FinalIndicesKeys(t.records, t.confirmation);
    forall i | 0 <= i < |t.changes| ensures t.changes[i].key in Keys(t.records) {
      assert ValidChange(t.changes[i], t.records);
    }
    ChangeKeysCount(t.changes);
    SubsetOfSameSize(ChangeKeys(t.changes), Keys(t.records));
    hide ValidChange, Consecutive, FinalIndices, Keys;
  }

  lemma {:induction false} ChangeKeysCount(changes: seq<IndexChange>)
    requires DistinctKeys(changes)
    ensures |ChangeKeys(changes)| == |changes|
  {
    if |changes| > 0 {
      var last := changes[|changes| - 1];
      var shorter := changes[..|changes| - 1];
      ChangeKeysCount(shorter);
      assert ChangeKeys(changes) == ChangeKeys(shorter) + {last.key};
    }
  }

  /** Acknowledging the frozen batch of a complete directory writes a transaction
      that every later application accepts. */
  lemma TransactionAccepted(c: Codec, b: Disk, log: seq<AckRef>, confirmation: Confirmation)
    requires WfCodec(c) && Full(c, b, log) && |b.opIndex| <= MAX_KEYS
    requires b.descriptor.Some? && confirmation.batch == b.descriptor.value && ValidConfirmation(confirmation)
    ensures TransactionFor(b, TransactionOf(b, confirmation))
  {
    hide Full, WfCodec, Consecutive, GenerationsIncrease, ValidTransaction, RecordFilesAgree, ChangesFor, FinalIndices,
         ReadableCheckpoint, IsReplay, IndexFileAgrees;
    var t := TransactionOf(b, confirmation);
    TransactionValid(c, b, log, confirmation);
    BatchRecordsAgree(c, b, log);
    BatchIsNext(c, b, log, t);
    ChangesAreFinal(b, t);
  }

  // ---------------------------------------------------------------------
  // The directory a publication leads to
  // ---------------------------------------------------------------------

  /** The checkpoint computed step by step describes the whole updated index. */
  lemma PublicationCheckpoint(c: Codec, b: Disk, t: Transaction)
    requires TransactionFor(b, t) && CheckpointMatches(c, b.checkpoint, b.opIndex)
    ensures var e := ApplyTransaction(c, b, t);
            CheckpointMatches(c, e.checkpoint, e.opIndex) && CheckpointSequence(e) == CheckpointSequence(b) + |t.records|
  {
    var final := FinalIndices(t.records, t.confirmation);
    LastSequence(t);
    ChangesAreFinal(b, t);
    AdvanceIsFold(c, b.opIndex, t.changes, final);
    UpdatedIsOverlay(b.opIndex, t.changes, final);
    hide ValidTransaction, GenerationsIncrease, RecordFilesAgree, IndexFileAgrees, FinalIndices, ChangesDescribe, Advance,
         ChangeKeys, Updated;
  }

  lemma LogParts(c: Codec, log: seq<AckRef>)
    requires LogOk(c, log)
    ensures GenerationsIncrease(log)
    ensures forall s :: 0 < s <= |log| ==> At(log, s).sequence == s
  {}

  lemma RecordsAfterBatch(records: map<Identity, StoredRecord>, refs: seq<AckRef>, from: nat, log: seq<AckRef>)
    requires GenerationsIncrease(log) && from + |refs| <= |log| && refs == log[from..from + |refs|]
    requires RecordsWithin(records, from, log) && RecordsCover(records, from, log)
    ensures RecordsWithin(records - Ids(refs), from + |refs|, log)
    ensures RecordsCover(records - Ids(refs), from + |refs|, log)
  {
    forall id | id in records - Ids(refs) ensures RecordFits(id, records[id], from + |refs|, log) {
      var s := records[id].sequence;
      assert RecordFits(id, records[id], from, log);
      if s <= from + |refs| { AtInBatch(refs, from, log, s); }
    }
    forall s | from + |refs| < s <= |log| ensures At(log, s).id !in Ids(refs) {
      if At(log, s).id in Ids(refs) {
        var i :| 0 <= i < |refs| && refs[i].id == At(log, s).id;
        BatchEntry(refs, from, log, i);
        LogIdentityUnique(log, s, from + 1 + i);
      }
    }
  }

  lemma PendingAfterBatch(c: Codec, pending: map<nat, PendingIndex>, refs: seq<AckRef>, from: nat, log: seq<AckRef>)
    requires from + |refs| <= |log| && refs == log[from..from + |refs|]
    requires forall s :: 0 < s <= |log| ==> At(log, s).sequence == s
    requires PendingWithin(c, pending, from, log) && PendingCover(pending, from, log)
    ensures PendingWithin(c, pending - Sequences(refs), from + |refs|, log)
    ensures PendingCover(pending - Sequences(refs), from + |refs|, log)
  {
    forall s | s in pending - Sequences(refs) ensures s > from + |refs| {
      if s <= from + |refs| { AtInBatch(refs, from, log, s); }
    }
    forall s | from + |refs| < s <= |log| ensures s !in Sequences(refs) {
      if s in Sequences(refs) {
        var i :| 0 <= i < |refs| && refs[i].sequence == s;
        BatchEntry(refs, from, log, i);
      }
    }
  }

  /** The four maps after a publication, against the same log and a later checkpoint. */
  lemma {:induction false} MapsAfterBatch(c: Codec, b: Disk, log: seq<AckRef>, confirmation: Confirmation)
    requires Full(c, b, log) && b.descriptor.Some?
    ensures var refs := b.descriptor.value;
            var upto := CheckpointSequence(b) + |refs|;
            && upto <= |log| && LogOk(c, log)
            && RecordsWithin(b.records - Ids(refs), upto, log) && RecordsCover(b.records - Ids(refs), upto, log)
            && PendingWithin(c, b.pending - Sequences(refs), upto, log)
            && PendingCover(b.pending - Sequences(refs), upto, log)
            && IndexWithin(b.opIndex + FinalIndices(refs, confirmation), upto, log)
            && IndexCover(b.opIndex + FinalIndices(refs, confirmation), upto, log)
            && CheckpointMatches(c, b.checkpoint, b.opIndex)
  {
    hide *;
    var refs := b.descriptor.value;
    var from := CheckpointSequence(b);
    FullBatch(c, b, log);
    LogParts(c, log);
    RecordsAfterBatch(b.records, refs, from, log);
    PendingAfterBatch(c, b.pending, refs, from, log);
    FinalIndicesLatest(refs, confirmation, from, log);
    IndexAfterBatch(b.opIndex, FinalIndices(refs, confirmation), confirmation, from, from + |refs|, log);
  }

  lemma FullIntro(c: Codec, b: Disk, log: seq<AckRef>, from: nat)
    requires from == CheckpointSequence(b) <= |log| && LogOk(c, log)
    requires b.txn == None && b.marker == None && b.usage == None
    requires RecordsWithin(b.records, from, log) && RecordsCover(b.records, from, log)
    requires PendingWithin(c, b.pending, from, log) && PendingCover(b.pending, from, log)
    requires IndexWithin(b.opIndex, from, log) && IndexCover(b.opIndex, from, log)
    requires CheckpointMatches(c, b.checkpoint, b.opIndex)
    requires DescriptorMatches(c, b.descriptor, from, log)
    requires ReservationsOk(b.reservations) && b.reservations.Keys !! b.records.Keys
    ensures Full(c, b, log)
  {}

  lemma PublicationFields(c: Codec, b: Disk, log: seq<AckRef>, t: Transaction)
    requires Full(c, b, log) && TransactionFor(b, t)
    ensures var e := ApplyTransaction(c, b, t);
            && b.descriptor == Some(t.records) && e.descriptor == None
            && e.txn == None && e.marker == None && e.usage == None
            && e.records == b.records - Ids(t.records) && e.pending == b.pending - Sequences(t.records)
            && e.opIndex == b.opIndex + FinalIndices(t.records, t.confirmation)
            && e.reservations == b.reservations && ReservationsOk(e.reservations)
            && e.reservations.Keys !! e.records.Keys
            && DescriptorMatches(c, None, CheckpointSequence(e), log)
  {
    hide LogOk, RecordsWithin, RecordsCover, PendingWithin, PendingCover, IndexWithin, IndexCover, CheckpointMatches,
         ValidTransaction, RecordFilesAgree, IndexFileAgrees, GenerationsIncrease, FinalIndices, NextCheckpoint;
  }

  /** Published numbers stay exactly one to the checkpoint, pending ones the rest of
      the log; the index keeps each operation's latest publication. */
  lemma PublicationIsFull(c: Codec, b: Disk, log: seq<AckRef>, t: Transaction)
    requires Full(c, b, log) && TransactionFor(b, t)
    ensures Full(c, ApplyTransaction(c, b, t), log)
    ensures CheckpointSequence(ApplyTransaction(c, b, t)) == CheckpointSequence(b) + |t.records|
  {
    assert ApplyAccepts(b, t);
    hide *;
    var from := CheckpointSequence(b);
    var e := ApplyTransaction(c, b, t);
    PublicationFields(c, b, log, t);
    MapsAfterBatch(c, b, log, t.confirmation);
    PublicationCheckpoint(c, b, t);
    FullIntro(c, e, log, from + |t.records|);
  }
}
