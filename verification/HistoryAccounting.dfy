/** The bytes a publication frees and takes. The delta the store adds to its usage
    file is the difference between two full scans, and it is never positive: the
    reserve charged with every pending record pays for the index and checkpoint
    files its publication leaves behind. */
module HistoryAccounting {
  import opened Foundations
  import opened HistoryModel
  import opened HistoryReplay
  import opened HistoryInvariant
  import opened HistoryPublication

  // ---------------------------------------------------------------------
  // The delta the store computes
  // ---------------------------------------------------------------------

  function BatchCharge(c: Codec, refs: seq<AckRef>): int {
    if |refs| == 0 then 0
    else BatchCharge(c, refs[..|refs| - 1]) + StoredCharge(c, StoredOf(refs[|refs| - 1]))
  }

  function IndexSize(c: Codec, i: Option<OperationIndex>): int {
    if i.Some? then FileCharge(c.operation(i.value)) else 0
  }

  function ChangesCharge(c: Codec, changes: seq<IndexChange>, final: map<OperationKey, OperationIndex>): int
    requires forall i :: 0 <= i < |changes| ==> changes[i].key in final
  {
    if |changes| == 0 then 0
    else
      var change := changes[|changes| - 1];
      ChangesCharge(c, changes[..|changes| - 1], final)
      + FileCharge(c.operation(final[change.key])) - IndexSize(c, change.previous)
  }

  function PublicationDelta(c: Codec, b: Disk, t: Transaction): int
    requires ApplyAccepts(b, t)
  {
    ChangesCharge(c, t.changes, FinalIndices(t.records, t.confirmation)) - BatchCharge(c, t.records)
    - FileCharge(c.descriptor(t.records))
    + CheckpointCharge(c, ApplyTransaction(c, b, t).checkpoint) - CheckpointCharge(c, b.checkpoint)
  }

  // ---------------------------------------------------------------------
  // Removing a batch, and updating the index
  // ---------------------------------------------------------------------

  lemma {:induction false} BatchChargeLast(c: Codec, refs: seq<AckRef>)
    requires |refs| > 0
    ensures BatchCharge(c, refs)
            == BatchCharge(c, refs[..|refs| - 1]) + StoredCharge(c, StoredOf(refs[|refs| - 1]))
  {}

  predicate HoldsBatch(records: map<Identity, StoredRecord>, refs: seq<AckRef>) {
    && (forall i :: 0 <= i < |refs| ==> refs[i].id in records && records[refs[i].id] == StoredOf(refs[i]))
    && (forall i, j :: 0 <= i < j < |refs| ==> refs[i].id != refs[j].id)
  }

  lemma MinusOneMore<K, V>(m: map<K, V>, gone: set<K>, k: K)
    requires k in m && k !in gone
    ensures m - (gone + {k}) == m - gone - {k}
    ensures k in m - gone && (m - gone)[k] == m[k]
  {}

  lemma {:induction false} RemoveOne(c: Codec, records: map<Identity, StoredRecord>, id: Identity)
    requires id in records
    ensures Sum(records - {id}, RecordCharge(c)) == Sum(records, RecordCharge(c)) - StoredCharge(c, records[id])
    ensures |records - {id}| == |records| - 1
  {
    SumRemove(records, RecordCharge(c), id);
    assert (records - {id}).Keys == records.Keys - {id};
    assert |(records - {id}).Keys| == |records.Keys| - 1;
  }

  lemma {:induction false} RemoveBatch(c: Codec, records: map<Identity, StoredRecord>, refs: seq<AckRef>)
    requires HoldsBatch(records, refs)
    ensures Sum(records - Ids(refs), RecordCharge(c)) == Sum(records, RecordCharge(c)) - BatchCharge(c, refs)
    ensures |records - Ids(refs)| == |records| - |refs|
  {
    if |refs| == 0 {
      assert records - Ids(refs) == records;
    } else {
      var shorter := refs[..|refs| - 1];
      var last := refs[|refs| - 1];
      RemoveBatch(c, records, shorter);
      var rest := records - Ids(shorter);
      assert last.id !in Ids(shorter);
      assert Ids(refs) == Ids(shorter) + {last.id};
      assert last.id in records && records[last.id] == StoredOf(last);
      hide *;
      MinusOneMore(records, Ids(shorter), last.id);
      RemoveOne(c, rest, last.id);
      BatchChargeLast(c, refs);
    }
  }

  lemma {:induction false} UpdatedSum(c: Codec, original: map<OperationKey, OperationIndex>, changes: seq<IndexChange>,
                                      final: map<OperationKey, OperationIndex>)
    requires ChangesDescribe(original, changes, final)
    ensures Sum(Updated(original, changes, final), IndexCharge(c))
            == Sum(original, IndexCharge(c)) + ChangesCharge(c, changes, final)
  {
    if |changes| > 0 {
      var shorter := changes[..|changes| - 1];
      var change := changes[|changes| - 1];
      LastChange(original, changes, final);
      UpdatedSum(c, original, shorter, final);
      var partial := Updated(original, shorter, final);
      if change.key in partial {
        SumReplace(partial, IndexCharge(c), change.key, final[change.key]);
      } else {
        SumInsert(partial, IndexCharge(c), change.key, final[change.key]);
      }
    }
  }

  lemma BatchHeld(c: Codec, b: Disk, log: seq<AckRef>)
    requires Full(c, b, log) && b.descriptor.Some?
    ensures HoldsBatch(b.records, b.descriptor.value)
  {
    hide *;
    FullBatch(c, b, log);
    LogParts(c, log);
    BatchHeldInLog(b.records, b.descriptor.value, CheckpointSequence(b), log);
  }

  lemma BatchHeldInLog(records: map<Identity, StoredRecord>, refs: seq<AckRef>, from: nat, log: seq<AckRef>)
    requires GenerationsIncrease(log) && RecordsCover(records, from, log)
    requires from + |refs| <= |log| && refs == log[from..from + |refs|]
    ensures HoldsBatch(records, refs)
  {
    forall i | 0 <= i < |refs| ensures refs[i].id in records && records[refs[i].id] == StoredOf(refs[i]) {
      BatchEntry(refs, from, log, i);
    }
    forall i, j | 0 <= i < j < |refs| ensures refs[i].id != refs[j].id {
      assert refs[i] == log[from + i] && refs[j] == log[from + j];
    }
  }

  /** The usage a publication leaves is exactly the scan of what it leaves on disk. */
  lemma PublicationUsage(c: Codec, b: Disk, log: seq<AckRef>, t: Transaction)
    requires Full(c, b, log) && TransactionFor(b, t)
    ensures UsedBytes(c, ApplyTransaction(c, b, t)) == UsedBytes(c, b) + PublicationDelta(c, b, t)
    ensures |ApplyTransaction(c, b, t).records| == |b.records| - |t.records|
  {
    hide Full, ApplyAccepts, NextCheckpoint, IsReplay, FinalIndices, FileCharge, BatchCharge, ChangesCharge, HoldsBatch,
         ChangesDescribe, Updated, Ids;
    PublicationFields(c, b, log, t);
    BatchHeld(c, b, log);
    RemoveBatch(c, b.records, t.records);
    TransactionIsValid(b, t);
    ChangesAreFinal(b, t);
    UpdatedSum(c, b.opIndex, t.changes, FinalIndices(t.records, t.confirmation));
    UpdatedIsOverlay(b.opIndex, t.changes, FinalIndices(t.records, t.confirmation));
  }

  lemma TransactionIsValid(b: Disk, t: Transaction)
    requires ApplyAccepts(b, t)
    ensures ValidTransaction(t)
    ensures forall i :: 0 <= i < |t.changes| ==> t.changes[i].key in FinalIndices(t.records, t.confirmation)
  {}

  // ---------------------------------------------------------------------
  // The delta is never positive
  // ---------------------------------------------------------------------

  lemma {:induction false} BatchChargeLarge(c: Codec, refs: seq<AckRef>)
    requires WfCodec(c)
    ensures BatchCharge(c, refs) >= |refs| * (2 * FILE_CHARGE + METADATA_RESERVE)
  {
    if |refs| > 0 { BatchChargeLarge(c, refs[..|refs| - 1]); }
  }

  lemma {:induction false} ChangesChargeSmall(c: Codec, changes: seq<IndexChange>, final: map<OperationKey, OperationIndex>)
    requires WfCodec(c)
    requires forall i :: 0 <= i < |changes| ==> changes[i].key in final
    ensures ChangesCharge(c, changes, final) <= |changes| * (FILE_CHARGE + MAX_INDEX_FILE)
  {
    if |changes| > 0 { ChangesChargeSmall(c, changes[..|changes| - 1], final); }
  }

  lemma {:induction false} KeysNotMore(refs: seq<AckRef>)
    ensures |Keys(refs)| <= |refs|
  {
    if |refs| > 0 {
      var shorter := refs[..|refs| - 1];
      KeysNotMore(shorter);
      assert Keys(refs) == Keys(shorter) + {KeyOf(refs[|refs| - 1].id)};
    }
  }

  lemma CheckpointChargeSmall(c: Codec, k: Option<Checkpoint>)
    requires WfCodec(c)
    ensures 0 <= CheckpointCharge(c, k) <= FILE_CHARGE + MAX_CHECKPOINT_FILE
  {}

  /** A publication never increases the bytes in use, not even without counting
      the descriptor it removes. */
  lemma PublicationShrinks(c: Codec, b: Disk, t: Transaction)
    requires WfCodec(c) && ApplyAccepts(b, t)
    ensures PublicationDelta(c, b, t) + FileCharge(c.descriptor(t.records)) <= 0
  {
    TransactionIsValid(b, t);
    assert |t.changes| <= |t.records| && |t.records| > 0 by { KeysNotMore(t.records); }
    hide ApplyAccepts, ApplyTransaction, WfCodec, FinalIndices, ValidTransaction, CheckpointCharge, BatchCharge, ChangesCharge,
         FileCharge;
    BatchChargeLarge(c, t.records);
    ChangesChargeSmall(c, t.changes, FinalIndices(t.records, t.confirmation));
    CheckpointChargeSmall(c, ApplyTransaction(c, b, t).checkpoint);
    CheckpointChargeSmall(c, b.checkpoint);
  }

  // ---------------------------------------------------------------------
  // The usage file after a publication
  // ---------------------------------------------------------------------

  /** How many operations of the batch had no index yet. */
  function NewKeys(changes: seq<IndexChange>): nat {
    if |changes| == 0 then 0
    else NewKeys(changes[..|changes| - 1]) + if changes[|changes| - 1].previous.None? then 1 else 0
  }

  lemma {:induction false} AdvanceCounts(c: Codec, count: nat, set_: Digest, changes: seq<IndexChange>,
                                         final: map<OperationKey, OperationIndex>)
    requires forall i :: 0 <= i < |changes| ==> changes[i].key in final
    ensures Advance(c, count, set_, changes, final).0 == count + NewKeys(changes)
  {
    if |changes| > 0 { AdvanceCounts(c, count, set_, changes[..|changes| - 1], final); }
  }

  lemma PublicationIndexCount(c: Codec, b: Disk, t: Transaction)
    requires TransactionFor(b, t) && CheckpointMatches(c, b.checkpoint, b.opIndex)
    ensures |ApplyTransaction(c, b, t).opIndex| == |b.opIndex| + NewKeys(t.changes)
  {
    var final := FinalIndices(t.records, t.confirmation);
    TransactionIsValid(b, t);
    ChangesAreFinal(b, t);
    AdvanceIsFold(c, b.opIndex, t.changes, final);
    AdvanceCounts(c, |b.opIndex|, XorFold(b.opIndex, c.fingerprint), t.changes, final);
    UpdatedIsOverlay(b.opIndex, t.changes, final);
    hide ApplyAccepts, FinalIndices, ChangesDescribe, Advance, ChangeKeys, Updated, XorFold, NewKeys, IsReplay, NextCheckpoint;
  }

  /** The usage file the store writes while the transaction is still there. */
  function PublishedUsage(c: Codec, b: Disk, t: Transaction, u: Usage): Usage
    requires ApplyAccepts(b, t)
  {
    u.(records := u.records - |t.records|, verified := u.verified + |t.records|, keys := u.keys + NewKeys(t.changes),
       used := u.used + PublicationDelta(c, b, t))
  }

  /** The incremental usage after a publication equals the scan of what it leaves. */
  lemma PublicationScan(c: Codec, maximum: int, b: Disk, log: seq<AckRef>, t: Transaction, blocked: int)
    requires Full(c, b, log) && TransactionFor(b, t)
    ensures Scan(c, maximum, ApplyTransaction(c, b, t), blocked)
            == PublishedUsage(c, b, t, Scan(c, maximum, b, blocked))
  {
    assert ApplyAccepts(b, t) && CheckpointMatches(c, b.checkpoint, b.opIndex);
    hide *;
    PublicationFields(c, b, log, t);
    PublicationUsage(c, b, log, t);
    PublicationIndexCount(c, b, t);
    PublicationIsFull(c, b, log, t);
    ScanChanges(c, maximum, b, ApplyTransaction(c, b, t), t, blocked);
  }

  lemma ScanChanges(c: Codec, maximum: int, b: Disk, e: Disk, t: Transaction, blocked: int)
    requires ApplyAccepts(b, t)
    requires UsedBytes(c, e) == UsedBytes(c, b) + PublicationDelta(c, b, t)
    requires |e.records| == |b.records| - |t.records| && e.reservations == b.reservations
    requires |e.opIndex| == |b.opIndex| + NewKeys(t.changes)
    requires CheckpointSequence(e) == CheckpointSequence(b) + |t.records|
    ensures Scan(c, maximum, e, blocked) == PublishedUsage(c, b, t, Scan(c, maximum, b, blocked))
  {
    hide UsedBytes, PublicationDelta, ApplyAccepts, CheckpointSequence, NewKeys;
  }

  // ---------------------------------------------------------------------
  // The loops that compute the delta
  // ---------------------------------------------------------------------

  method ChargeBatch(c: Codec, refs: seq<AckRef>) returns (freed: int)
    ensures freed == BatchCharge(c, refs)
  {
    freed := 0;
    var i := 0;
    while i < |refs|
      invariant 0 <= i <= |refs| && freed == BatchCharge(c, refs[..i])
    {
      freed := freed + StoredCharge(c, StoredOf(refs[i]));
      assert refs[..i + 1][..i] == refs[..i];
      i := i + 1;
    }
    assert refs[..i] == refs;
  }

  /** The index files are measured on disk, after they have been written. */
  method ChargeChanges(c: Codec, changes: seq<IndexChange>, opIndex: map<OperationKey, OperationIndex>)
    returns (delta: int, added: nat)
    requires forall i :: 0 <= i < |changes| ==> changes[i].key in opIndex
    ensures delta == ChangesCharge(c, changes, opIndex) && added == NewKeys(changes)
  {
    delta, added := 0, 0;
    var i := 0;
    while i < |changes|
      invariant 0 <= i <= |changes|
      invariant delta == ChangesCharge(c, changes[..i], opIndex) && added == NewKeys(changes[..i])
    {
      var change := changes[i];
      if change.previous.Some? {
        delta := delta - FileCharge(c.operation(change.previous.value));
      } else {
        added := added + 1;
      }
      delta := delta + FileCharge(c.operation(opIndex[change.key]));
      assert changes[..i + 1][..i] == changes[..i];
      i := i + 1;
    }
    assert changes[..i] == changes;
  }

  lemma {:induction false} ChangesChargeReads(c: Codec, changes: seq<IndexChange>, m: map<OperationKey, OperationIndex>,
                                              final: map<OperationKey, OperationIndex>)
    requires forall i :: 0 <= i < |changes| ==> changes[i].key in final && changes[i].key in m && m[changes[i].key] == final[changes[i].key]
    ensures ChangesCharge(c, changes, m) == ChangesCharge(c, changes, final)
  {
    if |changes| > 0 { ChangesChargeReads(c, changes[..|changes| - 1], m, final); }
  }
}
