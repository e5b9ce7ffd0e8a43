/** Recovery of a reachable directory: a rebuild is never stopped by a check, and
    what it leaves is the complete directory the interrupted operation was heading
    for, with the usage file a full scan gives. */
module HistoryRecovery {
  import opened Foundations
  import opened HistoryModel
  import opened HistoryReplay
  import opened HistoryInvariant
  import opened HistoryPublication
  import opened HistoryAccounting

  // ---------------------------------------------------------------------
  // Bounds
  // ---------------------------------------------------------------------

  lemma IndexKeysBounded(c: Codec, maximum: int, b: Disk)
    requires Bounded(c, maximum, b)
    ensures |b.opIndex| <= MAX_KEYS
  {
    SubsetSize(b.opIndex.Keys, OperationKeys(b));
    assert |b.opIndex| == |b.opIndex.Keys|;
  }

  lemma UsedNonNegative(c: Codec, b: Disk)
    requires WfCodec(c)
    ensures UsedBytes(c, b) >= 0
  {
    SumNonNegative(b.opIndex, IndexCharge(c));
    SumNonNegative(b.records, RecordCharge(c));
  }

  lemma DescriptorSmall(c: Codec, b: Disk, log: seq<AckRef>)
    requires Full(c, b, log)
    ensures 0 <= DescriptorCharge(c, b.descriptor) <= MAX_DESCRIPTOR_FILE
  {
    hide LogOk, RecordsWithin, RecordsCover, PendingWithin, PendingCover, IndexWithin, IndexCover, CheckpointMatches;
  }

  /** The scan of a complete, bounded directory is a usage file its reader accepts. */
  lemma ScanValid(c: Codec, maximum: int, b: Disk, log: seq<AckRef>, blocked: nat)
    requires WfCodec(c) && Full(c, b, log) && Bounded(c, maximum, b)
    ensures ValidUsage(Scan(c, maximum, b, blocked), maximum)
  {
    hide Full, WfCodec;
    UsedNonNegative(c, b);
    DescriptorSmall(c, b, log);
    IndexKeysBounded(c, maximum, b);
    hide DescriptorCharge, UsedBytes, OperationKeys;
  }

  lemma {:induction false} KeysAfterBatch(b: Disk, refs: seq<AckRef>, confirmation: Confirmation)
    requires HoldsBatch(b.records, refs)
    ensures var e := b.(records := b.records - Ids(refs), opIndex := b.opIndex + FinalIndices(refs, confirmation));
            OperationKeys(e) <= OperationKeys(b)
  {
    FinalIndicesKeys(refs, confirmation);
    forall k | k in Keys(refs) ensures k in OperationKeys(b) {
      var i :| 0 <= i < |refs| && KeyOf(refs[i].id) == k;
      assert refs[i].id in b.records;
    }
  }

  lemma OperationKeysOnly(d: Disk, e: Disk)
    requires d.records == e.records && d.opIndex == e.opIndex && d.reservations == e.reservations
    ensures OperationKeys(d) == OperationKeys(e)
  {}

  lemma PublicationKeys(c: Codec, b: Disk, log: seq<AckRef>, t: Transaction)
    requires Full(c, b, log) && TransactionFor(b, t)
    ensures |OperationKeys(ApplyTransaction(c, b, t))| <= |OperationKeys(b)|
  {
    assert ApplyAccepts(b, t);
    hide *;
    PublicationFields(c, b, log, t);
    BatchHeld(c, b, log);
    KeysAfterBatch(b, t.records, t.confirmation);
    var e := b.(records := b.records - Ids(t.records), opIndex := b.opIndex + FinalIndices(t.records, t.confirmation));
    OperationKeysOnly(ApplyTransaction(c, b, t), e);
    SubsetSize(OperationKeys(ApplyTransaction(c, b, t)), OperationKeys(b));
  }

  lemma PublicationUsedLess(c: Codec, b: Disk, log: seq<AckRef>, t: Transaction)
    requires WfCodec(c) && Full(c, b, log) && TransactionFor(b, t)
    ensures var e := ApplyTransaction(c, b, t);
            && UsedBytes(c, e) - DescriptorCharge(c, e.descriptor) <= UsedBytes(c, b) - DescriptorCharge(c, b.descriptor)
            && |e.records| <= |b.records| && e.reservations == b.reservations
  {
    assert ApplyAccepts(b, t);
    hide *;
    PublicationFields(c, b, log, t);
    PublicationUsage(c, b, log, t);
    PublicationShrinks(c, b, t);
    DescriptorChargeIs(c, t.records);
  }

  lemma DescriptorChargeIs(c: Codec, refs: seq<AckRef>)
    ensures DescriptorCharge(c, None) == 0
    ensures DescriptorCharge(c, Some(refs)) == FileCharge(c.descriptor(refs))
  {}

  lemma BoundedSmaller(c: Codec, maximum: int, b: Disk, e: Disk)
    requires Bounded(c, maximum, b)
    requires UsedBytes(c, e) - DescriptorCharge(c, e.descriptor) <= UsedBytes(c, b) - DescriptorCharge(c, b.descriptor)
    requires |e.records| <= |b.records| && |e.reservations| <= |b.reservations|
    requires |OperationKeys(e)| <= |OperationKeys(b)|
    ensures Bounded(c, maximum, e)
  {
    hide UsedBytes, DescriptorCharge, OperationKeys;
  }

  /** A publication keeps the byte bound and every count within its cap. */
  lemma PublicationBounded(c: Codec, maximum: int, b: Disk, log: seq<AckRef>, t: Transaction)
    requires WfCodec(c) && Full(c, b, log) && TransactionFor(b, t) && Bounded(c, maximum, b)
    ensures Bounded(c, maximum, ApplyTransaction(c, b, t))
  {
    assert ApplyAccepts(b, t);
    hide *;
    PublicationUsedLess(c, b, log, t);
    PublicationKeys(c, b, log, t);
    BoundedSmaller(c, maximum, b, ApplyTransaction(c, b, t));
  }

  lemma TargetCheckpointReadable(c: Codec, maximum: int, b: Disk, log: seq<AckRef>)
    requires Full(c, b, log) && Bounded(c, maximum, b)
    ensures ReadableCheckpoint(b)
  {
    IndexKeysBounded(c, maximum, b);
    hide LogOk, RecordsWithin, RecordsCover, PendingWithin, PendingCover, IndexWithin, IndexCover, Bounded,
         DescriptorMatches;
  }

  // ---------------------------------------------------------------------
  // What recovery leads to
  // ---------------------------------------------------------------------

  lemma IncompleteCompletes(c: Codec, d: Disk, b: Disk, log: seq<AckRef>)
    requires Full(c, b, log) && d.txn.None? && Incomplete(d, b)
    ensures Completed(c, d).(marker := None, usage := None) == b
  {
    PendingForFull(c, b, log);
    hide LogOk, RecordsWithin, RecordsCover, PendingWithin, PendingCover, IndexWithin, IndexCover, CheckpointMatches,
         DescriptorMatches;
  }

  lemma FullIsIncomplete(c: Codec, b: Disk, log: seq<AckRef>)
    requires Full(c, b, log)
    ensures Incomplete(b, b)
  {
    hide LogOk, RecordsWithin, RecordsCover, PendingWithin, PendingCover, IndexWithin, IndexCover, CheckpointMatches,
         DescriptorMatches;
    assert b.reservations - b.records.Keys == b.reservations;
  }

  /** After the replay of whatever transaction is in flight, at most sequence
      indices and reservations of stored records are left to repair. */
  lemma ReplayedIsIncomplete(c: Codec, maximum: int, d: Disk, b: Disk, log: seq<AckRef>)
    requires WfCodec(c) && Inv(c, maximum, d, b, log)
    ensures ReplayAccepts(d) && (d.txn.Some? ==> ApplyAccepts(b, d.txn.value))
    ensures Full(c, Target(c, d, b), log) && Bounded(c, maximum, Target(c, d, b))
    ensures Replayed(c, d).txn.None? && Incomplete(Replayed(c, d), Target(c, d, b))
  {
    if d.txn.Some? {
      var t := d.txn.value;
      assert TransactionFor(b, t) && Progress(c, b, t, d);
      InFlightReplays(c, maximum, d, b, log, t);
    }
    hide Full, Bounded, WfCodec, Incomplete, ApplyAccepts, ApplyTransaction, TransactionFor, Progress, Settled;
  }

  lemma InFlightReplays(c: Codec, maximum: int, d: Disk, b: Disk, log: seq<AckRef>, t: Transaction)
    requires WfCodec(c) && Full(c, b, log) && Bounded(c, maximum, b) && TransactionFor(b, t) && Progress(c, b, t, d)
    ensures ApplyAccepts(b, t) && ApplyAccepts(d, t) && ReadableCheckpoint(ApplyTransaction(c, b, t))
    ensures ApplyTransaction(c, d, t) == ApplyTransaction(c, b, t).(txn := d.txn, marker := d.marker, usage := d.usage)
    ensures Full(c, ApplyTransaction(c, b, t), log) && Bounded(c, maximum, ApplyTransaction(c, b, t))
    ensures Incomplete(ApplyTransaction(c, d, t).(txn := None), ApplyTransaction(c, b, t))
  {
    assert ApplyAccepts(b, t);
    hide *;
    PublicationIsFull(c, b, log, t);
    PublicationBounded(c, maximum, b, log, t);
    TargetCheckpointReadable(c, maximum, ApplyTransaction(c, b, t), log);
    ReplayConverges(c, b, t, d);
    FullIsIncomplete(c, ApplyTransaction(c, b, t), log);
    SameFilesIncomplete(ApplyTransaction(c, d, t).(txn := None), ApplyTransaction(c, b, t));
  }

  lemma SameFilesIncomplete(d: Disk, b: Disk)
    requires Incomplete(b, b)
    requires d == b.(marker := d.marker, usage := d.usage)
    ensures Incomplete(d, b)
  {}

  /** Whatever writes reached the disk, recovery ends in the target directory, and
      the usage it writes is the full scan's. */
  lemma RecoveryReachesTarget(c: Codec, maximum: int, d: Disk, b: Disk, log: seq<AckRef>)
    requires WfCodec(c) && Inv(c, maximum, d, b, log)
    ensures ReplayAccepts(d) && (d.txn.Some? ==> ApplyAccepts(b, d.txn.value))
    ensures var e := Target(c, d, b);
            Recover(c, maximum, d) == e.(usage := Some(Scan(c, maximum, e, BlockedCount(d, maximum))))
  {
    ReplayedIsIncomplete(c, maximum, d, b, log);
    IncompleteCompletes(c, Replayed(c, d), Target(c, d, b), log);
    hide *;
    RecoverUnfolds(c, maximum, d, Target(c, d, b));
  }

  lemma ScanIgnoresUsage(c: Codec, maximum: int, f: Disk, blocked: int)
    ensures Scan(c, maximum, f.(marker := None, usage := None), blocked) == Scan(c, maximum, f, blocked)
  {}

  lemma RecoverUnfolds(c: Codec, maximum: int, d: Disk, e: Disk)
    requires ReplayAccepts(d) && Completed(c, Replayed(c, d)).(marker := None, usage := None) == e
    ensures Recover(c, maximum, d) == e.(usage := Some(Scan(c, maximum, e, BlockedCount(d, maximum))))
  {
    hide ReplayAccepts, Replayed, BlockedCount, Completed, Scan;
    ScanIgnoresUsage(c, maximum, Completed(c, Replayed(c, d)), BlockedCount(d, maximum));
  }

  // ---------------------------------------------------------------------
  // A rebuild is never stopped by a check
  // ---------------------------------------------------------------------

  lemma StoredInLog(c: Codec, id: Identity, r: StoredRecord, from: nat, log: seq<AckRef>)
    requires WfCodec(c) && LogOk(c, log) && RecordFits(id, r, from, log)
    ensures ReadableRecord(id, r) && r.sequence > from
    ensures ValidPendingIndex(PendingIndexOf(c, r), r.sequence)
  {
    assert EntryOk(c, At(log, r.sequence), r.sequence);
    RecordSizes(c, At(log, r.sequence));
    hide WfCodec, LogOk;
  }

  /** A published record of the same operation has a lower generation. */
  lemma IndexIsBehind(c: Codec, opIndex: map<OperationKey, OperationIndex>, id: Identity, r: StoredRecord, from: nat,
                      log: seq<AckRef>)
    requires LogOk(c, log) && RecordFits(id, r, from, log)
    requires IndexWithin(opIndex, from, log) && KeyOf(id) in opIndex
    ensures opIndex[KeyOf(id)].identity.generation < id.generation
  {
    var i := opIndex[KeyOf(id)];
    assert KeyOf(log[i.sequence - 1].id) == KeyOf(log[r.sequence - 1].id);
  }

  lemma StoredIsAccepted(c: Codec, d: Disk, b: Disk, log: seq<AckRef>, id: Identity)
    requires WfCodec(c) && Full(c, b, log) && Incomplete(d, b) && id in d.records
    ensures RecordFileAccepts(c, d, id)
  {
    hide LogOk, RecordsWithin, RecordsCover, PendingWithin, PendingCover, IndexWithin, IndexCover, CheckpointMatches,
         DescriptorMatches, WfCodec, ReadableRecord, ValidPendingIndex, PendingIndexOf, RecordFits, At;
    var r := b.records[id];
    assert CheckpointSequence(d) == CheckpointSequence(b);
    FullAt(c, b, log, id);
    StoredInLog(c, id, r, CheckpointSequence(b), log);
    if KeyOf(id) in b.opIndex { IndexIsBehind(c, b.opIndex, id, r, CheckpointSequence(b), log); }
  }

  lemma FullAt(c: Codec, b: Disk, log: seq<AckRef>, id: Identity)
    requires Full(c, b, log) && id in b.records
    ensures RecordFits(id, b.records[id], CheckpointSequence(b), log)
    ensures b.records[id].sequence in b.pending
            && b.pending[b.records[id].sequence] == PendingIndexOf(c, b.records[id])
  {
    hide LogOk, RecordsCover, IndexWithin, IndexCover, CheckpointMatches, DescriptorMatches;
    assert RecordFits(id, b.records[id], CheckpointSequence(b), log);
  }

  lemma IndexIsAccepted(c: Codec, b: Disk, log: seq<AckRef>, k: OperationKey)
    requires Full(c, b, log) && k in b.opIndex
    ensures IndexFileAccepts(k, b.opIndex[k], CheckpointSequence(b))
  {
    var s := b.opIndex[k].sequence;
    assert EntryOk(c, At(log, s), s);
    hide RecordsWithin, RecordsCover, PendingWithin, PendingCover, IndexCover, CheckpointMatches, DescriptorMatches,
         StoredCharge;
  }

  lemma SequencesAreContiguous(c: Codec, b: Disk, log: seq<AckRef>)
    requires Full(c, b, log)
    ensures SequencesContiguous(b) && |b.records| == |log| - CheckpointSequence(b)
    ensures b.pending.Keys == RecordSequences(b.records)
  {
    RecordsCount(b.records, CheckpointSequence(b), log);
    PendingKeys(c, b, log);
    hide LogOk, RecordsWithin, RecordsCover, PendingWithin, IndexWithin, IndexCover, CheckpointMatches,
         DescriptorMatches, RecordSequences;
  }

  lemma DescriptorIsAccepted(c: Codec, b: Disk, log: seq<AckRef>)
    requires Full(c, b, log)
    ensures DescriptorAccepts(c, b)
  {
    hide LogOk, RecordsWithin, RecordsCover, PendingWithin, PendingCover, IndexWithin, IndexCover, CheckpointMatches,
         Consecutive, GenerationsIncrease, DescriptorEntryAccepts, BatchBytes;
    if b.descriptor.Some? {
      FullBatch(c, b, log);
      var refs := b.descriptor.value;
      BatchConsecutive(c, refs, CheckpointSequence(b), log);
      forall i | 0 <= i < |refs| ensures DescriptorEntryAccepts(b.pending, refs[i]) {
        DescriptorEntryIsAccepted(c, b.pending, refs, CheckpointSequence(b), log, i);
      }
    }
  }

  lemma DescriptorEntryIsAccepted(c: Codec, pending: map<nat, PendingIndex>, refs: seq<AckRef>, from: nat,
                                  log: seq<AckRef>, i: nat)
    requires LogOk(c, log) && from + |refs| <= |log| && refs == log[from..from + |refs|] && i < |refs|
    requires PendingWithin(c, pending, from, log) && PendingCover(pending, from, log)
    ensures DescriptorEntryAccepts(pending, refs[i])
  {
    BatchEntry(refs, from, log, i);
    assert EntryOk(c, At(log, from + 1 + i), from + 1 + i);
  }

  lemma ReservationsAreAccepted(c: Codec, maximum: int, d: Disk, b: Disk)
    requires Incomplete(d, b) && Bounded(c, maximum, b)
    ensures ReservationsAccept(d.reservations)
  {
    hide UsedBytes, DescriptorCharge, OperationKeys, SubMap;
    assert d.reservations.Keys <= b.reservations.Keys + b.records.Keys;
    SubsetSize(d.reservations.Keys, b.reservations.Keys + b.records.Keys);
    assert |d.reservations| == |d.reservations.Keys| && |b.reservations| == |b.reservations.Keys|
           && |b.records| == |b.records.Keys|;
  }

  lemma DescriptorSurvives(c: Codec, d: Disk, b: Disk, log: seq<AckRef>)
    requires Full(c, b, log) && d.txn.None? && Incomplete(d, b)
    ensures DescriptorAccepts(c, Completed(c, d))
  {
    hide Full, Incomplete, Completed;
    IncompleteCompletes(c, d, b, log);
    DescriptorIsAccepted(c, b, log);
    var e := Completed(c, d);
    assert e.(marker := None, usage := None) == b;
    hide DescriptorEntryAccepts, BatchBytes, Consecutive;
  }

  lemma RecordDirectoryIsAccepted(c: Codec, maximum: int, d: Disk, b: Disk, log: seq<AckRef>)
    requires WfCodec(c) && Full(c, b, log) && Bounded(c, maximum, b) && Incomplete(d, b)
    ensures RecordDirectoryAccepts(c, d)
  {
    assert |d.records| <= MAX_PENDING by { hide UsedBytes, DescriptorCharge, OperationKeys; }
    hide *;
    forall id | id in d.records ensures RecordFileAccepts(c, d, id) { StoredIsAccepted(c, d, b, log, id); }
    RecordDirectoryIntro(c, d);
  }

  lemma RecordDirectoryIntro(c: Codec, d: Disk)
    requires |d.records| <= MAX_PENDING && forall id :: id in d.records ==> RecordFileAccepts(c, d, id)
    ensures RecordDirectoryAccepts(c, d)
  {
    hide RecordFileAccepts;
  }

  lemma IndexDirectoryIsAccepted(c: Codec, maximum: int, b: Disk, log: seq<AckRef>)
    requires Full(c, b, log) && Bounded(c, maximum, b)
    ensures IndexDirectoryAccepts(b) && CheckpointMatches(c, b.checkpoint, b.opIndex)
  {
    hide LogOk, RecordsWithin, RecordsCover, PendingWithin, PendingCover, IndexWithin, IndexCover, CheckpointMatches,
         DescriptorMatches, Bounded, IndexFileAccepts;
    IndexKeysBounded(c, maximum, b);
    forall k | k in b.opIndex ensures IndexFileAccepts(k, b.opIndex[k], CheckpointSequence(b)) {
      IndexIsAccepted(c, b, log, k);
    }
  }

  /** The checks that only read what an incomplete directory shares with its completion. */
  lemma SharedChecks(d: Disk, b: Disk, c: Codec)
    requires Incomplete(d, b)
    requires ReadableCheckpoint(b) && IndexDirectoryAccepts(b) && CheckpointMatches(c, b.checkpoint, b.opIndex)
    requires SequencesContiguous(b) && b.pending.Keys == RecordSequences(b.records)
    ensures ReadableCheckpoint(d) && IndexDirectoryAccepts(d) && CheckpointMatches(c, d.checkpoint, d.opIndex)
    ensures SequencesContiguous(d) && PendingDirectoryAccepts(d)
  {
    assert CheckpointSequence(d) == CheckpointSequence(b);
    hide IndexFileAccepts, CheckpointMatches, RecordSequences;
  }

  lemma IncompleteIsAccepted(c: Codec, maximum: int, d: Disk, b: Disk, log: seq<AckRef>)
    requires WfCodec(c) && Full(c, b, log) && Bounded(c, maximum, b) && d.txn.None? && Incomplete(d, b)
    ensures RebuildAccepts(c, d)
  {
    hide WfCodec, Full, Bounded, Incomplete, ReadableCheckpoint, IndexDirectoryAccepts, CheckpointMatches,
         RecordDirectoryAccepts, SequencesContiguous, PendingDirectoryAccepts, DescriptorAccepts, Completed,
         ReservationsAccept;
    TargetCheckpointReadable(c, maximum, b, log);
    IndexDirectoryIsAccepted(c, maximum, b, log);
    SequencesAreContiguous(c, b, log);
    SharedChecks(d, b, c);
    RecordDirectoryIsAccepted(c, maximum, d, b, log);
    DescriptorSurvives(c, d, b, log);
    ReservationsAreAccepted(c, maximum, d, b);
  }

  /** A rebuild of a reachable directory passes every check; only its capacity
      test can stop it. */
  lemma RebuildIsAccepted(c: Codec, maximum: int, d: Disk, b: Disk, log: seq<AckRef>)
    requires WfCodec(c) && Inv(c, maximum, d, b, log)
    ensures ReplayAccepts(d) && RebuildAccepts(c, Replayed(c, d))
  {
    hide *;
    ReplayedIsIncomplete(c, maximum, d, b, log);
    IncompleteIsAccepted(c, maximum, Replayed(c, d), Target(c, d, b), log);
  }

  /** And the capacity test only stops it when a frozen batch's descriptor has
      taken the directory into the headroom. */
  lemma FitsUnlessFrozen(c: Codec, maximum: int, b: Disk)
    requires Bounded(c, maximum, b)
    ensures Fits(c, maximum, b) <==> UsedBytes(c, b) + |b.reservations| * RESERVED_BYTES + HEADROOM <= maximum
    ensures b.descriptor.None? ==> Fits(c, maximum, b)
  {
    IndexKeysBounded(c, maximum, b);
    hide UsedBytes, OperationKeys;
  }

  // ---------------------------------------------------------------------
  // The directories a rebuild passes through
  // ---------------------------------------------------------------------

  /** Repairs made to a replayed directory: sequence indices added for stored
      records, reservations of stored records dropped. */
  ghost predicate Completing(c: Codec, e: Disk, d: Disk) {
    && d.records == e.records && d.opIndex == e.opIndex && d.checkpoint == e.checkpoint && d.descriptor == e.descriptor
    && SubMap(e.pending, d.pending)
    && (forall s :: s in d.pending && s !in e.pending ==>
          s in RecordSequences(e.records) && AddedFor(c, e.records, s, d.pending[s]))
    && SubMap(d.reservations, e.reservations)
    && (forall id :: id in e.reservations ==> id in d.reservations || id in e.records)
  }

  ghost predicate AddedFor(c: Codec, records: map<Identity, StoredRecord>, s: nat, p: PendingIndex) {
    exists id :: id in records && records[id].sequence == s && p == PendingIndexOf(c, records[id])
  }

  /** Every state in which a rebuild of `d0` can be interrupted. */
  ghost predicate RecoveryStep(c: Codec, maximum: int, d0: Disk, d: Disk) {
    || d == d0
    || (d.marker.Some? && d == d0.(marker := d.marker))
    || (d.marker.Some? && d0.txn.Some? && d.txn == d0.txn && ApplyAccepts(d0, d0.txn.value)
        && Progress(c, d0, d0.txn.value, d))
    || (d.marker.Some? && d.txn.None? && ReplayAccepts(d0) && Completing(c, Replayed(c, d0), d))
    || (ReplayAccepts(d0) && d == Recover(c, maximum, d0))
  }

  lemma CompletingKeeps(c: Codec, e: Disk, d: Disk, b: Disk, log: seq<AckRef>)
    requires Full(c, b, log) && Incomplete(e, b) && Completing(c, e, d)
    ensures Incomplete(d, b)
  {
    hide Full, RecordSequences, PendingIndexOf;
    forall s | s in d.pending ensures s in b.pending && d.pending[s] == b.pending[s] {
      if s !in e.pending {
        var id :| id in e.records && e.records[id].sequence == s && d.pending[s] == PendingIndexOf(c, e.records[id]);
        FullAt(c, b, log, id);
      }
    }
    assert d.reservations - d.records.Keys == e.reservations - e.records.Keys;
  }

  /** Writing a marker file changes nothing else. */
  lemma MarkerKeeps(c: Codec, maximum: int, d: Disk, b: Disk, log: seq<AckRef>, m: Marker)
    requires Inv(c, maximum, d, b, log)
    ensures Inv(c, maximum, d.(marker := Some(m)), b, log)
  {
    hide Full, Bounded, SubMap, Mixed, PendingOutlives, ApplyAccepts, ApplyTransaction, IsReplay;
  }

  lemma ProgressKeeps(c: Codec, maximum: int, d0: Disk, d: Disk, b: Disk, log: seq<AckRef>, t: Transaction)
    requires WfCodec(c) && Inv(c, maximum, d0, b, log)
    requires d0.txn == Some(t) && d.txn == Some(t) && ApplyAccepts(d0, t) && Progress(c, d0, t, d)
    ensures Inv(c, maximum, d, b, log)
  {
    assert TransactionFor(b, t) && ApplyAccepts(b, t) && Progress(c, b, t, d0) && Full(c, b, log) && Bounded(c, maximum, b);
    hide *;
    InFlightReplays(c, maximum, d0, b, log, t);
    ProgressComposes(c, b, t, d0, d);
    InFlightIntro(c, maximum, d, b, log, t);
  }

  lemma InFlightIntro(c: Codec, maximum: int, d: Disk, b: Disk, log: seq<AckRef>, t: Transaction)
    requires Full(c, b, log) && Bounded(c, maximum, b)
    requires d.txn == Some(t) && TransactionFor(b, t) && Progress(c, b, t, d)
    ensures Inv(c, maximum, d, b, log)
  {
    hide Full, Bounded, TransactionFor, Progress;
  }

  /** A complete directory with its scan for usage file meets the invariant. */
  lemma SettledKeeps(c: Codec, maximum: int, d: Disk, b: Disk, log: seq<AckRef>)
    requires Full(c, b, log) && Bounded(c, maximum, b) && Settled(c, maximum, d, b)
    ensures Inv(c, maximum, d, b, log)
  {
    hide Bounded, LogOk, RecordsWithin, RecordsCover, PendingWithin, PendingCover, IndexWithin, IndexCover,
         CheckpointMatches, DescriptorMatches, Scan;
    FullIsIncomplete(c, b, log);
    hide Full;
  }

  lemma RecoveredKeeps(c: Codec, maximum: int, d0: Disk, d: Disk, b: Disk, log: seq<AckRef>)
    requires WfCodec(c) && Inv(c, maximum, d0, b, log)
    requires ReplayAccepts(d0) && d == Recover(c, maximum, d0)
    ensures d0.txn.Some? ==> ApplyAccepts(b, d0.txn.value)
    ensures Inv(c, maximum, d, Target(c, d0, b), log) && d.txn.None? && d.marker.None?
    ensures Settled(c, maximum, d, Target(c, d0, b))
  {
    hide WfCodec, Inv, Bounded, ReplayAccepts, Replayed, Recover, Target, ApplyAccepts, Incomplete,
         LogOk, RecordsWithin, RecordsCover, PendingWithin, PendingCover, IndexWithin, IndexCover,
         CheckpointMatches, DescriptorMatches, UsedBytes, BlockedCount, CheckpointSequence;
    ReplayedIsIncomplete(c, maximum, d0, b, log);
    RecoveryReachesTarget(c, maximum, d0, b, log);
    var e := Target(c, d0, b);
    assert e.txn == None && e.usage == None && e.marker == None;
    SettledKeeps(c, maximum, d, e, log);
  }

  lemma RepairKeeps(c: Codec, maximum: int, d0: Disk, d: Disk, b: Disk, log: seq<AckRef>)
    requires WfCodec(c) && Inv(c, maximum, d0, b, log)
    requires ReplayAccepts(d0) && Completing(c, Replayed(c, d0), d) && d.txn.None? && d.marker.Some?
    ensures d0.txn.Some? ==> ApplyAccepts(b, d0.txn.value)
    ensures Inv(c, maximum, d, Target(c, d0, b), log)
  {
    ReplayedIsIncomplete(c, maximum, d0, b, log);
    CompletingKeeps(c, Replayed(c, d0), d, Target(c, d0, b), log);
    hide WfCodec, Full, Bounded, ReplayAccepts, Replayed, Target, ApplyAccepts, Incomplete, Completing, Settled;
  }

  /** A crash anywhere in a rebuild, also in a rebuild after a crash, leaves a
      directory that recovers to the same target. */
  lemma RecoveryStepKeeps(c: Codec, maximum: int, d0: Disk, d: Disk, b: Disk, log: seq<AckRef>)
    requires WfCodec(c) && Inv(c, maximum, d0, b, log)
    requires RecoveryStep(c, maximum, d0, d)
    ensures d0.txn.Some? ==> ApplyAccepts(b, d0.txn.value)
    ensures d.txn.None? || d.txn == d0.txn
    ensures Inv(c, maximum, d, if d.txn.None? then Target(c, d0, b) else b, log)
  {
    hide WfCodec, Inv, Full, Bounded, Incomplete, Progress, ApplyAccepts, ReplayAccepts, Replayed, Completing,
         Recover, Target;
    if d == d0 || (d.marker.Some? && d == d0.(marker := d.marker)) {
      MarkedKeeps(c, maximum, d0, d, b, log);
    } else if d.marker.Some? && d0.txn.Some? && d.txn == d0.txn && ApplyAccepts(d0, d0.txn.value)
              && Progress(c, d0, d0.txn.value, d) {
      ReplayedIsIncomplete(c, maximum, d0, b, log);
      ProgressKeeps(c, maximum, d0, d, b, log, d0.txn.value);
    } else if d.marker.Some? && d.txn.None? && ReplayAccepts(d0) && Completing(c, Replayed(c, d0), d) {
      RepairKeeps(c, maximum, d0, d, b, log);
    } else {
      RecoveredKeeps(c, maximum, d0, d, b, log);
    }
  }

  lemma MarkedKeeps(c: Codec, maximum: int, d0: Disk, d: Disk, b: Disk, log: seq<AckRef>)
    requires WfCodec(c) && Inv(c, maximum, d0, b, log)
    requires d == d0 || (d.marker.Some? && d == d0.(marker := d.marker))
    ensures d0.txn.Some? ==> ApplyAccepts(b, d0.txn.value)
    ensures Inv(c, maximum, d, if d.txn.None? then Target(c, d0, b) else b, log)
  {
    ReplayedIsIncomplete(c, maximum, d0, b, log);
    hide WfCodec, Inv, Full, ApplyAccepts, ApplyTransaction;
    if d != d0 { MarkerKeeps(c, maximum, d0, b, log, d.marker.value); }
  }

  lemma TargetIsBase(c: Codec, d: Disk, b: Disk)
    requires d.txn.None?
    ensures Target(c, d, b) == b
  {}
}