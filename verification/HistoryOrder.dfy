/** What becomes of a store whose callers do not append the records of each
    operation in the order of their generations. The store takes such a record, so
    directories are described here without that order: which of their batches can
    be published, and what happens to the others. */
module HistoryOrder {
  import opened Foundations
  import opened HistoryModel
  import opened HistoryReplay
  import opened HistoryInvariant
  import opened HistoryPublication
  import opened HistoryRecovery
  import opened HistorySteps
  import opened HistoryBatch
  import opened HistoryStore
  import opened HistoryResults

  lemma CompleteBatch(c: Codec, b: Disk, log: seq<AckRef>)
    requires Complete(c, b, log) && b.descriptor.Some?
    ensures var from, refs := CheckpointSequence(b), b.descriptor.value;
            0 < |refs| <= MAX_BATCH_RECORDS && from + |refs| <= |log| && refs == log[from..from + |refs|]
  {
    hide EntriesOk, RecordsWithin, RecordsCover, PendingWithin, PendingCover, IndexWithin, IndexCover, CheckpointMatches;
  }

  // ---------------------------------------------------------------------
  // Which batches can be published
  // ---------------------------------------------------------------------

  /** Every record of the batch is newer than what its operation has published. */
  predicate AboveIndex(opIndex: map<OperationKey, OperationIndex>, refs: seq<AckRef>) {
    forall i :: 0 <= i < |refs| ==> NotStale(opIndex, refs[i].id)
  }

  lemma PublishedIsEarlier(c: Codec, opIndex: map<OperationKey, OperationIndex>, k: OperationKey, from: nat,
                           log: seq<AckRef>)
    requires EntriesOk(c, log) && IndexWithin(opIndex, from, log) && k in opIndex
    ensures ValidIndexEntry(opIndex[k], k) && opIndex[k].sequence <= from
  {
    assert EntryOk(c, At(log, opIndex[k].sequence), opIndex[k].sequence);
  }

  /** What is checked of one change is that the batch is above it. */
  lemma ChangeValidIff(c: Codec, opIndex: map<OperationKey, OperationIndex>, change: IndexChange, refs: seq<AckRef>,
                       from: nat, log: seq<AckRef>)
    requires EntriesOk(c, log) && 0 < |refs| && from + |refs| <= |log| && refs == log[from..from + |refs|]
    requires IndexWithin(opIndex, from, log)
    requires change.key in Keys(refs) && change.previous == Lookup(opIndex, change.key)
    ensures ValidChange(change, refs)
            <==> forall i :: 0 <= i < |refs| && KeyOf(refs[i].id) == change.key ==> NotStale(opIndex, refs[i].id)
  {
    hide EntriesOk, IndexWithin, Keys, ValidIndexEntry, Consecutive;
    BatchIsRun(c, refs, from, log);
    if change.key in opIndex { PublishedIsEarlier(c, opIndex, change.key, from, log); }
  }

  lemma ChangesValidIff(c: Codec, opIndex: map<OperationKey, OperationIndex>, changes: seq<IndexChange>,
                        refs: seq<AckRef>, from: nat, log: seq<AckRef>)
    requires EntriesOk(c, log) && 0 < |refs| && from + |refs| <= |log| && refs == log[from..from + |refs|]
    requires IndexWithin(opIndex, from, log) && ChangesCover(opIndex, changes, Keys(refs))
    ensures (forall i :: 0 <= i < |changes| ==> ValidChange(changes[i], refs)) <==> AboveIndex(opIndex, refs)
  {
    hide EntriesOk, IndexWithin, ValidChange, NotStale, KeyOf;
    forall i | 0 <= i < |changes|
      ensures changes[i].key in Keys(refs)
      ensures ValidChange(changes[i], refs)
              <==> forall j :: 0 <= j < |refs| && KeyOf(refs[j].id) == changes[i].key ==> NotStale(opIndex, refs[j].id)
    {
      assert changes[i] in changes && changes[i].key in ChangeKeys(changes);
      ChangeValidIff(c, opIndex, changes[i], refs, from, log);
    }
    if forall i :: 0 <= i < |changes| ==> ValidChange(changes[i], refs) {
      forall j | 0 <= j < |refs| ensures NotStale(opIndex, refs[j].id) {
        assert KeyOf(refs[j].id) in ChangeKeys(changes);
        var i :| 0 <= i < |changes| && changes[i].key == KeyOf(refs[j].id);
        assert ValidChange(changes[i], refs);
      }
    }
  }

  /** What an acknowledgement checks of the frozen batch before its transaction is
      written is exactly that the batch is above the published index. */
  lemma WrittenIff(c: Codec, b: Disk, log: seq<AckRef>, confirmation: Confirmation)
    requires Complete(c, b, log) && b.descriptor.Some?
    requires confirmation.batch == b.descriptor.value && ValidConfirmation(confirmation)
    ensures ValidTransaction(TransactionOf(b, confirmation)) <==> AboveIndex(b.opIndex, b.descriptor.value)
    ensures ChangesCover(b.opIndex, ChangesFor(b.opIndex, b.descriptor.value), Keys(b.descriptor.value))
    ensures Consecutive(b.descriptor.value) && b.descriptor.value[0].sequence == CheckpointSequence(b) + 1
  {
    hide *;
    var from, refs := CheckpointSequence(b), b.descriptor.value;
    CompleteParts(c, b, log);
    CompleteBatch(c, b, log);
    BatchIsRun(c, refs, from, log);
    ChangesForKeys(b.opIndex, refs);
    ChangesValidIff(c, b.opIndex, ChangesFor(b.opIndex, refs), refs, from, log);
    TransactionValidIff(b, confirmation);
  }

  lemma TransactionValidIff(b: Disk, confirmation: Confirmation)
    requires b.descriptor.Some? && 0 < |b.descriptor.value| <= MAX_BATCH_RECORDS && Consecutive(b.descriptor.value)
    requires confirmation.batch == b.descriptor.value && ValidConfirmation(confirmation)
    requires ChangesCover(b.opIndex, ChangesFor(b.opIndex, b.descriptor.value), Keys(b.descriptor.value))
    ensures var changes := ChangesFor(b.opIndex, b.descriptor.value);
            ValidTransaction(TransactionOf(b, confirmation))
            <==> forall i :: 0 <= i < |changes| ==> ValidChange(changes[i], b.descriptor.value)
  {
    hide Consecutive, ValidConfirmation, ValidChange, Keys, ChangesFor;
  }

  lemma RecordsAgree(c: Codec, b: Disk, log: seq<AckRef>)
    requires WfCodec(c) && Complete(c, b, log) && b.descriptor.Some?
    ensures forall i :: 0 <= i < |b.descriptor.value| ==> RecordFilesAgree(b, b.descriptor.value[i])
  {
    hide *;
    var from, refs := CheckpointSequence(b), b.descriptor.value;
    CompleteParts(c, b, log);
    CompleteBatch(c, b, log);
    forall i | 0 <= i < |refs| ensures RecordFilesAgree(b, refs[i]) {
      BatchEntry(refs, from, log, i);
      FullRecordAgrees(c, b, log, from + 1 + i);
    }
  }

  lemma NextBatch(c: Codec, b: Disk, t: Transaction)
    requires CheckpointMatches(c, b.checkpoint, b.opIndex) && |b.opIndex| <= MAX_KEYS
    requires ValidTransaction(t) && t.records[0].sequence == CheckpointSequence(b) + 1
    ensures ReadableCheckpoint(b) && !IsReplay(b, t)
  {
    LastSequence(t);
    hide ValidTransaction;
  }

  /** Applying it takes one thing more, which nothing checks before the transaction
      is durable: the generations of each operation increase within the batch. */
  lemma AppliedIff(c: Codec, b: Disk, log: seq<AckRef>, confirmation: Confirmation)
    requires WfCodec(c) && Complete(c, b, log) && |b.opIndex| <= MAX_KEYS && b.descriptor.Some?
    requires confirmation.batch == b.descriptor.value && ValidConfirmation(confirmation)
    ensures ApplyAccepts(b, TransactionOf(b, confirmation))
            <==> AboveIndex(b.opIndex, b.descriptor.value) && GenerationsIncrease(b.descriptor.value)
  {
    hide WfCodec, Complete, Consecutive, GenerationsIncrease, ValidTransaction, RecordFilesAgree, ChangesFor, FinalIndices,
         ReadableCheckpoint, IsReplay, IndexFileAgrees, AboveIndex, CheckpointMatches, EntriesOk, Keys, ValidConfirmation,
         CheckpointSequence;
    var t := TransactionOf(b, confirmation);
    WrittenIff(c, b, log, confirmation);
    RecordsAgree(c, b, log);
    CompleteParts(c, b, log);
    if ValidTransaction(t) {
      NextBatch(c, b, t);
      ChangesAreFinal(b, t);
    }
  }

  /** So a transaction is written that no application accepts exactly when the batch
      is above the index but not in order within itself. From then on every
      operation begins with a rebuild that is refused. */
  lemma StuckIff(c: Codec, maximum: int, b: Disk, log: seq<AckRef>, confirmation: Confirmation)
    requires WfCodec(c) && Complete(c, b, log) && |b.opIndex| <= MAX_KEYS && b.descriptor.Some?
    requires confirmation.batch == b.descriptor.value && ValidConfirmation(confirmation)
    requires ValidTransaction(TransactionOf(b, confirmation))
    ensures var written := b.(txn := Some(TransactionOf(b, confirmation)));
            && (ReplayAccepts(written) <==> GenerationsIncrease(b.descriptor.value))
            && (!GenerationsIncrease(b.descriptor.value)
                ==> !Clean(written, maximum) && !PassesChecks(c, written) && !Recoverable(c, maximum, written))
  {
    hide WfCodec, Complete, GenerationsIncrease, ValidTransaction, ApplyAccepts, AboveIndex, ValidConfirmation, ChangesFor,
         RebuildAccepts, Fits;
    AppliedIff(c, b, log, confirmation);
    WrittenIff(c, b, log, confirmation);
    TransactionFileAside(b, TransactionOf(b, confirmation));
  }

  /** A refused rebuild leaves at most its marker, so the next one is refused as well. */
  lemma StuckStays(c: Codec, maximum: int, d0: Disk, d: Disk)
    requires !ReplayAccepts(d0) && RecoveryStep(c, maximum, d0, d)
    ensures d == d0.(marker := d.marker) && !ReplayAccepts(d) && !Recoverable(c, maximum, d)
  {
    hide Progress, Completing, Recover, RebuildAccepts, Fits;
    if d0.txn.Some? { MarkerFileAside(d0, d.marker, d0.txn.value); }
  }

  lemma MarkerFileAside(d: Disk, marker: Option<Marker>, t: Transaction)
    ensures ApplyAccepts(d.(marker := marker), t) <==> ApplyAccepts(d, t)
  {
    hide ValidTransaction, ValidRecord, GenerationsIncrease, FinalIndices, SameArtifact, StoredOf;
  }

  lemma TransactionFileAside(b: Disk, t: Transaction)
    ensures ApplyAccepts(b.(txn := Some(t)), t) <==> ApplyAccepts(b, t)
  {
    hide ValidTransaction, ValidRecord, GenerationsIncrease, FinalIndices, SameArtifact, StoredOf;
  }

  // ---------------------------------------------------------------------
  // A store that gets there
  // ---------------------------------------------------------------------

  function Repeat(ch: char, n: nat): string { seq(n, i => ch) }

  function ExampleConfirmation(refs: seq<AckRef>): Confirmation {
    Confirmation(refs, "o/d", Repeat('a', 40), Repeat('b', 64), Repeat('c', 64), 0)
  }

  lemma ExampleConfirmationIsValid(refs: seq<AckRef>)
    ensures ValidConfirmation(ExampleConfirmation(refs))
  {
    var name := "o/d";
    assert name[1] == '/' && name[..1] == "o" && name[2..] == "d";
    assert RepoPart("o") && RepoPart("d");
  }

  function ExampleStored(generation: nat, sequence: nat): StoredRecord { StoredOf(ExampleRef(generation, sequence)) }

  /** Room for two records. */
  const ROOM: int := 2 * RESERVED_BYTES + HEADROOM

  function OneReserved(): Disk { WithReservation(EmptyDisk(), ExampleIdentity(2), Reservation("second", 0)) }

  function BothReserved(): Disk { WithReservation(OneReserved(), ExampleIdentity(1), Reservation("first", 0)) }

  function LaterStored(): Disk { Appended(ExampleCodec(), BothReserved(), ExampleStored(2, 1)) }

  function BothStored(): Disk { Appended(ExampleCodec(), LaterStored(), ExampleStored(1, 2)) }

  function Disordered(): seq<AckRef> { [ExampleRef(2, 1), ExampleRef(1, 2)] }

  function DisorderedFrozen(): Disk { BothStored().(descriptor := Some(Disordered())) }

  lemma EmptyUsed(c: Codec, d: Disk)
    requires d == EmptyDisk().(reservations := d.reservations)
    ensures UsedBytes(c, d) == 0
  {}

  lemma BothAreReserved()
    ensures var c := ExampleCodec();
            && AfterReserve(c, ROOM, EmptyDisk(), ExampleIdentity(2), Reservation("second", 0)) == OneReserved()
            && AfterReserve(c, ROOM, OneReserved(), ExampleIdentity(1), Reservation("first", 0)) == BothReserved()
            && Full(c, BothReserved(), [])
  {
    var c := ExampleCodec();
    EmptyUsed(c, EmptyDisk());
    EmptyUsed(c, OneReserved());
    assert ExampleIdentity(1) != ExampleIdentity(2);
    hide UsedBytes, Full, ExampleCodec, Bounded;
    EmptyKeeps(c, ROOM) by { ExampleCodecIsWf(); }
    InvParts(c, ROOM, EmptyDisk(), EmptyDisk(), []) by { hide Inv; }
    hide Inv;
    ReserveKeeps(c, ROOM, EmptyDisk(), [], ExampleIdentity(2), Reservation("second", 0), 0);
    ReserveKeeps(c, ROOM, OneReserved(), [], ExampleIdentity(1), Reservation("first", 0), 0);
  }

  lemma ExampleCodecIsWf()
    ensures WfCodec(ExampleCodec())
  {}

  lemma ExampleFits(generation: nat, sequence: nat)
    requires generation > 0 && sequence > 0
    ensures var c, s := ExampleCodec(), ExampleStored(generation, sequence);
            && ValidRecord(s.record) && StoredCharge(c, s) <= RESERVED_BYTES
            && ValidPendingIndex(PendingIndexOf(c, s), sequence)
            && RefOf(s) == ExampleRef(generation, sequence)
  {}

  lemma LaterFits()
    ensures AppendFits(ExampleCodec(), BothReserved(), [], ExampleStored(2, 1))
    ensures AppendDecision(ExampleCodec(), BothReserved(), Grant(ExampleIdentity(2), "second"), ExampleRecord(2), 0, 1)
            == Store(ExampleStored(2, 1))
  {
    ExampleFits(2, 1);
    assert ExampleIdentity(1) != ExampleIdentity(2);
    hide ExampleCodec, ValidRecord, StoredCharge, PendingIndexOf, ValidPendingIndex;
  }

  lemma EarlierFits()
    ensures AppendFits(ExampleCodec(), LaterStored(), [ExampleRef(2, 1)], ExampleStored(1, 2))
    ensures AppendDecision(ExampleCodec(), LaterStored(), Grant(ExampleIdentity(1), "first"), ExampleRecord(1), 0, 2)
            == Store(ExampleStored(1, 2))
  {
    ExampleFits(1, 2);
    assert ExampleIdentity(1) != ExampleIdentity(2);
    hide ExampleCodec, ValidRecord, StoredCharge, PendingIndexOf, ValidPendingIndex;
  }

  /** Both appends are taken, the later generation first. */
  lemma BothAreStored()
    ensures var c := ExampleCodec();
            && AppendDecision(c, BothReserved(), Grant(ExampleIdentity(2), "second"), ExampleRecord(2), 0, 1)
               == Store(ExampleStored(2, 1))
            && AppendDecision(c, LaterStored(), Grant(ExampleIdentity(1), "first"), ExampleRecord(1), 0, 2)
               == Store(ExampleStored(1, 2))
            && Complete(c, BothStored(), Disordered())
  {
    var c := ExampleCodec();
    assert [] + [ExampleRef(2, 1)] == [ExampleRef(2, 1)];
    assert [ExampleRef(2, 1)] + [ExampleRef(1, 2)] == Disordered();
    ExampleFits(2, 1);
    ExampleFits(1, 2);
    hide Complete, Full, AppendFits, ExampleCodec, AppendDecision, BothReserved, Appended, RefOf, ExampleStored, ExampleRef,
         Disordered;
    BothAreReserved();
    LaterFits();
    EarlierFits();
    FullIsOrdered(c, BothReserved(), []);
    AnyAppendKeeps(c, BothReserved(), [], ExampleStored(2, 1));
    AnyAppendKeeps(c, LaterStored(), [ExampleRef(2, 1)], ExampleStored(1, 2));
  }

  lemma DisorderedBytes()
    ensures BatchBytes(ExampleCodec(), Disordered()) == 4
    ensures Disordered() == Disordered()[0..2]
  {
    assert Disordered()[..1] == [ExampleRef(2, 1)] && [ExampleRef(2, 1)][..0] == [];
  }

  lemma DisorderFreezes()
    ensures var c, refs := ExampleCodec(), Disordered();
            && CheckpointSequence(BothStored()) == 0
            && FreezesTo(c, BothStored(), refs, DisorderedFrozen()) && BatchMatches(c, refs, 0, refs)
  {
    DisorderedBytes();
    hide Appended, BatchBytes;
    assert CheckpointSequence(BothStored()) == 0 && BothStored().descriptor.None? by { UnpublishedStays(); }
  }

  lemma UnpublishedStays()
    ensures var d := BothStored(); d.checkpoint.None? && d.descriptor.None? && d.opIndex == map[]
  {
    hide PendingIndexOf, ExampleStored;
  }

  lemma DisorderIsBatch()
    ensures ValidAcknowledgement(ExampleCodec(), Disordered(), ExampleConfirmation(Disordered()))
    ensures |Disordered()| == 2
  {
    DisorderedBytes();
    ExampleConfirmationIsValid(Disordered());
    hide BatchBytes, ValidConfirmation;
  }

  /** They are frozen together, and the acknowledgement of their publication passes
      every check there is before its transaction is written. */
  lemma DisorderIsWritten()
    ensures var c, confirmation := ExampleCodec(), ExampleConfirmation(Disordered());
            && FreezesTo(c, BothStored(), Disordered(), DisorderedFrozen())
            && Complete(c, DisorderedFrozen(), Disordered())
            && ValidAcknowledgement(c, Disordered(), confirmation)
            && ValidTransaction(TransactionOf(DisorderedFrozen(), confirmation))
            && FileCharge(c.transaction(TransactionOf(DisorderedFrozen(), confirmation))) <= MAX_TRANSACTION_FILE
  {
    var c, refs, confirmation := ExampleCodec(), Disordered(), ExampleConfirmation(Disordered());
    assert FileCharge(c.transaction(TransactionOf(DisorderedFrozen(), confirmation))) <= MAX_TRANSACTION_FILE by {
      hide BothStored, Disordered, TransactionOf;
    }
    hide Complete, ValidTransaction, ChangesFor, ValidConfirmation, ExampleCodec, BothStored, Disordered, ValidBatch,
         CheckpointSequence, FreezesTo, BatchMatches, TransactionOf;
    BothAreStored();
    DisorderFreezes();
    DisorderIsBatch();
    UnpublishedStays();
    FrozenIsComplete(c, BothStored(), refs, refs);
    WrittenIff(c, DisorderedFrozen(), refs, confirmation);
  }

  lemma FrozenIsComplete(c: Codec, b: Disk, log: seq<AckRef>, refs: seq<AckRef>)
    requires Complete(c, b, log) && BatchMatches(c, refs, CheckpointSequence(b), log)
    ensures Complete(c, b.(descriptor := Some(refs)), log)
  {
    hide *;
    CompleteParts(c, b, log);
    var e := b.(descriptor := Some(refs));
    FrozenFields(c, b, log, refs);
    CompleteIntro(c, e, log, CheckpointSequence(b));
  }

  lemma FrozenFields(c: Codec, b: Disk, log: seq<AckRef>, refs: seq<AckRef>)
    requires BatchMatches(c, refs, CheckpointSequence(b), log)
    ensures CheckpointSequence(b.(descriptor := Some(refs))) == CheckpointSequence(b)
    ensures DescriptorMatches(c, Some(refs), CheckpointSequence(b), log)
  {
    hide BatchMatches;
  }

  /** After which no rebuild of this store is ever accepted again. */
  lemma DisorderIsStuck()
    ensures var c, confirmation := ExampleCodec(), ExampleConfirmation(Disordered());
            var written := DisorderedFrozen().(txn := Some(TransactionOf(DisorderedFrozen(), confirmation)));
            !ReplayAccepts(written) && !Clean(written, ROOM) && !Recoverable(c, ROOM, written)
  {
    var c, refs, confirmation := ExampleCodec(), Disordered(), ExampleConfirmation(Disordered());
    ExampleCodecIsWf();
    ExampleConfirmationIsValid(refs);
    assert !GenerationsIncrease(refs) by {
      assert KeyOf(refs[0].id) == KeyOf(refs[1].id) && refs[0].id.generation >= refs[1].id.generation;
    }
    assert DisorderedFrozen().opIndex == map[];
    hide ExampleCodec, WfCodec, Complete, GenerationsIncrease, ValidTransaction, ReplayAccepts, Clean, Recoverable,
         PassesChecks, ValidConfirmation, ChangesFor;
    DisorderIsWritten();
    StuckIff(c, ROOM, DisorderedFrozen(), refs, confirmation);
  }
}