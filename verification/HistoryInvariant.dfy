/** The invariant of every reachable store directory. Two ghosts describe it: the
    log, the references of all accepted records in the order in which their files
    were renamed into place, and the base, the directory as it stood, complete,
    when the operation now in flight began. */
module HistoryInvariant {
  import opened Foundations
  import opened HistoryModel
  import opened HistoryReplay

  // ---------------------------------------------------------------------
  // How a complete directory relates to the log
  // ---------------------------------------------------------------------

  /** The log entry with the given sequence number; numbers start at one. */
  function At(log: seq<AckRef>, s: int): AckRef
    requires 0 < s <= |log|
  {
    log[s - 1]
  }

  ghost predicate EntriesOk(c: Codec, log: seq<AckRef>) {
    forall s :: 0 < s <= |log| ==> EntryOk(c, At(log, s), s)
  }

  ghost predicate LogOk(c: Codec, log: seq<AckRef>) { EntriesOk(c, log) && GenerationsIncrease(log) }

  ghost predicate EntryOk(c: Codec, r: AckRef, s: nat) {
    && r.sequence == s
    && ValidRecord(r.sha.of)
    && r.sha.of.identity == r.id
    && StoredCharge(c, StoredOf(r)) <= RESERVED_BYTES
  }

  /** A file in the records directory holds the log entry its sequence number points at. */
  predicate RecordFits(id: Identity, r: StoredRecord, from: nat, log: seq<AckRef>) {
    from < r.sequence <= |log| && At(log, r.sequence).id == id && r == StoredOf(At(log, r.sequence))
  }

  predicate RecordsWithin(records: map<Identity, StoredRecord>, from: nat, log: seq<AckRef>) {
    forall id :: id in records ==> RecordFits(id, records[id], from, log)
  }

  predicate RecordsCover(records: map<Identity, StoredRecord>, from: nat, log: seq<AckRef>) {
    forall s :: from < s <= |log| ==>
      At(log, s).sequence == s && At(log, s).id in records && records[At(log, s).id] == StoredOf(At(log, s))
  }

  predicate PendingWithin(c: Codec, pending: map<nat, PendingIndex>, from: nat, log: seq<AckRef>) {
    forall s :: s in pending ==> from < s <= |log| && pending[s] == PendingIndexOf(c, StoredOf(At(log, s)))
  }

  predicate PendingCover(pending: map<nat, PendingIndex>, from: nat, log: seq<AckRef>) {
    forall s: nat :: from < s <= |log| ==> s in pending
  }

  /** The index holds, for exactly the operations published so far, the latest
      published record. */
  predicate IndexWithin(opIndex: map<OperationKey, OperationIndex>, upto: nat, log: seq<AckRef>) {
    forall k :: k in opIndex ==>
      && 0 < opIndex[k].sequence <= upto <= |log|
      && opIndex[k] == IndexOf(At(log, opIndex[k].sequence), opIndex[k].confirmation)
      && KeyOf(At(log, opIndex[k].sequence).id) == k
  }

  predicate IndexCover(opIndex: map<OperationKey, OperationIndex>, upto: nat, log: seq<AckRef>) {
    upto <= |log|
    && forall s :: 0 < s <= upto ==>
         KeyOf(At(log, s).id) in opIndex && opIndex[KeyOf(At(log, s).id)].sequence >= s
  }

  /** A frozen batch is the oldest run of unpublished records, within the batch limits. */
  ghost predicate DescriptorMatches(c: Codec, descriptor: Option<seq<AckRef>>, from: nat, log: seq<AckRef>) {
    descriptor.Some? ==> BatchMatches(c, descriptor.value, from, log)
  }

  ghost predicate BatchMatches(c: Codec, refs: seq<AckRef>, from: nat, log: seq<AckRef>) {
    && 0 < |refs| <= MAX_BATCH_RECORDS
    && from + |refs| <= |log|
    && refs == log[from..from + |refs|]
    && BatchBytes(c, refs) <= MAX_BATCH_BYTES
    && FileCharge(c.descriptor(refs)) <= MAX_DESCRIPTOR_FILE
  }

  predicate ReservationsOk(reservations: map<Identity, Reservation>) {
    forall id :: id in reservations ==> ValidIdentity(id)
  }

  /** A complete directory, transaction, marker and usage files aside: published
      numbers are one to the checkpoint, the pending ones are the rest of the log. */
  ghost predicate Full(c: Codec, b: Disk, log: seq<AckRef>) {
    var from := CheckpointSequence(b);
    && b.txn == None && b.marker == None && b.usage == None
    && from <= |log|
    && LogOk(c, log)
    && RecordsWithin(b.records, from, log)
    && RecordsCover(b.records, from, log)
    && PendingWithin(c, b.pending, from, log)
    && PendingCover(b.pending, from, log)
    && IndexWithin(b.opIndex, from, log)
    && IndexCover(b.opIndex, from, log)
    && CheckpointMatches(c, b.checkpoint, b.opIndex)
    && DescriptorMatches(c, b.descriptor, from, log)
    && ReservationsOk(b.reservations)
    && b.reservations.Keys !! b.records.Keys
  }

  /** A complete directory, its log in any order. */
  ghost predicate Complete(c: Codec, b: Disk, log: seq<AckRef>) {
    var from := CheckpointSequence(b);
    && b.txn == None && b.marker == None && b.usage == None
    && from <= |log|
    && EntriesOk(c, log)
    && RecordsWithin(b.records, from, log)
    && RecordsCover(b.records, from, log)
    && PendingWithin(c, b.pending, from, log)
    && PendingCover(b.pending, from, log)
    && IndexWithin(b.opIndex, from, log)
    && IndexCover(b.opIndex, from, log)
    && CheckpointMatches(c, b.checkpoint, b.opIndex)
    && DescriptorMatches(c, b.descriptor, from, log)
    && ReservationsOk(b.reservations)
    && b.reservations.Keys !! b.records.Keys
  }

  function KeysOf<V>(m: map<Identity, V>): set<OperationKey> { set id | id in m :: KeyOf(id) }

  /** Every operation that has an index, a record or a reservation. */
  function OperationKeys(d: Disk): set<OperationKey> {
    d.opIndex.Keys + KeysOf(d.records) + KeysOf(d.reservations)
  }

  /** The byte bound: the descriptor is the only file that may reach into the headroom. */
  ghost predicate Bounded(c: Codec, maximum: int, d: Disk) {
    && UsedBytes(c, d) - DescriptorCharge(c, d.descriptor) + |d.reservations| * RESERVED_BYTES + HEADROOM <= maximum
    && |d.records| + |d.reservations| <= MAX_PENDING
    && |d.reservations| <= MAX_RESERVATIONS
    && |OperationKeys(d)| <= MAX_KEYS
  }

  // ---------------------------------------------------------------------
  // What is on disk between two writes
  // ---------------------------------------------------------------------

  /** No publication in flight: a record may still lack its sequence index, or
      lie beside its reservation. */
  predicate Incomplete(d: Disk, b: Disk) {
    && d.records == b.records
    && d.opIndex == b.opIndex
    && d.checkpoint == b.checkpoint
    && d.descriptor == b.descriptor
    && SubMap(d.pending, b.pending)
    && d.reservations - d.records.Keys == b.reservations
    && ReservationsOk(d.reservations)
  }

  function Lookup<K, V>(m: map<K, V>, k: K): Option<V> { if k in m then Some(m[k]) else None }

  /** The transaction the store writes for the frozen batch of a complete directory. */
  predicate TransactionFor(b: Disk, t: Transaction) {
    && ApplyAccepts(b, t)
    && !IsReplay(b, t)
    && forall i :: 0 <= i < |t.changes| ==> t.changes[i].previous == Lookup(b.opIndex, t.changes[i].key)
  }

  ghost predicate Reaches(c: Codec, d: Disk, b: Disk) {
    if d.txn.None? then Incomplete(d, b)
    else TransactionFor(b, d.txn.value) && Progress(c, b, d.txn.value, d)
  }

  /** Nothing forces the next operation to rebuild. */
  predicate Clean(d: Disk, maximum: int) {
    d.txn.None? && d.marker.None? && ReadUsage(d, maximum).Some?
  }

  /** The directory is the base, and its usage file says what a scan of it would. */
  ghost predicate Settled(c: Codec, maximum: int, d: Disk, b: Disk) {
    && d.(usage := None) == b
    && d.usage.Some? && d.usage.value == Scan(c, maximum, b, d.usage.value.blocked)
  }

  ghost predicate Inv(c: Codec, maximum: int, d: Disk, b: Disk, log: seq<AckRef>) {
    && Full(c, b, log)
    && Bounded(c, maximum, b)
    && Reaches(c, d, b)
    && (Clean(d, maximum) ==> Settled(c, maximum, d, b))
  }

  /** The complete directory a recovery of `d` leads to. */
  function Target(c: Codec, d: Disk, b: Disk): Disk
    requires d.txn.Some? ==> ApplyAccepts(b, d.txn.value)
  {
    if d.txn.Some? then ApplyTransaction(c, b, d.txn.value) else b
  }

  // ---------------------------------------------------------------------
  // Consequences for a complete directory
  // ---------------------------------------------------------------------

  /** Exactly once: an identity is accepted under at most one sequence number. */
  lemma LogIdentityUnique(log: seq<AckRef>, s: nat, t: nat)
    requires GenerationsIncrease(log) && 0 < s <= |log| && 0 < t <= |log|
    requires At(log, s).id == At(log, t).id
    ensures s == t
  {}

  /** The records directory holds exactly one file per unpublished log entry. */
  lemma {:induction false} RecordsCount(records: map<Identity, StoredRecord>, from: nat, log: seq<AckRef>)
    requires GenerationsIncrease(log) && from <= |log|
    requires RecordsWithin(records, from, log) && RecordsCover(records, from, log)
    ensures |records| == |log| - from
    decreases |log|
  {
    if |log| == from {
      assert forall id :: id in records ==> RecordFits(id, records[id], from, log);
      assert records == map[];
    } else {
      var last := At(log, |log|).id;
      var shorter := log[..|log| - 1];
      forall s | 0 < s <= |shorter| ensures At(shorter, s) == At(log, s) {}
      forall s | from < s < |log| ensures At(log, s).id != last {
        if At(log, s).id == last { LogIdentityUnique(log, s, |log|); }
      }
      RecordsCount(records - {last}, from, shorter);
      assert (records - {last}).Keys == records.Keys - {last};
    }
  }

  /** Sequence indices and record files carry the same numbers. */
  lemma PendingKeys(c: Codec, b: Disk, log: seq<AckRef>)
    requires Full(c, b, log)
    ensures RecordSequences(b.records) == b.pending.Keys
  {
    var from := CheckpointSequence(b);
    forall s | s in b.pending ensures s in RecordSequences(b.records) {
      assert b.records[At(log, s).id].sequence == s;
    }
    forall s | s in RecordSequences(b.records) ensures s in b.pending {
      var id :| id in b.records && b.records[id].sequence == s;
      assert RecordFits(id, b.records[id], from, log);
    }
  }

  /** A sequence number leads back to the one record that carries it. */
  lemma RecordAtLog(records: map<Identity, StoredRecord>, from: nat, log: seq<AckRef>, s: nat)
    requires RecordsWithin(records, from, log)
    requires s in RecordSequences(records)
    ensures from < s <= |log| && RecordAt(records, s) == StoredOf(At(log, s))
  {
    var r := RecordAt(records, s);
    var id :| id in records && records[id] == r;
    assert RecordFits(id, records[id], from, log);
  }

  /** A complete directory has exactly the sequence indices a rebuild would write. */
  lemma PendingForFull(c: Codec, b: Disk, log: seq<AckRef>)
    requires Full(c, b, log)
    ensures PendingFor(c, b.records) == b.pending
  {
    PendingKeys(c, b, log);
    forall s | s in b.pending ensures PendingFor(c, b.records)[s] == b.pending[s] {
      RecordAtLog(b.records, CheckpointSequence(b), log, s);
    }
  }
}
