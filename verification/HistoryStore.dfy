/** The store itself: the operations of the history store as updates of the
    directory, one atomic rename or removal at a time. Every write may fail, and a
    failed write may or may not have reached the disk; an operation then returns at
    once, exactly as it would look after a crash at that point. What an operation
    promises about its failures is therefore what a crash leaves behind. */
module HistoryStore {
  import opened Foundations
  import opened HistoryModel
  import opened HistoryReplay
  import opened HistoryInvariant
  import opened HistoryPublication
  import opened HistoryAccounting
  import opened HistoryRecovery
  import opened HistorySteps
  import opened HistoryBatch

  // ---------------------------------------------------------------------
  // Loops over one file or one directory
  // ---------------------------------------------------------------------

  /** The running key count and index-set digest. */
  method RunChanges(c: Codec, count0: nat, set0: Digest, changes: seq<IndexChange>,
                    final: map<OperationKey, OperationIndex>) returns (count: nat, indexSet: Digest)
    requires forall i :: 0 <= i < |changes| ==> changes[i].key in final
    ensures (count, indexSet) == Advance(c, count0, set0, changes, final)
  {
    count, indexSet := count0, set0;
    var i := 0;
    while i < |changes|
      invariant 0 <= i <= |changes|
      invariant (count, indexSet) == Advance(c, count0, set0, changes[..i], final)
    {
      var change := changes[i];
      if change.previous.Some? {
        indexSet := Xor(indexSet, c.fingerprint(change.previous.value));
      } else {
        count := count + 1;
      }
      indexSet := Xor(indexSet, c.fingerprint(final[change.key]));
      assert changes[..i + 1][..i] == changes[..i];
      i := i + 1;
    }
    assert changes[..i] == changes;
  }

  /** The checkpoint after a publication, from the checkpoint before it. */
  method ComputeCheckpoint(c: Codec, d: Disk, t: Transaction, ghost d0: Disk) returns (k: Checkpoint)
    requires ApplyAccepts(d0, t) && d.checkpoint == d0.checkpoint
    ensures k == NextCheckpoint(c, d0, t)
  {
    assert |t.records| > 0;
    TransactionIsValid(d0, t);
    hide ApplyAccepts, ValidTransaction, FinalIndices;
    var count, indexSet := 0, ZeroDigest();
    if d.checkpoint.Some? { count, indexSet := d.checkpoint.value.keyCount, d.checkpoint.value.indexSet; }
    count, indexSet := RunChanges(c, count, indexSet, t.changes, FinalIndices(t.records, t.confirmation));
    k := Checkpoint(t.records[|t.records| - 1].sequence, count, indexSet, t.confirmation);
  }

  /** Reads every operation index file once, in any order. */
  method ScanIndex(c: Codec, d: Disk) returns (ok: bool, used: int, indexSet: Digest)
    ensures ok <==> IndexDirectoryAccepts(d)
    ensures ok ==> used == Sum(d.opIndex, IndexCharge(c)) && indexSet == XorFold(d.opIndex, c.fingerprint)
  {
    used, indexSet := 0, ZeroDigest();
    if |d.opIndex| > MAX_KEYS { return false, used, indexSet; }
    var todo := d.opIndex;
    XorCancels(ZeroDigest(), XorFold(todo, c.fingerprint));
    while todo != map[]
      invariant todo.Keys <= d.opIndex.Keys && forall k :: k in todo ==> todo[k] == d.opIndex[k]
      invariant forall k :: k in d.opIndex && k !in todo ==> IndexFileAccepts(k, d.opIndex[k], CheckpointSequence(d))
      invariant used + Sum(todo, IndexCharge(c)) == Sum(d.opIndex, IndexCharge(c))
      invariant Xor(indexSet, XorFold(todo, c.fingerprint)) == XorFold(d.opIndex, c.fingerprint)
      decreases |todo|
    {
      var k :| k in todo;
      hide IndexFileAccepts, Xor;
      if !IndexFileAccepts(k, todo[k], CheckpointSequence(d)) { return false, used, indexSet; }
      SumRemove(todo, IndexCharge(c), k);
      XorFoldRemove(todo, c.fingerprint, k);
      XorTakesNext(indexSet, XorFold(todo - {k}, c.fingerprint), c.fingerprint(todo[k]));
      used := used + FileCharge(c.operation(todo[k]));
      indexSet := Xor(indexSet, c.fingerprint(todo[k]));
      assert (todo - {k}).Keys == todo.Keys - {k};
      todo := todo - {k};
    }
    XorZero(indexSet);
    return true, used, indexSet;
  }

  lemma XorTakesNext(seen: Digest, rest: Digest, next: Digest)
    ensures Xor(seen, Xor(rest, next)) == Xor(Xor(seen, next), rest)
  {
    XorCommutes(rest, next);
    XorAssociates(seen, next, rest);
  }

  lemma XorZero(a: Digest)
    ensures Xor(a, ZeroDigest()) == a
  {
    XorCancels(ZeroDigest(), a);
    XorCommutes(a, ZeroDigest());
  }

  class OperationHistoryStore {
    const codec: Codec
    const maximum: int
    var disk: Disk
    ghost var base: Disk
    ghost var log: seq<AckRef>
    ghost var faults: nat

    ghost predicate Valid()
      reads this
    {
      WfCodec(codec) && Inv(codec, maximum, disk, base, log)
    }

    /** A store directory that has never been used. */
    constructor (codec: Codec, maximum: int)
      requires WfCodec(codec) && maximum >= RESERVED_BYTES + HEADROOM
      ensures Valid() && Directory() == EmptyDisk() && log == [] && faults == 0
      ensures this.codec == codec && this.maximum == maximum
    {
      this.codec, this.maximum := codec, maximum;
      disk, base, log, faults := EmptyDisk(), EmptyDisk(), [], 0;
      new;
      EmptyKeeps(codec, maximum);
      TargetIsBase(codec, disk, base);
    }

    /** One atomic rename or removal. */
    method Write(next: Disk) returns (ok: bool)
      modifies `disk, `faults
      ensures ok ==> disk == next && faults == old(faults)
      ensures !ok ==> (disk == next || disk == old(disk)) && faults > old(faults)
    {
      if * {
        disk := next;
        return true;
      }
      faults := faults + 1;
      if * { disk := next; }
      return false;
    }

    // -------------------------------------------------------------------
    // Applying a publication
    // -------------------------------------------------------------------

    /** Reads everything the transaction is about, before anything is changed. */
    method CheckPublication(t: Transaction) returns (ok: bool)
      ensures ok <==> ApplyAccepts(disk, t)
    {
      if !ValidTransaction(t) || !ReadableCheckpoint(disk) { return false; }
      var replay := IsReplay(disk, t);
      if replay && !SameArtifact(disk.checkpoint.value.confirmation, t.confirmation) { return false; }
      if !replay && CheckpointSequence(disk) + 1 != t.records[0].sequence { return false; }
      if disk.descriptor.Some? && disk.descriptor.value != t.records { return false; }
      if !replay && disk.descriptor.None? { return false; }
      ok := CheckRecords(t);
      if !ok { return false; }
      var i := 0;
      var final := FinalIndices(t.records, t.confirmation);
      FinalIndicesCover(t);
      while i < |t.changes|
        invariant 0 <= i <= |t.changes|
        invariant forall j :: 0 <= j < i ==> IndexFileAgrees(disk, t.changes[j], final[t.changes[j].key])
      {
        if !IndexFileAgrees(disk, t.changes[i], final[t.changes[i].key]) { return false; }
        i := i + 1;
      }
    }

    method CheckRecords(t: Transaction) returns (ok: bool)
      requires ValidTransaction(t)
      ensures ok <==> GenerationsIncrease(t.records) && forall i :: 0 <= i < |t.records| ==> RecordFilesAgree(disk, t.records[i])
    {
      hide ValidTransaction, RecordFilesAgree;
      var latest: map<OperationKey, OperationIndex> := map[];
      var i := 0;
      while i < |t.records|
        invariant 0 <= i <= |t.records|
        invariant latest == FinalIndices(t.records[..i], t.confirmation)
        invariant GenerationsIncrease(t.records[..i])
        invariant forall j :: 0 <= j < i ==> RecordFilesAgree(disk, t.records[j])
      {
        var r := t.records[i];
        if !RecordFilesAgree(disk, r) { return false; }
        LatestDecides(t.records, t.confirmation, i);
        if KeyOf(r.id) in latest && latest[KeyOf(r.id)].identity.generation >= r.id.generation { return false; }
        latest := latest[KeyOf(r.id) := IndexOf(r, t.confirmation)];
        assert t.records[..i + 1][..i] == t.records[..i];
        i := i + 1;
      }
      assert t.records[..i] == t.records;
      return true;
    }

    method RemoveRecords(t: Transaction) returns (ok: bool)
      requires ApplyAccepts(disk, t)
      modifies `disk, `faults
      ensures ok ==> disk == RemovedTo(old(disk), t.records, |t.records|) && faults == old(faults)
      ensures !ok ==> faults > old(faults) && Progress(codec, old(disk), t, disk) && SameOutcome(old(disk), disk)
    {
      hide *;
      ghost var d0 := disk;
      var i := 0;
      RemovedAll(disk, t.records);
      while i < |t.records|
        invariant 0 <= i <= |t.records|
        invariant disk == RemovedTo(d0, t.records, i) && faults == old(faults)
      {
        RemovingIsProgress(codec, d0, t, i, false);
        RemovingIsProgress(codec, d0, t, i, true);
        RemovingIsProgress(codec, d0, t, i + 1, false);
        RemovedNext(d0, t.records, i);
        RemovedOutcome(d0, t.records, i);
        RemovedOutcome(d0, t.records, i + 1);
        ok := Write(disk.(records := disk.records - {t.records[i].id}));
        if !ok { return false; }
        ok := Write(disk.(pending := disk.pending - {t.records[i].sequence}));
        if !ok { return false; }
        i := i + 1;
      }
      return true;
    }

    method WriteIndices(ghost d0: Disk, t: Transaction) returns (ok: bool)
      requires ApplyAccepts(d0, t) && disk == RemovedTo(d0, t.records, |t.records|)
      modifies `disk, `faults
      ensures ok ==> faults == old(faults)
                     && disk == old(disk).(opIndex := d0.opIndex + FinalIndices(t.records, t.confirmation))
      ensures !ok ==> faults > old(faults) && Progress(codec, d0, t, disk) && SameOutcome(d0, disk)
    {
      hide *;
      var final := FinalIndices(t.records, t.confirmation);
      ghost var d1 := disk;
      RemovedOutcome(d0, t.records, |t.records|);
      RemovedAll(d0, t.records);
      MixedSame(d0.opIndex, final);
      var todo := final.Keys;
      while todo != {}
        invariant todo <= final.Keys
        invariant disk == d1.(opIndex := disk.opIndex) && faults == old(faults)
        invariant Mixed(disk.opIndex, d0.opIndex, d0.opIndex + final)
        invariant forall k :: k in final && k !in todo ==> k in disk.opIndex && disk.opIndex[k] == final[k]
        decreases |todo|
      {
        var key :| key in todo;
        MixedStep(disk.opIndex, d0.opIndex, final, key);
        IndexingIsProgress(codec, d0, t, disk.opIndex);
        IndexingIsProgress(codec, d0, t, disk.opIndex[key := final[key]]);
        ok := Write(disk.(opIndex := disk.opIndex[key := final[key]]));
        if !ok { return false; }
        todo := todo - {key};
      }
      MixedDone(disk.opIndex, d0.opIndex, final);
      return true;
    }

    /** Applies a publication transaction: either it is refused and nothing changes,
        or every write it makes is on the way to the same directory. */
    method ApplyPublication(t: Transaction) returns (r: Result<(), HistoryError>)
      modifies `disk, `faults
      ensures faults >= old(faults) && (r.Ok? ==> faults == old(faults))
      ensures r.Ok? ==> ApplyAccepts(old(disk), t) && disk == ApplyTransaction(codec, old(disk), t)
      ensures r.Err? && faults == old(faults) ==> !ApplyAccepts(old(disk), t) && r.error == Corrupt
      ensures !ApplyAccepts(old(disk), t) ==> disk == old(disk)
      ensures ApplyAccepts(old(disk), t) ==> Progress(codec, old(disk), t, disk) && SameOutcome(old(disk), disk)
      ensures r.Err? && faults > old(faults) ==> r.error == Unavailable
    {
      ghost var d0 := disk;
      var accepted := CheckPublication(t);
      if !accepted { return Err(Corrupt); }
      var replay := IsReplay(disk, t);
      var found := disk.descriptor.Some?;
      StartOfApplication(codec, d0, t);
      EndOfApplication(codec, d0, t);
      hide *;
      var ok := RemoveRecords(t);
      if !ok { return Err(Unavailable); }
      RemovedOutcome(d0, t.records, |t.records|);
      ok := WriteIndices(d0, t);
      if !ok { return Err(Unavailable); }
      if !replay {
        var k := ComputeCheckpoint(codec, disk, t, d0);
        ok := Write(disk.(checkpoint := Some(k)));
        if !ok { return Err(Unavailable); }
      }
      if found {
        ok := Write(disk.(descriptor := None));
        if !ok { return Err(Unavailable); }
      }
      return Ok(());
    }

    // -------------------------------------------------------------------
    // The full scan
    // -------------------------------------------------------------------

    /** Reads one record file, and writes its sequence index if that is missing. */
    method ScanRecord(ghost d1: Disk, ghost done: set<Identity>, ghost seen: set<nat>, id: Identity)
      returns (r: Result<(), HistoryError>)
      requires disk == d1.(pending := disk.pending) && Completing(codec, d1, disk)
      requires ScannedRecords(codec, d1, done, seen, disk.pending) && id in d1.records && id !in done
      modifies `disk, `faults
      ensures faults >= old(faults)
      ensures disk == d1.(pending := disk.pending) && Completing(codec, d1, disk)
      ensures r.Ok? ==> faults == old(faults)
                        && ScannedRecords(codec, d1, done + {id}, seen + {d1.records[id].sequence}, disk.pending)
      ensures r.Err? && faults == old(faults)
              ==> !(RecordDirectoryAccepts(codec, d1) && SequencesContiguous(d1)) && r.error == Corrupt
    {
      hide *;
      var stored := disk.records[id];
      if !RecordFileAccepts(codec, disk, id) {
        RejectedRecord(codec, d1, done, seen, disk.pending, id);
        return Err(Corrupt);
      }
      AcceptedRecord(codec, d1, done, seen, disk.pending, id);
      if stored.sequence !in disk.pending {
        CompletingOne(codec, d1, disk, id);
        var ok := Write(disk.(pending := disk.pending[stored.sequence := PendingIndexOf(codec, stored)]));
        if !ok { return Err(Unavailable); }
      }
      return Ok(());
    }

    /** Reads every record file once, in any order, and writes the sequence indices
        that are missing. */
    method ScanRecords() returns (r: Result<(), HistoryError>, used: int, seen: set<nat>)
      requires disk.txn.None? && |disk.records| <= MAX_PENDING
      modifies `disk, `faults
      ensures faults >= old(faults)
      ensures Completing(codec, old(disk), disk) && disk == old(disk).(pending := disk.pending)
      ensures r.Ok? ==> faults == old(faults) && RecordDirectoryAccepts(codec, old(disk))
                        && used == Sum(disk.records, RecordCharge(codec)) && seen == RecordSequences(disk.records)
                        && Indexed(codec, old(disk), seen, disk.pending)
      ensures r.Err? && faults == old(faults)
              ==> !(RecordDirectoryAccepts(codec, old(disk)) && SequencesContiguous(old(disk))) && r.error == Corrupt
    {
      hide *;
      ghost var d1 := disk;
      r, used, seen := Ok(()), 0, {};
      CompletingNothing(codec, d1);
      var todo := disk.records;
      while r.Ok? && todo != map[]
        invariant SubMap(todo, d1.records)
        invariant disk == d1.(pending := disk.pending) && Completing(codec, d1, disk) && faults >= old(faults)
        invariant r.Ok? ==> faults == old(faults)
                            && ScannedRecords(codec, d1, d1.records.Keys - todo.Keys, seen, disk.pending)
        invariant r.Err? && faults == old(faults)
                  ==> !(RecordDirectoryAccepts(codec, d1) && SequencesContiguous(d1)) && r.error == Corrupt
        invariant used + Sum(todo, RecordCharge(codec)) == Sum(d1.records, RecordCharge(codec))
        decreases |todo|
      {
        var id :| id in todo;
        TakeOne(codec, d1.records, todo, id);
        r := ScanRecord(d1, d1.records.Keys - todo.Keys, seen, id);
        used := used + StoredCharge(codec, todo[id]);
        seen := seen + {todo[id].sequence};
        todo := todo - {id};
      }
      if r.Ok? { ScanFinished(codec, d1, todo, seen, disk.pending); }
    }

    /** Reads every reservation file once, in any order; a reservation whose record
        is stored is removed, the others are counted. */
    method ScanReservations() returns (r: Result<(), HistoryError>, count: int)
      requires disk.txn.None?
      modifies `disk, `faults
      ensures faults >= old(faults) && (r.Ok? ==> faults == old(faults))
      ensures Completing(codec, old(disk), disk) && disk == old(disk).(reservations := disk.reservations)
      ensures r.Ok? ==> ReservationsAccept(old(disk).reservations) && count == |disk.reservations|
                        && disk.reservations == old(disk).reservations - disk.records.Keys
      ensures r.Err? && faults == old(faults) ==> !ReservationsAccept(old(disk).reservations) && r.error == Corrupt
    {
      ghost var d1 := disk;
      r, count := Ok(()), 0;
      if |disk.reservations| > MAX_RESERVATIONS + MAX_PENDING { r := Err(Corrupt); }
      ReservationsStart(codec, d1);
      hide Completing, SubMap, ValidIdentity;
      var todo := disk.reservations;
      while r.Ok? && todo != map[]
        invariant SubMap(todo, d1.reservations)
        invariant disk == d1.(reservations := disk.reservations) && Completing(codec, d1, disk) && faults >= old(faults)
        invariant r.Ok? ==> faults == old(faults) && ScannedReservations(d1, todo, disk.reservations, count)
        invariant r.Err? && faults == old(faults) ==> !ReservationsAccept(d1.reservations) && r.error == Corrupt
        decreases |todo|
      {
        hide *;
        var id :| id in todo;
        ReservationNext(codec, d1, todo, disk, count, id);
        if !ValidIdentity(id) {
          InvalidReservation(d1.reservations, id);
          r := Err(Corrupt);
        } else if id in disk.records {
          var ok := Write(disk.(reservations := disk.reservations - {id}));
          if !ok { r := Err(Unavailable); }
        } else {
          count := count + 1;
        }
        todo := todo - {id};
      }
      if r.Ok? { ReservationsFinished(d1, disk.reservations, count); }
    }

    /** Checkpoint, index files, records, sequence indices and the frozen batch, in
        this order, with the bytes they account for. */
    method ScanFiles() returns (r: Result<(), HistoryError>, used: int)
      requires disk.txn.None?
      modifies `disk, `faults
      ensures faults >= old(faults) && (r.Ok? ==> faults == old(faults))
      ensures Completing(codec, old(disk), disk) && disk == old(disk).(pending := disk.pending)
      ensures r.Ok? ==> FilesAccept(codec, old(disk)) && used == UsedBytes(codec, disk)
                        && disk.pending == PendingFor(codec, disk.records)
      ensures r.Err? && faults == old(faults) ==> !FilesAccept(codec, old(disk)) && r.error == Corrupt
    {
      ghost var e := disk;
      CompletingNothing(codec, e);
      FilesParts(codec, e);
      hide FilesAccept, Completing, ScannedRecords, SubMap, IndexDirectoryAccepts, RecordDirectoryAccepts, RecordSequences,
           SequencesContiguous, PendingDirectoryAccepts, DescriptorAccepts, PendingFor, Indexed, Completed, XorFold;
      used := 0;
      if !ReadableCheckpoint(disk) { return Err(Corrupt), used; }
      var ok, usedIndex, indexSet := ScanIndex(codec, disk);
      if !ok { return Err(Corrupt), used; }
      var matches := if disk.checkpoint.None? then disk.opIndex == map[]
                     else disk.checkpoint.value.keyCount == |disk.opIndex| && disk.checkpoint.value.indexSet == indexSet;
      assert matches <==> CheckpointMatches(codec, e.checkpoint, e.opIndex);
      if !matches || |disk.records| > MAX_PENDING { return Err(Corrupt), used; }
      hide *;
      r, used := ScanPending();
      if r.Err? { return; }
      UsedIs(codec, disk);
      used := used + usedIndex + CheckpointCharge(codec, disk.checkpoint) + DescriptorCharge(codec, disk.descriptor);
      return Ok(()), used;
    }

    /** The records, their sequence numbers and indices, and the frozen batch. */
    method ScanPending() returns (r: Result<(), HistoryError>, used: int)
      requires disk.txn.None? && |disk.records| <= MAX_PENDING
      modifies `disk, `faults
      ensures faults >= old(faults) && (r.Ok? ==> faults == old(faults))
      ensures Completing(codec, old(disk), disk) && disk == old(disk).(pending := disk.pending)
      ensures r.Ok? ==> PendingAccepts(codec, old(disk)) && used == Sum(disk.records, RecordCharge(codec))
                        && disk.pending == PendingFor(codec, disk.records)
      ensures r.Err? && faults == old(faults) ==> !PendingAccepts(codec, old(disk)) && r.error == Corrupt
    {
      hide *;
      ghost var e := disk;
      PendingParts(codec, e);
      var seen;
      r, used, seen := ScanRecords();
      if r.Err? { return; }
      var run := RunSeen(CheckpointSequence(disk), |disk.records|, seen);
      PendingVerdict(codec, e, seen, disk);
      if !run || disk.pending.Keys != seen || !DescriptorAccepts(codec, disk) { return Err(Corrupt), used; }
      return Ok(()), used;
    }

    /** The scan of a directory without a publication in flight: every check passes
        and the usage file is rewritten, or nothing but repairs were made. */
    method ScanAll(blocked: int) returns (r: Result<(), HistoryError>)
      requires disk.txn.None? && disk.marker.Some?
      modifies `disk, `faults
      ensures faults >= old(faults) && (r.Ok? ==> faults == old(faults))
      ensures disk.txn.None?
      ensures disk == ScannedDisk(codec, maximum, old(disk), blocked)
              || (disk.marker.Some? && Completing(codec, old(disk), disk))
      ensures r.Ok? ==> RebuildAccepts(codec, old(disk)) && Fits(codec, maximum, Completed(codec, old(disk)))
                        && disk == ScannedDisk(codec, maximum, old(disk), blocked)
      ensures r.Err? && faults == old(faults)
              ==> if RebuildAccepts(codec, old(disk))
                  then r.error == Capacity && !Fits(codec, maximum, Completed(codec, old(disk)))
                  else r.error == Corrupt
    {
      hide *;
      ghost var e := disk;
      var used, reservations;
      r, used, reservations := ScanDirectories();
      if r.Err? { return; }
      ScanComplete(codec, maximum, e, disk, blocked);
      var u := Usage(maximum, used, reservations * RESERVED_BYTES, |disk.records|, reservations,
                     CheckpointSequence(disk) + |disk.records|, CheckpointSequence(disk), blocked, |disk.opIndex|,
                     CheckpointSequence(disk) + |disk.records| + 1);
      if u.keys > MAX_KEYS || u.records + u.reservations > MAX_PENDING || u.reservations > MAX_RESERVATIONS
         || u.used + u.reserved + HEADROOM > maximum {
        return Err(Capacity);
      }
      CompletingUsage(codec, e, disk, u);
      var ok := Write(disk.(usage := Some(u)));
      if ok { ok := Write(disk.(marker := None)); }
      r := if ok then Ok(()) else Err(Unavailable);
    }

    /** Both halves of the scan: the files, then the reservations. */
    method ScanDirectories() returns (r: Result<(), HistoryError>, used: int, reservations: int)
      requires disk.txn.None?
      modifies `disk, `faults
      ensures faults >= old(faults) && (r.Ok? ==> faults == old(faults))
      ensures Completing(codec, old(disk), disk) && disk.txn == old(disk).txn && disk.marker == old(disk).marker
      ensures r.Ok? ==> RebuildAccepts(codec, old(disk)) && disk == Completed(codec, old(disk))
                        && used == UsedBytes(codec, disk) && reservations == |disk.reservations|
      ensures r.Err? && faults == old(faults) ==> !RebuildAccepts(codec, old(disk)) && r.error == Corrupt
    {
      hide *;
      ghost var e := disk;
      reservations := 0;
      FilesRefused(codec, e);
      r, used := ScanFiles();
      if r.Err? { return; }
      ghost var d1 := disk;
      r, reservations := ScanReservations();
      CompletingComposes(codec, e, d1, disk);
      if r.Err? { return; }
      CompletedIs(codec, e, disk);
      UsedIs(codec, d1);
      UsedIs(codec, disk);
    }

    /** Replays a publication left in flight, then rescans everything. On any
        directory it succeeds exactly when the checks and the capacity test pass, and
        every state it passes through is a step of the same recovery. */
    method Rebuild() returns (r: Result<(), HistoryError>)
      modifies `disk, `faults
      ensures faults >= old(faults) && (r.Ok? ==> faults == old(faults))
      ensures RecoveryStep(codec, maximum, old(disk), disk)
      ensures r.Ok? ==> Recoverable(codec, maximum, old(disk)) && disk == Recover(codec, maximum, old(disk))
      ensures r.Err? && faults == old(faults)
              ==> !Recoverable(codec, maximum, old(disk)) && r.error in {Capacity, Corrupt}
                  && (r.error == Capacity <==> PassesChecks(codec, old(disk)))
    {
      hide *;
      ghost var d0 := disk;
      var blocked := BlockedCount(disk, maximum);
      var marker := Marker("rebuild");
      RecoveryStarts(codec, maximum, d0, marker);
      var ok := Write(disk.(marker := Some(marker)));
      if !ok { return Err(Unavailable); }
      if disk.txn.Some? {
        r := ReplayTransaction(d0, disk.txn.value, marker);
        if r.Err? { return; }
      } else {
        NothingToReplay(codec, d0);
      }
      ScanIgnoresMarker(codec, maximum, d0, disk, blocked);
      r := ScanAll(blocked);
      RecoveryScanned(codec, maximum, d0, disk);
    }

    method ReplayTransaction(ghost d0: Disk, t: Transaction, marker: Marker) returns (r: Result<(), HistoryError>)
      requires disk == d0.(marker := Some(marker)) && d0.txn == Some(t)
      modifies `disk, `faults
      ensures faults >= old(faults) && (r.Ok? ==> faults == old(faults))
      ensures RecoveryStep(codec, maximum, d0, disk)
      ensures r.Ok? ==> ReplayAccepts(d0) && disk == Replayed(codec, d0).(marker := Some(marker))
      ensures r.Err? && faults == old(faults)
              ==> r.error == Corrupt && !PassesChecks(codec, d0) && !Recoverable(codec, maximum, d0)
    {
      hide *;
      RecoveryStarts(codec, maximum, d0, marker);
      MarkerIrrelevant(codec, d0, disk, t);
      NotReplayable(codec, maximum, d0, t);
      ghost var marked := disk;
      r := ApplyPublication(t);
      OutcomeIs(marked, disk);
      RecoveryApplying(codec, maximum, d0, disk, t);
      if r.Err? { return; }
      RecoveryReplayed(codec, maximum, d0, disk.(txn := None), t);
      var ok := Write(disk.(txn := None));
      r := if ok then Ok(()) else Err(Unavailable);
    }

    // -------------------------------------------------------------------
    // The start of every operation
    // -------------------------------------------------------------------

    /** The complete directory a recovery would lead to: what the store stands for. */
    ghost function Directory(): Disk
      requires Valid()
      reads this
    {
      TargetExists(codec, maximum, disk, base, log);
      Target(codec, disk, base)
    }

    /** What the store stands for is always complete and within its bounds. */
    lemma DirectoryIsFull()
      requires Valid()
      ensures Full(codec, Directory(), log) && Bounded(codec, maximum, Directory())
    {
      hide WfCodec, Inv, Full, Bounded, Target;
      ReplayedIsIncomplete(codec, maximum, disk, base, log);
    }

    /** Nothing is in flight, and the usage file is what a scan of the files gives. */
    ghost predicate Ready(u: Usage)
      reads this
    {
      && Valid() && Settled(codec, maximum, disk, base)
      && disk.usage == Some(u) && ReadUsage(disk, maximum) == Some(u) && base == Directory()
    }

    /** Trusts the usage file only if neither a transaction nor a marker is there and
        it reads back well; rebuilds otherwise. */
    method EnsureUsage() returns (r: Result<Usage, HistoryError>)
      requires Valid()
      modifies `disk, `base, `faults
      ensures faults >= old(faults) && (r.Ok? ==> faults == old(faults))
      ensures Valid() && Directory() == old(Directory())
      ensures r.Ok? ==> Ready(r.value) && r.value.blocked == old(BlockedCount(disk, maximum))
      ensures r.Ok? ==> old(Clean(disk, maximum)) || Fits(codec, maximum, old(Directory()))
      ensures old(Clean(disk, maximum)) ==> r.Ok? && disk == old(disk) && base == old(base)
      ensures r.Err? && faults == old(faults) ==> r.error == Capacity && !Fits(codec, maximum, old(Directory()))
    {
      hide WfCodec, Inv, Clean, Settled, Target, BlockedCount, ReadUsage, Fits;
      CleanIs(codec, maximum, disk, base, log);
      if disk.txn.None? && disk.marker.None? && ReadUsage(disk, maximum).Some? {
        return Ok(disk.usage.value);
      }
      r := Open();
    }

    /** Opening the store rebuilds its usage, whatever state a crash left it in. */
    method Open() returns (r: Result<Usage, HistoryError>)
      requires Valid()
      modifies `disk, `base, `faults
      ensures faults >= old(faults) && (r.Ok? ==> faults == old(faults))
      ensures Valid() && Directory() == old(Directory())
      ensures r.Ok? ==> Ready(r.value) && r.value.blocked == old(BlockedCount(disk, maximum))
      ensures r.Ok? ==> Fits(codec, maximum, old(Directory()))
      ensures r.Err? && faults == old(faults) ==> r.error == Capacity && !Fits(codec, maximum, old(Directory()))
    {
      hide WfCodec, Inv, Clean, Settled, Target, RecoveryStep, Recoverable, PassesChecks, Recover, BlockedCount, ReadUsage,
           Fits, ApplyAccepts, ReplayAccepts;
      ghost var d0 := disk;
      RebuildVerdict(codec, maximum, d0, base, log);
      var rebuilt := Rebuild();
      RecoveryStepKeeps(codec, maximum, d0, disk, base, log);
      ghost var before := base;
      if disk.txn.None? { base := Target(codec, d0, base); }
      SameTarget(codec, maximum, d0, disk, before, base, log);
      if rebuilt.Err? { return Err(rebuilt.error); }
      RecoveredReads(codec, maximum, d0, disk, before, log);
      r := Ok(disk.usage.value);
    }

    // -------------------------------------------------------------------
    // Mutations between a marker and its removal
    // -------------------------------------------------------------------

    /** One write together with what it commits: the complete directory and the log
        the disk stands for move exactly when the file does. */
    method Commit(next: Disk, ghost base2: Disk, ghost log2: seq<AckRef>) returns (ok: bool)
      requires Valid() && Inv(codec, maximum, next, base2, log2)
      modifies `disk, `base, `log, `faults
      ensures Valid()
      ensures ok ==> disk == next && base == base2 && log == log2 && faults == old(faults)
      ensures !ok ==> faults > old(faults)
                      && ((disk == next && base == base2 && log == log2)
                          || (disk == old(disk) && base == old(base) && log == old(log)))
    {
      hide Inv, WfCodec;
      ok := Write(next);
      if disk == next {
        base, log := base2, log2;
      }
    }

    method BeginMutation(operation: string) returns (ok: bool)
      requires Valid() && disk.txn.None?
      modifies `disk, `faults
      ensures Valid() && disk == old(disk).(marker := disk.marker)
      ensures ok ==> disk.marker == Some(Marker(operation)) && faults == old(faults)
      ensures !ok ==> faults > old(faults)
    {
      hide Inv, WfCodec;
      MarkerKeeps(codec, maximum, disk, base, log, Marker(operation));
      ok := Write(disk.(marker := Some(Marker(operation))));
    }

    /** The usage file, then the removal of the marker. */
    method FinishMutation(u: Usage) returns (ok: bool)
      requires disk.marker.Some? && disk.(usage := None, marker := None) == base
      requires u == Scan(codec, maximum, base, u.blocked) && u.blocked >= 0
      modifies `disk, `faults
      ensures disk.(usage := None, marker := None) == base
      ensures old(Valid()) ==> Valid() && Directory() == base
      ensures old(Valid()) && ok ==> Ready(u)
      ensures ok ==> faults == old(faults) && disk == base.(usage := Some(u))
      ensures !ok ==> faults > old(faults)
    {
      hide Inv, WfCodec, Scan, Settled, ReadUsage, Target;
      if Valid() {
        FinishKeeps(codec, maximum, disk, base, log, u);
        InvParts(codec, maximum, disk, base, log);
      }
      BaseIsTarget(codec, base);
      ok := Write(disk.(usage := Some(u)));
      if !ok { return; }
      ok := Write(disk.(marker := None));
    }

    /** Counts a refusal; its own failures are ignored. */
    method RecordCapacityBlock(u: Usage)
      requires Ready(u)
      modifies `disk, `faults
      ensures Valid() && Directory() == old(Directory()) && faults >= old(faults)
      ensures faults == old(faults) ==> Ready(u.(blocked := if u.blocked == MAX_INT64 then u.blocked else u.blocked + 1))
    {
      hide Inv, WfCodec, Scan, ReadUsage, Target;
      if u.blocked == MAX_INT64 { return; }
      InvParts(codec, maximum, disk, base, log);
      BaseIsTarget(codec, base);
      BlockedScan(codec, maximum, base, u.blocked);
      BlockedRead(disk, maximum);
      var ok := BeginMutation("capacity_block");
      if !ok { return; }
      ok := FinishMutation(u.(blocked := u.blocked + 1));
    }

    /** An operation that got past a rebuild, if it needed one, and met no fault. */
    ghost predicate Undisturbed(before: Disk, directory: Disk, faultsBefore: nat)
      reads this
    {
      faults == faultsBefore && (Clean(before, maximum) || Fits(codec, maximum, directory))
    }

    // -------------------------------------------------------------------
    // Reserve and cancel
    // -------------------------------------------------------------------

    /** Reserves worst-case capacity for one identity. A token is issued also when
        the reservation may have become durable in spite of an error. */
    method Reserve(id: Identity, token: string, now: int) returns (issued: Option<string>, error: Option<HistoryError>)
      requires Valid()
      modifies `disk, `base, `log, `faults
      ensures Valid() && log == old(log) && faults >= old(faults)
      ensures Directory() == old(Directory())
              || (Directory() == WithReservation(old(Directory()), id, Reservation(token, now))
                  && id !in old(Directory()).reservations && issued == Some(token))
      ensures error.Some? ==> issued.None? || (issued == Some(token) && faults > old(faults))
      ensures Undisturbed(old(disk), old(Directory()), old(faults))
              ==> error == ReserveVerdict(codec, maximum, old(Directory()), id)
                  && Directory() == AfterReserve(codec, maximum, old(Directory()), id, Reservation(token, now))
      ensures error.None? ==> issued.Some? && id in Directory().reservations
                              && Directory().reservations[id].token == issued.value && Settled(codec, maximum, disk, Directory())
                              && Clean(disk, maximum)
      ensures faults == old(faults) && !Undisturbed(old(disk), old(Directory()), old(faults))
              ==> error == Some(if ValidIdentity(id) then Capacity else Unavailable)
    {
      hide Inv, WfCodec, Clean, Fits, Target, Scan, AdmitsReservation, ReadUsage, Settled, Full, Bounded;
      if !ValidIdentity(id) { return None, Some(Unavailable); }
      var ensured := EnsureUsage();
      if ensured.Err? { return None, Some(ensured.error); }
      var u := ensured.value;
      SettledParts(codec, maximum, disk, base, log, u);
      BaseIsTarget(codec, base);
      if !NotStale(disk.opIndex, id) { return None, Some(Stale); }
      if id in disk.records { return None, Some(Reserved); }
      if id in disk.reservations {
        SettledIsClean(codec, maximum, disk, base, log);
        return Some(disk.reservations[id].token), None;
      }
      AdmitsReads(codec, maximum, base, u.blocked, KeyOf(id) in base.opIndex);
      if !AdmitsReservation(u, maximum, KeyOf(id) in disk.opIndex) {
        RecordCapacityBlock(u);
        return None, Some(Capacity);
      }
      var ok := BeginMutation("reserve");
      if !ok { return None, Some(Unavailable); }
      var reservation := Reservation(token, now);
      var next := disk.(reservations := disk.reservations[id := reservation]);
      ReserveKeeps(codec, maximum, base, log, id, reservation, u.blocked);
      MidKeeps(codec, maximum, next, WithReservation(base, id, reservation), log);
      BaseIsTarget(codec, WithReservation(base, id, reservation));
      ok := Commit(next, WithReservation(base, id, reservation), log);
      if !ok { return Some(token), Some(Unavailable); }
      ok := FinishMutation(u.(reserved := u.reserved + RESERVED_BYTES, reservations := u.reservations + 1));
      if ok { SettledIsClean(codec, maximum, disk, base, log); }
      return Some(token), if ok then None else Some(Unavailable);
    }

    /** Gives a reservation back. */
    method CancelReservation(id: Identity, grant: Grant) returns (error: Option<HistoryError>)
      requires Valid()
      modifies `disk, `base, `log, `faults
      ensures Valid() && log == old(log) && faults >= old(faults)
      ensures Directory() == old(Directory())
              || (id in old(Directory()).reservations && old(Directory()).reservations[id].token == grant.token
                  && Directory() == WithoutReservation(old(Directory()), id))
      ensures Undisturbed(old(disk), old(Directory()), old(faults))
              ==> error == CancelVerdict(old(Directory()), id, grant)
      ensures error.None? ==> id !in Directory().reservations && id !in Directory().records
                              && Settled(codec, maximum, disk, Directory())
      ensures faults == old(faults) && !Undisturbed(old(disk), old(Directory()), old(faults))
              ==> error == Some(if Matches(grant, id) then Capacity else HistoryError.Reserved)
    {
      hide Inv, WfCodec, Clean, Fits, Target, Scan, ReadUsage, Settled, Full, Bounded, ValidIdentity;
      if !Matches(grant, id) { return Some(HistoryError.Reserved); }
      var ensured := EnsureUsage();
      if ensured.Err? { return Some(ensured.error); }
      var u := ensured.value;
      SettledParts(codec, maximum, disk, base, log, u);
      BaseIsTarget(codec, base);
      BaseIsTarget(codec, WithoutReservation(base, id));
      if id !in disk.reservations {
        return if id in disk.records then Some(HistoryError.Reserved) else None;
      }
      if disk.reservations[id].token != grant.token { return Some(HistoryError.Reserved); }
      CancelKeeps(codec, maximum, base, log, id, u.blocked);
      FullReservations(codec, base, log);
      var ok := BeginMutation("cancel");
      if !ok { return Some(Unavailable); }
      var next := disk.(reservations := disk.reservations - {id});
      MidKeeps(codec, maximum, next, WithoutReservation(base, id), log);
      ok := Commit(next, WithoutReservation(base, id), log);
      if !ok { return Some(Unavailable); }
      ok := FinishMutation(u.(reserved := u.reserved - RESERVED_BYTES, reservations := u.reservations - 1));
      return if ok then None else Some(Unavailable);
    }

    // -------------------------------------------------------------------
    // Append
    // -------------------------------------------------------------------

    /** The record is on disk and in the log. The directory is complete; it meets the
        store's invariant if the record came in the order of its operation's generations. */
    ghost predicate Taken(before: Disk, logBefore: seq<AckRef>, s: StoredRecord)
      reads this
    {
      && base == Appended(codec, before, s) && log == logBefore + [RefOf(s)]
      && Complete(codec, base, log) && disk.txn.None? && Incomplete(disk, base)
      && (InOrder(before.records, s.record.identity) ==> Valid() && Directory() == base)
    }

    /** Stores one record under the next sequence number, and turns its reservation
        into the record's charge. The rename of the record file decides. The order of
        an operation's generations is left to the callers. */
    method AppendValidated(grant: Grant, record: Record, now: int) returns (r: Result<RecordRef, HistoryError>)
      requires Valid()
      modifies `disk, `base, `log, `faults
      ensures faults >= old(faults)
      ensures (Valid() && Directory() == old(Directory()) && log == old(log))
              || (var decision := AppendDecision(codec, old(Directory()), grant, record, now, |old(log)| + 1);
                  decision.Store? && Taken(old(Directory()), old(log), decision.stored))
      ensures Undisturbed(old(disk), old(Directory()), old(faults))
              ==> var decision := AppendDecision(codec, old(Directory()), grant, record, now, |old(log)| + 1);
                  && r == Answer(decision, record)
                  && (decision.Store? ==> log == old(log) + [RefOf(decision.stored)])
      ensures r.Ok? ==> Accepted(log, r.value) && r.value.id == record.identity && r.value.sha == RecordDigest(record)
                        && r.value.appendedAt >= record.validatedAt && Settled(codec, maximum, disk, base)
      ensures faults == old(faults) && !Undisturbed(old(disk), old(Directory()), old(faults))
              ==> r == Err(if ValidRecord(record) && Matches(grant, record.identity) then Capacity else Unavailable)
    {
      hide Inv, WfCodec, Clean, Fits, Target, Scan, ReadUsage, Settled, Full, Bounded, ValidIdentity, StoredCharge,
           Complete, Incomplete, Appended, InOrder, Taken, Accepted, ValidUsage;
      var id := record.identity;
      var sha := RecordDigest(record);
      if !ValidRecord(record) || !Matches(grant, id) { return Err(Unavailable); }
      var ensured := EnsureUsage();
      if ensured.Err? { return Err(ensured.error); }
      var u := ensured.value;
      SettledParts(codec, maximum, disk, base, log, u);
      BaseIsTarget(codec, base);
      NextIsLog(codec, maximum, base, log, u.blocked);
      if id in disk.records {
        AcceptedRecordFile(codec, base, log, id);
        if disk.records[id].sha != sha { return Err(Conflict); }
        return DurableRef(record, disk.records[id].appendedAt);
      }
      if KeyOf(id) in disk.opIndex {
        var published := disk.opIndex[KeyOf(id)];
        AcceptedIndexFile(codec, base, log, KeyOf(id));
        if published.identity == id {
          if published.sha != sha { return Err(Conflict); }
          return DurableRef(record, published.appendedAt);
        }
        if published.identity.generation >= id.generation { return Err(Stale); }
      }
      if id !in disk.reservations || disk.reservations[id].token != grant.token { return Err(HistoryError.Reserved); }
      if u.next == MAX_UINT64 {
        RecordCapacityBlock(u);
        return Err(Capacity);
      }
      var stored := StoredRecord(record, sha, u.next, now);
      if !ValidPendingIndex(PendingIndexOf(codec, stored), u.next) { return Err(Unavailable); }
      if StoredCharge(codec, stored) > RESERVED_BYTES { return Err(Capacity); }
      AppendedIsAccepted(log, stored);
      var failed := StoreRecord(u, stored);
      r := if failed then Err(Unavailable) else DurableRef(record, now);
    }

    /** Record file, sequence index, reservation, usage: in this order. */
    method StoreRecord(u: Usage, s: StoredRecord) returns (failed: bool)
      requires Ready(u) && AppendFits(codec, base, log, s)
      modifies `disk, `base, `log, `faults
      ensures faults >= old(faults) && (failed ==> faults > old(faults))
      ensures (Valid() && Directory() == old(base) && log == old(log)) || Taken(old(base), old(log), s)
      ensures !failed ==> faults == old(faults) && log == old(log) + [RefOf(s)] && Taken(old(base), old(log), s)
                          && Settled(codec, maximum, disk, base)
    {
      hide Inv, WfCodec, Target, Scan, ReadUsage, Settled, Full, Bounded, AppendFits, InOrder, Complete, Incomplete,
           StoredCharge, PendingIndexOf, Appended;
      var id := s.record.identity;
      ghost var b, after := base, Appended(codec, base, s);
      SettledParts(codec, maximum, disk, base, log, u);
      AppendOutcome(codec, maximum, base, log, s, u.blocked);
      BaseIsTarget(codec, base);
      BaseIsTarget(codec, after);
      var ok := BeginMutation("append");
      if !ok { return true; }
      ghost var d1 := disk.(records := after.records);
      ghost var d2 := d1.(pending := after.pending);
      ghost var d3 := d2.(reservations := after.reservations);
      AppendStages(codec, maximum, disk, b, log, s, d1, d2, d3);
      ok := Write(disk.(records := disk.records[id := s]));
      if disk == d1 { base, log := after, log + [RefOf(s)]; }
      if !ok { return true; }
      ok := Write(disk.(pending := disk.pending[s.sequence := PendingIndexOf(codec, s)]));
      if !ok { return true; }
      ok := Write(disk.(reservations := disk.reservations - {id}));
      if !ok { return true; }
      ok := FinishMutation(u.(used := u.used + StoredCharge(codec, s), reserved := u.reserved - RESERVED_BYTES,
                              records := u.records + 1, reservations := u.reservations - 1, accepted := u.accepted + 1,
                              next := u.next + 1));
      FinishedAppend(codec, maximum, disk, after, u.blocked);
      return !ok;
    }

    // -------------------------------------------------------------------
    // Batches
    // -------------------------------------------------------------------

    /** The frozen batch if there is one; otherwise the longest prefix of the
        unpublished records, frozen before it is returned. */
    method PendingBatchLocked(u: Usage) returns (r: Result<seq<AckRef>, HistoryError>)
      requires Ready(u)
      modifies `disk, `base, `log, `faults
      ensures Valid() && log == old(log) && faults >= old(faults)
      ensures Directory() == old(base)
              || (FreezesTo(codec, old(base), old(log), Directory()) && Directory().descriptor.Some?)
      ensures r.Ok? ==> faults == old(faults) && disk.usage.Some? && Ready(disk.usage.value)
                        && BatchAnswer(codec, old(base), log, base, r.value)
      ensures r.Err? && faults == old(faults)
              ==> r.error == Capacity && Directory() == old(base) && DescriptorTooLarge(codec, old(base), log)
    {
      hide Inv, WfCodec, Target, Scan, ReadUsage, Settled, Full, Bounded, CheckpointSequence, BatchMatches, LongestPrefix;
      SettledParts(codec, maximum, disk, base, log, u);
      BaseIsTarget(codec, base);
      BatchAnswers(codec, base, log);
      if disk.descriptor.Some? { return Ok(disk.descriptor.value); }
      RecordsOfUsage(codec, maximum, base, log, u.blocked);
      if u.records == 0 { return Ok([]); }
      var refs := SelectBatch(codec, disk, u, base, log);
      if FileCharge(codec.descriptor(refs)) > MAX_DESCRIPTOR_FILE { return Err(Capacity); }
      PrefixMatches(codec, base, log, refs);
      // Both other capacity tests of a freeze are implied: the descriptor is far below
      // the headroom, and the invariant keeps the whole headroom free without it.
      FreezeNeverRefused(codec, maximum, base, log, refs, u.blocked);
      assert FileCharge(codec.descriptor(refs)) + TAILROOM <= HEADROOM
             && u.used + u.reserved + FileCharge(codec.descriptor(refs)) + TAILROOM <= maximum;
      ghost var after := base.(descriptor := Some(refs));
      FreezeKeeps(codec, maximum, base, log, refs, u.blocked);
      BaseIsTarget(codec, after);
      var ok := BeginMutation("freeze_batch");
      if !ok { return Err(Unavailable); }
      MidKeeps(codec, maximum, disk.(descriptor := Some(refs)), after, log);
      ok := Commit(disk.(descriptor := Some(refs)), after, log);
      if !ok { return Err(Unavailable); }
      ok := FinishMutation(u.(used := u.used + FileCharge(codec.descriptor(refs))));
      r := if ok then Ok(refs) else Err(Unavailable);
    }

    /** The oldest batch to publish; the same until it is acknowledged. */
    method PendingBatch() returns (r: Result<seq<AckRef>, HistoryError>)
      requires Valid()
      modifies `disk, `base, `log, `faults
      ensures Valid() && log == old(log) && faults >= old(faults)
      ensures Directory() == old(Directory())
              || (FreezesTo(codec, old(Directory()), old(log), Directory()) && Directory().descriptor.Some?)
      ensures r.Ok? ==> BatchAnswer(codec, old(Directory()), log, Directory(), r.value)
                        && Settled(codec, maximum, disk, Directory()) && Clean(disk, maximum) && faults == old(faults)
      ensures Undisturbed(old(disk), old(Directory()), old(faults)) && r.Err?
              ==> r.error == Capacity && DescriptorTooLarge(codec, old(Directory()), log)
      ensures faults == old(faults) && !Undisturbed(old(disk), old(Directory()), old(faults)) ==> r == Err(Capacity)
    {
      hide Inv, WfCodec, Clean, Fits, Target, Scan, ReadUsage, Settled, Full, Bounded, FreezesTo, BatchAnswer,
           DescriptorTooLarge;
      var ensured := EnsureUsage();
      if ensured.Err? { return Err(ensured.error); }
      r := PendingBatchLocked(ensured.value);
      if r.Ok? { SettledIsClean(codec, maximum, disk, base, log); }
    }

    // -------------------------------------------------------------------
    // Acknowledgement
    // -------------------------------------------------------------------

    /** Retires a batch whose publication has been read back. The transaction file is
        durable before any record is removed, and is removed last. */
    method Acknowledge(batch: seq<AckRef>, confirmation: Confirmation) returns (r: Result<(), HistoryError>)
      requires Valid()
      modifies `disk, `base, `log, `faults
      ensures Valid() && log == old(log) && faults >= old(faults)
      ensures AcknowledgeStep(codec, old(Directory()), log, Directory(), batch, confirmation)
      ensures r.Ok? ==> Retired(Directory(), batch, confirmation) && Settled(codec, maximum, disk, Directory())
      ensures Undisturbed(old(disk), old(Directory()), old(faults)) && r.Err?
              ==> AcknowledgeRefused(codec, old(Directory()), log, batch, confirmation, r.error)
      ensures faults == old(faults) && !Undisturbed(old(disk), old(Directory()), old(faults))
              ==> r == Err(if ValidAcknowledgement(codec, batch, confirmation) then Capacity else Unavailable)
    {
      hide Inv, WfCodec, Clean, Fits, Target, Scan, ReadUsage, Settled, Full, Bounded, FreezesTo, BatchAnswer,
           DescriptorTooLarge, Retired, IsCurrent, TransactionFor, ValidBatch, PublishedAs, ApplyAccepts, ApplyTransaction,
           ChangesFor, CheckpointSequence;
      ghost var d := Directory();
      if !ValidAcknowledgement(codec, batch, confirmation) { return Err(Unavailable); }
      assert |batch| > 0 by { ValidBatchSize(codec, batch); }
      var ensured := EnsureUsage();
      if ensured.Err? { return Err(ensured.error); }
      InvParts(codec, maximum, disk, base, log);
      BatchAnswers(codec, base, log);
      var current := PendingBatchLocked(ensured.value);
      if current.Err? { return Err(current.error); }
      var u := disk.usage.value;
      SettledParts(codec, maximum, disk, base, log, u);
      BaseIsTarget(codec, base);
      CurrentBatch(codec, d, log, base, batch, confirmation, current.value);
      RetiredReads(disk, base, batch, confirmation);
      if current.value != batch {
        return if Retired(disk, batch, confirmation) then Ok(()) else Err(Conflict);
      }
      var changes := BuildChanges(disk.opIndex, batch);
      var t := Transaction(confirmation, batch, changes);
      if FileCharge(codec.transaction(t)) > MAX_TRANSACTION_FILE { return Err(Capacity); }
      // The remaining capacity test is implied by the byte bound.
      AcknowledgeNeverRefused(codec, maximum, base, log, t, u.blocked);
      assert u.used + u.reserved + 2 * FileCharge(codec.transaction(t)) <= maximum;
      FrozenTransaction(codec, maximum, base, log, confirmation);
      PublishedOutcome(codec, d, log, base, batch, confirmation);
      var failed := Publish(u, t);
      r := if failed then Err(Unavailable) else Ok(());
    }

    /** Publishes the oldest pending batch. What the publisher reads back from the dataset
        is a parameter; it may fail. A positive answer means the checkpoint has moved. */
    method PublishPending(publisher: seq<AckRef> -> Option<Confirmation>) returns (r: Result<bool, HistoryError>)
      requires Valid()
      modifies `disk, `base, `log, `faults
      ensures Valid() && log == old(log) && faults >= old(faults)
      ensures Directory().reservations == old(Directory()).reservations
      ensures r == Ok(false) ==> Directory() == old(Directory()) && CheckpointSequence(Directory()) == |log|
      ensures r == Ok(true) ==> CheckpointSequence(Directory()) > CheckpointSequence(old(Directory()))
                                && Directory().descriptor.None? && Settled(codec, maximum, disk, Directory())
      ensures Undisturbed(old(disk), old(Directory()), old(faults)) && r.Err?
              ==> DescriptorTooLarge(codec, old(Directory()), log)
                  || exists batch :: IsCurrent(codec, old(Directory()), log, batch)
                                     && Unpublished(codec, old(Directory()), batch, publisher(batch))
    {
      hide Inv, WfCodec, Clean, Fits, Target, Scan, ReadUsage, Settled, Full, Bounded, FreezesTo, BatchAnswer,
           DescriptorTooLarge, Retired, AcknowledgeStep, AcknowledgeRefused, ValidAcknowledgement, CheckpointSequence,
           IsCurrent, Unpublished;
      ghost var before := Directory();
      DirectoryIsFull();
      var pending := PendingBatch();
      FreezeOnlyFreezes(codec, before, log, Directory());
      if pending.Err? { return Err(pending.error); }
      DirectoryIsFull();
      AnswerIsFrozen(codec, before, log, Directory(), pending.value);
      if pending.value == [] { return Ok(false); }
      ghost var frozen := Directory();
      FrozenIsValid(codec, frozen, log);
      CurrentIsFrozen(codec, before, log, frozen, pending.value);
      var confirmation := publisher(pending.value);
      if confirmation.None? {
        NoReadback(codec, before, pending.value);
        return Err(Unavailable);
      }
      var acknowledged := Acknowledge(pending.value, confirmation.value);
      PublishedOnly(codec, frozen, log, Directory(), pending.value, confirmation.value);
      RefusedOnly(codec, before, log, frozen, pending.value, confirmation.value);
      r := if acknowledged.Err? then Err(acknowledged.error) else Ok(true);
    }

    /** The transaction file, the publication's own writes, the usage file, and the
        removal of the transaction file. */
    method Publish(u: Usage, t: Transaction) returns (failed: bool)
      requires Ready(u) && TransactionFor(base, t)
      modifies `disk, `base, `log, `faults
      ensures ApplyAccepts(old(base), t)
      ensures Valid() && log == old(log) && faults >= old(faults)
      ensures failed ==> faults > old(faults)
      ensures Directory() == old(base) || Directory() == ApplyTransaction(codec, old(base), t)
      ensures !failed ==> faults == old(faults) && Directory() == ApplyTransaction(codec, old(base), t)
                          && Settled(codec, maximum, disk, Directory())
    {
      hide Inv, WfCodec, Target, Scan, ReadUsage, Settled, Full, Bounded, TransactionFor, ApplyAccepts, ApplyTransaction,
           Progress, SameOutcome, PublicationDelta;
      ghost var b := base;
      var before := CheckpointCharge(codec, disk.checkpoint);
      SettledParts(codec, maximum, disk, base, log, u);
      TransactionAppliesTo(codec, b, disk, t);
      BaseIsTarget(codec, b);
      TargetWithTransaction(codec, b, t);
      InFlightIntro(codec, maximum, disk.(txn := Some(t)), b, log, t);
      var ok := Commit(disk.(txn := Some(t)), b, log);
      if !ok { return true; }
      ghost var d0 := disk;
      InFlightReplays(codec, maximum, d0, b, log, t);
      var applied := ApplyPublication(t);
      OutcomeIs(d0, disk);
      ProgressKeeps(codec, maximum, d0, disk, b, log, t);
      if applied.Err? { return true; }
      InFlightParts(codec, maximum, disk, b, log, t);
      PublicationClean(codec, b, log, t);
      var used := MeasurePublication(u, t, disk, before, b);
      PublicationScan(codec, maximum, b, log, t, u.blocked);
      PublishedStates(codec, maximum, disk, b, log, t, used);
      ok := Commit(disk.(usage := Some(used)), b, log);
      if !ok { return true; }
      BaseIsTarget(codec, ApplyTransaction(codec, b, t));
      ok := Commit(disk.(txn := None), ApplyTransaction(codec, b, t), log);
      return !ok;
    }

    /** The new usage file, from the batch, the changes and the sizes now on disk. */
    method MeasurePublication(u: Usage, t: Transaction, d: Disk, before: int, ghost b: Disk) returns (next: Usage)
      requires ApplyAccepts(b, t) && b.descriptor == Some(t.records)
      requires d.checkpoint == ApplyTransaction(codec, b, t).checkpoint && d.opIndex == ApplyTransaction(codec, b, t).opIndex
      requires before == CheckpointCharge(codec, b.checkpoint)
      ensures next == PublishedUsage(codec, b, t, u)
    {
      hide ApplyAccepts, ApplyTransaction, FinalIndices;
      TransactionIsValid(b, t);
      PublishedIndex(codec, b, t);
      var freed := ChargeBatch(codec, t.records);
      var delta, added := ChargeChanges(codec, t.changes, d.opIndex);
      ChangesChargeReads(codec, t.changes, d.opIndex, FinalIndices(t.records, t.confirmation));
      delta := delta - freed - FileCharge(codec.descriptor(t.records)) + CheckpointCharge(codec, d.checkpoint) - before;
      next := u.(records := u.records - |t.records|, verified := u.verified + |t.records|, keys := u.keys + added,
                 used := u.used + delta);
    }
  }

  // ---------------------------------------------------------------------
  // What an acknowledgement may do
  // ---------------------------------------------------------------------

  /** The checks a batch passes before it is acknowledged. */
  predicate ValidBatch(c: Codec, batch: seq<AckRef>) {
    && 0 < |batch| <= MAX_BATCH_RECORDS
    && Consecutive(batch)
    && (forall i :: 0 <= i < |batch| ==> ValidRecord(batch[i].sha.of) && batch[i].sha.of.identity == batch[i].id)
    && BatchBytes(c, batch) <= MAX_BATCH_BYTES
  }

  predicate ValidAcknowledgement(c: Codec, batch: seq<AckRef>, confirmation: Confirmation) {
    ValidBatch(c, batch) && confirmation.batch == batch && ValidConfirmation(confirmation)
  }

  /** The checkpoint is at or past the batch and carries the same published artifact. */
  predicate Retired(d: Disk, batch: seq<AckRef>, confirmation: Confirmation) {
    && |batch| > 0 && d.checkpoint.Some?
    && d.checkpoint.value.sequence >= batch[|batch| - 1].sequence
    && SameArtifact(d.checkpoint.value.confirmation, confirmation)
  }

  /** The batch is the frozen one, or would be the next to be frozen. */
  ghost predicate IsCurrent(c: Codec, d: Disk, log: seq<AckRef>, batch: seq<AckRef>) {
    d.descriptor == Some(batch) || FreezesTo(c, d, log, d.(descriptor := Some(batch)))
  }

  ghost predicate PublishedAs(c: Codec, f: Disk, confirmation: Confirmation, e: Disk) {
    && f.descriptor.Some? && ApplyAccepts(f, TransactionOf(f, confirmation))
    && e == ApplyTransaction(c, f, TransactionOf(f, confirmation))
  }

  /** Nothing, a freeze, or the whole publication of the current batch. */
  ghost predicate AcknowledgeStep(c: Codec, d: Disk, log: seq<AckRef>, e: Disk, batch: seq<AckRef>, confirmation: Confirmation) {
    || e == d
    || FreezesTo(c, d, log, e)
    || (IsCurrent(c, d, log, batch) && PublishedAs(c, d.(descriptor := Some(batch)), confirmation, e))
  }

  ghost predicate AcknowledgeRefused(c: Codec, d: Disk, log: seq<AckRef>, batch: seq<AckRef>, confirmation: Confirmation,
                                     error: HistoryError) {
    match error
    case Unavailable => !ValidAcknowledgement(c, batch, confirmation)
    case Conflict => !IsCurrent(c, d, log, batch) && !Retired(d, batch, confirmation)
    case Capacity =>
      || DescriptorTooLarge(c, d, log)
      || (IsCurrent(c, d, log, batch)
          && FileCharge(c.transaction(TransactionOf(d.(descriptor := Some(batch)), confirmation))) > MAX_TRANSACTION_FILE)
    case _ => false
  }

  /** The answer for the pending batch settles whether the acknowledged one is current. */
  lemma CurrentBatch(c: Codec, d: Disk, log: seq<AckRef>, e: Disk, batch: seq<AckRef>, confirmation: Confirmation,
                     current: seq<AckRef>)
    requires BatchAnswer(c, d, log, e, current) && CheckpointSequence(d) <= |log|
    requires |batch| > 0
    ensures AcknowledgeStep(c, d, log, e, batch, confirmation)
    ensures current == batch <==> IsCurrent(c, d, log, batch)
    ensures current == batch ==> e == d.(descriptor := Some(batch))
    ensures Retired(e, batch, confirmation) <==> Retired(d, batch, confirmation)
  {
    hide SameArtifact, LongestPrefix, CheckpointSequence;
    var from := CheckpointSequence(d);
    if d.descriptor.None? && FreezesTo(c, d, log, d.(descriptor := Some(batch))) {
      PrefixNonempty(c, batch, from, log);
      if from != |log| { LongestUnique(c, batch, current, from, log); }
    }
  }

  /** Why a batch stays unpublished on a store that works: the publisher failed, what it
      read back is not of this batch, or the transaction would be too large. */
  ghost predicate Unpublished(c: Codec, d: Disk, batch: seq<AckRef>, confirmation: Option<Confirmation>) {
    || confirmation.None?
    || confirmation.value.batch != batch || !ValidConfirmation(confirmation.value)
    || FileCharge(c.transaction(TransactionOf(d.(descriptor := Some(batch)), confirmation.value))) > MAX_TRANSACTION_FILE
  }

  lemma SettledIsClean(c: Codec, maximum: int, d: Disk, b: Disk, log: seq<AckRef>)
    requires Inv(c, maximum, d, b, log) && Settled(c, maximum, d, b) && ReadUsage(d, maximum).Some?
    ensures Clean(d, maximum)
  {
    InvParts(c, maximum, d, b, log);
    hide Inv, Full, Bounded, Scan;
  }

  lemma FrozenIsValid(c: Codec, d: Disk, log: seq<AckRef>)
    requires WfCodec(c) && Full(c, d, log) && d.descriptor.Some?
    ensures ValidBatch(c, d.descriptor.value)
  {
    hide *;
    var from, refs := CheckpointSequence(d), d.descriptor.value;
    FullBatch(c, d, log);
    BatchConsecutive(c, refs, from, log);
    forall i | 0 <= i < |refs| ensures ValidRecord(refs[i].sha.of) && refs[i].sha.of.identity == refs[i].id {
      BatchEntry(refs, from, log, i);
      EntryIsRecord(c, log, from + 1 + i);
    }
    ValidBatchIntro(c, refs, from, log);
  }

  lemma EntryIsRecord(c: Codec, log: seq<AckRef>, s: nat)
    requires EntriesOk(c, log) && 0 < s <= |log|
    ensures ValidRecord(At(log, s).sha.of) && At(log, s).sha.of.identity == At(log, s).id
  {
    assert EntryOk(c, At(log, s), s);
  }

  lemma ValidBatchIntro(c: Codec, refs: seq<AckRef>, from: nat, log: seq<AckRef>)
    requires BatchMatches(c, refs, from, log) && Consecutive(refs)
    requires forall i :: 0 <= i < |refs| ==> ValidRecord(refs[i].sha.of) && refs[i].sha.of.identity == refs[i].id
    ensures ValidBatch(c, refs)
  {
    hide Consecutive, ValidRecord;
  }

  lemma CurrentIsFrozen(c: Codec, d: Disk, log: seq<AckRef>, e: Disk, batch: seq<AckRef>)
    requires BatchAnswer(c, d, log, e, batch) && batch != []
    ensures IsCurrent(c, d, log, batch)
  {
    hide LongestPrefix;
  }

  lemma NoReadback(c: Codec, d: Disk, batch: seq<AckRef>)
    ensures Unpublished(c, d, batch, None)
  {}

  /** An acknowledgement of the frozen batch is refused for no other reason. */
  lemma RefusedOnly(c: Codec, d: Disk, log: seq<AckRef>, e: Disk, batch: seq<AckRef>, confirmation: Confirmation)
    requires BatchAnswer(c, d, log, e, batch) && batch != [] && ValidBatch(c, batch)
    ensures IsCurrent(c, d, log, batch) && e == d.(descriptor := Some(batch))
    ensures forall error :: AcknowledgeRefused(c, e, log, batch, confirmation, error)
                            ==> DescriptorTooLarge(c, d, log) || Unpublished(c, d, batch, Some(confirmation))
  {
    hide LongestPrefix, ValidBatch, ValidConfirmation, ChangesFor, Retired, CheckpointSequence;
  }

  lemma FreezeOnlyFreezes(c: Codec, b: Disk, log: seq<AckRef>, e: Disk)
    ensures FreezesTo(c, b, log, e) ==> e.reservations == b.reservations
  {
    hide LongestPrefix;
  }

  /** A batch that was handed out is frozen, and none is handed out only if nothing is pending. */
  lemma AnswerIsFrozen(c: Codec, b: Disk, log: seq<AckRef>, e: Disk, refs: seq<AckRef>)
    requires BatchAnswer(c, b, log, e, refs) && Full(c, b, log)
    ensures e.checkpoint == b.checkpoint && CheckpointSequence(e) == CheckpointSequence(b)
    ensures refs == [] ==> e == b && CheckpointSequence(b) == |log|
    ensures refs != [] ==> e.descriptor == Some(refs)
  {
    hide LogOk, RecordsWithin, RecordsCover, PendingWithin, PendingCover, IndexWithin, IndexCover, CheckpointMatches,
         LongestPrefix;
  }

  /** Acknowledging a frozen batch either changes nothing or moves the checkpoint past it. */
  lemma PublishedOnly(c: Codec, d: Disk, log: seq<AckRef>, e: Disk, batch: seq<AckRef>, confirmation: Confirmation)
    requires Full(c, d, log) && d.descriptor == Some(batch) && AcknowledgeStep(c, d, log, e, batch, confirmation)
    ensures e.reservations == d.reservations
    ensures Retired(e, batch, confirmation) ==> CheckpointSequence(e) > CheckpointSequence(d) && e.descriptor.None?
  {
    assert d.(descriptor := Some(batch)) == d;
    FrozenIsAhead(c, d, log);
    if e != d {
      assert PublishedAs(c, d, confirmation, e);
      PublishedMoves(c, d, confirmation, e);
    }
    hide Full, PublishedAs, FreezesTo, SameArtifact;
  }

  lemma FrozenIsAhead(c: Codec, d: Disk, log: seq<AckRef>)
    requires Full(c, d, log) && d.descriptor.Some?
    ensures |d.descriptor.value| > 0 && d.descriptor.value[|d.descriptor.value| - 1].sequence > CheckpointSequence(d)
  {
    hide *;
    FullBatch(c, d, log);
    LogParts(c, log);
    FrozenNonempty(c, d, log);
    BatchEntry(d.descriptor.value, CheckpointSequence(d), log, |d.descriptor.value| - 1);
  }

  lemma FrozenNonempty(c: Codec, d: Disk, log: seq<AckRef>)
    requires d.descriptor.Some? && BatchMatches(c, d.descriptor.value, CheckpointSequence(d), log)
    ensures |d.descriptor.value| > 0
  {}

  lemma PublishedMoves(c: Codec, d: Disk, confirmation: Confirmation, e: Disk)
    requires PublishedAs(c, d, confirmation, e)
    ensures e.reservations == d.reservations && e.descriptor.None?
  {
    hide ApplyAccepts, FinalIndices, NextCheckpoint, IsReplay, ChangesFor, Ids, Sequences;
  }

  lemma ValidBatchSize(c: Codec, batch: seq<AckRef>)
    requires ValidBatch(c, batch)
    ensures |batch| > 0
  {}

  lemma RetiredReads(d: Disk, e: Disk, batch: seq<AckRef>, confirmation: Confirmation)
    requires d.checkpoint == e.checkpoint
    ensures Retired(d, batch, confirmation) <==> Retired(e, batch, confirmation)
  {}

  lemma PrefixNonempty(c: Codec, refs: seq<AckRef>, from: nat, log: seq<AckRef>)
    requires LongestPrefix(c, refs, from, log) && |refs| > 0
    ensures from < |log|
  {}

  lemma AcknowledgeNeverRefused(c: Codec, maximum: int, b: Disk, log: seq<AckRef>, t: Transaction, blocked: int)
    requires Full(c, b, log) && Bounded(c, maximum, b)
    requires FileCharge(c.transaction(t)) <= MAX_TRANSACTION_FILE
    ensures var u := Scan(c, maximum, b, blocked);
            u.used + u.reserved + 2 * FileCharge(c.transaction(t)) <= maximum
  {
    hide Full, UsedBytes, OperationKeys, FileCharge, DescriptorCharge;
    DescriptorSmall(c, b, log);
  }

  lemma FrozenTransaction(c: Codec, maximum: int, b: Disk, log: seq<AckRef>, confirmation: Confirmation)
    requires WfCodec(c) && Full(c, b, log) && Bounded(c, maximum, b)
    requires b.descriptor.Some? && confirmation.batch == b.descriptor.value && ValidConfirmation(confirmation)
    ensures TransactionFor(b, TransactionOf(b, confirmation))
  {
    hide WfCodec, Full, TransactionFor, TransactionOf;
    IndexKeysBounded(c, maximum, b);
    hide Bounded;
    TransactionAccepted(c, b, log, confirmation);
  }

  lemma PublishedOutcome(c: Codec, d: Disk, log: seq<AckRef>, b: Disk, batch: seq<AckRef>, confirmation: Confirmation)
    requires IsCurrent(c, d, log, batch) && b == d.(descriptor := Some(batch))
    requires TransactionFor(b, TransactionOf(b, confirmation))
    ensures var e := ApplyTransaction(c, b, TransactionOf(b, confirmation));
            AcknowledgeStep(c, d, log, e, batch, confirmation) && Retired(e, batch, confirmation)
  {
    var t := TransactionOf(b, confirmation);
    assert |batch| > 0;
    assert !IsReplay(b, t) && ApplyAccepts(b, t);
    hide ApplyAccepts, IsReplay, IsCurrent, ChangesFor, Advance, FinalIndices;
  }

  lemma TransactionAppliesTo(c: Codec, b: Disk, d: Disk, t: Transaction)
    requires TransactionFor(b, t) && d.(usage := None) == b
    ensures ApplyAccepts(b, t) && b.descriptor == Some(t.records)
    ensures Progress(c, b, t, d.(txn := Some(t)))
  {
    assert ApplyAccepts(b, t) && b.descriptor == Some(t.records);
    hide ApplyAccepts, TransactionFor, ApplyTransaction, SubMap, Mixed, PendingOutlives;
    StartOfApplication(c, b, t);
  }

  lemma TargetWithTransaction(c: Codec, b: Disk, t: Transaction)
    requires ApplyAccepts(b, t)
    ensures forall d: Disk :: d.txn == Some(t) ==> Target(c, d, b) == ApplyTransaction(c, b, t)
  {
    hide ApplyAccepts, ApplyTransaction;
  }

  lemma PublishedIndex(c: Codec, b: Disk, t: Transaction)
    requires ApplyAccepts(b, t)
    ensures var m := ApplyTransaction(c, b, t).opIndex;
            var final := FinalIndices(t.records, t.confirmation);
            forall i :: 0 <= i < |t.changes| ==> t.changes[i].key in m && m[t.changes[i].key] == final[t.changes[i].key]
  {
    TransactionIsValid(b, t);
    hide ApplyAccepts, FinalIndices, NextCheckpoint, IsReplay;
  }

  /** The last two writes of a publication. */
  lemma PublishedStates(c: Codec, maximum: int, d: Disk, b: Disk, log: seq<AckRef>, t: Transaction, u: Usage)
    requires WfCodec(c) && Full(c, b, log) && Bounded(c, maximum, b) && TransactionFor(b, t) && ApplyAccepts(b, t)
    requires Progress(c, b, t, d) && d == ApplyTransaction(c, b, t).(txn := Some(t), usage := d.usage)
    requires u == Scan(c, maximum, ApplyTransaction(c, b, t), u.blocked)
    ensures var e := ApplyTransaction(c, b, t);
            && Inv(c, maximum, d.(usage := Some(u)), b, log)
            && Inv(c, maximum, d.(usage := Some(u), txn := None), e, log)
            && Settled(c, maximum, d.(usage := Some(u), txn := None), e)
  {
    hide WfCodec, Full, Bounded, TransactionFor, ApplyAccepts, ApplyTransaction, Progress, Scan;
    ProgressUsage(c, b, t, d, u);
    InFlightIntro(c, maximum, d.(usage := Some(u)), b, log, t);
    PublicationIsFull(c, b, log, t);
    PublicationBounded(c, maximum, b, log, t);
    PublicationClean(c, b, log, t);
    SettledKeeps(c, maximum, d.(usage := Some(u), txn := None), ApplyTransaction(c, b, t), log);
  }

  lemma PublicationClean(c: Codec, b: Disk, log: seq<AckRef>, t: Transaction)
    requires Full(c, b, log) && TransactionFor(b, t)
    ensures ApplyAccepts(b, t)
    ensures var e := ApplyTransaction(c, b, t); e.txn.None? && e.marker.None? && e.usage.None?
  {
    assert ApplyAccepts(b, t);
    hide Full, TransactionFor, ApplyAccepts, ApplyTransaction;
    PublicationFields(c, b, log, t);
  }

  lemma InFlightParts(c: Codec, maximum: int, d: Disk, b: Disk, log: seq<AckRef>, t: Transaction)
    requires Inv(c, maximum, d, b, log) && d.txn == Some(t)
    ensures ApplyAccepts(b, t) && Progress(c, b, t, d)
  {
    hide Full, Bounded, ApplyAccepts, Progress, Settled;
  }

  lemma ProgressUsage(c: Codec, b: Disk, t: Transaction, d: Disk, u: Usage)
    requires ApplyAccepts(b, t) && Progress(c, b, t, d)
    ensures Progress(c, b, t, d.(usage := Some(u)))
  {
    hide ApplyAccepts, ApplyTransaction, SubMap, Mixed, PendingOutlives;
  }

  /** One change per operation, in the order in which the batch first names it. */
  method BuildChanges(opIndex: map<OperationKey, OperationIndex>, refs: seq<AckRef>) returns (changes: seq<IndexChange>)
    ensures changes == ChangesFor(opIndex, refs)
  {
    changes := [];
    var seen: set<OperationKey> := {};
    var i := 0;
    while i < |refs|
      invariant 0 <= i <= |refs| && seen == Keys(refs[..i]) && changes == ChangesFor(opIndex, refs[..i])
    {
      var key := KeyOf(refs[i].id);
      assert refs[..i + 1][..i] == refs[..i];
      KeysMore(refs, i);
      if key !in seen {
        changes := changes + [IndexChange(key, Lookup(opIndex, key))];
        seen := seen + {key};
      }
      i := i + 1;
    }
    assert refs[..i] == refs;
  }

  lemma KeysMore(refs: seq<AckRef>, i: nat)
    requires i < |refs|
    ensures Keys(refs[..i + 1]) == Keys(refs[..i]) + {KeyOf(refs[i].id)}
  {
    assert refs[..i + 1] == refs[..i] + [refs[i]];
  }

  /** Freezing the longest prefix is all that changes. */
  ghost predicate FreezesTo(c: Codec, b: Disk, log: seq<AckRef>, e: Disk) {
    && b.descriptor.None? && e == b.(descriptor := e.descriptor)
    && (e.descriptor.Some? ==> e.descriptor.value != [] && LongestPrefix(c, e.descriptor.value, CheckpointSequence(b), log))
  }

  /** What a request for the pending batch returns, and leaves behind. */
  ghost predicate BatchAnswer(c: Codec, b: Disk, log: seq<AckRef>, e: Disk, refs: seq<AckRef>) {
    if b.descriptor.Some? then refs == b.descriptor.value && e == b
    else if CheckpointSequence(b) == |log| then refs == [] && e == b
    else FreezesTo(c, b, log, e) && e.descriptor == Some(refs)
  }

  ghost predicate DescriptorTooLarge(c: Codec, b: Disk, log: seq<AckRef>) {
    b.descriptor.None? && exists refs :: LongestPrefix(c, refs, CheckpointSequence(b), log)
                                         && FileCharge(c.descriptor(refs)) > MAX_DESCRIPTOR_FILE
  }

  lemma BatchAnswers(c: Codec, b: Disk, log: seq<AckRef>)
    requires Full(c, b, log)
    ensures CheckpointSequence(b) <= |log|
  {}

  lemma RecordsOfUsage(c: Codec, maximum: int, b: Disk, log: seq<AckRef>, blocked: int)
    requires Full(c, b, log)
    ensures Scan(c, maximum, b, blocked).records == |log| - CheckpointSequence(b)
    ensures Scan(c, maximum, b, blocked).verified == CheckpointSequence(b)
  {
    hide Full;
    SequencesAreContiguous(c, b, log);
    ScanIs(c, maximum, b, blocked);
  }

  lemma PrefixMatches(c: Codec, b: Disk, log: seq<AckRef>, refs: seq<AckRef>)
    requires LongestPrefix(c, refs, CheckpointSequence(b), log) && refs != []
    requires FileCharge(c.descriptor(refs)) <= MAX_DESCRIPTOR_FILE
    ensures BatchMatches(c, refs, CheckpointSequence(b), log)
  {}

  /** A freeze whose descriptor fits its file is never refused for capacity. */
  lemma FreezeNeverRefused(c: Codec, maximum: int, b: Disk, log: seq<AckRef>, refs: seq<AckRef>, blocked: int)
    requires Full(c, b, log) && Bounded(c, maximum, b) && b.descriptor.None?
    requires FileCharge(c.descriptor(refs)) <= MAX_DESCRIPTOR_FILE
    ensures FileCharge(c.descriptor(refs)) + TAILROOM <= HEADROOM
    ensures var u := Scan(c, maximum, b, blocked);
            u.used + u.reserved + FileCharge(c.descriptor(refs)) + TAILROOM <= maximum
  {
    hide Full, UsedBytes, OperationKeys, FileCharge;
  }

  /** The next sequence number continues the log. */
  lemma NextIsLog(c: Codec, maximum: int, b: Disk, log: seq<AckRef>, blocked: int)
    requires Full(c, b, log)
    ensures Scan(c, maximum, b, blocked).next == |log| + 1
  {
    hide Full;
    SequencesAreContiguous(c, b, log);
    ScanIs(c, maximum, b, blocked);
  }

  lemma AppendedIsAccepted(log: seq<AckRef>, s: StoredRecord)
    ensures Accepted(log + [RefOf(s)], RecordRef(s.record.identity, s.sha, s.appendedAt))
  {
    assert At(log + [RefOf(s)], |log| + 1) == RefOf(s);
  }

  lemma AcceptedRecordFile(c: Codec, b: Disk, log: seq<AckRef>, id: Identity)
    requires Full(c, b, log) && id in b.records
    ensures Accepted(log, RecordRef(id, b.records[id].sha, b.records[id].appendedAt))
  {
    hide Full;
    FullAt(c, b, log, id);
    var s := b.records[id].sequence;
    assert At(log, s).id == id && At(log, s).sha == b.records[id].sha;
  }

  lemma AcceptedIndexFile(c: Codec, b: Disk, log: seq<AckRef>, k: OperationKey)
    requires Full(c, b, log) && k in b.opIndex
    ensures Accepted(log, RecordRef(b.opIndex[k].identity, b.opIndex[k].sha, b.opIndex[k].appendedAt))
  {
    hide LogOk, RecordsWithin, RecordsCover, PendingWithin, PendingCover, IndexCover, CheckpointMatches, DescriptorMatches;
    var s := b.opIndex[k].sequence;
    assert At(log, s).id == b.opIndex[k].identity && At(log, s).sha == b.opIndex[k].sha;
  }

  lemma IncompleteKeeps(c: Codec, maximum: int, d: Disk, b: Disk, log: seq<AckRef>)
    requires Full(c, b, log) && Bounded(c, maximum, b) && Incomplete(d, b) && d.txn.None? && d.marker.Some?
    ensures Inv(c, maximum, d, b, log)
  {
    hide Full, Bounded, Incomplete;
  }

  /** What a stored record leads to; in order or not, the counters stay the full scan's. */
  lemma AppendOutcome(c: Codec, maximum: int, b: Disk, log: seq<AckRef>, s: StoredRecord, blocked: int)
    requires Full(c, b, log) && Bounded(c, maximum, b) && AppendFits(c, b, log, s)
    ensures var e := Appended(c, b, s);
            var u := Scan(c, maximum, b, blocked);
            && Complete(c, b, log) && Complete(c, e, log + [RefOf(s)]) && Bounded(c, maximum, e)
            && e.txn.None? && e.marker.None? && e.usage.None?
            && (InOrder(b.records, s.record.identity) ==> Full(c, e, log + [RefOf(s)]))
            && Scan(c, maximum, e, blocked)
               == u.(used := u.used + StoredCharge(c, s), reserved := u.reserved - RESERVED_BYTES,
                     records := u.records + 1, reservations := u.reservations - 1, accepted := u.accepted + 1,
                     next := u.next + 1)
            && u.blocked == blocked
  {
    hide *;
    FullIsOrdered(c, b, log);
    CompleteParts(c, b, log);
    AppendFields(c, b, log, s);
    AppendCharged(c, maximum, b, log, s, blocked);
    AnyAppendKeeps(c, b, log, s);
    ScanUsed(c, maximum, b, b, blocked);
    BlockedScan(c, maximum, b, blocked);
    if InOrder(b.records, s.record.identity) {
      ReadyIntro(c, b, log, s);
      AppendFull(c, b, log, s);
    }
  }

  lemma ReadyIntro(c: Codec, b: Disk, log: seq<AckRef>, s: StoredRecord)
    requires AppendFits(c, b, log, s) && InOrder(b.records, s.record.identity)
    ensures AppendReady(c, b, log, s)
  {}

  /** From the record's rename on, every state of an append completes to its end. */
  lemma AppendStages(c: Codec, maximum: int, d: Disk, b: Disk, log: seq<AckRef>, s: StoredRecord, d1: Disk, d2: Disk,
                     d3: Disk)
    requires Complete(c, b, log) && AppendFits(c, b, log, s)
    requires d.marker.Some? && d.(usage := None, marker := None) == b
    requires d1 == d.(records := Appended(c, b, s).records) && d2 == d1.(pending := Appended(c, b, s).pending)
    requires d3 == d2.(reservations := Appended(c, b, s).reservations)
    ensures var e := Appended(c, b, s);
            && d1 == d.(records := d.records[s.record.identity := s])
            && d2 == d1.(pending := d1.pending[s.sequence := PendingIndexOf(c, s)])
            && d3 == d2.(reservations := d2.reservations - {s.record.identity})
            && d1 != d && d.txn.None? && Incomplete(d1, e) && Incomplete(d2, e) && Incomplete(d3, e)
            && d3.(usage := None, marker := None) == e && Incomplete(e, e)
    ensures var e, longer := Appended(c, b, s), log + [RefOf(s)];
            Full(c, e, longer) && Bounded(c, maximum, e)
            ==> Inv(c, maximum, d1, e, longer) && Inv(c, maximum, d2, e, longer) && Inv(c, maximum, d3, e, longer)
  {
    hide *;
    CompleteParts(c, b, log);
    AppendFields(c, b, log, s);
    var e := Appended(c, b, s);
    StagesIncomplete(c, d, b, log, s, d1, d2, d3);
    assert s.record.identity in d1.records && s.record.identity !in d.records;
    if Full(c, e, log + [RefOf(s)]) && Bounded(c, maximum, e) {
      IncompleteKeeps(c, maximum, d1, e, log + [RefOf(s)]);
      IncompleteKeeps(c, maximum, d2, e, log + [RefOf(s)]);
      IncompleteKeeps(c, maximum, d3, e, log + [RefOf(s)]);
    }
  }

  /** The usage file and the marker are not among the files an append completes. */
  lemma FinishedAppend(c: Codec, maximum: int, d: Disk, e: Disk, blocked: int)
    requires d.(usage := None, marker := None) == e && Incomplete(e, e)
    ensures Incomplete(d, e)
    ensures d == e.(usage := Some(Scan(c, maximum, e, blocked))) ==> Settled(c, maximum, d, e)
  {
    hide UsedBytes;
  }

  lemma StagesIncomplete(c: Codec, d: Disk, b: Disk, log: seq<AckRef>, s: StoredRecord, d1: Disk, d2: Disk, d3: Disk)
    requires d.(usage := None, marker := None) == b && ReservationsOk(b.reservations)
    requires b.reservations.Keys !! b.records.Keys && s.record.identity in b.reservations
    requires PendingWithin(c, b.pending, CheckpointSequence(b), log) && s.sequence == |log| + 1
    requires d1 == d.(records := Appended(c, b, s).records) && d2 == d1.(pending := Appended(c, b, s).pending)
    requires d3 == d2.(reservations := Appended(c, b, s).reservations)
    ensures var e := Appended(c, b, s);
            && Incomplete(d1, e) && Incomplete(d2, e) && Incomplete(d3, e) && d3.(usage := None, marker := None) == e
            && Incomplete(e, e)
  {
    hide PendingIndexOf, ValidIdentity, CheckpointSequence;
    var e := Appended(c, b, s);
    assert SubMap(b.pending, e.pending);
    assert b.reservations - e.records.Keys == e.reservations;
    assert e.reservations - e.records.Keys == e.reservations;
  }

  ghost function CancelVerdict(d: Disk, id: Identity, grant: Grant): Option<HistoryError> {
    if !Matches(grant, id) then Some(HistoryError.Reserved)
    else if id !in d.reservations then (if id in d.records then Some(HistoryError.Reserved) else None)
    else if d.reservations[id].token != grant.token then Some(HistoryError.Reserved)
    else None
  }

  datatype Append = Refuse(error: HistoryError) | Known(appendedAt: int) | Store(stored: StoredRecord)

  /** What an append decides on a complete directory. */
  function AppendDecision(c: Codec, d: Disk, grant: Grant, record: Record, now: int, next: nat): Append {
    var id := record.identity;
    var sha := RecordDigest(record);
    var stored := StoredRecord(record, sha, next, now);
    if !ValidRecord(record) || !Matches(grant, id) then Refuse(Unavailable)
    else if id in d.records then
      if d.records[id].sha == sha then Known(d.records[id].appendedAt) else Refuse(Conflict)
    else if KeyOf(id) in d.opIndex && d.opIndex[KeyOf(id)].identity == id then
      if d.opIndex[KeyOf(id)].sha == sha then Known(d.opIndex[KeyOf(id)].appendedAt) else Refuse(Conflict)
    else if !NotStale(d.opIndex, id) then Refuse(Stale)
    else if id !in d.reservations || d.reservations[id].token != grant.token then Refuse(HistoryError.Reserved)
    else if next == MAX_UINT64 then Refuse(Capacity)
    else if !ValidPendingIndex(PendingIndexOf(c, stored), next) then Refuse(Unavailable)
    else if StoredCharge(c, stored) > RESERVED_BYTES then Refuse(Capacity)
    else Store(stored)
  }

  function Answer(decision: Append, record: Record): Result<RecordRef, HistoryError> {
    match decision
    case Refuse(e) => Err(e)
    case Known(appendedAt) => DurableRef(record, appendedAt)
    case Store(stored) => DurableRef(record, stored.appendedAt)
  }

  /** The log holds the record a reference names. */
  ghost predicate Accepted(log: seq<AckRef>, r: RecordRef) {
    exists s :: 0 < s <= |log| && At(log, s).id == r.id && At(log, s).sha == r.sha && At(log, s).appendedAt == r.appendedAt
  }

  /** What a reservation decides on a complete directory. */
  ghost function ReserveVerdict(c: Codec, maximum: int, d: Disk, id: Identity): Option<HistoryError> {
    if !ValidIdentity(id) then Some(Unavailable)
    else if !NotStale(d.opIndex, id) then Some(Stale)
    else if id in d.records then Some(Reserved)
    else if id in d.reservations then None
    else if AdmitsReservation(Scan(c, maximum, d, 0), maximum, KeyOf(id) in d.opIndex) then None
    else Some(Capacity)
  }

  ghost function AfterReserve(c: Codec, maximum: int, d: Disk, id: Identity, r: Reservation): Disk {
    if ReserveVerdict(c, maximum, d, id).None? && id !in d.reservations then WithReservation(d, id, r) else d
  }

  lemma SettledParts(c: Codec, maximum: int, d: Disk, b: Disk, log: seq<AckRef>, u: Usage)
    requires Inv(c, maximum, d, b, log) && Settled(c, maximum, d, b) && d.usage == Some(u) && ReadUsage(d, maximum) == Some(u)
    ensures d.(usage := None) == b && d.txn.None? && d.marker.None? && d.usage == Some(u)
    ensures Full(c, b, log) && Bounded(c, maximum, b) && Target(c, d, b) == b && b.marker.None? && b.usage.None?
    ensures u == Scan(c, maximum, b, u.blocked) && u.blocked >= 0
  {
    InvParts(c, maximum, d, b, log);
    hide Inv, Full, Bounded, Scan;
  }

  lemma AdmitsReads(c: Codec, maximum: int, b: Disk, blocked: int, indexed: bool)
    ensures AdmitsReservation(Scan(c, maximum, b, blocked), maximum, indexed)
            <==> AdmitsReservation(Scan(c, maximum, b, 0), maximum, indexed)
  {
    hide UsedBytes;
  }

  lemma BaseIsTarget(c: Codec, b: Disk)
    ensures forall d: Disk :: d.txn.None? ==> Target(c, d, b) == b
  {}

  lemma BlockedScan(c: Codec, maximum: int, b: Disk, blocked: int)
    ensures Scan(c, maximum, b, blocked + 1) == Scan(c, maximum, b, blocked).(blocked := blocked + 1)
    ensures Scan(c, maximum, b, blocked).blocked == blocked
  {}

  lemma BlockedRead(d: Disk, maximum: int)
    requires ReadUsage(d, maximum).Some?
    ensures d.usage.Some? && d.usage.value.blocked >= 0
  {}

  /** While the marker is there, files that match the base are enough. */
  lemma MidKeeps(c: Codec, maximum: int, d: Disk, b: Disk, log: seq<AckRef>)
    requires Full(c, b, log) && Bounded(c, maximum, b)
    requires d.marker.Some? && d.(usage := None, marker := None) == b
    ensures Inv(c, maximum, d, b, log)
  {
    FullIsIncomplete(c, b, log);
    assert b.txn == None by { hide Bounded, LogOk, RecordsWithin, RecordsCover, PendingWithin, PendingCover; }
    hide Full, Bounded;
  }

  /** The two writes that end a mutation. */
  lemma FinishKeeps(c: Codec, maximum: int, d: Disk, b: Disk, log: seq<AckRef>, u: Usage)
    requires WfCodec(c) && Inv(c, maximum, d, b, log) && d.marker.Some? && d.(usage := None, marker := None) == b
    requires u == Scan(c, maximum, b, u.blocked) && u.blocked >= 0
    ensures var e := d.(usage := Some(u), marker := None);
            && Inv(c, maximum, d.(usage := Some(u)), b, log)
            && Inv(c, maximum, e, b, log) && Settled(c, maximum, e, b) && ReadUsage(e, maximum) == Some(u) && e.txn.None?
  {
    InvParts(c, maximum, d, b, log);
    hide Inv, Full, Bounded, WfCodec, Scan;
    MidKeeps(c, maximum, d.(usage := Some(u)), b, log);
    var e := d.(usage := Some(u), marker := None);
    SettledKeeps(c, maximum, e, b, log);
    ScanValid(c, maximum, b, log, u.blocked);
    hide Settled, ValidUsage;
  }

  lemma InvParts(c: Codec, maximum: int, d: Disk, b: Disk, log: seq<AckRef>)
    requires Inv(c, maximum, d, b, log)
    ensures Full(c, b, log) && Bounded(c, maximum, b) && b.txn.None? && b.marker.None? && b.usage.None?
  {
    hide Bounded, Reaches, Settled, LogOk, RecordsWithin, RecordsCover, PendingWithin, PendingCover;
  }

  lemma EmptyKeeps(c: Codec, maximum: int)
    requires WfCodec(c) && maximum >= RESERVED_BYTES + HEADROOM
    ensures Inv(c, maximum, EmptyDisk(), EmptyDisk(), [])
  {
    var e := EmptyDisk();
    assert OperationKeys(e) == {};
    assert Full(c, e, []) by { hide WfCodec; }
    assert Bounded(c, maximum, e) by { hide OperationKeys, WfCodec; }
    assert Incomplete(e, e);
    hide Full, Bounded, Incomplete;
  }

  lemma TargetExists(c: Codec, maximum: int, d: Disk, b: Disk, log: seq<AckRef>)
    requires Inv(c, maximum, d, b, log)
    ensures d.txn.Some? ==> ApplyAccepts(b, d.txn.value)
  {
    hide Full, Bounded, ApplyAccepts, Settled, Progress;
  }

  lemma CleanIs(c: Codec, maximum: int, d: Disk, b: Disk, log: seq<AckRef>)
    requires Inv(c, maximum, d, b, log)
    ensures Clean(d, maximum) <==> d.txn.None? && d.marker.None? && ReadUsage(d, maximum).Some?
    ensures Clean(d, maximum) ==> Settled(c, maximum, d, b) && Target(c, d, b) == b && ReadUsage(d, maximum) == d.usage
                                  && d.usage.Some? && d.usage.value.blocked == BlockedCount(d, maximum)
  {
    hide Full, Bounded, Settled, Reaches, ValidUsage;
  }

  /** On a reachable directory only the capacity test can fail. */
  lemma RebuildVerdict(c: Codec, maximum: int, d: Disk, b: Disk, log: seq<AckRef>)
    requires WfCodec(c) && Inv(c, maximum, d, b, log)
    ensures d.txn.Some? ==> ApplyAccepts(b, d.txn.value)
    ensures ReplayAccepts(d) && PassesChecks(c, d)
    ensures Recoverable(c, maximum, d) <==> Fits(c, maximum, Target(c, d, b))
  {
    hide *;
    RebuildIsAccepted(c, maximum, d, b, log);
    ReplayedIsIncomplete(c, maximum, d, b, log);
    IncompleteCompletes(c, Replayed(c, d), Target(c, d, b), log);
    VerdictIs(c, maximum, d, Target(c, d, b));
  }

  lemma VerdictIs(c: Codec, maximum: int, d: Disk, e: Disk)
    requires ReplayAccepts(d) && RebuildAccepts(c, Replayed(c, d))
    requires Completed(c, Replayed(c, d)).(marker := None, usage := None) == e
    ensures PassesChecks(c, d) && (Recoverable(c, maximum, d) <==> Fits(c, maximum, e))
  {
    hide RebuildAccepts, ReplayAccepts, Replayed, Completed;
    var f := Completed(c, Replayed(c, d));
    FitsReads(c, maximum, f, e);
    hide Fits;
  }

  lemma FitsReads(c: Codec, maximum: int, f: Disk, e: Disk)
    requires f.(marker := None, usage := None) == e
    ensures Fits(c, maximum, f) <==> Fits(c, maximum, e)
  {
    hide *;
    UsedIs(c, f);
    UsedIs(c, e);
    FitsIs(c, maximum, f);
    FitsIs(c, maximum, e);
  }

  lemma SameTarget(c: Codec, maximum: int, d0: Disk, d: Disk, b0: Disk, b: Disk, log: seq<AckRef>)
    requires d0.txn.Some? ==> ApplyAccepts(b0, d0.txn.value)
    requires d.txn.None? || d.txn == d0.txn
    requires b == if d.txn.None? then Target(c, d0, b0) else b0
    ensures d.txn.Some? ==> ApplyAccepts(b, d.txn.value)
    ensures Target(c, d, b) == Target(c, d0, b0)
  {
    hide ApplyAccepts, ApplyTransaction;
  }

  lemma RecoveredReads(c: Codec, maximum: int, d0: Disk, d: Disk, b: Disk, log: seq<AckRef>)
    requires WfCodec(c) && Inv(c, maximum, d0, b, log) && ReplayAccepts(d0) && d == Recover(c, maximum, d0)
    ensures d0.txn.Some? ==> ApplyAccepts(b, d0.txn.value)
    ensures var e := Target(c, d0, b);
            && Settled(c, maximum, d, e) && d.usage.Some? && d.txn.None? && d.marker.None?
            && ReadUsage(d, maximum) == d.usage && d.usage.value.blocked == BlockedCount(d0, maximum)
            && Target(c, d, e) == e
  {
    hide *;
    RecoveredKeeps(c, maximum, d0, d, b, log);
    ReplayedIsIncomplete(c, maximum, d0, b, log);
    RecoveryReachesTarget(c, maximum, d0, b, log);
    var e := Target(c, d0, b);
    TargetIsBase(c, d, e);
    BlockedNonNegative(d0, maximum);
    ScanValid(c, maximum, e, log, BlockedCount(d0, maximum));
    ScanIs(c, maximum, e, BlockedCount(d0, maximum));
    ReadsBack(d, maximum);
  }

  lemma BlockedNonNegative(d: Disk, maximum: int)
    ensures BlockedCount(d, maximum) >= 0
  {}

  lemma ReadsBack(d: Disk, maximum: int)
    requires d.usage.Some? && ValidUsage(d.usage.value, maximum)
    ensures ReadUsage(d, maximum) == d.usage
  {
    hide ValidUsage;
  }

  // ---------------------------------------------------------------------
  // Every state of a rebuild is a step of the recovery
  // ---------------------------------------------------------------------

  lemma RecoveryStarts(c: Codec, maximum: int, d0: Disk, marker: Marker)
    ensures RecoveryStep(c, maximum, d0, d0)
    ensures RecoveryStep(c, maximum, d0, d0.(marker := Some(marker)))
  {}

  lemma MarkerIrrelevant(c: Codec, d0: Disk, d: Disk, t: Transaction)
    requires d == d0.(marker := d.marker)
    ensures ApplyAccepts(d, t) <==> ApplyAccepts(d0, t)
    ensures ApplyAccepts(d, t) ==> ApplyTransaction(c, d, t) == ApplyTransaction(c, d0, t).(marker := d.marker)
    ensures forall d2: Disk :: ApplyAccepts(d, t) && ApplyAccepts(d0, t) ==> (Progress(c, d, t, d2) <==> Progress(c, d0, t, d2))
  {
    AcceptsSameFiles(d0, d, t);
    if ApplyAccepts(d, t) {
      hide ValidTransaction, GenerationsIncrease, RecordFilesAgree, IndexFileAgrees, SameArtifact, FinalIndices,
           ReadableCheckpoint, SubMap, Mixed, PendingOutlives, ApplyAccepts;
    }
  }

  lemma AcceptsSameFiles(d0: Disk, d: Disk, t: Transaction)
    requires d == d0.(marker := d.marker)
    ensures ApplyAccepts(d, t) <==> ApplyAccepts(d0, t)
    ensures CheckpointSequence(d) == CheckpointSequence(d0)
    ensures |t.records| > 0 ==> (IsReplay(d, t) <==> IsReplay(d0, t))
  {
    forall i | 0 <= i < |t.records| ensures RecordFilesAgree(d, t.records[i]) <==> RecordFilesAgree(d0, t.records[i]) {}
    forall change: IndexChange, final: OperationIndex
      ensures IndexFileAgrees(d, change, final) <==> IndexFileAgrees(d0, change, final) {}
    hide ValidTransaction, GenerationsIncrease, RecordFilesAgree, IndexFileAgrees, SameArtifact, FinalIndices;
  }

  lemma OutcomeIs(d0: Disk, d: Disk)
    ensures SameOutcome(d0, d) <==> d.txn == d0.txn && d.marker == d0.marker && d.usage == d0.usage
  {}

  lemma RecoveryApplying(c: Codec, maximum: int, d0: Disk, d: Disk, t: Transaction)
    requires d0.txn == Some(t) && d.txn == Some(t) && d.marker.Some?
    requires if ApplyAccepts(d0, t) then Progress(c, d0, t, d) else d == d0.(marker := d.marker)
    ensures RecoveryStep(c, maximum, d0, d)
  {
    hide ApplyAccepts, Progress;
  }

  lemma RecoveryReplayed(c: Codec, maximum: int, d0: Disk, d: Disk, t: Transaction)
    requires d0.txn == Some(t) && ApplyAccepts(d0, t) && d.marker.Some?
    requires d == ApplyTransaction(c, d0, t).(txn := None, marker := d.marker)
    ensures ReplayAccepts(d0) && d == Replayed(c, d0).(marker := d.marker)
    ensures RecoveryStep(c, maximum, d0, d)
  {
    hide ApplyAccepts, ApplyTransaction;
    CompletingNothing(c, Replayed(c, d0));
    CompletingMarker(c, Replayed(c, d0), d);
    hide Replayed, Completing;
  }

  lemma CompletingMarker(c: Codec, e: Disk, d: Disk)
    requires Completing(c, e, e) && d == e.(marker := d.marker)
    ensures Completing(c, e, d)
  {
    hide SubMap, AddedFor;
  }

  lemma NothingToReplay(c: Codec, d0: Disk)
    requires d0.txn.None?
    ensures ReplayAccepts(d0) && Replayed(c, d0) == d0
  {}

  /** The scan does not look at the marker. */
  lemma ScanIgnoresMarker(c: Codec, maximum: int, d0: Disk, e: Disk, blocked: int)
    requires ReplayAccepts(d0) && e == Replayed(c, d0).(marker := e.marker) && blocked == BlockedCount(d0, maximum)
    ensures e.txn.None?
    ensures PassesChecks(c, d0) <==> RebuildAccepts(c, e)
    ensures Recoverable(c, maximum, d0) <==> RebuildAccepts(c, e) && Fits(c, maximum, Completed(c, e))
    ensures ScannedDisk(c, maximum, e, blocked) == Recover(c, maximum, d0)
    ensures forall d :: Completing(c, e, d) <==> Completing(c, Replayed(c, d0), d)
  {
    hide ReplayAccepts, Replayed, RebuildAccepts, Fits, Completed, BlockedCount, AddedFor, SubMap, Scan, ScannedDisk;
    var f := Replayed(c, d0);
    ReplayedTxn(c, d0);
    ChecksIgnoreMarker(c, f, e);
    FitsIgnoresMarker(c, maximum, f, e);
    CompletedMarker(c, f, e);
    ScannedMarker(c, maximum, f, e, blocked);
  }

  lemma ReplayedTxn(c: Codec, d0: Disk)
    requires ReplayAccepts(d0)
    ensures Replayed(c, d0).txn.None?
  {
    hide ReplayAccepts, ApplyTransaction;
  }

  lemma CompletedMarker(c: Codec, f: Disk, e: Disk)
    requires e == f.(marker := e.marker)
    ensures Completed(c, e) == Completed(c, f).(marker := e.marker)
  {
    hide PendingFor;
  }

  lemma ScannedMarker(c: Codec, maximum: int, f: Disk, e: Disk, blocked: int)
    requires e == f.(marker := e.marker)
    ensures ScannedDisk(c, maximum, e, blocked)
            == Completed(c, f).(usage := Some(Scan(c, maximum, Completed(c, f), blocked)), marker := None)
  {
    hide *;
    CompletedMarker(c, f, e);
    ScannedDiskIs(c, maximum, e, blocked);
    ScanReads(c, maximum, Completed(c, e), Completed(c, f), blocked);
  }

  lemma ScanReads(c: Codec, maximum: int, d: Disk, e: Disk, blocked: int)
    requires d == e.(marker := d.marker)
    ensures Scan(c, maximum, d, blocked) == Scan(c, maximum, e, blocked)
  {
    hide *;
    SameCheckpoint(d, e);
    UsedIs(c, d);
    UsedIs(c, e);
    ScanIs(c, maximum, d, blocked);
    ScanIs(c, maximum, e, blocked);
  }

  lemma FitsIgnoresMarker(c: Codec, maximum: int, f: Disk, e: Disk)
    requires e == f.(marker := e.marker)
    ensures Fits(c, maximum, Completed(c, e)) <==> Fits(c, maximum, Completed(c, f))
  {
    CompletedMarker(c, f, e);
    var g, h := Completed(c, e), Completed(c, f);
    hide Completed;
    UsedIs(c, g);
    UsedIs(c, h);
    hide UsedBytes;
  }

  lemma ChecksIgnoreMarker(c: Codec, f: Disk, e: Disk)
    requires e == f.(marker := e.marker)
    ensures RebuildAccepts(c, e) <==> RebuildAccepts(c, f)
  {
    hide *;
    FilesRefused(c, f);
    FilesRefused(c, e);
    FilesParts(c, f);
    FilesParts(c, e);
    PendingParts(c, f);
    PendingParts(c, e);
    CompletedMarker(c, f, e);
    DescriptorReads(c, Completed(c, f), Completed(c, e));
    RecordsIgnoreMarker(c, f, e);
    DirectoriesIgnoreMarker(f, e);
  }

  lemma DirectoriesIgnoreMarker(f: Disk, e: Disk)
    requires e == f.(marker := e.marker)
    ensures ReadableCheckpoint(e) <==> ReadableCheckpoint(f)
    ensures IndexDirectoryAccepts(e) <==> IndexDirectoryAccepts(f)
    ensures SequencesContiguous(e) <==> SequencesContiguous(f)
    ensures PendingDirectoryAccepts(e) <==> PendingDirectoryAccepts(f)
  {
    SameCheckpoint(f, e);
    hide IndexFileAccepts, RecordSequences, CheckpointSequence;
  }

  lemma RecordsIgnoreMarker(c: Codec, f: Disk, e: Disk)
    requires e == f.(marker := e.marker)
    ensures RecordDirectoryAccepts(c, e) <==> RecordDirectoryAccepts(c, f)
  {
    SameCheckpoint(f, e);
    hide ReadableRecord, ValidPendingIndex, PendingIndexOf, CheckpointSequence;
    forall id | id in f.records ensures RecordFileAccepts(c, e, id) <==> RecordFileAccepts(c, f, id) {}
    hide RecordFileAccepts;
  }

  lemma RecoveryScanned(c: Codec, maximum: int, d0: Disk, d: Disk)
    requires ReplayAccepts(d0)
    requires d == Recover(c, maximum, d0) || (d.marker.Some? && d.txn.None? && Completing(c, Replayed(c, d0), d))
    ensures RecoveryStep(c, maximum, d0, d)
  {
    hide ReplayAccepts, Replayed, Completing, Recover;
  }

  lemma NotReplayable(c: Codec, maximum: int, d0: Disk, t: Transaction)
    requires d0.txn == Some(t)
    ensures !ApplyAccepts(d0, t) ==> !PassesChecks(c, d0) && !Recoverable(c, maximum, d0)
  {
    hide ApplyAccepts;
  }

  /** What a successful scan leaves of a directory. */
  ghost function ScannedDisk(c: Codec, maximum: int, e: Disk, blocked: int): Disk {
    Completed(c, e).(usage := Some(Scan(c, maximum, Completed(c, e), blocked)), marker := None)
  }

  /** Whether the numbers right after the checkpoint have all been seen. */
  method RunSeen(from: nat, count: nat, seen: set<nat>) returns (ok: bool)
    ensures ok <==> forall s: nat :: from < s <= from + count ==> s in seen
  {
    var s := from;
    while s < from + count
      invariant from <= s <= from + count
      invariant forall k: nat :: from < k <= s ==> k in seen
    {
      s := s + 1;
      if s !in seen { return false; }
    }
    return true;
  }

  ghost predicate PendingAccepts(c: Codec, e: Disk) {
    && RecordDirectoryAccepts(c, e)
    && SequencesContiguous(e)
    && PendingDirectoryAccepts(e)
    && DescriptorAccepts(c, Completed(c, e))
  }

  lemma FilesParts(c: Codec, e: Disk)
    ensures FilesAccept(c, e)
            <==> (ReadableCheckpoint(e) && IndexDirectoryAccepts(e) && CheckpointMatches(c, e.checkpoint, e.opIndex)
                  && |e.records| <= MAX_PENDING && PendingAccepts(c, e))
  {}

  lemma PendingParts(c: Codec, e: Disk)
    ensures PendingAccepts(c, e) <==> (RecordDirectoryAccepts(c, e) && SequencesContiguous(e)
                                       && PendingDirectoryAccepts(e) && DescriptorAccepts(c, Completed(c, e)))
  {}

  lemma PendingVerdict(c: Codec, e: Disk, seen: set<nat>, d: Disk)
    requires d == e.(pending := d.pending) && seen == RecordSequences(e.records) && Indexed(c, e, seen, d.pending)
    ensures SequencesContiguous(e)
            <==> forall s: nat :: CheckpointSequence(d) < s <= CheckpointSequence(d) + |d.records| ==> s in seen
    ensures d.pending.Keys == seen <==> PendingDirectoryAccepts(e)
    ensures d.pending.Keys == seen ==> d.pending == PendingFor(c, d.records)
                                       && (DescriptorAccepts(c, d) <==> DescriptorAccepts(c, Completed(c, e)))
  {
    hide *;
    IndexedKeys(c, e, seen, d.pending);
    if d.pending.Keys == seen {
      IndexedIsPendingFor(c, e, d.pending);
      DescriptorWhenComplete(c, e, d);
    }
    SameCheckpoint(d, e);
    ContiguousIs(e);
  }

  lemma SameCheckpoint(d: Disk, e: Disk)
    requires d.checkpoint == e.checkpoint
    ensures CheckpointSequence(d) == CheckpointSequence(e)
  {}

  lemma IndexedKeys(c: Codec, e: Disk, seen: set<nat>, pending: map<nat, PendingIndex>)
    requires Indexed(c, e, seen, pending) && seen == RecordSequences(e.records)
    ensures pending.Keys == seen <==> PendingDirectoryAccepts(e)
  {
    hide RecordSequences, PendingIndexOf;
  }

  lemma DescriptorWhenComplete(c: Codec, e: Disk, d: Disk)
    requires d == e.(pending := PendingFor(c, e.records))
    ensures DescriptorAccepts(c, d) <==> DescriptorAccepts(c, Completed(c, e))
  {
    DescriptorReads(c, d, Completed(c, e));
    hide DescriptorAccepts;
  }

  lemma IndexedIsPendingFor(c: Codec, e: Disk, pending: map<nat, PendingIndex>)
    requires Indexed(c, e, pending.Keys, pending) && pending.Keys == RecordSequences(e.records)
    ensures pending == PendingFor(c, e.records)
  {
    hide PendingIndexOf;
    forall s | s in pending ensures pending[s] == PendingFor(c, e.records)[s] {
      var r := RecordAt(e.records, s);
      var id :| id in e.records && e.records[id] == r && e.records[id].sequence == s;
    }
  }

  lemma ContiguousIs(e: Disk)
    ensures SequencesContiguous(e)
            <==> forall s: nat :: CheckpointSequence(e) < s <= CheckpointSequence(e) + |e.records| ==> s in RecordSequences(e.records)
  {}

  lemma DescriptorReads(c: Codec, d: Disk, e: Disk)
    requires d.pending == e.pending && d.descriptor == e.descriptor && d.checkpoint == e.checkpoint
    ensures DescriptorAccepts(c, d) <==> DescriptorAccepts(c, e)
  {
    assert CheckpointSequence(d) == CheckpointSequence(e);
    hide BatchBytes, Consecutive, DescriptorEntryAccepts;
  }

  lemma UsedIs(c: Codec, d: Disk)
    ensures UsedBytes(c, d) == CheckpointCharge(c, d.checkpoint) + Sum(d.opIndex, IndexCharge(c))
                               + Sum(d.records, RecordCharge(c)) + DescriptorCharge(c, d.descriptor)
  {}

  lemma FilesRefused(c: Codec, e: Disk)
    ensures RebuildAccepts(c, e) <==> FilesAccept(c, e) && ReservationsAccept(e.reservations)
  {}

  lemma CompletingComposes(c: Codec, e: Disk, d1: Disk, d2: Disk)
    requires Completing(c, e, d1) && d1 == e.(pending := d1.pending)
    requires Completing(c, d1, d2) && d2 == d1.(reservations := d2.reservations)
    ensures Completing(c, e, d2)
  {
    hide AddedFor, SubMap, RecordSequences;
  }

  lemma CompletingUsage(c: Codec, e: Disk, d: Disk, u: Usage)
    requires Completing(c, e, d)
    ensures Completing(c, e, d.(usage := Some(u)))
  {
    hide AddedFor, SubMap, RecordSequences;
  }

  /** After all repairs the directory is the completed one, and the counters describe it. */
  lemma ScanComplete(c: Codec, maximum: int, e: Disk, d: Disk, blocked: int)
    requires d == Completed(c, e)
    ensures Fits(c, maximum, d) <==> (|d.opIndex| <= MAX_KEYS && |d.records| + |d.reservations| <= MAX_PENDING
                                      && |d.reservations| <= MAX_RESERVATIONS
                                      && UsedBytes(c, d) + |d.reservations| * RESERVED_BYTES + HEADROOM <= maximum)
    ensures ScannedDisk(c, maximum, e, blocked)
            == d.(usage := Some(Usage(maximum, UsedBytes(c, d), |d.reservations| * RESERVED_BYTES, |d.records|,
                                      |d.reservations|, CheckpointSequence(d) + |d.records|, CheckpointSequence(d), blocked,
                                      |d.opIndex|, CheckpointSequence(d) + |d.records| + 1)),
                  marker := None)
  {
    hide *;
    FitsIs(c, maximum, d);
    ScanIs(c, maximum, d, blocked);
    ScannedDiskIs(c, maximum, e, blocked);
  }

  lemma CompletedIs(c: Codec, e: Disk, d: Disk)
    requires d == e.(pending := PendingFor(c, e.records), reservations := e.reservations - e.records.Keys)
    ensures d == Completed(c, e)
  {}

  lemma FitsIs(c: Codec, maximum: int, d: Disk)
    ensures Fits(c, maximum, d) <==> (|d.opIndex| <= MAX_KEYS && |d.records| + |d.reservations| <= MAX_PENDING
                                      && |d.reservations| <= MAX_RESERVATIONS
                                      && UsedBytes(c, d) + |d.reservations| * RESERVED_BYTES + HEADROOM <= maximum)
  {
    hide UsedBytes;
  }

  lemma ScanIs(c: Codec, maximum: int, d: Disk, blocked: int)
    ensures Scan(c, maximum, d, blocked)
            == Usage(maximum, UsedBytes(c, d), |d.reservations| * RESERVED_BYTES, |d.records|, |d.reservations|,
                     CheckpointSequence(d) + |d.records|, CheckpointSequence(d), blocked, |d.opIndex|,
                     CheckpointSequence(d) + |d.records| + 1)
  {
    hide UsedBytes, CheckpointSequence;
  }

  lemma ScannedDiskIs(c: Codec, maximum: int, e: Disk, blocked: int)
    ensures ScannedDisk(c, maximum, e, blocked)
            == Completed(c, e).(usage := Some(Scan(c, maximum, Completed(c, e), blocked)), marker := None)
  {}

  // ---------------------------------------------------------------------
  // The loop over the reservations
  // ---------------------------------------------------------------------

  /** The reservations read so far, those of stored records dropped. */
  predicate ScannedReservations(d1: Disk, todo: map<Identity, Reservation>, left: map<Identity, Reservation>, count: int) {
    && (forall id :: id in d1.reservations && id !in todo ==> ValidIdentity(id))
    && left == d1.reservations - ((d1.reservations.Keys - todo.Keys) * d1.records.Keys)
    && count == |d1.reservations.Keys - todo.Keys - d1.records.Keys|
    && |d1.reservations| <= MAX_RESERVATIONS + MAX_PENDING
  }

  lemma NothingLeft<K, V>(m: map<K, V>, others: set<K>)
    ensures m - ((m.Keys - m.Keys) * others) == m && |m.Keys - m.Keys - others| == 0
    ensures SubMap(m, m)
  {
    assert m.Keys - m.Keys == {};
    assert (m.Keys - m.Keys) * others == {};
    assert m.Keys - m.Keys - others == {};
  }

  lemma ReservationsStart(c: Codec, d1: Disk)
    ensures Completing(c, d1, d1) && SubMap(d1.reservations, d1.reservations)
    ensures |d1.reservations| <= MAX_RESERVATIONS + MAX_PENDING ==> ScannedReservations(d1, d1.reservations, d1.reservations, 0)
    ensures |d1.reservations| > MAX_RESERVATIONS + MAX_PENDING ==> !ReservationsAccept(d1.reservations)
  {
    hide Completing, SubMap, ScannedRecords, ValidIdentity;
    NothingLeft(d1.reservations, d1.records.Keys);
    CompletingNothing(c, d1);
  }

  lemma InvalidReservation(reservations: map<Identity, Reservation>, id: Identity)
    requires id in reservations && !ValidIdentity(id)
    ensures !ReservationsAccept(reservations)
  {}

  lemma ReservationNext(c: Codec, d1: Disk, todo: map<Identity, Reservation>, d: Disk, count: int, id: Identity)
    requires SubMap(todo, d1.reservations) && id in todo && d == d1.(reservations := d.reservations)
    requires Completing(c, d1, d) && ScannedReservations(d1, todo, d.reservations, count)
    ensures SubMap(todo - {id}, d1.reservations) && id in d1.reservations && |todo - {id}| < |todo|
    ensures id in d.records ==> Completing(c, d1, d.(reservations := d.reservations - {id}))
    ensures ValidIdentity(id) && id in d.records ==>
              ScannedReservations(d1, todo - {id}, d.reservations - {id}, count)
    ensures ValidIdentity(id) && id !in d.records ==> ScannedReservations(d1, todo - {id}, d.reservations, count + 1)
  {
    var done := d1.reservations.Keys - todo.Keys;
    assert id in d1.reservations && id !in done;
    if id in d1.records { CompletingDrop(c, d1, d, id); }
    hide Completing, SubMap;
    SmallerMap(todo, d1.reservations, id);
    DropOne(d1.reservations, done, d1.records.Keys, id);
  }

  lemma SmallerMap<K, V>(todo: map<K, V>, m: map<K, V>, k: K)
    requires SubMap(todo, m) && k in todo
    ensures SubMap(todo - {k}, m) && |todo - {k}| < |todo|
    ensures m.Keys - (todo - {k}).Keys == m.Keys - todo.Keys + {k}
  {
    assert (todo - {k}).Keys == todo.Keys - {k};
    assert |(todo - {k}).Keys| == |todo.Keys| - 1;
  }

  lemma DropOne<K, V>(m: map<K, V>, done: set<K>, stored: set<K>, k: K)
    requires k !in done
    ensures k in stored ==> m - ((done + {k}) * stored) == m - (done * stored) - {k}
    ensures k in stored ==> |done + {k} - stored| == |done - stored|
    ensures k !in stored ==> (done + {k}) * stored == done * stored
    ensures k !in stored ==> |done + {k} - stored| == |done - stored| + 1
  {
    if k in stored {
      assert (done + {k}) * stored == done * stored + {k};
      assert done + {k} - stored == done - stored;
      MinusUnion(m, done * stored, {k});
    } else {
      assert (done + {k}) * stored == done * stored;
      assert done + {k} - stored == done - stored + {k};
    }
  }

  lemma CompletingDrop(c: Codec, d1: Disk, d: Disk, id: Identity)
    requires Completing(c, d1, d) && id in d1.records
    ensures Completing(c, d1, d.(reservations := d.reservations - {id}))
  {
    hide AddedFor, RecordSequences;
  }

  lemma ReservationsFinished(d1: Disk, left: map<Identity, Reservation>, count: int)
    requires ScannedReservations(d1, map[], left, count)
    ensures ReservationsAccept(d1.reservations)
    ensures left == d1.reservations - d1.records.Keys && count == |left|
  {
    hide ValidIdentity;
    assert left == d1.reservations - ((d1.reservations.Keys - {}) * d1.records.Keys);
    assert count == |d1.reservations.Keys - {} - d1.records.Keys|;
    assert ReservationsAccept(d1.reservations);
    hide *;
    MinusKeys(d1.reservations, d1.records.Keys);
  }

  lemma MinusKeys<K, V>(m: map<K, V>, stored: set<K>)
    ensures m - ((m.Keys - {}) * stored) == m - stored
    ensures |m.Keys - {} - stored| == |m - stored|
  {
    assert (m - stored).Keys == m.Keys - {} - stored;
    assert |(m - stored).Keys| == |m - stored|;
  }

  /** The sequence indices after a scan: the old ones, and one per record. */
  predicate Indexed(c: Codec, d1: Disk, seen: set<nat>, pending: map<nat, PendingIndex>) {
    && pending.Keys == d1.pending.Keys + seen
    && (forall id :: id in d1.records ==>
          d1.records[id].sequence in pending && pending[d1.records[id].sequence] == PendingIndexOf(c, d1.records[id]))
  }

  /** The records in `done` have been read and have their sequence indices. */
  ghost predicate ScannedRecords(c: Codec, d1: Disk, done: set<Identity>, seen: set<nat>, pending: map<nat, PendingIndex>) {
    && (forall id :: id in done && id in d1.records ==> ScannedRecord(c, d1, id, pending))
    && seen == SequencesOf(d1.records, done)
    && SubMap(d1.pending, pending)
    && pending.Keys == d1.pending.Keys + seen
  }

  function SequencesOf(records: map<Identity, StoredRecord>, done: set<Identity>): set<nat> {
    set id | id in done && id in records :: records[id].sequence
  }

  predicate ScannedRecord(c: Codec, d1: Disk, id: Identity, pending: map<nat, PendingIndex>)
    requires id in d1.records
  {
    && RecordFileAccepts(c, d1, id)
    && d1.records[id].sequence in pending
    && pending[d1.records[id].sequence] == PendingIndexOf(c, d1.records[id])
  }

  lemma {:induction false} TakeOne(c: Codec, records: map<Identity, StoredRecord>, todo: map<Identity, StoredRecord>, id: Identity)
    requires SubMap(todo, records) && id in todo
    ensures id in records && todo[id] == records[id] && id !in records.Keys - todo.Keys
    ensures SubMap(todo - {id}, records)
    ensures records.Keys - (todo - {id}).Keys == records.Keys - todo.Keys + {id}
    ensures Sum(todo, RecordCharge(c)) == StoredCharge(c, todo[id]) + Sum(todo - {id}, RecordCharge(c))
    ensures |todo - {id}| < |todo|
  {
    SumRemove(todo, RecordCharge(c), id);
    assert (todo - {id}).Keys == todo.Keys - {id};
    assert |(todo - {id}).Keys| == |todo.Keys| - 1;
    hide StoredCharge;
  }

  lemma CompletingNothing(c: Codec, d: Disk)
    ensures Completing(c, d, d)
    ensures d.records.Keys - d.records.Keys == {} && SubMap(d.records, d.records)
    ensures ScannedRecords(c, d, {}, {}, d.pending)
  {}

  /** Adding the missing sequence index of one record is a repair. */
  lemma CompletingOne(c: Codec, d1: Disk, d: Disk, id: Identity)
    requires Completing(c, d1, d) && d == d1.(pending := d.pending) && id in d1.records
    requires d1.records[id].sequence !in d.pending
    ensures Completing(c, d1, d.(pending := d.pending[d1.records[id].sequence := PendingIndexOf(c, d1.records[id])]))
  {
    hide PendingIndexOf;
    assert AddedFor(c, d1.records, d1.records[id].sequence, PendingIndexOf(c, d1.records[id]));
  }

  lemma SequencesOfMore(records: map<Identity, StoredRecord>, done: set<Identity>, id: Identity)
    requires id in records
    ensures SequencesOf(records, done + {id}) == SequencesOf(records, done) + {records[id].sequence}
  {}

  lemma ScannedMore(c: Codec, d1: Disk, done: set<Identity>, seen: set<nat>, pending: map<nat, PendingIndex>,
                    id: Identity, longer: map<nat, PendingIndex>)
    requires ScannedRecords(c, d1, done, seen, pending) && id in d1.records
    requires SubMap(pending, longer) && longer.Keys == pending.Keys + {d1.records[id].sequence}
    requires ScannedRecord(c, d1, id, longer)
    ensures ScannedRecords(c, d1, done + {id}, seen + {d1.records[id].sequence}, longer)
  {
    hide RecordFileAccepts, PendingIndexOf, SequencesOf;
    SequencesOfMore(d1.records, done, id);
    SubMapTransitive(d1.pending, pending, longer);
    forall i | i in done + {id} && i in d1.records ensures ScannedRecord(c, d1, i, longer) {
      if i != id { assert ScannedRecord(c, d1, i, pending); }
    }
    hide SubMap, ScannedRecord;
  }

  lemma AcceptedRecord(c: Codec, d1: Disk, done: set<Identity>, seen: set<nat>, pending: map<nat, PendingIndex>, id: Identity)
    requires ScannedRecords(c, d1, done, seen, pending) && id in d1.records
    requires RecordFileAccepts(c, d1.(pending := pending), id)
    ensures var s := d1.records[id].sequence;
            var p := PendingIndexOf(c, d1.records[id]);
            && (s !in pending ==> ScannedRecords(c, d1, done + {id}, seen + {s}, pending[s := p]))
            && (s in pending ==> ScannedRecords(c, d1, done + {id}, seen + {s}, pending))
  {
    var s := d1.records[id].sequence;
    var longer := if s in pending then pending else pending[s := PendingIndexOf(c, d1.records[id])];
    assert SubMap(pending, longer) && SubMap(d1.pending, pending);
    AcceptedAlone(c, d1, pending, id);
    hide ScannedRecords, RecordFileAccepts, PendingIndexOf, SubMap;
    assert ScannedRecord(c, d1, id, longer);
    hide ScannedRecord;
    ScannedMore(c, d1, done, seen, pending, id, longer);
  }

  lemma AcceptedAlone(c: Codec, d1: Disk, pending: map<nat, PendingIndex>, id: Identity)
    requires id in d1.records && SubMap(d1.pending, pending) && RecordFileAccepts(c, d1.(pending := pending), id)
    ensures RecordFileAccepts(c, d1, id)
    ensures d1.records[id].sequence in pending ==> pending[d1.records[id].sequence] == PendingIndexOf(c, d1.records[id])
  {
    hide ReadableRecord, ValidPendingIndex, PendingIndexOf;
    assert CheckpointSequence(d1.(pending := pending)) == CheckpointSequence(d1);
  }

  lemma RejectedAlone(c: Codec, d1: Disk, pending: map<nat, PendingIndex>, id: Identity)
    requires id in d1.records && SubMap(d1.pending, pending)
    requires RecordFileAccepts(c, d1, id) && !RecordFileAccepts(c, d1.(pending := pending), id)
    ensures d1.records[id].sequence in pending && d1.records[id].sequence !in d1.pending
  {
    hide ReadableRecord, ValidPendingIndex, PendingIndexOf;
    assert CheckpointSequence(d1.(pending := pending)) == CheckpointSequence(d1);
  }

  /** A record that fails only because an earlier one took its sequence number
      breaks the contiguity of the numbers. */
  lemma RejectedRecord(c: Codec, d1: Disk, done: set<Identity>, seen: set<nat>, pending: map<nat, PendingIndex>, id: Identity)
    requires ScannedRecords(c, d1, done, seen, pending) && id in d1.records && id !in done
    requires !RecordFileAccepts(c, d1.(pending := pending), id)
    ensures !(RecordDirectoryAccepts(c, d1) && SequencesContiguous(d1))
  {
    if RecordDirectoryAccepts(c, d1) && SequencesContiguous(d1) {
      RejectedAlone(c, d1, pending, id);
      assert d1.records[id].sequence in SequencesOf(d1.records, done);
      var other :| other in done && other in d1.records && d1.records[other].sequence == d1.records[id].sequence;
      hide *;
      SequencesInjective(d1, id, other);
      assert false;
    }
  }

  /** With as many consecutive numbers as records, no two records share a number. */
  lemma SequencesInjective(d: Disk, a: Identity, b: Identity)
    requires SequencesContiguous(d) && a in d.records && b in d.records && d.records[a].sequence == d.records[b].sequence
    ensures a == b
  {
    if a != b {
      var from := CheckpointSequence(d);
      var rest := d.records - {a};
      SequencesCount(rest);
      assert rest.Keys == d.records.Keys - {a};
      assert RecordSequences(rest) >= RunOf(from, |d.records|) by {
        forall s | s in RunOf(from, |d.records|) ensures s in RecordSequences(rest) {
          RunMember(from, |d.records|, s);
          SequenceElsewhere(d.records, a, b, s);
        }
      }
      RunSize(from, |d.records|);
      SubsetSize(RunOf(from, |d.records|), RecordSequences(rest));
    }
  }

  lemma SequenceElsewhere(records: map<Identity, StoredRecord>, a: Identity, b: Identity, s: nat)
    requires a in records && b in records && a != b && records[a].sequence == records[b].sequence
    requires s in RecordSequences(records)
    ensures s in RecordSequences(records - {a})
  {
    var id :| id in records && records[id].sequence == s;
    var rest := records - {a};
    assert b in rest && rest[b].sequence == records[a].sequence;
    assert id != a ==> id in rest && rest[id].sequence == s;
  }

  function RunOf(from: nat, count: nat): set<nat> {
    if count == 0 then {} else RunOf(from, count - 1) + {from + count}
  }

  lemma {:induction false} RunMember(from: nat, count: nat, s: nat)
    ensures s in RunOf(from, count) <==> from < s <= from + count
  {
    if count > 0 { RunMember(from, count - 1, s); }
  }

  lemma {:induction false} RunSize(from: nat, count: nat)
    ensures |RunOf(from, count)| == count
  {
    if count > 0 {
      RunSize(from, count - 1);
      RunMember(from, count - 1, from + count);
    }
  }

  lemma {:induction false} SequencesCount(records: map<Identity, StoredRecord>)
    ensures |RecordSequences(records)| <= |records|
    decreases |records|
  {
    if records != map[] {
      var id :| id in records;
      SequencesCount(records - {id});
      SequencesOneLess(records, id);
      assert |RecordSequences(records)| <= |RecordSequences(records - {id})| + 1;
      assert (records - {id}).Keys == records.Keys - {id};
    }
  }

  lemma SequencesOneLess(records: map<Identity, StoredRecord>, id: Identity)
    requires id in records
    ensures RecordSequences(records) == RecordSequences(records - {id}) + {records[id].sequence}
  {
    var rest := records - {id};
    forall s | s in RecordSequences(records) ensures s in RecordSequences(rest) + {records[id].sequence} {
      var i :| i in records && records[i].sequence == s;
      if i != id { assert i in rest && rest[i].sequence == s; }
    }
  }

  lemma {:induction false} ScanFinished(c: Codec, d1: Disk, todo: map<Identity, StoredRecord>, seen: set<nat>, pending: map<nat, PendingIndex>)
    requires todo == map[] && ScannedRecords(c, d1, d1.records.Keys - todo.Keys, seen, pending)
    requires |d1.records| <= MAX_PENDING
    ensures RecordDirectoryAccepts(c, d1) && seen == RecordSequences(d1.records) && Indexed(c, d1, seen, pending)
    ensures Sum(todo, RecordCharge(c)) == 0
  {
    hide ScannedRecords, RecordDirectoryAccepts, RecordSequences, Indexed;
    assert d1.records.Keys - todo.Keys == d1.records.Keys;
    AllScanned(c, d1, seen, pending);
  }

  lemma AllScanned(c: Codec, d1: Disk, seen: set<nat>, pending: map<nat, PendingIndex>)
    requires ScannedRecords(c, d1, d1.records.Keys, seen, pending) && |d1.records| <= MAX_PENDING
    ensures RecordDirectoryAccepts(c, d1) && seen == RecordSequences(d1.records) && Indexed(c, d1, seen, pending)
  {
    hide RecordFileAccepts, PendingIndexOf, SubMap, SequencesOf, RecordSequences;
    AllSequences(d1.records);
    forall id | id in d1.records ensures ScannedRecord(c, d1, id, pending) {}
  }

  lemma AllSequences(records: map<Identity, StoredRecord>)
    ensures SequencesOf(records, records.Keys) == RecordSequences(records)
  {}

  /** A publication leaves the transaction, marker and usage files alone. */
  predicate SameOutcome(d0: Disk, d: Disk) { d.txn == d0.txn && d.marker == d0.marker && d.usage == d0.usage }

  lemma RemovedOutcome(d0: Disk, refs: seq<AckRef>, i: nat)
    requires i <= |refs|
    ensures var d := RemovedTo(d0, refs, i);
            && SameOutcome(d0, d) && d.opIndex == d0.opIndex && d.checkpoint == d0.checkpoint
            && d.descriptor == d0.descriptor && d.reservations == d0.reservations
    ensures forall d: Disk :: SameOutcome(d0, d) <==> d.txn == d0.txn && d.marker == d0.marker && d.usage == d0.usage
  {}

  lemma StartOfApplication(c: Codec, d0: Disk, t: Transaction)
    requires ApplyAccepts(d0, t)
    ensures Progress(c, d0, t, d0) && SameOutcome(d0, d0)
  {
    RemovedAll(d0, t.records);
    RemovingIsProgress(c, d0, t, 0, false);
    hide ApplyAccepts, Progress, RemovedTo;
  }

  /** The last two writes, with and without the ones a replay leaves out. */
  lemma EndOfApplication(c: Codec, d0: Disk, t: Transaction)
    requires ApplyAccepts(d0, t)
    ensures var e := ApplyTransaction(c, d0, t);
            var indexed := RemovedTo(d0, t.records, |t.records|).(opIndex := d0.opIndex + FinalIndices(t.records, t.confirmation));
            && Progress(c, d0, t, indexed) && SameOutcome(d0, indexed) && SameOutcome(d0, e)
            && Progress(c, d0, t, e.(descriptor := d0.descriptor)) && Progress(c, d0, t, e)
            && (IsReplay(d0, t) ==> e.checkpoint == d0.checkpoint)
            && (!IsReplay(d0, t) ==> e.checkpoint == Some(NextCheckpoint(c, d0, t)))
            && e == indexed.(checkpoint := e.checkpoint, descriptor := None)
  {
    RemovedAll(d0, t.records);
    MixedOverlay(d0.opIndex, FinalIndices(t.records, t.confirmation));
    IndexingIsProgress(c, d0, t, d0.opIndex + FinalIndices(t.records, t.confirmation));
    CheckpointIsProgress(c, d0, t);
    FinishedIsProgress(c, d0, t);
    hide ApplyAccepts, Progress, RemovedTo, FinalIndices, NextCheckpoint, IsReplay, Mixed;
  }

  lemma FinalIndicesCover(t: Transaction)
    requires ValidTransaction(t)
    ensures forall i :: 0 <= i < |t.changes| ==> t.changes[i].key in FinalIndices(t.records, t.confirmation)
  {
    FinalIndicesKeys(t.records, t.confirmation);
    forall i | 0 <= i < |t.changes| ensures t.changes[i].key in Keys(t.records) {
      assert ValidChange(t.changes[i], t.records);
    }
  }

  /** Among ordered records the latest of an operation has its highest generation. */
  lemma {:induction false} LatestIsHighest(refs: seq<AckRef>, confirmation: Confirmation, k: OperationKey)
    requires GenerationsIncrease(refs)
    ensures var final := FinalIndices(refs, confirmation);
            && (k in final ==> exists j :: 0 <= j < |refs| && KeyOf(refs[j].id) == k && final[k].identity == refs[j].id)
            && (forall j :: 0 <= j < |refs| && KeyOf(refs[j].id) == k
                  ==> k in final && refs[j].id.generation <= final[k].identity.generation)
  {
    if |refs| > 0 {
      var shorter := refs[..|refs| - 1];
      LatestIsHighest(shorter, confirmation, k);
      var final := FinalIndices(shorter, confirmation);
      if k in final {
        var j :| 0 <= j < |shorter| && KeyOf(shorter[j].id) == k && final[k].identity == shorter[j].id;
        assert refs[j] == shorter[j];
      }
      assert forall j {:trigger refs[j]} :: 0 <= j < |refs| - 1 ==> refs[j] == shorter[j];
    }
  }

  /** Comparing one more record with its operation's latest decides the order of all. */
  lemma {:induction false} LatestDecides(refs: seq<AckRef>, confirmation: Confirmation, i: nat)
    requires i < |refs| && GenerationsIncrease(refs[..i])
    ensures var latest := FinalIndices(refs[..i], confirmation);
            var k := KeyOf(refs[i].id);
            && (k in latest && latest[k].identity.generation >= refs[i].id.generation ==> !GenerationsIncrease(refs))
            && (!(k in latest && latest[k].identity.generation >= refs[i].id.generation) ==> GenerationsIncrease(refs[..i + 1]))
  {
    var latest := FinalIndices(refs[..i], confirmation);
    var k := KeyOf(refs[i].id);
    LatestIsHighest(refs[..i], confirmation, k);
    if k in latest && latest[k].identity.generation >= refs[i].id.generation {
      var j :| 0 <= j < i && KeyOf(refs[..i][j].id) == k && latest[k].identity == refs[..i][j].id;
      assert refs[j].id.generation >= refs[i].id.generation;
    } else {
      var longer := refs[..i + 1];
      forall a, b | 0 <= a < b < |longer| && KeyOf(longer[a].id) == KeyOf(longer[b].id)
        ensures longer[a].id.generation < longer[b].id.generation
      {
        assert refs[..i][a] == refs[a];
        if b < i { assert refs[..i][b] == refs[b]; }
      }
    }
  }
}
