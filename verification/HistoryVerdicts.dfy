/** What the store's answers mean in terms of the log and of the room there is: when a
    reservation is given, when a record is taken, and why one is refused. */
module HistoryVerdicts {
  import opened Foundations
  import opened HistoryModel
  import opened HistoryInvariant
  import opened HistoryPublication
  import opened HistoryAccounting
  import opened HistoryRecovery
  import opened HistorySteps
  import opened HistoryBatch
  import opened HistoryStore
  import opened HistoryResults

  // ---------------------------------------------------------------------
  // Room for a reservation
  // ---------------------------------------------------------------------

  /** The store counts an operation once for each of its files, so it stops reserving for
      new operations before there are MAX_KEYS of them. */
  predicate KeysLeft(d: Disk, id: Identity) {
    KeyOf(id) in d.opIndex || |d.opIndex| + |d.records| + |d.reservations| < MAX_KEYS
  }

  /** A fresh attempt gets its reservation exactly if the directory with it would still
      pass the capacity test of a rebuild and the operation's key is not one too many. In
      terms of the byte bound: exactly if that is kept with the frozen descriptor counted
      in; which without a descriptor is the byte bound itself. */
  lemma AdmittedIff(c: Codec, maximum: int, d: Disk, log: seq<AckRef>, id: Identity, r: Reservation)
    requires Full(c, d, log) && Bounded(c, maximum, d)
    requires ValidIdentity(id) && NotStale(d.opIndex, id) && id !in d.records && id !in d.reservations
    ensures var e := WithReservation(d, id, r);
            var verdict := ReserveVerdict(c, maximum, d, id);
            var room := UsedBytes(c, d) + (|d.reservations| + 1) * RESERVED_BYTES + HEADROOM <= maximum;
            && (verdict.None? || verdict == Some(Capacity))
            && (verdict.None? <==> Fits(c, maximum, e) && KeysLeft(d, id))
            && (verdict.None? <==> Bounded(c, maximum, e) && room && KeysLeft(d, id))
            && (d.descriptor.None? && KeysLeft(d, id) ==> (verdict.None? <==> Bounded(c, maximum, e)))
  {
    hide *;
    var e := WithReservation(d, id, r);
    FullReservations(c, d, log);
    ReserveFields(c, d, id, r);
    IndexKeysBounded(c, maximum, d);
    if KeysLeft(d, id) { KeysStay(c, maximum, d, id, r); }
    AdmittedFresh(c, maximum, d, id);
    AdmittedCounts(c, maximum, d, e, id);
  }

  lemma KeysStay(c: Codec, maximum: int, d: Disk, id: Identity, r: Reservation)
    requires Bounded(c, maximum, d) && KeysLeft(d, id)
    ensures |OperationKeys(WithReservation(d, id, r))| <= MAX_KEYS
  {
    ReserveKeys(d, id, r);
    hide OperationKeys, UsedBytes;
  }

  lemma AdmittedFresh(c: Codec, maximum: int, d: Disk, id: Identity)
    requires ValidIdentity(id) && NotStale(d.opIndex, id) && id !in d.records && id !in d.reservations
    ensures ReserveVerdict(c, maximum, d, id)
            == if AdmitsReservation(Scan(c, maximum, d, 0), maximum, KeyOf(id) in d.opIndex) then None else Some(Capacity)
  {
    hide AdmitsReservation, Scan, ValidIdentity, NotStale;
  }

  lemma AdmittedCounts(c: Codec, maximum: int, d: Disk, e: Disk, id: Identity)
    requires Bounded(c, maximum, d) && |d.opIndex| <= MAX_KEYS
    requires e == d.(reservations := e.reservations) && |e.reservations| == |d.reservations| + 1
    requires UsedBytes(c, e) == UsedBytes(c, d)
    requires KeysLeft(d, id) ==> |OperationKeys(e)| <= MAX_KEYS
    ensures var admitted := AdmitsReservation(Scan(c, maximum, d, 0), maximum, KeyOf(id) in d.opIndex);
            var room := UsedBytes(c, d) + (|d.reservations| + 1) * RESERVED_BYTES + HEADROOM <= maximum;
            && (admitted <==> Fits(c, maximum, e) && KeysLeft(d, id))
            && (admitted <==> Bounded(c, maximum, e) && room && KeysLeft(d, id))
            && (d.descriptor.None? && KeysLeft(d, id) ==> (admitted <==> Bounded(c, maximum, e)))
  {
    hide UsedBytes, OperationKeys;
  }

  // ---------------------------------------------------------------------
  // Where an identity stands in the log
  // ---------------------------------------------------------------------

  /** A published record of the operation is as new or newer. */
  ghost predicate Overtaken(b: Disk, log: seq<AckRef>, id: Identity) {
    exists s :: 0 < s <= CheckpointSequence(b) && s <= |log| && KeyOf(At(log, s).id) == KeyOf(id)
                && At(log, s).id.generation >= id.generation
  }

  ghost predicate Pending(b: Disk, log: seq<AckRef>, id: Identity) {
    exists s :: CheckpointSequence(b) < s <= |log| && At(log, s).id == id
  }

  lemma StaleIsOvertaken(b: Disk, log: seq<AckRef>, id: Identity, from: nat)
    requires GenerationsIncrease(log) && from == CheckpointSequence(b) <= |log|
    requires IndexWithin(b.opIndex, from, log) && IndexCover(b.opIndex, from, log)
    ensures NotStale(b.opIndex, id) <==> !Overtaken(b, log, id)
  {
    var k := KeyOf(id);
    if k in b.opIndex {
      var t := b.opIndex[k].sequence;
      assert 0 < t <= from && b.opIndex[k].identity == At(log, t).id && KeyOf(At(log, t).id) == k;
    }
    hide IndexWithin, KeyOf;
    if Overtaken(b, log, id) {
      var s :| 0 < s <= from && KeyOf(At(log, s).id) == k && At(log, s).id.generation >= id.generation;
      var t := b.opIndex[k].sequence;
      assert t >= s;
      assert KeyOf(log[s - 1].id) == KeyOf(log[t - 1].id);
    }
  }

  lemma StoredIsPending(records: map<Identity, StoredRecord>, b: Disk, log: seq<AckRef>, id: Identity, from: nat)
    requires from == CheckpointSequence(b) <= |log|
    requires RecordsWithin(records, from, log) && RecordsCover(records, from, log)
    ensures id in records <==> Pending(b, log, id)
  {
    if id in records { assert RecordFits(id, records[id], from, log); }
  }

  /** A reservation is refused as stale exactly if the operation has published a record as
      new, as taken exactly if the attempt's own record is pending, and held again by
      whoever holds it. */
  lemma RefusedByLog(c: Codec, maximum: int, d: Disk, log: seq<AckRef>, id: Identity)
    requires Full(c, d, log) && ValidIdentity(id)
    ensures var verdict := ReserveVerdict(c, maximum, d, id);
            && (verdict == Some(Stale) <==> Overtaken(d, log, id))
            && (verdict == Some(Reserved) <==> !Overtaken(d, log, id) && Pending(d, log, id))
            && (verdict == Some(Capacity) ==> id !in d.reservations)
            && (id in d.reservations && !Overtaken(d, log, id) ==> verdict.None?)
  {
    hide *;
    FullLog(c, d, log);
    StaleIsOvertaken(d, log, id, CheckpointSequence(d));
    StoredIsPending(d.records, d, log, id, CheckpointSequence(d));
    VerdictSteps(c, maximum, d, log, id);
  }

  lemma VerdictSteps(c: Codec, maximum: int, d: Disk, log: seq<AckRef>, id: Identity)
    requires ValidIdentity(id) && d.reservations.Keys !! d.records.Keys
    ensures var verdict := ReserveVerdict(c, maximum, d, id);
            && (verdict == Some(Stale) <==> !NotStale(d.opIndex, id))
            && (verdict == Some(Reserved) <==> NotStale(d.opIndex, id) && id in d.records)
            && (verdict == Some(Capacity) ==> id !in d.reservations)
            && (id in d.reservations && NotStale(d.opIndex, id) ==> verdict.None?)
  {
    hide NotStale, AdmitsReservation, Scan, ValidIdentity;
    assert id in d.reservations.Keys ==> id !in d.records.Keys;
  }

  // ---------------------------------------------------------------------
  // Answers to an append
  // ---------------------------------------------------------------------

  /** The log entry of the attempt, if it is pending or the operation's latest publication. */
  ghost predicate Standing(b: Disk, log: seq<AckRef>, id: Identity, r: AckRef) {
    exists s :: 0 < s <= |log| && At(log, s) == r && r.id == id && Verifiable(b, log, s)
  }

  /** What the files say of the attempt. */
  function FiledAs(d: Disk, id: Identity): Option<(RecordDigest, int)> {
    if id in d.records then Some((d.records[id].sha, d.records[id].appendedAt))
    else if IndexedAs(d.opIndex, id) then Some((d.opIndex[KeyOf(id)].sha, d.opIndex[KeyOf(id)].appendedAt))
    else None
  }

  lemma FiledStands(b: Disk, log: seq<AckRef>, id: Identity, from: nat) returns (s: nat)
    requires from == CheckpointSequence(b) <= |log| && FiledAs(b, id).Some?
    requires RecordsWithin(b.records, from, log) && IndexWithin(b.opIndex, from, log) && IndexCover(b.opIndex, from, log)
    ensures 0 < s <= |log| && At(log, s).id == id && Verifiable(b, log, s)
    ensures FiledAs(b, id) == Some((At(log, s).sha, At(log, s).appendedAt))
  {
    if id in b.records {
      s := b.records[id].sequence;
      assert RecordFits(id, b.records[id], from, log);
    } else {
      s := b.opIndex[KeyOf(id)].sequence;
      hide RecordsWithin, KeyOf;
    }
  }

  lemma StandingIsFiled(b: Disk, log: seq<AckRef>, id: Identity, from: nat, s: nat)
    requires from == CheckpointSequence(b) <= |log| && GenerationsIncrease(log)
    requires 0 < s <= |log| && At(log, s).id == id && Verifiable(b, log, s)
    requires RecordsWithin(b.records, from, log) && RecordsCover(b.records, from, log)
    requires IndexWithin(b.opIndex, from, log) && IndexCover(b.opIndex, from, log)
    ensures FiledAs(b, id) == Some((At(log, s).sha, At(log, s).appendedAt))
  {
    if s > from {
      assert b.records[id] == StoredOf(At(log, s));
    } else {
      NotPendingBefore(b.records, from, log, s);
      hide RecordsWithin, RecordsCover, GenerationsIncrease, KeyOf;
      assert b.opIndex[KeyOf(id)].sequence == s;
    }
  }

  lemma FiledIsStanding(b: Disk, log: seq<AckRef>, id: Identity, from: nat)
    requires from == CheckpointSequence(b) <= |log| && GenerationsIncrease(log)
    requires RecordsWithin(b.records, from, log) && RecordsCover(b.records, from, log)
    requires IndexWithin(b.opIndex, from, log) && IndexCover(b.opIndex, from, log)
    ensures FiledAs(b, id).None? ==> forall r :: !Standing(b, log, id, r)
    ensures FiledAs(b, id).Some? ==>
              var (sha, at) := FiledAs(b, id).value;
              && (exists r :: Standing(b, log, id, r))
              && forall r :: Standing(b, log, id, r) ==> r.sha == sha && r.appendedAt == at
  {
    hide RecordsWithin, RecordsCover, IndexWithin, IndexCover, GenerationsIncrease, Verifiable, FiledAs, CheckpointSequence;
    if FiledAs(b, id).Some? {
      var s := FiledStands(b, log, id, from);
      assert Standing(b, log, id, At(log, s));
    }
    forall r | Standing(b, log, id, r) ensures FiledAs(b, id) == Some((r.sha, r.appendedAt)) {
      var s :| 0 < s <= |log| && At(log, s) == r && r.id == id && Verifiable(b, log, s);
      StandingIsFiled(b, log, id, from, s);
    }
  }

  /** There is a number left for the record, its index entry is well formed, and its files
      are not larger than what a reservation stands for. */
  predicate Storable(c: Codec, record: Record, now: int, next: nat) {
    var s := StoredRecord(record, RecordDigest(record), next, now);
    next < MAX_UINT64 && ValidPendingIndex(PendingIndexOf(c, s), next) && StoredCharge(c, s) <= RESERVED_BYTES
  }

  /** Every answer to an append. A record the log already has is recognised, with the time
      it was appended, as long as it is pending or the operation's latest publication;
      another record of the same attempt is a conflict; and what is stored carries the
      next number and the time of this append. */
  lemma AppendByLog(c: Codec, b: Disk, log: seq<AckRef>, grant: Grant, record: Record, now: int, next: nat)
    requires Full(c, b, log) && ValidRecord(record) && Matches(grant, record.identity) && next <= MAX_UINT64
    ensures var id, sha := record.identity, RecordDigest(record);
            var held := id in b.reservations && b.reservations[id].token == grant.token;
            match AppendDecision(c, b, grant, record, now, next)
            case Known(at) => exists r :: Standing(b, log, id, r) && r.sha == sha && r.appendedAt == at
            case Store(s) =>
              && s == StoredRecord(record, sha, next, now) && held && !Overtaken(b, log, id)
              && (forall r :: !Standing(b, log, id, r)) && StoredCharge(c, s) <= RESERVED_BYTES
            case Refuse(error) =>
              && (error == Conflict <==> exists r :: Standing(b, log, id, r) && r.sha != sha)
              && (error == Stale <==> Overtaken(b, log, id) && forall r :: !Standing(b, log, id, r))
              && (error == Reserved <==> !held && !Overtaken(b, log, id) && forall r :: !Standing(b, log, id, r))
              && (error in {Capacity, Unavailable} <==>
                    held && !Overtaken(b, log, id) && (forall r :: !Standing(b, log, id, r)) && !Storable(c, record, now, next))
              && error in {Conflict, Stale, Reserved, Capacity, Unavailable}
  {
    hide *;
    FullLog(c, b, log);
    StaleIsOvertaken(b, log, record.identity, CheckpointSequence(b));
    FiledIsStanding(b, log, record.identity, CheckpointSequence(b));
    DecisionSteps(c, b, grant, record, now, next);
  }

  lemma DecisionSteps(c: Codec, b: Disk, grant: Grant, record: Record, now: int, next: nat)
    requires ValidRecord(record) && Matches(grant, record.identity) && next <= MAX_UINT64
    ensures var id, sha := record.identity, RecordDigest(record);
            var held := id in b.reservations && b.reservations[id].token == grant.token;
            var filed := FiledAs(b, id);
            match AppendDecision(c, b, grant, record, now, next)
            case Known(at) => filed == Some((sha, at))
            case Store(s) =>
              && s == StoredRecord(record, sha, next, now) && held && NotStale(b.opIndex, id) && filed.None?
              && StoredCharge(c, s) <= RESERVED_BYTES
            case Refuse(error) =>
              && (error == Conflict <==> filed.Some? && filed.value.0 != sha)
              && (error == Stale <==> !NotStale(b.opIndex, id) && filed.None?)
              && (error == Reserved <==> !held && NotStale(b.opIndex, id) && filed.None?)
              && (error in {Capacity, Unavailable} <==> held && NotStale(b.opIndex, id) && filed.None? && !Storable(c, record, now, next))
              && error in {Conflict, Stale, Reserved, Capacity, Unavailable}
  {
    hide ValidRecord, Matches, NotStale, ValidPendingIndex, PendingIndexOf, StoredCharge;
  }

  // ---------------------------------------------------------------------
  // Giving a reservation back, and acknowledging
  // ---------------------------------------------------------------------

  /** A reservation that has just been given can be given back, and then nothing of it is
      left; whoever holds another token cannot take it. */
  lemma ReserveCancelRoundTrip(c: Codec, maximum: int, d: Disk, id: Identity, token: string, now: int, other: string)
    requires ReserveVerdict(c, maximum, d, id).None? && id !in d.reservations && token != "" && other != token
    ensures var e := AfterReserve(c, maximum, d, id, Reservation(token, now));
            && CancelVerdict(e, id, Grant(id, token)).None? && WithoutReservation(e, id) == d
            && CancelVerdict(e, id, Grant(id, other)) == Some(HistoryError.Reserved)
  {
    hide NotStale, AdmitsReservation, Scan;
    assert (d.reservations[id := Reservation(token, now)] - {id}) == d.reservations;
  }

  /** A cancellation is refused exactly if the record is already there, or somebody else's
      token holds the reservation. */
  lemma CancelByLog(c: Codec, d: Disk, log: seq<AckRef>, id: Identity, grant: Grant)
    requires Full(c, d, log) && Matches(grant, id)
    ensures CancelVerdict(d, id, grant).Some?
            <==> Pending(d, log, id) || (id in d.reservations && d.reservations[id].token != grant.token)
  {
    hide *;
    FullLog(c, d, log);
    StoredIsPending(d.records, d, log, id, CheckpointSequence(d));
    CancelSteps(d, id, grant);
  }

  lemma CancelSteps(d: Disk, id: Identity, grant: Grant)
    requires Matches(grant, id) && d.reservations.Keys !! d.records.Keys
    ensures CancelVerdict(d, id, grant).Some? <==> id in d.records || (id in d.reservations && d.reservations[id].token != grant.token)
  {
    hide Matches;
    assert id in d.reservations.Keys ==> id !in d.records.Keys;
  }

  /** The current batch with a confirmation that was read back for it is always taken, as
      long as its two files are not too large. */
  lemma AcknowledgeIsTaken(c: Codec, d: Disk, log: seq<AckRef>, batch: seq<AckRef>, confirmation: Confirmation, error: HistoryError)
    requires IsCurrent(c, d, log, batch) && ValidAcknowledgement(c, batch, confirmation)
    requires !DescriptorTooLarge(c, d, log)
    requires FileCharge(c.transaction(TransactionOf(d.(descriptor := Some(batch)), confirmation))) <= MAX_TRANSACTION_FILE
    ensures !AcknowledgeRefused(c, d, log, batch, confirmation, error)
  {
    hide IsCurrent, ValidAcknowledgement, DescriptorTooLarge, FileCharge;
  }

  /** Right after a publication its acknowledgement can be repeated with exactly the
      confirmations of the same published artifact, whenever they were verified; any other
      is a conflict. */
  lemma RepeatIsAnswered(c: Codec, b: Disk, t: Transaction, other: Confirmation)
    requires TransactionFor(b, t) && |t.records| > 0
    ensures var e := ApplyTransaction(c, b, t);
            Retired(e, t.records, other) <==>
              && other.batch == t.confirmation.batch && other.datasetRepo == t.confirmation.datasetRepo
              && other.revision == t.confirmation.revision && other.manifestSha == t.confirmation.manifestSha
              && other.recordsSha == t.confirmation.recordsSha
  {
    assert !IsReplay(b, t) && ApplyAccepts(b, t);
    hide ApplyAccepts, IsReplay, ChangesFor, Advance, FinalIndices, TransactionFor;
  }
}
