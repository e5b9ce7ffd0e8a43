/** The commits: how each operation's decisive write moves the complete directory
    and the log, and what that does to a full scan. */
module HistorySteps {
  import opened Foundations
  import opened HistoryModel
  import opened HistoryReplay
  import opened HistoryInvariant
  import opened HistoryPublication
  import opened HistoryAccounting
  import opened HistoryRecovery

  // ---------------------------------------------------------------------
  // Reserving and releasing capacity
  // ---------------------------------------------------------------------

  function WithReservation(b: Disk, id: Identity, r: Reservation): Disk { b.(reservations := b.reservations[id := r]) }

  function WithoutReservation(b: Disk, id: Identity): Disk { b.(reservations := b.reservations - {id}) }

  /** The capacity test of a new reservation. */
  predicate AdmitsReservation(u: Usage, maximum: int, indexed: bool) {
    && u.records + u.reservations < MAX_PENDING
    && u.reservations < MAX_RESERVATIONS
    && (u.keys + u.records + u.reservations < MAX_KEYS || indexed)
    && u.used + u.reserved + RESERVED_BYTES + HEADROOM <= maximum
  }

  lemma {:induction false} KeysOfCount<V>(m: map<Identity, V>)
    ensures |KeysOf(m)| <= |m|
    decreases |m|
  {
    if m != map[] {
      var k :| k in m;
      KeysOfCount(m - {k});
      assert KeysOf(m) == KeysOf(m - {k}) + {KeyOf(k)};
      assert |KeysOf(m)| <= |KeysOf(m - {k})| + 1;
      assert (m - {k}).Keys == m.Keys - {k};
    }
  }

  lemma SumOfThree(a: set<OperationKey>, b: set<OperationKey>, c: set<OperationKey>)
    ensures |a + b + c| <= |a| + |b| + |c|
  {}

  /** No more operations are named in the directory than it has files. */
  lemma OperationKeysCount(b: Disk)
    ensures |OperationKeys(b)| <= |b.opIndex| + |b.records| + |b.reservations|
  {
    KeysOfCount(b.records);
    KeysOfCount(b.reservations);
    SumOfThree(b.opIndex.Keys, KeysOf(b.records), KeysOf(b.reservations));
    assert |b.opIndex.Keys| == |b.opIndex|;
  }

  lemma OneMoreKey(b: Disk, id: Identity, r: Reservation)
    ensures OperationKeys(WithReservation(b, id, r)) <= OperationKeys(b) + {KeyOf(id)}
  {}

  lemma ReserveKeys(b: Disk, id: Identity, r: Reservation)
    requires |b.opIndex| + |b.records| + |b.reservations| < MAX_KEYS || KeyOf(id) in b.opIndex
    requires |OperationKeys(b)| <= MAX_KEYS
    ensures |OperationKeys(WithReservation(b, id, r))| <= MAX_KEYS
  {
    OneMoreKey(b, id, r);
    OperationKeysCount(b);
    assert KeyOf(id) in b.opIndex ==> KeyOf(id) in OperationKeys(b);
    hide OperationKeys, WithReservation;
    SubsetSize(OperationKeys(WithReservation(b, id, r)), OperationKeys(b) + {KeyOf(id)});
    assert KeyOf(id) in OperationKeys(b) ==> OperationKeys(b) + {KeyOf(id)} == OperationKeys(b);
  }

  lemma ReservationsKeepFull(c: Codec, b: Disk, log: seq<AckRef>, reservations: map<Identity, Reservation>)
    requires Full(c, b, log)
    requires ReservationsOk(reservations) && reservations.Keys !! b.records.Keys
    ensures Full(c, b.(reservations := reservations), log)
  {
    hide LogOk, RecordsWithin, RecordsCover, PendingWithin, PendingCover, IndexWithin, IndexCover, CheckpointMatches,
         DescriptorMatches;
    assert CheckpointSequence(b.(reservations := reservations)) == CheckpointSequence(b);
  }

  lemma ScanReservations(c: Codec, maximum: int, b: Disk, blocked: int, reservations: map<Identity, Reservation>, more: int)
    requires |reservations| == |b.reservations| + more
    ensures var u := Scan(c, maximum, b, blocked);
            Scan(c, maximum, b.(reservations := reservations), blocked)
            == u.(reserved := u.reserved + more * RESERVED_BYTES, reservations := u.reservations + more)
  {}

  /** A reservation that passes the capacity test keeps the invariant, and the
      incremental counters are the full scan's. */
  lemma ReserveKeeps(c: Codec, maximum: int, b: Disk, log: seq<AckRef>, id: Identity, r: Reservation, blocked: int)
    requires Full(c, b, log) && Bounded(c, maximum, b)
    requires ValidIdentity(id) && id !in b.records && id !in b.reservations
    requires AdmitsReservation(Scan(c, maximum, b, blocked), maximum, KeyOf(id) in b.opIndex)
    ensures var e := WithReservation(b, id, r);
            var u := Scan(c, maximum, b, blocked);
            && Full(c, e, log) && Bounded(c, maximum, e)
            && Scan(c, maximum, e, blocked)
               == u.(reserved := u.reserved + RESERVED_BYTES, reservations := u.reservations + 1)
  {
    hide *;
    var e := WithReservation(b, id, r);
    FullReservations(c, b, log);
    ReserveFields(c, b, id, r);
    ReservationsKeepFull(c, b, log, e.reservations);
    ScanReservations(c, maximum, b, blocked, e.reservations, 1);
    AdmittedKeys(c, maximum, b, id, r, blocked);
    AdmittedIsBounded(c, maximum, b, e, KeyOf(id) in b.opIndex, blocked);
  }

  lemma ReserveFields(c: Codec, b: Disk, id: Identity, r: Reservation)
    requires ReservationsOk(b.reservations) && b.reservations.Keys !! b.records.Keys
    requires ValidIdentity(id) && id !in b.records && id !in b.reservations
    ensures var e := WithReservation(b, id, r);
            && e == b.(reservations := e.reservations)
            && ReservationsOk(e.reservations) && e.reservations.Keys !! b.records.Keys
            && |e.reservations| == |b.reservations| + 1
            && UsedBytes(c, e) == UsedBytes(c, b)
  {}

  lemma AdmittedKeys(c: Codec, maximum: int, b: Disk, id: Identity, r: Reservation, blocked: int)
    requires Bounded(c, maximum, b)
    requires AdmitsReservation(Scan(c, maximum, b, blocked), maximum, KeyOf(id) in b.opIndex)
    ensures |OperationKeys(WithReservation(b, id, r))| <= MAX_KEYS
  {
    ReserveKeys(b, id, r);
    hide UsedBytes, OperationKeys;
  }

  lemma AdmittedIsBounded(c: Codec, maximum: int, b: Disk, e: Disk, indexed: bool, blocked: int)
    requires AdmitsReservation(Scan(c, maximum, b, blocked), maximum, indexed)
    requires UsedBytes(c, e) == UsedBytes(c, b) && e.records == b.records && e.descriptor == b.descriptor
    requires |e.reservations| == |b.reservations| + 1 && |OperationKeys(e)| <= MAX_KEYS
    ensures Bounded(c, maximum, e)
  {
    hide UsedBytes, OperationKeys;
  }

  lemma FullReservations(c: Codec, b: Disk, log: seq<AckRef>)
    requires Full(c, b, log)
    ensures ReservationsOk(b.reservations) && b.reservations.Keys !! b.records.Keys
  {}

  lemma ReleaseKeys(b: Disk, id: Identity)
    ensures OperationKeys(WithoutReservation(b, id)) <= OperationKeys(b)
  {}

  /** Releasing a reservation keeps the invariant, and the counters stay the scan's. */
  lemma CancelKeeps(c: Codec, maximum: int, b: Disk, log: seq<AckRef>, id: Identity, blocked: int)
    requires Full(c, b, log) && Bounded(c, maximum, b) && id in b.reservations
    ensures var e := WithoutReservation(b, id);
            var u := Scan(c, maximum, b, blocked);
            && Full(c, e, log) && Bounded(c, maximum, e)
            && Scan(c, maximum, e, blocked)
               == u.(reserved := u.reserved - RESERVED_BYTES, reservations := u.reservations - 1)
  {
    hide *;
    var e := WithoutReservation(b, id);
    FullReservations(c, b, log);
    ReleaseFields(c, b, id);
    ReservationsKeepFull(c, b, log, e.reservations);
    ScanReservations(c, maximum, b, blocked, e.reservations, -1);
    ReleaseKeys(b, id);
    SubsetSize(OperationKeys(e), OperationKeys(b));
    BoundedSmaller(c, maximum, b, e);
  }

  lemma ReleaseFields(c: Codec, b: Disk, id: Identity)
    requires ReservationsOk(b.reservations) && b.reservations.Keys !! b.records.Keys && id in b.reservations
    ensures var e := WithoutReservation(b, id);
            && e == b.(reservations := e.reservations)
            && ReservationsOk(e.reservations) && e.reservations.Keys !! b.records.Keys
            && |e.reservations| == |b.reservations| - 1
            && UsedBytes(c, e) == UsedBytes(c, b)
  {
    var e := WithoutReservation(b, id);
    assert e.reservations.Keys == b.reservations.Keys - {id};
    assert |e.reservations.Keys| == |b.reservations.Keys| - 1;
  }

  // ---------------------------------------------------------------------
  // Freezing a batch
  // ---------------------------------------------------------------------

  lemma FreezeFields(c: Codec, maximum: int, b: Disk, refs: seq<AckRef>, blocked: int)
    requires b.descriptor.None? && Bounded(c, maximum, b)
    ensures var e := b.(descriptor := Some(refs));
            var u := Scan(c, maximum, b, blocked);
            Bounded(c, maximum, e) && Scan(c, maximum, e, blocked) == u.(used := u.used + FileCharge(c.descriptor(refs)))
  {
    hide *;
    var e := b.(descriptor := Some(refs));
    OperationKeysOnly(b, e);
    FreezeUsed(c, b, refs);
    BoundedSmaller(c, maximum, b, e);
    ScanUsed(c, maximum, b, e, blocked);
  }

  lemma ScanUsed(c: Codec, maximum: int, b: Disk, e: Disk, blocked: int)
    requires e.records == b.records && e.reservations == b.reservations && e.opIndex == b.opIndex
    requires e.checkpoint == b.checkpoint
    ensures Scan(c, maximum, e, blocked) == Scan(c, maximum, b, blocked).(used := UsedBytes(c, e))
    ensures Scan(c, maximum, b, blocked).used == UsedBytes(c, b)
  {
    hide UsedBytes;
  }

  lemma FreezeUsed(c: Codec, b: Disk, refs: seq<AckRef>)
    requires b.descriptor.None?
    ensures var e := b.(descriptor := Some(refs));
            && UsedBytes(c, e) == UsedBytes(c, b) + FileCharge(c.descriptor(refs))
            && DescriptorCharge(c, e.descriptor) == FileCharge(c.descriptor(refs))
            && DescriptorCharge(c, b.descriptor) == 0
  {}

  /** Freezing keeps the byte bound, which leaves the descriptor out, and adds
      exactly the descriptor's charge to the scan. */
  lemma FreezeKeeps(c: Codec, maximum: int, b: Disk, log: seq<AckRef>, refs: seq<AckRef>, blocked: int)
    requires Full(c, b, log) && Bounded(c, maximum, b) && b.descriptor.None?
    requires BatchMatches(c, refs, CheckpointSequence(b), log)
    ensures var e := b.(descriptor := Some(refs));
            var u := Scan(c, maximum, b, blocked);
            && Full(c, e, log) && Bounded(c, maximum, e)
            && Scan(c, maximum, e, blocked) == u.(used := u.used + FileCharge(c.descriptor(refs)))
  {
    hide LogOk, RecordsWithin, RecordsCover, PendingWithin, PendingCover, IndexWithin, IndexCover, CheckpointMatches,
         BatchMatches, Bounded, Scan;
    FreezeFields(c, maximum, b, refs, blocked);
    assert CheckpointSequence(b.(descriptor := Some(refs))) == CheckpointSequence(b);
  }

  // ---------------------------------------------------------------------
  // Appending a record
  // ---------------------------------------------------------------------

  function RefOf(s: StoredRecord): AckRef { AckRef(s.record.identity, s.sha, s.sequence, s.appendedAt) }

  function Appended(c: Codec, b: Disk, s: StoredRecord): Disk {
    var id := s.record.identity;
    b.(records := b.records[id := s],
       pending := b.pending[s.sequence := PendingIndexOf(c, s)],
       reservations := b.reservations - {id})
  }

  /** What the callers of append see to: the attempts of one operation are
      appended in the order of their generations. */
  predicate InOrder(records: map<Identity, StoredRecord>, id: Identity) {
    forall p :: p in records && KeyOf(p) == KeyOf(id) ==> p.generation < id.generation
  }

  /** What the store itself checks against the published index. */
  predicate NotStale(opIndex: map<OperationKey, OperationIndex>, id: Identity) {
    KeyOf(id) in opIndex ==> opIndex[KeyOf(id)].identity.generation < id.generation
  }

  /** What the store itself sees to. */
  predicate AppendFits(c: Codec, b: Disk, log: seq<AckRef>, s: StoredRecord) {
    && ValidRecord(s.record) && s.sha == RecordDigest(s.record)
    && s.sequence == |log| + 1
    && StoredCharge(c, s) <= RESERVED_BYTES
    && s.record.identity in b.reservations
    && NotStale(b.opIndex, s.record.identity)
  }

  predicate AppendReady(c: Codec, b: Disk, log: seq<AckRef>, s: StoredRecord) {
    AppendFits(c, b, log, s) && InOrder(b.records, s.record.identity)
  }

  /** An operation's log entries, published or pending, all have lower generations. */
  lemma EarlierGenerations(b: Disk, log: seq<AckRef>, id: Identity, from: nat, s: nat)
    requires GenerationsIncrease(log) && InOrder(b.records, id) && NotStale(b.opIndex, id)
    requires RecordsCover(b.records, from, log) && IndexWithin(b.opIndex, from, log) && IndexCover(b.opIndex, from, log)
    requires 0 < s <= |log| && KeyOf(At(log, s).id) == KeyOf(id)
    ensures At(log, s).id.generation < id.generation
  {
    if s <= from {
      var t := b.opIndex[KeyOf(id)].sequence;
      assert t >= s;
      assert KeyOf(log[s - 1].id) == KeyOf(log[t - 1].id);
    } else {
      assert At(log, s).id in b.records;
    }
  }

  lemma LogExtends(c: Codec, b: Disk, log: seq<AckRef>, s: StoredRecord)
    requires Full(c, b, log) && AppendReady(c, b, log, s)
    ensures LogOk(c, log + [RefOf(s)])
  {
    hide Full, AppendReady, InOrder, NotStale, RecordsWithin, RecordsCover, IndexWithin, IndexCover;
    ReadyParts(c, b, log, s);
    FullLog(c, b, log);
    var longer := log + [RefOf(s)];
    forall t | 0 < t <= |log| && KeyOf(At(log, t).id) == KeyOf(s.record.identity)
      ensures At(log, t).id.generation < s.record.identity.generation
    {
      EarlierGenerations(b, log, s.record.identity, CheckpointSequence(b), t);
    }
    LogExtendsBy(c, log, RefOf(s));
  }

  lemma LogExtendsBy(c: Codec, log: seq<AckRef>, r: AckRef)
    requires LogOk(c, log) && EntryOk(c, r, |log| + 1)
    requires forall t :: 0 < t <= |log| && KeyOf(At(log, t).id) == KeyOf(r.id) ==> At(log, t).id.generation < r.id.generation
    ensures LogOk(c, log + [r])
  {
    var longer := log + [r];
    forall t | 0 < t <= |longer| ensures EntryOk(c, At(longer, t), t) {
      if t <= |log| { assert At(longer, t) == At(log, t); }
    }
    hide EntryOk;
    forall i, j | 0 <= i < j < |longer| && KeyOf(longer[i].id) == KeyOf(longer[j].id)
      ensures longer[i].id.generation < longer[j].id.generation
    {
      assert longer[i] == log[i] == At(log, i + 1);
    }
  }

  lemma ReadyParts(c: Codec, b: Disk, log: seq<AckRef>, s: StoredRecord)
    requires AppendReady(c, b, log, s)
    ensures AppendFits(c, b, log, s) && EntryOk(c, RefOf(s), |log| + 1)
    ensures InOrder(b.records, s.record.identity) && NotStale(b.opIndex, s.record.identity)
    ensures StoredOf(RefOf(s)) == s
  {}

  lemma FullLog(c: Codec, b: Disk, log: seq<AckRef>)
    requires Full(c, b, log)
    ensures var from := CheckpointSequence(b);
            && from <= |log| && LogOk(c, log) && GenerationsIncrease(log)
            && RecordsWithin(b.records, from, log) && RecordsCover(b.records, from, log)
            && PendingWithin(c, b.pending, from, log) && PendingCover(b.pending, from, log)
            && IndexWithin(b.opIndex, from, log) && IndexCover(b.opIndex, from, log)
            && CheckpointMatches(c, b.checkpoint, b.opIndex) && DescriptorMatches(c, b.descriptor, from, log)
            && ReservationsOk(b.reservations) && b.reservations.Keys !! b.records.Keys
            && b.txn == None && b.marker == None && b.usage == None
  {}

  lemma RecordsExtend(records: map<Identity, StoredRecord>, s: StoredRecord, from: nat, log: seq<AckRef>)
    requires RecordsWithin(records, from, log) && RecordsCover(records, from, log) && from <= |log|
    requires s == StoredOf(RefOf(s)) && s.sequence == |log| + 1 && s.record.identity !in records
    ensures RecordsWithin(records[s.record.identity := s], from, log + [RefOf(s)])
    ensures RecordsCover(records[s.record.identity := s], from, log + [RefOf(s)])
  {
    var longer := log + [RefOf(s)];
    forall t | 0 < t <= |log| ensures At(longer, t) == At(log, t) {}
    forall id | id in records ensures RecordFits(id, records[id], from, longer) {
      assert RecordFits(id, records[id], from, log);
    }
  }

  lemma PendingExtends(c: Codec, pending: map<nat, PendingIndex>, s: StoredRecord, from: nat, log: seq<AckRef>)
    requires PendingWithin(c, pending, from, log) && PendingCover(pending, from, log) && from <= |log|
    requires s == StoredOf(RefOf(s)) && s.sequence == |log| + 1
    ensures PendingWithin(c, pending[s.sequence := PendingIndexOf(c, s)], from, log + [RefOf(s)])
    ensures PendingCover(pending[s.sequence := PendingIndexOf(c, s)], from, log + [RefOf(s)])
  {
    var longer := log + [RefOf(s)];
    forall t | 0 < t <= |log| ensures At(longer, t) == At(log, t) {}
  }

  lemma IndexExtends(c: Codec, b: Disk, log: seq<AckRef>, r: AckRef, from: nat)
    requires IndexWithin(b.opIndex, from, log) && IndexCover(b.opIndex, from, log)
    requires DescriptorMatches(c, b.descriptor, from, log)
    ensures IndexWithin(b.opIndex, from, log + [r]) && IndexCover(b.opIndex, from, log + [r])
    ensures DescriptorMatches(c, b.descriptor, from, log + [r])
  {
    forall t | 0 < t <= |log| ensures At(log + [r], t) == At(log, t) {}
    if b.descriptor.Some? {
      var n := from + |b.descriptor.value|;
      assert (log + [r])[from..n] == log[from..n];
    }
  }

  lemma AppendFull(c: Codec, b: Disk, log: seq<AckRef>, s: StoredRecord)
    requires Full(c, b, log) && AppendReady(c, b, log, s)
    ensures Full(c, Appended(c, b, s), log + [RefOf(s)])
  {
    hide *;
    FullLog(c, b, log);
    ReadyParts(c, b, log, s);
    LogExtends(c, b, log, s);
    var from := CheckpointSequence(b);
    AppendFields(c, b, log, s);
    RecordsExtend(b.records, s, from, log);
    PendingExtends(c, b.pending, s, from, log);
    IndexExtends(c, b, log, RefOf(s), from);
    FullIntro(c, Appended(c, b, s), log + [RefOf(s)], from);
  }

  lemma AppendFields(c: Codec, b: Disk, log: seq<AckRef>, s: StoredRecord)
    requires AppendFits(c, b, log, s)
    requires ReservationsOk(b.reservations) && b.reservations.Keys !! b.records.Keys
    ensures var e := Appended(c, b, s);
            var id := s.record.identity;
            && id in b.reservations && id !in b.records && s.sequence == |log| + 1
            && e.records == b.records[id := s] && e.pending == b.pending[s.sequence := PendingIndexOf(c, s)]
            && e.reservations == b.reservations - {id}
            && ReservationsOk(e.reservations) && e.reservations.Keys !! e.records.Keys
            && e.opIndex == b.opIndex && e.checkpoint == b.checkpoint && e.descriptor == b.descriptor
            && e.txn == b.txn && e.marker == b.marker && e.usage == b.usage
            && CheckpointSequence(e) == CheckpointSequence(b)
  {
    assert s.record.identity in b.reservations.Keys;
  }

  lemma AppendCounts(c: Codec, b: Disk, s: StoredRecord)
    requires s.record.identity in b.reservations && s.record.identity !in b.records
    ensures var e := Appended(c, b, s);
            && |e.records| == |b.records| + 1 && |e.reservations| == |b.reservations| - 1
            && UsedBytes(c, e) == UsedBytes(c, b) + StoredCharge(c, s)
            && OperationKeys(e) == OperationKeys(b)
  {
    hide OperationKeys, KeysOf, StoredCharge, RecordCharge;
    var id := s.record.identity;
    CountsMove(b.records, b.reservations, id, s);
    AppendUsed(c, b, s);
    KeysMove(b.opIndex.Keys, b.records, b.reservations, id, s);
    KeysAre(b);
    KeysAre(Appended(c, b, s));
    hide UsedBytes;
  }

  lemma KeysAre(d: Disk)
    ensures OperationKeys(d) == d.opIndex.Keys + KeysOf(d.records) + KeysOf(d.reservations)
  {}

  lemma AppendUsed(c: Codec, b: Disk, s: StoredRecord)
    requires s.record.identity !in b.records
    ensures UsedBytes(c, Appended(c, b, s)) == UsedBytes(c, b) + StoredCharge(c, s)
  {
    SumInsert(b.records, RecordCharge(c), s.record.identity, s);
    hide StoredCharge;
  }

  lemma CountsMove(records: map<Identity, StoredRecord>, reservations: map<Identity, Reservation>, id: Identity, s: StoredRecord)
    requires id in reservations && id !in records
    ensures |records[id := s]| == |records| + 1 && |reservations - {id}| == |reservations| - 1
  {
    assert (reservations - {id}).Keys == reservations.Keys - {id};
    assert |(reservations - {id}).Keys| == |reservations.Keys| - 1;
  }

  lemma KeysMove(indexed: set<OperationKey>, records: map<Identity, StoredRecord>,
                 reservations: map<Identity, Reservation>, id: Identity, s: StoredRecord)
    requires id in reservations
    ensures indexed + KeysOf(records[id := s]) + KeysOf(reservations - {id}) == indexed + KeysOf(records) + KeysOf(reservations)
  {}

  lemma AppendBounded(c: Codec, maximum: int, b: Disk, e: Disk, charge: int, blocked: int)
    requires Bounded(c, maximum, b) && 0 <= charge <= RESERVED_BYTES
    requires |e.records| == |b.records| + 1 && |e.reservations| == |b.reservations| - 1
    requires UsedBytes(c, e) == UsedBytes(c, b) + charge && OperationKeys(e) == OperationKeys(b)
    requires e.opIndex == b.opIndex && e.checkpoint == b.checkpoint && e.descriptor == b.descriptor
    ensures Bounded(c, maximum, e)
    ensures var u := Scan(c, maximum, b, blocked);
            Scan(c, maximum, e, blocked)
            == u.(used := u.used + charge, reserved := u.reserved - RESERVED_BYTES, records := u.records + 1,
                  reservations := u.reservations - 1, accepted := u.accepted + 1, next := u.next + 1)
  {
    hide UsedBytes, OperationKeys, DescriptorCharge;
  }

  /** An append keeps the byte bound, and the counters stay the full scan's. */
  lemma AppendCharged(c: Codec, maximum: int, b: Disk, log: seq<AckRef>, s: StoredRecord, blocked: int)
    requires ReservationsOk(b.reservations) && b.reservations.Keys !! b.records.Keys
    requires Bounded(c, maximum, b) && AppendFits(c, b, log, s)
    ensures var e := Appended(c, b, s);
            var u := Scan(c, maximum, b, blocked);
            && Bounded(c, maximum, e)
            && Scan(c, maximum, e, blocked)
               == u.(used := u.used + StoredCharge(c, s), reserved := u.reserved - RESERVED_BYTES,
                     records := u.records + 1, reservations := u.reservations - 1, accepted := u.accepted + 1,
                     next := u.next + 1)
  {
    assert 0 <= StoredCharge(c, s) <= RESERVED_BYTES;
    hide *;
    AppendFields(c, b, log, s);
    AppendCounts(c, b, s);
    AppendBounded(c, maximum, b, Appended(c, b, s), StoredCharge(c, s), blocked);
  }

  /** An append moves one log entry and one file, turns its reservation into the
      record's own charge, and the counters stay the full scan's. */
  lemma AppendKeeps(c: Codec, maximum: int, b: Disk, log: seq<AckRef>, s: StoredRecord, blocked: int)
    requires Full(c, b, log) && Bounded(c, maximum, b) && AppendReady(c, b, log, s)
    ensures var e := Appended(c, b, s);
            var u := Scan(c, maximum, b, blocked);
            && Full(c, e, log + [RefOf(s)]) && Bounded(c, maximum, e)
            && Scan(c, maximum, e, blocked)
               == u.(used := u.used + StoredCharge(c, s), reserved := u.reserved - RESERVED_BYTES,
                     records := u.records + 1, reservations := u.reservations - 1, accepted := u.accepted + 1,
                     next := u.next + 1)
  {
    hide *;
    FullLog(c, b, log);
    ReadyParts(c, b, log, s);
    AppendFull(c, b, log, s);
    AppendCharged(c, maximum, b, log, s, blocked);
  }

  // ---------------------------------------------------------------------
  // Appending out of order
  // ---------------------------------------------------------------------

  /** The store's invariant is this together with the order. */
  lemma FullIsOrdered(c: Codec, b: Disk, log: seq<AckRef>)
    ensures Full(c, b, log) <==> Complete(c, b, log) && GenerationsIncrease(log)
  {
    hide EntriesOk, GenerationsIncrease, RecordsWithin, RecordsCover, PendingWithin, PendingCover, IndexWithin,
         IndexCover, CheckpointMatches, DescriptorMatches, ReservationsOk;
  }

  /** Every append the store accepts keeps a directory complete, whatever the
      generations of the records before it. */
  lemma AnyAppendKeeps(c: Codec, b: Disk, log: seq<AckRef>, s: StoredRecord)
    requires Complete(c, b, log) && AppendFits(c, b, log, s)
    ensures Complete(c, Appended(c, b, s), log + [RefOf(s)])
  {
    hide *;
    CompleteParts(c, b, log);
    FitsParts(c, b, log, s);
    var from := CheckpointSequence(b);
    AppendFields(c, b, log, s);
    EntriesExtend(c, log, RefOf(s));
    RecordsExtend(b.records, s, from, log);
    PendingExtends(c, b.pending, s, from, log);
    IndexExtends(c, b, log, RefOf(s), from);
    CompleteIntro(c, Appended(c, b, s), log + [RefOf(s)], from);
  }

  lemma FitsParts(c: Codec, b: Disk, log: seq<AckRef>, s: StoredRecord)
    requires AppendFits(c, b, log, s)
    ensures EntryOk(c, RefOf(s), |log| + 1) && StoredOf(RefOf(s)) == s
  {}

  lemma EntriesExtend(c: Codec, log: seq<AckRef>, r: AckRef)
    requires EntriesOk(c, log) && EntryOk(c, r, |log| + 1)
    ensures EntriesOk(c, log + [r])
  {
    hide EntryOk;
    forall t | 0 < t <= |log| ensures At(log + [r], t) == At(log, t) {}
  }

  lemma CompleteParts(c: Codec, b: Disk, log: seq<AckRef>)
    requires Complete(c, b, log)
    ensures var from := CheckpointSequence(b);
            && from <= |log| && EntriesOk(c, log)
            && RecordsWithin(b.records, from, log) && RecordsCover(b.records, from, log)
            && PendingWithin(c, b.pending, from, log) && PendingCover(b.pending, from, log)
            && IndexWithin(b.opIndex, from, log) && IndexCover(b.opIndex, from, log)
            && CheckpointMatches(c, b.checkpoint, b.opIndex) && DescriptorMatches(c, b.descriptor, from, log)
            && ReservationsOk(b.reservations) && b.reservations.Keys !! b.records.Keys
            && b.txn == None && b.marker == None && b.usage == None
  {}

  lemma CompleteIntro(c: Codec, b: Disk, log: seq<AckRef>, from: nat)
    requires from == CheckpointSequence(b) <= |log| && EntriesOk(c, log)
    requires b.txn == None && b.marker == None && b.usage == None
    requires RecordsWithin(b.records, from, log) && RecordsCover(b.records, from, log)
    requires PendingWithin(c, b.pending, from, log) && PendingCover(b.pending, from, log)
    requires IndexWithin(b.opIndex, from, log) && IndexCover(b.opIndex, from, log)
    requires CheckpointMatches(c, b.checkpoint, b.opIndex)
    requires DescriptorMatches(c, b.descriptor, from, log)
    requires ReservationsOk(b.reservations) && b.reservations.Keys !! b.records.Keys
    ensures Complete(c, b, log)
  {}
}
