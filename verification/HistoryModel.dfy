/** The operation history store's directory, as values: what each private file
    holds, what the incremental usage file has to say about the others, and what
    a rebuild makes of a directory that a crash left behind. */
module HistoryModel {
  import opened Foundations

  const FILE_CHARGE: int := 4 * 1024
  const METADATA_RESERVE: int := 16 * 1024
  const RESERVED_BYTES: int := 260784
  const HEADROOM: int := 5 * 1024 * 1024
  const TAILROOM: int := 4 * 1024 * 1024
  const MAX_PENDING: int := 131072
  const MAX_KEYS: int := 131072
  const MAX_RESERVATIONS: int := 1024
  const MAX_BATCH_RECORDS: int := 256
  const MAX_BATCH_BYTES: int := 8 * 1024 * 1024
  const MAX_RECEIPT_BYTES: int := 64 * 1024
  const MAX_INDEX_FILE: int := 8 * 1024
  const MAX_CHECKPOINT_FILE: int := 8 * 1024
  const MAX_DESCRIPTOR_FILE: int := 512 * 1024
  const MAX_TRANSACTION_FILE: int := 1024 * 1024
  const MAX_UINT64: int := 0xFFFF_FFFF_FFFF_FFFF
  const MAX_INT64: int := 0x7FFF_FFFF_FFFF_FFFF

  datatype HistoryError = Unavailable | Capacity | Reserved | Stale | Conflict | Corrupt

  // ---------------------------------------------------------------------
  // Identities, records and the files that hold them
  // ---------------------------------------------------------------------

  datatype OperationKey = OperationKey(sourceId: string, operationId: string)

  datatype Identity = Identity(
    sourceId: string, operationId: string, attemptId: string, generation: nat,
    registryRevision: string, releaseManifest: string, index: string, shard: string)

  /** A file named by the digest of an identity is keyed by the identity itself:
      the digest is injective. */
  function KeyOf(id: Identity): OperationKey { OperationKey(id.sourceId, id.operationId) }

  predicate ValidIdentity(id: Identity) {
    id.sourceId != "" && id.operationId != "" && id.attemptId != "" && id.generation > 0
  }

  datatype Record = Record(identity: Identity, receipt: string, startedAt: int, validatedAt: int)

  predicate ValidRecord(r: Record) {
    ValidIdentity(r.identity) && 0 < |r.receipt| <= MAX_RECEIPT_BYTES && r.startedAt <= r.validatedAt
  }

  /** A content digest; distinct contents have distinct digests. */
  datatype RecordDigest = RecordDigest(of: Record)

  datatype StoredRecord = StoredRecord(record: Record, sha: RecordDigest, sequence: nat, appendedAt: int)

  datatype PendingIndex = PendingIndex(
    sequence: nat, id: Identity, sha: RecordDigest, serializedBytes: nat, appendedAt: int)

  /** One record as batches, descriptors and transactions refer to it. */
  datatype AckRef = AckRef(id: Identity, sha: RecordDigest, sequence: nat, appendedAt: int)

  /** `batch` stands for the batch and record-set digests, both injective in the references. */
  datatype Confirmation = Confirmation(
    batch: seq<AckRef>, datasetRepo: string, revision: string,
    manifestSha: string, recordsSha: string, verifiedAt: int)

  datatype OperationIndex = OperationIndex(
    identity: Identity, sha: RecordDigest, sequence: nat, appendedAt: int, confirmation: Confirmation)

  datatype Checkpoint = Checkpoint(sequence: nat, keyCount: nat, indexSet: Digest, confirmation: Confirmation)

  datatype IndexChange = IndexChange(key: OperationKey, previous: Option<OperationIndex>)

  datatype Transaction = Transaction(
    confirmation: Confirmation, records: seq<AckRef>, changes: seq<IndexChange>)

  /** Every reservation holds RESERVED_BYTES; a file that says otherwise is not readable. */
  datatype Reservation = Reservation(token: string, createdAt: int)

  datatype Marker = Marker(operation: string)

  /** The capability a reservation gives its holder. */
  datatype Grant = Grant(identity: Identity, token: string)

  predicate Matches(g: Grant, id: Identity) { ValidIdentity(id) && g.identity == id && g.token != "" }

  /** The reference the store mints for a record that is durable. */
  datatype RecordRef = RecordRef(id: Identity, sha: RecordDigest, appendedAt: int)

  function DurableRef(r: Record, appendedAt: int): Result<RecordRef, HistoryError> {
    if ValidRecord(r) && appendedAt >= r.validatedAt then Ok(RecordRef(r.identity, RecordDigest(r), appendedAt))
    else Err(Unavailable)
  }

  datatype Usage = Usage(
    maximum: int, used: int, reserved: int, records: int, reservations: int, accepted: int,
    verified: int, blocked: int, keys: int, next: int)

  /** The store directory: one map per sub-directory, one optional value per file. */
  datatype Disk = Disk(
    records: map<Identity, StoredRecord>,
    pending: map<nat, PendingIndex>,
    reservations: map<Identity, Reservation>,
    opIndex: map<OperationKey, OperationIndex>,
    descriptor: Option<seq<AckRef>>,
    checkpoint: Option<Checkpoint>,
    txn: Option<Transaction>,
    marker: Option<Marker>,
    usage: Option<Usage>)

  function EmptyDisk(): Disk {
    Disk(map[], map[], map[], map[], None, None, None, None, None)
  }

  // ---------------------------------------------------------------------
  // Encoded sizes
  // ---------------------------------------------------------------------

  /** The encoder: the number of bytes each file takes, and the fingerprint of
      an operation index file. */
  datatype Codec = Codec(
    record: Record -> nat, stored: StoredRecord -> nat, pending: PendingIndex -> nat,
    operation: OperationIndex -> nat, checkpoint: Checkpoint -> nat,
    descriptor: seq<AckRef> -> nat, transaction: Transaction -> nat,
    fingerprint: OperationIndex -> Digest)

  /** No file is empty, index and checkpoint files stay readable, and a stored
      record contains its record's own encoding. */
  ghost predicate WfCodec(c: Codec) {
    && (forall r :: c.record(r) > 0)
    && (forall s :: c.stored(s) > c.record(s.record))
    && (forall p :: c.pending(p) > 0)
    && (forall i :: 0 < c.operation(i) <= MAX_INDEX_FILE)
    && (forall k :: 0 < c.checkpoint(k) <= MAX_CHECKPOINT_FILE)
    && (forall refs :: c.descriptor(refs) > 0)
  }

  function FileCharge(size: int): int { size + FILE_CHARGE }

  function PendingRecordCharge(size: int): int { FileCharge(size) + METADATA_RESERVE }

  function PendingIndexOf(c: Codec, r: StoredRecord): PendingIndex {
    PendingIndex(r.sequence, r.record.identity, r.sha, c.record(r.record), r.appendedAt)
  }

  function ValidPendingIndex(p: PendingIndex, sequence: nat): bool {
    p.sequence == sequence && sequence > 0 && 0 < p.serializedBytes <= MAX_BATCH_BYTES
  }

  /** The bytes a pending record accounts for: its own file, the reserve for
      what its publication will leave behind, and its sequence index. */
  function StoredCharge(c: Codec, r: StoredRecord): int {
    PendingRecordCharge(c.stored(r)) + FileCharge(c.pending(PendingIndexOf(c, r)))
  }

  function RecordCharge(c: Codec): StoredRecord -> int { (r: StoredRecord) => StoredCharge(c, r) }

  function IndexCharge(c: Codec): OperationIndex -> int { (i: OperationIndex) => FileCharge(c.operation(i)) }

  function CheckpointCharge(c: Codec, k: Option<Checkpoint>): int {
    if k.Some? then FileCharge(c.checkpoint(k.value)) else 0
  }

  function DescriptorCharge(c: Codec, refs: Option<seq<AckRef>>): int {
    if refs.Some? then FileCharge(c.descriptor(refs.value)) else 0
  }

  function CheckpointSequence(d: Disk): nat { if d.checkpoint.Some? then d.checkpoint.value.sequence else 0 }

  /** The serialized length a batch of these references has on the wire. */
  function BatchBytes(c: Codec, refs: seq<AckRef>): nat {
    if |refs| == 0 then 0
    else BatchBytes(c, refs[..|refs| - 1]) + c.record(refs[|refs| - 1].sha.of) + 1
  }

  // ---------------------------------------------------------------------
  // What the full scan computes
  // ---------------------------------------------------------------------

  ghost function UsedBytes(c: Codec, d: Disk): int {
    CheckpointCharge(c, d.checkpoint) + Sum(d.opIndex, IndexCharge(c))
    + Sum(d.records, RecordCharge(c)) + DescriptorCharge(c, d.descriptor)
  }

  ghost function Scan(c: Codec, maximum: int, d: Disk, blocked: int): Usage {
    var sequence := CheckpointSequence(d);
    Usage(maximum, UsedBytes(c, d), |d.reservations| * RESERVED_BYTES, |d.records|, |d.reservations|,
          sequence + |d.records|, sequence, blocked, |d.opIndex|, sequence + |d.records| + 1)
  }

  /** The checks a usage file passes when it is read. */
  predicate ValidUsage(u: Usage, maximum: int) {
    && u.maximum == maximum
    && u.used >= 0 && u.reserved >= 0
    && 0 <= u.records <= MAX_PENDING
    && 0 <= u.reservations <= MAX_RESERVATIONS
    && u.accepted >= u.records && u.verified == u.accepted - u.records
    && u.blocked >= 0
    && 0 <= u.keys <= MAX_KEYS
    && u.next == u.accepted + 1
    && u.used + u.reserved <= maximum
  }

  function ReadUsage(d: Disk, maximum: int): Option<Usage> {
    if d.usage.Some? && ValidUsage(d.usage.value, maximum) then d.usage else None
  }

  function BlockedCount(d: Disk, maximum: int): int {
    if ReadUsage(d, maximum).Some? then d.usage.value.blocked else 0
  }

  // ---------------------------------------------------------------------
  // Publication
  // ---------------------------------------------------------------------

  function StoredOf(r: AckRef): StoredRecord { StoredRecord(r.sha.of, r.sha, r.sequence, r.appendedAt) }

  function IndexOf(r: AckRef, confirmation: Confirmation): OperationIndex {
    OperationIndex(r.id, r.sha, r.sequence, r.appendedAt, confirmation)
  }

  function Ids(refs: seq<AckRef>): set<Identity> { set r | r in refs :: r.id }

  function Sequences(refs: seq<AckRef>): set<nat> { set r | r in refs :: r.sequence }

  function Keys(refs: seq<AckRef>): set<OperationKey> { set r | r in refs :: KeyOf(r.id) }

  /** The index file each operation of a batch ends up with: its last record wins. */
  function FinalIndices(refs: seq<AckRef>, confirmation: Confirmation): map<OperationKey, OperationIndex> {
    if |refs| == 0 then map[]
    else
      var last := refs[|refs| - 1];
      FinalIndices(refs[..|refs| - 1], confirmation)[KeyOf(last.id) := IndexOf(last, confirmation)]
  }

  predicate SameArtifact(a: Confirmation, b: Confirmation) {
    a.(verifiedAt := b.verifiedAt) == b
  }

  predicate ValidIndexEntry(i: OperationIndex, key: OperationKey) {
    KeyOf(i.identity) == key && ValidIdentity(i.identity) && i.sequence > 0
  }

  /** The records of one batch carry consecutive sequence numbers. */
  predicate Consecutive(refs: seq<AckRef>) {
    && (forall i :: 0 <= i < |refs| ==> refs[i].sequence > 0 && ValidIdentity(refs[i].id))
    && (forall i :: 0 < i < |refs| ==> refs[i].sequence == refs[i - 1].sequence + 1)
  }

  /** Within one batch the attempts of one operation have increasing generations. */
  predicate GenerationsIncrease(refs: seq<AckRef>) {
    forall i, j :: 0 <= i < j < |refs| && KeyOf(refs[i].id) == KeyOf(refs[j].id)
      ==> refs[i].id.generation < refs[j].id.generation
  }

  predicate ValidChange(change: IndexChange, refs: seq<AckRef>)
    requires |refs| > 0
  {
    && change.key in Keys(refs)
    && (change.previous.Some? ==>
          && ValidIndexEntry(change.previous.value, change.key)
          && change.previous.value.sequence < refs[0].sequence
          && forall i :: 0 <= i < |refs| && KeyOf(refs[i].id) == change.key
               ==> refs[i].id.generation > change.previous.value.identity.generation)
  }

  predicate DistinctKeys(changes: seq<IndexChange>) {
    forall i, j :: 0 <= i < j < |changes| ==> changes[i].key != changes[j].key
  }

  function ChangeKeys(changes: seq<IndexChange>): set<OperationKey> { set x | x in changes :: x.key }

  /** Text whose characters pass a test. */
  predicate Written(s: string, allowed: char -> bool) { forall i :: 0 <= i < |s| ==> allowed(s[i]) }

  function HexDigit(): char -> bool { (ch: char) => '0' <= ch <= '9' || 'a' <= ch <= 'f' }

  predicate IsHex(s: string, length: nat) { |s| == length && Written(s, HexDigit()) }

  function NameChar(): char -> bool {
    (ch: char) => '0' <= ch <= '9' || 'a' <= ch <= 'z' || 'A' <= ch <= 'Z' || ch in "._-"
  }

  /** One half of a dataset repository's name. */
  predicate RepoPart(s: string) { 0 < |s| <= 96 && Written(s, NameChar()) && s[0] !in "._-" }

  predicate RepoName(s: string) {
    exists i :: 0 <= i < |s| && s[i] == '/' && RepoPart(s[..i]) && RepoPart(s[i + 1..])
  }

  /** The form of a publication's confirmation; that it is of the batch at hand is checked apart. */
  predicate ValidConfirmation(k: Confirmation) {
    RepoName(k.datasetRepo) && IsHex(k.revision, 40) && IsHex(k.manifestSha, 64) && IsHex(k.recordsSha, 64)
  }

  /** The checks a publication transaction passes when it is made and when it is read. */
  predicate ValidTransaction(t: Transaction) {
    && 0 < |t.records| <= MAX_BATCH_RECORDS
    && ValidConfirmation(t.confirmation)
    && t.confirmation.batch == t.records
    && Consecutive(t.records)
    && |t.changes| == |Keys(t.records)|
    && (forall i :: 0 <= i < |t.changes| ==> ValidChange(t.changes[i], t.records))
    && DistinctKeys(t.changes)
  }

  /** A checkpoint file that passes the checks of its reader. */
  predicate ReadableCheckpoint(d: Disk) {
    d.checkpoint.Some? ==> d.checkpoint.value.sequence > 0 && d.checkpoint.value.keyCount <= MAX_KEYS
  }

  predicate ReadableDescriptor(d: Disk) {
    d.descriptor.Some? ==> 0 < |d.descriptor.value| <= MAX_BATCH_RECORDS && Consecutive(d.descriptor.value)
  }

  predicate IsReplay(d: Disk, t: Transaction)
    requires |t.records| > 0
  {
    && CheckpointSequence(d) == t.records[|t.records| - 1].sequence
    && d.checkpoint.Some?
    && d.checkpoint.value.confirmation.batch == t.confirmation.batch
  }

  /** A stored record as it comes back from a successful read. */
  predicate ReadableRecord(id: Identity, r: StoredRecord) {
    ValidRecord(r.record) && r.record.identity == id && r.sha == RecordDigest(r.record) && r.sequence > 0
  }

  /** A record file that is still there is the one the transaction names. */
  predicate RecordFilesAgree(d: Disk, r: AckRef) {
    r.id in d.records ==>
      && ReadableRecord(r.id, d.records[r.id])
      && d.records[r.id] == StoredOf(r)
      && r.sequence in d.pending
      && ValidPendingIndex(d.pending[r.sequence], r.sequence)
      && d.pending[r.sequence].id == r.id
      && d.pending[r.sequence].sha == r.sha
      && d.pending[r.sequence].appendedAt == r.appendedAt
  }

  /** An index file is either the one the batch replaces or the one it leaves. */
  predicate IndexFileAgrees(d: Disk, change: IndexChange, final: OperationIndex) {
    if change.key in d.opIndex then
      d.opIndex[change.key] == final
      || (change.previous.Some? && d.opIndex[change.key] == change.previous.value)
    else change.previous.None?
  }

  /** Exactly when applying a publication transaction gets past its checks. */
  predicate ApplyAccepts(d: Disk, t: Transaction) {
    && ValidTransaction(t)
    && ReadableCheckpoint(d)
    && (IsReplay(d, t) ==> SameArtifact(d.checkpoint.value.confirmation, t.confirmation))
    && (!IsReplay(d, t) ==> CheckpointSequence(d) + 1 == t.records[0].sequence && d.descriptor.Some?)
    && (d.descriptor.Some? ==> d.descriptor.value == t.records)
    && (forall i :: 0 <= i < |t.records| ==> RecordFilesAgree(d, t.records[i]))
    && GenerationsIncrease(t.records)
    && (var final := FinalIndices(t.records, t.confirmation);
        forall i :: 0 <= i < |t.changes| ==>
          t.changes[i].key in final && IndexFileAgrees(d, t.changes[i], final[t.changes[i].key]))
  }

  /** The running key count and index-set digest after the given changes. */
  function Advance(c: Codec, count: nat, set_: Digest, changes: seq<IndexChange>,
                   final: map<OperationKey, OperationIndex>): (nat, Digest)
    requires forall i :: 0 <= i < |changes| ==> changes[i].key in final
  {
    if |changes| == 0 then (count, set_)
    else
      var (n, s) := Advance(c, count, set_, changes[..|changes| - 1], final);
      var change := changes[|changes| - 1];
      match change.previous
      case None => (n + 1, Xor(s, c.fingerprint(final[change.key])))
      case Some(p) => (n, Xor(Xor(s, c.fingerprint(p)), c.fingerprint(final[change.key])))
  }

  function NextCheckpoint(c: Codec, d: Disk, t: Transaction): Checkpoint
    requires ApplyAccepts(d, t)
  {
    var (count0, set0) := if d.checkpoint.Some? then (d.checkpoint.value.keyCount, d.checkpoint.value.indexSet)
                          else (0, ZeroDigest());
    var (count, indexSet) := Advance(c, count0, set0, t.changes, FinalIndices(t.records, t.confirmation));
    Checkpoint(t.records[|t.records| - 1].sequence, count, indexSet, t.confirmation)
  }

  /** The directory an accepted publication leaves, transaction file aside. */
  function ApplyTransaction(c: Codec, d: Disk, t: Transaction): Disk
    requires ApplyAccepts(d, t)
  {
    d.(records := d.records - Ids(t.records),
       pending := d.pending - Sequences(t.records),
       opIndex := d.opIndex + FinalIndices(t.records, t.confirmation),
       checkpoint := if IsReplay(d, t) then d.checkpoint else Some(NextCheckpoint(c, d, t)),
       descriptor := None)
  }

  // ---------------------------------------------------------------------
  // Recovery
  // ---------------------------------------------------------------------

  predicate ReplayAccepts(d: Disk) { d.txn.Some? ==> ApplyAccepts(d, d.txn.value) }

  function Replayed(c: Codec, d: Disk): Disk
    requires ReplayAccepts(d)
  {
    if d.txn.Some? then ApplyTransaction(c, d, d.txn.value).(txn := None) else d
  }

  function RecordSequences(m: map<Identity, StoredRecord>): set<nat> { set id | id in m :: m[id].sequence }

  ghost function RecordAt(m: map<Identity, StoredRecord>, sequence: nat): StoredRecord
    requires sequence in RecordSequences(m)
  {
    var id :| id in m && m[id].sequence == sequence;
    m[id]
  }

  /** The sequence indices the records call for. */
  ghost function PendingFor(c: Codec, records: map<Identity, StoredRecord>): map<nat, PendingIndex> {
    map s | s in RecordSequences(records) :: PendingIndexOf(c, RecordAt(records, s))
  }

  /** Every pending record has its sequence index; no reservation outlives its record. */
  ghost function Completed(c: Codec, d: Disk): Disk {
    d.(pending := PendingFor(c, d.records),
       reservations := d.reservations - d.records.Keys)
  }

  /** What a rebuild turns a directory into when nothing stops it. */
  ghost function Recover(c: Codec, maximum: int, d: Disk): Disk
    requires ReplayAccepts(d)
  {
    var e := Completed(c, Replayed(c, d));
    e.(usage := Some(Scan(c, maximum, e, BlockedCount(d, maximum))), marker := None)
  }

  /** The capacity test at the end of a rebuild. */
  ghost predicate Fits(c: Codec, maximum: int, e: Disk) {
    && |e.opIndex| <= MAX_KEYS
    && |e.records| + |e.reservations| <= MAX_PENDING
    && |e.reservations| <= MAX_RESERVATIONS
    && UsedBytes(c, e) + |e.reservations| * RESERVED_BYTES + HEADROOM <= maximum
  }

  // ---------------------------------------------------------------------
  // What a rebuild insists on
  // ---------------------------------------------------------------------

  /** The checkpoint's count and digest are those of the whole index. */
  ghost predicate CheckpointMatches(c: Codec, k: Option<Checkpoint>, opIndex: map<OperationKey, OperationIndex>) {
    if k.Some? then
      k.value.sequence > 0 && k.value.keyCount == |opIndex| && k.value.indexSet == XorFold(opIndex, c.fingerprint)
    else opIndex == map[]
  }

  predicate IndexFileAccepts(k: OperationKey, i: OperationIndex, upto: nat) {
    ValidIndexEntry(i, k) && i.sequence <= upto
  }

  predicate RecordFileAccepts(c: Codec, d: Disk, id: Identity)
    requires id in d.records
  {
    var r := d.records[id];
    && ReadableRecord(id, r)
    && r.sequence > CheckpointSequence(d)
    && (KeyOf(id) in d.opIndex ==> d.opIndex[KeyOf(id)].identity.generation < id.generation)
    && ValidPendingIndex(PendingIndexOf(c, r), r.sequence)
    && (r.sequence in d.pending ==> d.pending[r.sequence] == PendingIndexOf(c, r))
  }

  predicate IndexDirectoryAccepts(d: Disk) {
    && |d.opIndex| <= MAX_KEYS
    && forall k :: k in d.opIndex ==> IndexFileAccepts(k, d.opIndex[k], CheckpointSequence(d))
  }

  predicate RecordDirectoryAccepts(c: Codec, d: Disk) {
    && |d.records| <= MAX_PENDING
    && forall id :: id in d.records ==> RecordFileAccepts(c, d, id)
  }

  predicate PendingDirectoryAccepts(d: Disk) { d.pending.Keys <= RecordSequences(d.records) }

  /** The records' sequence numbers are the run right after the checkpoint. */
  ghost predicate SequencesContiguous(d: Disk) {
    forall s: nat :: CheckpointSequence(d) < s <= CheckpointSequence(d) + |d.records|
      ==> s in RecordSequences(d.records)
  }

  /** A frozen batch names the oldest pending records, within the batch limit. */
  predicate DescriptorAccepts(c: Codec, d: Disk) {
    && ReadableDescriptor(d)
    && (d.descriptor.Some? ==>
          && d.descriptor.value[0].sequence == CheckpointSequence(d) + 1
          && (forall i :: 0 <= i < |d.descriptor.value| ==> DescriptorEntryAccepts(d.pending, d.descriptor.value[i]))
          && BatchBytes(c, d.descriptor.value) <= MAX_BATCH_BYTES)
  }

  predicate DescriptorEntryAccepts(pending: map<nat, PendingIndex>, r: AckRef) {
    && r.sequence in pending
    && pending[r.sequence].id == r.id
    && pending[r.sequence].sha == r.sha
    && pending[r.sequence].appendedAt == r.appendedAt
  }

  predicate ReservationsAccept(reservations: map<Identity, Reservation>) {
    && |reservations| <= MAX_RESERVATIONS + MAX_PENDING
    && forall id :: id in reservations ==> ValidIdentity(id)
  }

  /** Everything a rebuild checks before it comes to the reservations. */
  ghost predicate FilesAccept(c: Codec, e: Disk) {
    && ReadableCheckpoint(e)
    && IndexDirectoryAccepts(e)
    && CheckpointMatches(c, e.checkpoint, e.opIndex)
    && RecordDirectoryAccepts(c, e)
    && SequencesContiguous(e)
    && PendingDirectoryAccepts(e)
    && DescriptorAccepts(c, Completed(c, e))
  }

  /** Exactly when a rebuild reaches its capacity test, a publication in flight
      having been replayed. */
  ghost predicate RebuildAccepts(c: Codec, e: Disk) { FilesAccept(c, e) && ReservationsAccept(e.reservations) }

  ghost predicate PassesChecks(c: Codec, d: Disk) { ReplayAccepts(d) && RebuildAccepts(c, Replayed(c, d)) }

  /** Exactly when a rebuild succeeds. */
  ghost predicate Recoverable(c: Codec, maximum: int, d: Disk) {
    PassesChecks(c, d) && Fits(c, maximum, Completed(c, Replayed(c, d)))
  }
}
