/** Which records the next batch holds: the longest prefix of the unpublished ones
    within the record and byte limits. It depends on the log and the checkpoint
    only, never on what is appended later. */
module HistoryBatch {
  import opened Foundations
  import opened HistoryModel
  import opened HistoryReplay
  import opened HistoryInvariant
  import opened HistoryPublication
  import opened HistoryAccounting
  import opened HistoryRecovery
  import opened HistorySteps

  predicate WithinLimits(c: Codec, refs: seq<AckRef>, from: nat, log: seq<AckRef>) {
    && |refs| <= MAX_BATCH_RECORDS
    && from + |refs| <= |log|
    && refs == log[from..from + |refs|]
    && BatchBytes(c, refs) <= MAX_BATCH_BYTES
  }

  /** Within the limits, and one more record would not be. */
  predicate LongestPrefix(c: Codec, refs: seq<AckRef>, from: nat, log: seq<AckRef>) {
    && WithinLimits(c, refs, from, log)
    && (|refs| == MAX_BATCH_RECORDS || from + |refs| == |log|
        || BatchBytes(c, log[from..from + |refs| + 1]) > MAX_BATCH_BYTES)
  }

  lemma {:induction false} BatchBytesMore(c: Codec, log: seq<AckRef>, from: nat, upto: nat)
    requires from <= upto < |log|
    ensures BatchBytes(c, log[from..upto + 1]) == BatchBytes(c, log[from..upto]) + c.record(log[upto].sha.of) + 1
  {
    assert log[from..upto + 1][..upto - from] == log[from..upto];
  }

  lemma {:induction false} BatchBytesMonotone(c: Codec, log: seq<AckRef>, from: nat, mid: nat, upto: nat)
    requires from <= mid <= upto <= |log|
    ensures BatchBytes(c, log[from..mid]) <= BatchBytes(c, log[from..upto])
  {
    if mid < upto {
      BatchBytesMonotone(c, log, from, mid, upto - 1);
      BatchBytesMore(c, log, from, upto - 1);
    }
  }

  /** No prefix within the limits is longer. */
  lemma LongestIsLongest(c: Codec, refs: seq<AckRef>, others: seq<AckRef>, from: nat, log: seq<AckRef>)
    requires LongestPrefix(c, refs, from, log) && WithinLimits(c, others, from, log)
    ensures |others| <= |refs|
  {
    if |others| > |refs| {
      BatchBytesMonotone(c, log, from, from + |refs| + 1, from + |others|);
      assert false;
    }
  }

  /** The batch is determined by the checkpoint and the log, and stays the same when
      the log grows, unless it was cut short by the end of the log. */
  lemma LongestUnique(c: Codec, refs: seq<AckRef>, others: seq<AckRef>, from: nat, log: seq<AckRef>)
    requires LongestPrefix(c, refs, from, log) && LongestPrefix(c, others, from, log)
    ensures refs == others
  {
    LongestIsLongest(c, refs, others, from, log);
    LongestIsLongest(c, others, refs, from, log);
  }

  /** The longest prefix of a nonempty run is nonempty: no single record is near the limit. */
  lemma FirstFits(c: Codec, b: Disk, from: nat, log: seq<AckRef>, s: nat)
    requires WfCodec(c) && LogOk(c, log) && from < s <= |log|
    requires RecordsCover(b.records, from, log) && PendingWithin(c, b.pending, from, log) && PendingCover(b.pending, from, log)
    ensures var r := At(log, s);
            && s in b.pending && b.pending[s] == PendingIndexOf(c, StoredOf(r)) && ValidPendingIndex(b.pending[s], s)
            && r.id in b.records && b.records[r.id] == StoredOf(r) && r.sequence == s
            && b.pending[s].id == r.id && RefOf(StoredOf(r)) == r
            && c.record(r.sha.of) < RESERVED_BYTES
  {
    hide WfCodec, LogOk, RecordsCover, PendingWithin, PendingCover, StoredCharge;
    EntryInLog(c, log, s);
    RecordSizes(c, At(log, s));
    EntryFiles(c, b.records, b.pending, from, log, s);
  }

  lemma EntryInLog(c: Codec, log: seq<AckRef>, s: nat)
    requires LogOk(c, log) && 0 < s <= |log|
    ensures EntryOk(c, At(log, s), s)
  {}

  lemma EntryFiles(c: Codec, records: map<Identity, StoredRecord>, pending: map<nat, PendingIndex>, from: nat,
                   log: seq<AckRef>, s: nat)
    requires RecordsCover(records, from, log) && PendingWithin(c, pending, from, log) && PendingCover(pending, from, log)
    requires from < s <= |log|
    ensures s in pending && pending[s] == PendingIndexOf(c, StoredOf(At(log, s)))
    ensures At(log, s).id in records && records[At(log, s).id] == StoredOf(At(log, s)) && At(log, s).sequence == s
  {}

  /** Reads sequence indices and records from the oldest unpublished one on, until a
      limit is reached. */
  method SelectBatch(c: Codec, d: Disk, u: Usage, ghost b: Disk, ghost log: seq<AckRef>) returns (refs: seq<AckRef>)
    requires WfCodec(c) && Full(c, b, log)
    requires d.records == b.records && d.pending == b.pending && d.checkpoint == b.checkpoint
    requires u.records == |log| - CheckpointSequence(b)
    ensures LongestPrefix(c, refs, CheckpointSequence(b), log)
    ensures u.records > 0 ==> refs != []
  {
    hide WfCodec, Full, LogOk, RecordsWithin, RecordsCover, PendingWithin, PendingCover, IndexWithin, IndexCover,
         CheckpointMatches, DescriptorMatches, WithinLimits, LongestPrefix, BatchBytes, RefOf, CheckpointSequence;
    FullLog(c, b, log);
    SameSequence(b, d);
    var from := CheckpointSequence(d);
    var most := if u.records > MAX_BATCH_RECORDS then MAX_BATCH_RECORDS else u.records;
    var total := 0;
    refs := [];
    NothingSelected(c, from, log);
    var full := false;
    while !full && |refs| < most
      invariant |refs| <= most && WithinLimits(c, refs, from, log) && total == BatchBytes(c, refs)
      invariant full ==> LongestPrefix(c, refs, from, log) && refs != []
      decreases !full, most - |refs|
    {
      var sequence := from + |refs| + 1;
      SelectNext(c, b, log, from, refs);
      var index := d.pending[sequence];
      if total + index.serializedBytes + 1 > MAX_BATCH_BYTES {
        full := true;
      } else {
        refs := refs + [RefOf(d.records[index.id])];
        total := total + index.serializedBytes + 1;
      }
    }
    if !full { SelectedAll(c, refs, from, log); }
  }

  lemma SameSequence(b: Disk, d: Disk)
    requires b.checkpoint == d.checkpoint
    ensures CheckpointSequence(b) == CheckpointSequence(d)
  {}

  lemma {:induction false} NothingSelected(c: Codec, from: nat, log: seq<AckRef>)
    requires from <= |log|
    ensures WithinLimits(c, [], from, log) && BatchBytes(c, []) == 0
  {}

  lemma SelectedAll(c: Codec, refs: seq<AckRef>, from: nat, log: seq<AckRef>)
    requires WithinLimits(c, refs, from, log)
    requires |refs| == MAX_BATCH_RECORDS || from + |refs| == |log|
    ensures LongestPrefix(c, refs, from, log)
  {
    hide WithinLimits;
  }

  /** The next record either still fits, or ends the batch. */
  lemma SelectNext(c: Codec, b: Disk, log: seq<AckRef>, from: nat, refs: seq<AckRef>)
    requires WfCodec(c) && LogOk(c, log)
    requires RecordsCover(b.records, from, log) && PendingWithin(c, b.pending, from, log) && PendingCover(b.pending, from, log)
    requires WithinLimits(c, refs, from, log) && |refs| < MAX_BATCH_RECORDS && from + |refs| < |log|
    ensures var s := from + |refs| + 1;
            && s in b.pending && b.pending[s].id in b.records
            && (var longer := refs + [RefOf(b.records[b.pending[s].id])];
                var bytes := BatchBytes(c, refs) + b.pending[s].serializedBytes + 1;
                && BatchBytes(c, longer) == bytes
                && (bytes <= MAX_BATCH_BYTES ==> WithinLimits(c, longer, from, log))
                && (bytes > MAX_BATCH_BYTES ==> LongestPrefix(c, refs, from, log) && refs != []))
  {
    var s := from + |refs| + 1;
    hide WfCodec, LogOk, RecordsCover, PendingWithin, PendingCover, BatchBytes;
    FirstFits(c, b, from, log, s);
    BatchBytesMore(c, log, from, from + |refs|);
    assert log[from + |refs|] == At(log, s);
    assert refs + [At(log, s)] == log[from..from + |refs| + 1];
    NothingSelected(c, from, log);
  }
}
