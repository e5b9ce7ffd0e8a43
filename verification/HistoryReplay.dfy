/** Crash recovery of a publication. The steps of an application may stop
    anywhere; whatever part of them has reached the directory, applying the same
    transaction again is accepted and ends in the same directory. */
module HistoryReplay {
  import opened Foundations
  import opened HistoryModel

  predicate SubMap<K, V(==)>(small: map<K, V>, large: map<K, V>) {
    forall k :: k in small ==> k in large && small[k] == large[k]
  }

  /** Some entries are still the old ones, the others are already the new ones. */
  predicate Mixed<K, V(==)>(m: map<K, V>, before: map<K, V>, after: map<K, V>) {
    && (forall k :: k in m ==> k in after && (m[k] == after[k] || (k in before && m[k] == before[k])))
    && (forall k :: k in before ==> k in m)
  }

  /** A pending index outlives its record file. */
  predicate PendingOutlives(records: map<Identity, StoredRecord>, pending: map<nat, PendingIndex>, refs: seq<AckRef>) {
    forall i :: 0 <= i < |refs| && refs[i].id in records ==> refs[i].sequence in pending
  }

  /** The part of an application's file writes that has to be over before the
      checkpoint may move. */
  predicate FilesSettled(d: Disk, e: Disk) {
    d.records == e.records && d.pending == e.pending && d.opIndex == e.opIndex
  }

  /** The directory `d` lies on the way from `d0` to `e`, up to the transaction, marker and usage files. */
  predicate OnTheWay(d0: Disk, e: Disk, refs: seq<AckRef>, d: Disk) {
    && SubMap(e.records, d.records) && SubMap(d.records, d0.records)
    && SubMap(e.pending, d.pending) && SubMap(d.pending, d0.pending)
    && PendingOutlives(d.records, d.pending, refs)
    && Mixed(d.opIndex, d0.opIndex, e.opIndex)
    && (d.checkpoint == d0.checkpoint || (d.checkpoint == e.checkpoint && FilesSettled(d, e)))
    && (d.descriptor == d0.descriptor
        || (d.descriptor == None && d.checkpoint == e.checkpoint && FilesSettled(d, e)))
    && d.reservations == d0.reservations
  }

  /** The directory `d` is one that an application of `t` started on `d0` passes through. */
  predicate Progress(c: Codec, d0: Disk, t: Transaction, d: Disk)
    requires ApplyAccepts(d0, t)
  {
    OnTheWay(d0, ApplyTransaction(c, d0, t), t.records, d)
  }

  // ---------------------------------------------------------------------
  // The transaction's own collections
  // ---------------------------------------------------------------------

  lemma {:induction false} FinalIndicesKeys(refs: seq<AckRef>, confirmation: Confirmation)
    ensures FinalIndices(refs, confirmation).Keys == Keys(refs)
  {
    if |refs| > 0 {
      var shorter := refs[..|refs| - 1];
      FinalIndicesKeys(shorter, confirmation);
      assert Keys(refs) == Keys(shorter) + {KeyOf(refs[|refs| - 1].id)};
    }
  }

  lemma {:induction false} ConsecutiveAt(refs: seq<AckRef>, i: nat)
    requires Consecutive(refs) && i < |refs|
    ensures refs[i].sequence == refs[0].sequence + i
  {
    if i > 0 { ConsecutiveAt(refs, i - 1); }
  }

  lemma LastSequence(t: Transaction)
    requires ValidTransaction(t)
    ensures t.records[|t.records| - 1].sequence == t.records[0].sequence + |t.records| - 1
    ensures t.records[0].sequence > 0
  {
    ConsecutiveAt(t.records, |t.records| - 1);
  }

  // ---------------------------------------------------------------------
  // What a second application finds
  // ---------------------------------------------------------------------

  lemma Sandwich<K, V>(m: map<K, V>, whole: map<K, V>, gone: set<K>)
    requires SubMap(whole - gone, m) && SubMap(m, whole)
    ensures m - gone == whole - gone
  {
    forall k | k in m - gone ensures k in whole - gone && m[k] == whole[k] {}
    forall k | k in whole - gone ensures k in m - gone {
      assert k in (whole - gone) && (whole - gone)[k] == m[k];
    }
  }

  lemma Overlay<K, V>(m: map<K, V>, before: map<K, V>, final: map<K, V>)
    requires Mixed(m, before, before + final)
    ensures m + final == before + final
  {
    assert (m + final).Keys == (before + final).Keys;
  }

  lemma RecordsStillAgree(d0: Disk, d: Disk, refs: seq<AckRef>)
    requires SubMap(d.records, d0.records) && SubMap(d.pending, d0.pending)
    requires PendingOutlives(d.records, d.pending, refs)
    requires forall i :: 0 <= i < |refs| ==> RecordFilesAgree(d0, refs[i])
    ensures forall i :: 0 <= i < |refs| ==> RecordFilesAgree(d, refs[i])
  {
    hide ReadableRecord, ValidPendingIndex, StoredOf;
  }

  lemma IndexStillAgrees(d0: Disk, d: Disk, change: IndexChange, final: map<OperationKey, OperationIndex>)
    requires change.key in final
    requires Mixed(d.opIndex, d0.opIndex, d0.opIndex + final)
    requires IndexFileAgrees(d0, change, final[change.key])
    ensures IndexFileAgrees(d, change, final[change.key])
  {}

  /** A directory whose checkpoint already is the new one counts as a replay;
      otherwise the first application's checks still hold. */
  lemma CheckpointStillAgrees(c: Codec, d0: Disk, t: Transaction, d: Disk)
    requires ApplyAccepts(d0, t)
    requires d.checkpoint == d0.checkpoint || d.checkpoint == ApplyTransaction(c, d0, t).checkpoint
    requires d.descriptor == d0.descriptor
             || (d.descriptor == None && d.checkpoint == ApplyTransaction(c, d0, t).checkpoint)
    requires ReadableCheckpoint(ApplyTransaction(c, d0, t))
    ensures ReadableCheckpoint(d)
    ensures IsReplay(d, t) ==> SameArtifact(d.checkpoint.value.confirmation, t.confirmation)
    ensures IsReplay(d, t) ==> d.checkpoint == ApplyTransaction(c, d0, t).checkpoint
    ensures !IsReplay(d, t) ==> d.checkpoint == d0.checkpoint && !IsReplay(d0, t) && d.descriptor == d0.descriptor
    ensures !IsReplay(d, t) ==> CheckpointSequence(d) + 1 == t.records[0].sequence && d.descriptor.Some?
    ensures d.descriptor.Some? ==> d.descriptor.value == t.records
  {
    LastSequence(t);
  }

  lemma NextCheckpointAgain(c: Codec, d0: Disk, t: Transaction, d: Disk)
    requires ApplyAccepts(d0, t) && ApplyAccepts(d, t)
    requires d.checkpoint == d0.checkpoint
    ensures NextCheckpoint(c, d, t) == NextCheckpoint(c, d0, t)
  {
    hide ValidTransaction, GenerationsIncrease, RecordFilesAgree, IndexFileAgrees, SameArtifact;
  }

  /** Every crash prefix of an application is accepted again. */
  lemma ReplayAccepted(c: Codec, d0: Disk, t: Transaction, d: Disk)
    requires ApplyAccepts(d0, t) && ReadableCheckpoint(ApplyTransaction(c, d0, t))
    requires Progress(c, d0, t, d)
    ensures ApplyAccepts(d, t)
  {
    CheckpointStillAgrees(c, d0, t, d);
    RecordsStillAgree(d0, d, t.records);
    forall i | 0 <= i < |t.changes|
      ensures IndexFileAgrees(d, t.changes[i], FinalIndices(t.records, t.confirmation)[t.changes[i].key])
    {
      IndexStillAgrees(d0, d, t.changes[i], FinalIndices(t.records, t.confirmation));
    }
    hide ValidTransaction, GenerationsIncrease, RecordFilesAgree, IndexFileAgrees, SameArtifact, ReadableCheckpoint,
         IsReplay;
  }

  /** And it ends where the uninterrupted application ends. */
  lemma ReplayConverges(c: Codec, d0: Disk, t: Transaction, d: Disk)
    requires ApplyAccepts(d0, t) && ReadableCheckpoint(ApplyTransaction(c, d0, t))
    requires Progress(c, d0, t, d)
    ensures ApplyAccepts(d, t)
    ensures ApplyTransaction(c, d, t) == ApplyTransaction(c, d0, t).(txn := d.txn, marker := d.marker, usage := d.usage)
  {
    ReplayAccepted(c, d0, t, d);
    CheckpointStillAgrees(c, d0, t, d);
    Sandwich(d.records, d0.records, Ids(t.records));
    Sandwich(d.pending, d0.pending, Sequences(t.records));
    Overlay(d.opIndex, d0.opIndex, FinalIndices(t.records, t.confirmation));
    if !IsReplay(d, t) { NextCheckpointAgain(c, d0, t, d); }
    hide ApplyAccepts, Ids, Sequences, FinalIndices, NextCheckpoint, IsReplay, Mixed, SubMap, PendingOutlives,
         FilesSettled;
  }

  lemma MixedOverlay<K, V>(before: map<K, V>, final: map<K, V>)
    ensures Mixed(before + final, before, before + final)
  {}

  /** A finished application is itself such a prefix: replaying it changes nothing. */
  lemma FinishedIsProgress(c: Codec, d0: Disk, t: Transaction)
    requires ApplyAccepts(d0, t)
    ensures Progress(c, d0, t, ApplyTransaction(c, d0, t))
  {
    var e := ApplyTransaction(c, d0, t);
    forall i | 0 <= i < |t.records| ensures t.records[i].id !in e.records {
      assert t.records[i].id in Ids(t.records);
    }
    assert PendingOutlives(e.records, e.pending, t.records);
    assert SubMap(e.records, d0.records) && SubMap(e.pending, d0.pending);
    MixedOverlay(d0.opIndex, FinalIndices(t.records, t.confirmation));
    hide ApplyAccepts, Ids, Sequences, FinalIndices, NextCheckpoint, IsReplay, Mixed, PendingOutlives;
  }

  lemma ReplayIdempotent(c: Codec, d0: Disk, t: Transaction)
    requires ApplyAccepts(d0, t) && ReadableCheckpoint(ApplyTransaction(c, d0, t))
    ensures ApplyAccepts(ApplyTransaction(c, d0, t), t)
    ensures ApplyTransaction(c, ApplyTransaction(c, d0, t), t) == ApplyTransaction(c, d0, t)
  {
    FinishedIsProgress(c, d0, t);
    ReplayConverges(c, d0, t, ApplyTransaction(c, d0, t));
  }

  lemma SubMapTransitive<K, V>(a: map<K, V>, b: map<K, V>, c: map<K, V>)
    requires SubMap(a, b) && SubMap(b, c)
    ensures SubMap(a, c)
  {}

  lemma MixedTransitive<K, V>(m1: map<K, V>, m2: map<K, V>, before: map<K, V>, after: map<K, V>)
    requires Mixed(m1, before, after) && Mixed(m2, m1, after)
    ensures Mixed(m2, before, after)
  {}

  lemma SettledStays(d0: Disk, e: Disk, refs: seq<AckRef>, d: Disk)
    requires OnTheWay(d0, e, refs, d) && FilesSettled(d0, e)
    ensures FilesSettled(d, e)
  {
    assert forall id :: id in e.records ==> id in d.records;
    assert forall s :: s in e.pending ==> s in d.pending;
  }

  lemma OnTheWayComposes(d0: Disk, e: Disk, refs: seq<AckRef>, d1: Disk, e1: Disk, d2: Disk)
    requires OnTheWay(d0, e, refs, d1) && OnTheWay(d1, e1, refs, d2)
    requires FilesSettled(e1, e) && e1.checkpoint == e.checkpoint
    ensures OnTheWay(d0, e, refs, d2)
  {
    if FilesSettled(d1, e1) { SettledStays(d1, e1, refs, d2); }
    hide SubMap, Mixed, PendingOutlives;
    SubMapTransitive(d2.records, d1.records, d0.records);
    SubMapTransitive(d2.pending, d1.pending, d0.pending);
    MixedTransitive(d1.opIndex, d2.opIndex, d0.opIndex, e.opIndex);
  }

  /** Progress composes: a crash during a replay is a crash of the first application. */
  lemma ProgressComposes(c: Codec, d0: Disk, t: Transaction, d1: Disk, d2: Disk)
    requires ApplyAccepts(d0, t) && ReadableCheckpoint(ApplyTransaction(c, d0, t))
    requires Progress(c, d0, t, d1)
    requires ApplyAccepts(d1, t) && Progress(c, d1, t, d2)
    ensures Progress(c, d0, t, d2)
  {
    ReplayConverges(c, d0, t, d1);
    hide ApplyAccepts, ApplyTransaction, ReadableCheckpoint, OnTheWay;
    OnTheWayComposes(d0, ApplyTransaction(c, d0, t), t.records, d1, ApplyTransaction(c, d1, t), d2);
  }

  // ---------------------------------------------------------------------
  // The directories an application passes through, in order
  // ---------------------------------------------------------------------

  /** The first `i` records of the batch and their sequence indices are gone. */
  function RemovedTo(d0: Disk, refs: seq<AckRef>, i: nat): Disk
    requires i <= |refs|
  {
    d0.(records := d0.records - Ids(refs[..i]), pending := d0.pending - Sequences(refs[..i]))
  }

  lemma RemovedNext(d0: Disk, refs: seq<AckRef>, i: nat)
    requires i < |refs|
    ensures RemovedTo(d0, refs, i + 1)
            == RemovedTo(d0, refs, i).(records := RemovedTo(d0, refs, i).records - {refs[i].id},
                                       pending := RemovedTo(d0, refs, i).pending - {refs[i].sequence})
  {
    assert Ids(refs[..i + 1]) == Ids(refs[..i]) + {refs[i].id};
    assert Sequences(refs[..i + 1]) == Sequences(refs[..i]) + {refs[i].sequence};
    hide Ids, Sequences;
    MinusUnion(d0.records, Ids(refs[..i]), {refs[i].id});
    MinusUnion(d0.pending, Sequences(refs[..i]), {refs[i].sequence});
  }

  lemma MinusUnion<K, V>(m: map<K, V>, a: set<K>, b: set<K>)
    ensures m - (a + b) == m - a - b
  {}

  lemma RemovedAll(d0: Disk, refs: seq<AckRef>)
    ensures RemovedTo(d0, refs, 0) == d0
    ensures RemovedTo(d0, refs, |refs|) == d0.(records := d0.records - Ids(refs), pending := d0.pending - Sequences(refs))
  {
    assert refs[..|refs|] == refs;
    assert d0.records - Ids([]) == d0.records && d0.pending - Sequences([]) == d0.pending;
  }

  lemma SubMapMinus<K, V>(m: map<K, V>, some: set<K>, all: set<K>)
    requires some <= all
    ensures SubMap(m - some, m) && SubMap(m - all, m - some)
  {}

  /** A prefix of the removals, the record of entry `i` possibly already gone while
      its sequence index is not. */
  lemma RemovingIsProgress(c: Codec, d0: Disk, t: Transaction, i: nat, last: bool)
    requires ApplyAccepts(d0, t) && i <= |t.records| && (last ==> i < |t.records|)
    ensures var d := RemovedTo(d0, t.records, i);
            Progress(c, d0, t, if last then d.(records := d.records - {t.records[i].id}) else d)
  {
    var refs := t.records;
    var gone := if last then Ids(refs[..i]) + {refs[i].id} else Ids(refs[..i]);
    assert gone <= Ids(refs) && Sequences(refs[..i]) <= Sequences(refs);
    OutlivesPrefix(d0, t, i, gone);
    assert last ==> d0.records - Ids(refs[..i]) - {refs[i].id} == d0.records - gone by {
      if last { MinusUnion(d0.records, Ids(refs[..i]), {refs[i].id}); }
    }
    SubMapMinus(d0.records, gone, Ids(refs));
    SubMapMinus(d0.pending, Sequences(refs[..i]), Sequences(refs));
    MixedSame(d0.opIndex, FinalIndices(refs, t.confirmation));
    hide SubMap, Mixed, PendingOutlives, Ids, Sequences, FinalIndices, IsReplay, NextCheckpoint, ApplyAccepts;
  }

  lemma MixedSame<K, V>(m: map<K, V>, final: map<K, V>)
    ensures Mixed(m, m, m + final)
  {}

  lemma OutlivesPrefix(d0: Disk, t: Transaction, i: nat, gone: set<Identity>)
    requires ApplyAccepts(d0, t) && i <= |t.records| && Ids(t.records[..i]) <= gone
    ensures PendingOutlives(d0.records - gone, d0.pending - Sequences(t.records[..i]), t.records)
  {
    var refs := t.records;
    forall k | 0 <= k < i ensures refs[k].id in gone { assert refs[..i][k] in refs[..i]; }
    forall j | 0 <= j < |refs| && refs[j].id in d0.records - gone
      ensures refs[j].sequence in d0.pending - Sequences(refs[..i])
    {
      assert RecordFilesAgree(d0, refs[j]);
      OtherSequence(refs, i, j);
    }
  }

  lemma OtherSequence(refs: seq<AckRef>, i: nat, j: nat)
    requires Consecutive(refs) && i <= j < |refs|
    ensures refs[j].sequence !in Sequences(refs[..i])
  {
    forall k | 0 <= k < i ensures refs[k].sequence != refs[j].sequence {
      ConsecutiveAt(refs, k);
      ConsecutiveAt(refs, j);
    }
  }

  /** The index files are rewritten in any order. */
  lemma IndexingIsProgress(c: Codec, d0: Disk, t: Transaction, m: map<OperationKey, OperationIndex>)
    requires ApplyAccepts(d0, t)
    requires Mixed(m, d0.opIndex, d0.opIndex + FinalIndices(t.records, t.confirmation))
    ensures Progress(c, d0, t, RemovedTo(d0, t.records, |t.records|).(opIndex := m))
  {
    RemovedAll(d0, t.records);
    RemovingIsProgress(c, d0, t, |t.records|, false);
    hide SubMap, Mixed, PendingOutlives, Ids, Sequences, FinalIndices, IsReplay, NextCheckpoint, ApplyAccepts, RemovedTo;
  }

  lemma MixedStep<K, V>(m: map<K, V>, before: map<K, V>, final: map<K, V>, k: K)
    requires Mixed(m, before, before + final) && k in final
    ensures Mixed(m[k := final[k]], before, before + final)
  {}

  lemma MixedDone<K, V>(m: map<K, V>, before: map<K, V>, final: map<K, V>)
    requires Mixed(m, before, before + final) && forall k :: k in final ==> k in m && m[k] == final[k]
    ensures m == before + final
  {}

  /** All files but the descriptor are in place. */
  lemma CheckpointIsProgress(c: Codec, d0: Disk, t: Transaction)
    requires ApplyAccepts(d0, t)
    ensures Progress(c, d0, t, ApplyTransaction(c, d0, t).(descriptor := d0.descriptor))
  {
    FinishedIsProgress(c, d0, t);
    hide SubMap, Mixed, PendingOutlives, Ids, Sequences, FinalIndices, IsReplay, NextCheckpoint, ApplyAccepts;
  }
}
