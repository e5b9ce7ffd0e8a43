/** The correlation itself, in the program's loops, and what its receipt does not depend
    on: the order of its inputs and the order in which maps are walked. */
module Correlation {
  import opened Foundations
  import opened Text
  import opened CorrelationModel

  // ---------------------------------------------------------------------
  // Sorting facts
  // ---------------------------------------------------------------------

  lemma OperationsComparable(s: set<Observation>)
    requires forall x, y :: x in s && y in s && x.operation == y.operation ==> x == y
    ensures Comparable(ByOperation, s)
  {
    forall x, y | x in s && y in s && x != y ensures ByOperation(x, y) || ByOperation(y, x) {
      LessTotal(x.operation, y.operation);
    }
  }

  lemma VersionsOrdered()
    ensures StrictWeak(OlderVersion)
  {
  }

  lemma ReferencesOrdered()
    ensures StrictWeak(ByReference)
  {
    LessIsStrictWeak();
  }

  /** A notice's reference determines its identifier, version and content. */
  lemma NoticeTextUnique(id: string, version: string, sha: string, id': string, version': string, sha': string)
    requires ':' !in id && ':' !in id' && ':' !in version && ':' !in version'
    requires NoticeText(id, version, sha) == NoticeText(id', version', sha')
    ensures id == id' && version == version' && sha == sha'
  {
    var a, b := "sha256:" + sha, "sha256:" + sha';
    var c, d := "v" + (version + [':'] + a), "v" + (version' + [':'] + b);
    StripPrefix("provider-notice:", id + [':'] + c, id' + [':'] + d);
    SplitUnique(id, c, id', d, ':');
    StripPrefix("v", version + [':'] + a, version' + [':'] + b);
    SplitUnique(version, a, version', b, ':');
    StripPrefix("sha256:", sha, sha');
  }

  lemma StripPrefix(p: string, a: string, b: string)
    requires p + a == p + b
    ensures a == b
  {
    assert a == (p + a)[|p|..] && b == (p + b)[|p|..];
  }

  lemma NoticeRefUnique(a: Notice, b: Notice)
    requires NoticeId(a.id) && NoticeId(b.id) && a.version >= 1 && b.version >= 1
    requires NoticeRef(a) == NoticeRef(b)
    ensures a.id == b.id && a.version == b.version && a.sha == b.sha
  {
    hide NoticeText, Decimal;
    NoticeTextUnique(a.id, Numeral(a.version), a.sha, b.id, Numeral(b.version), b.sha);
    DecimalRoundTrip(a.version);
    DecimalRoundTrip(b.version);
  }

  lemma {:induction false} CutAt(a: string, b: string, mark: char)
    requires mark !in a
    ensures IndexOf(mark, a + [mark] + b) == |a|
    ensures (a + [mark] + b)[..|a|] == a && (a + [mark] + b)[|a| + 1..] == b
  {
    var s := a + [mark] + b;
    var i := IndexOf(mark, s);
    assert s[|a|] == mark;
    assert s[..|s|] == s;
    assert i < |s|;
    assert s == s[..i] + [mark] + s[i + 1..];
    SplitUnique(a, b, s[..i], s[i + 1..], mark);
  }

  /** The shape accepts exactly the texts made of an identifier, a version and a digest. */
  lemma NoticeTextShape(id: string, version: string, sha: string)
    requires ':' !in id && ':' !in version
    ensures LinkedNoticeRef(NoticeText(id, version, sha)) <==> NoticeId(id) && VersionText(version) && Sha256Text(sha)
  {
    hide NoticeId, VersionText, Sha256Text;
    var c := "sha256:" + sha;
    var v := version + [':'] + c;
    var w := "v" + v;
    var s := id + [':'] + w;
    assert NoticeText(id, version, sha) == "provider-notice:" + s && ("provider-notice:" + s)[16..] == s;
    CutAt(id, w, ':');
    assert s[|id| + 2..] == w[1..] == v;
    CutAt(version, c, ':');
    assert c[7..] == sha;
  }

  lemma NoticeRefShape(n: Notice)
    requires NoticeId(n.id) && n.version >= 1 && Sha256Text(n.sha)
    ensures LinkedNoticeRef(NoticeRef(n)) && NoticeRef(n) != ""
  {
    hide Decimal, LinkedNoticeRef;
    assert NoticeRef(n) == NoticeText(n.id, Decimal(n.version), n.sha);
    NoticeTextShape(n.id, Decimal(n.version), n.sha);
  }

  // ---------------------------------------------------------------------
  // The scan
  // ---------------------------------------------------------------------

  method BuildEntries(canaries: seq<string>, catalog: map<string, Entry>) returns (r: Option<map<string, Entry>>)
    ensures r.None? <==> exists c :: c in canaries && c !in catalog
    ensures r.Some? ==> r.value == EntriesOf(canaries, catalog)
  {
    var entries: map<string, Entry> := map[];
    for i := 0 to |canaries|
      invariant forall c :: c in canaries[..i] ==> c in catalog
      invariant entries == EntriesOf(canaries[..i], catalog)
    {
      if canaries[i] !in catalog { return None; }
      entries := entries[canaries[i] := catalog[canaries[i]]];
      assert canaries[..i + 1] == canaries[..i] + [canaries[i]];
    }
    assert canaries[..|canaries|] == canaries;
    r := Some(entries);
  }

  method LatestObservations(replay: Replay, entries: map<string, Entry>) returns (r: Result<map<string, Observation>, CorrelationError>)
    ensures r == Latest(replay.observations, replay, entries)
  {
    hide Judge, Counted, Latest;
    var all := replay.observations;
    var latest: map<string, Observation> := map[];
    var seen: set<string> := {};
    NoneLatest(replay, entries);
    for i := 0 to |all|
      invariant Latest(all[..i], replay, entries) == Ok(latest)
      invariant forall s :: s in seen <==> exists p: Observation :: p in all[..i] && p.ref == s
    {
      var o := all[i];
      assert all[..i + 1] == all[..i] + [o];
      LatestSnoc(all[..i], o, replay, entries);
      if o.ref in seen {
        LatestStops(all, i + 1, replay, entries);
        return Err(DuplicateReference);
      }
      seen := seen + {o.ref};
      if Judge(o, replay, entries) == Refused {
        LatestStops(all, i + 1, replay, entries);
        return Err(InvalidObservation);
      }
      if Counted(o, replay, entries) {
        if o.operation !in latest || o.observedAt > latest[o.operation].observedAt {
          latest := latest[o.operation := o];
        } else if o.observedAt == latest[o.operation].observedAt && o.ref != latest[o.operation].ref {
          LatestStops(all, i + 1, replay, entries);
          return Err(ConflictingTimestamps);
        }
      }
    }
    assert all[..|all|] == all;
    r := Ok(latest);
  }

  lemma {:induction false} NoneLatest(replay: Replay, entries: map<string, Entry>)
    ensures Latest([], replay, entries) == Ok(map[])
  {
  }

  /** The first error of the scan is its result. */
  lemma {:induction false} LatestStops(all: seq<Observation>, i: nat, replay: Replay, entries: map<string, Entry>)
    requires i <= |all| && Latest(all[..i], replay, entries).Err?
    ensures Latest(all, replay, entries) == Latest(all[..i], replay, entries)
  {
    hide Scan;
    if i == |all| {
      assert all[..i] == all;
    } else {
      assert all[..|all| - 1][..i] == all[..i];
      LatestStops(all[..|all| - 1], i, replay, entries);
    }
  }

  // ---------------------------------------------------------------------
  // Affected and control observations
  // ---------------------------------------------------------------------

  ghost predicate Keyed(latest: map<string, Observation>) { forall op :: op in latest ==> latest[op].operation == op }

  /** What has been collected is the chosen part of what has been walked, each operation once. */
  ghost predicate Collected(latest: map<string, Observation>, walked: set<string>, wanted: Observation -> bool, s: seq<Observation>) {
    && (forall o :: o in s <==> o.operation in walked && o.operation in latest && latest[o.operation] == o && wanted(o))
    && NoDuplicates(s)
  }

  lemma CollectOne(latest: map<string, Observation>, walked: set<string>, wanted: Observation -> bool, s: seq<Observation>, op: string)
    requires Keyed(latest) && Collected(latest, walked, wanted, s) && op in latest && op !in walked
    ensures Collected(latest, walked + {op}, wanted, if wanted(latest[op]) then s + [latest[op]] else s)
  {
  }

  lemma {:induction false} CollectedSorts(latest: map<string, Observation>, wanted: Observation -> bool, s: seq<Observation>, all: set<Observation>)
    requires Keyed(latest) && Collected(latest, latest.Keys, wanted, s)
    requires forall o :: o in all <==> o.operation in latest && latest[o.operation] == o && wanted(o)
    ensures SortBy(ByOperation, s) == Ascending(ByOperation, all)
  {
    hide ByOperation, SortBy;
    ByOperationIsStrictWeak();
    OperationsComparable(all);
    SortIsAscending(ByOperation, all, s);
  }

  lemma GroupsOf(latest: map<string, Observation>)
    requires Keyed(latest)
    ensures forall o :: o in AffectedSet(latest) <==> o.operation in latest && latest[o.operation] == o && IsAffected(o)
    ensures forall o :: o in ControlSet(latest) <==> o.operation in latest && latest[o.operation] == o && IsControl(o)
  {
  }

  /** The map is walked in an arbitrary order; sorting removes it. */
  method SplitObservations(latest: map<string, Observation>) returns (affected: seq<Observation>, controls: seq<Observation>)
    requires Keyed(latest)
    ensures affected == Affected(latest) && controls == Controls(latest)
  {
    hide IsAffected, IsControl, ByOperation, SortBy, AffectedSet, ControlSet;
    affected, controls := [], [];
    var remaining := latest.Keys;
    while remaining != {}
      invariant remaining <= latest.Keys
      invariant Collected(latest, latest.Keys - remaining, IsAffected, affected)
      invariant Collected(latest, latest.Keys - remaining, IsControl, controls)
    {
      var op :| op in remaining;
      CollectOne(latest, latest.Keys - remaining, IsAffected, affected, op);
      CollectOne(latest, latest.Keys - remaining, IsControl, controls, op);
      assert latest.Keys - (remaining - {op}) == latest.Keys - remaining + {op};
      if IsAffected(latest[op]) { affected := affected + [latest[op]]; }
      if IsControl(latest[op]) { controls := controls + [latest[op]]; }
      remaining := remaining - {op};
    }
    assert latest.Keys - remaining == latest.Keys;
    GroupsOf(latest);
    CollectedSorts(latest, IsAffected, affected, AffectedSet(latest));
    CollectedSorts(latest, IsControl, controls, ControlSet(latest));
    affected := SortBy(ByOperation, affected);
    controls := SortBy(ByOperation, controls);
  }

  // ---------------------------------------------------------------------
  // Notices
  // ---------------------------------------------------------------------

  method CheckChain(versions: seq<Notice>) returns (ok: bool, considered: seq<string>, superseded: seq<string>)
    requires versions != []
    ensures ok <==> Contiguous(versions)
    ensures ok ==> considered == seq(|versions|, i requires 0 <= i < |versions| => NoticeRef(versions[i]))
    ensures ok ==> superseded == seq(|versions| - 1, i requires 0 <= i < |versions| - 1 => NoticeRef(versions[i]))
  {
    hide NoticeRef;
    considered, superseded := [], [];
    for i := 0 to |versions|
      invariant Contiguous(versions[..i])
      invariant considered == seq(i, k requires 0 <= k < i => NoticeRef(versions[k]))
      invariant |superseded| == (if i == |versions| then i - 1 else i)
      invariant forall k: nat :: k < |superseded| ==> superseded[k] == NoticeRef(versions[k])
    {
      var notice := versions[i];
      considered := considered + [NoticeRef(notice)];
      if i == 0 {
        if notice.version != 1 || notice.supersedes != 0 { return false, [], []; }
      } else if notice.version != versions[i - 1].version + 1 || notice.supersedes != versions[i - 1].version {
        assert versions[i - 1] == versions[..i][i - 1];
        return false, [], [];
      }
      assert i > 0 ==> versions[i - 1] == versions[..i][i - 1];
      assert versions[..i + 1] == versions[..i] + [notice];
      if i < |versions| - 1 { superseded := superseded + [NoticeRef(notice)]; }
    }
    assert versions[..|versions|] == versions;
    ok := true;
  }

  method GroupNotices(replay: Replay, entries: map<string, Entry>) returns (r: Option<map<string, seq<Notice>>>)
    ensures r.None? <==> exists n :: n in replay.notices && !ValidNotice(n, entries)
    ensures r.Some? ==> r.value.Keys == NoticeIds(replay.notices)
    ensures r.Some? ==> forall id :: id in r.value ==> r.value[id] == OfNotice(id, replay.notices)
  {
    hide ValidNotice, OfNotice;
    var all := replay.notices;
    var byId: map<string, seq<Notice>> := map[];
    for i := 0 to |all|
      invariant forall n :: n in all[..i] ==> ValidNotice(n, entries)
      invariant byId.Keys == NoticeIds(all[..i])
      invariant forall id :: id in byId ==> byId[id] == OfNotice(id, all[..i])
    {
      var n := all[i];
      if !ValidNotice(n, entries) { return None; }
      assert all[..i + 1] == all[..i] + [n];
      forall id ensures OfNotice(id, all[..i + 1]) == OfNotice(id, all[..i]) + (if n.id == id then [n] else []) {
        OfNoticeSnoc(id, all[..i], n);
      }
      if n.id !in byId { OfNoticeNone(n.id, all[..i]); }
      byId := byId[n.id := (if n.id in byId then byId[n.id] else []) + [n]];
    }
    assert all[..|all|] == all;
    r := Some(byId);
  }

  lemma OfNoticeSnoc(id: string, s: seq<Notice>, n: Notice)
    ensures OfNotice(id, s + [n]) == OfNotice(id, s) + (if n.id == id then [n] else [])
  {
    ExpandSnoc((m: Notice) => if m.id == id then 1 else 0, s, n);
  }

  lemma OfNoticeMembers(id: string, s: seq<Notice>)
    ensures forall n :: n in OfNotice(id, s) <==> n in s && n.id == id
    ensures forall n :: n in Chain(id, s) <==> n in s && n.id == id
  {
    hide SortBy;
    forall n ensures n in OfNotice(id, s) <==> n in s && n.id == id {
      ExpandMembers((m: Notice) => if m.id == id then 1 else 0, s, n);
    }
    forall n ensures n in Chain(id, s) <==> n in OfNotice(id, s) { assert n in multiset(Chain(id, s)) <==> n in Chain(id, s); }
  }

  lemma HasMember<T>(s: seq<T>)
    requires s != []
    ensures exists x :: x in s
  {
    assert s[0] in s;
  }

  lemma OfNoticeNone(id: string, s: seq<Notice>)
    requires id !in NoticeIds(s)
    ensures OfNotice(id, s) == []
  {
    hide OfNotice;
    OfNoticeMembers(id, s);
    if OfNotice(id, s) != [] { HasMember(OfNotice(id, s)); assert false; }
  }

  /** In a contiguous chain, the versions before the last are the superseded ones. */
  lemma ChainOrder(id: string, notices: seq<Notice>)
    requires Contiguous(Chain(id, notices)) && id in NoticeIds(notices)
    ensures Chain(id, notices) != []
    ensures forall i: nat :: i < |Chain(id, notices)| ==>
              var n := Chain(id, notices)[i];
              n in notices && n.id == id && (IsSuperseded(n, notices) <==> i < |Chain(id, notices)| - 1)
  {
    hide Chain;
    OfNoticeMembers(id, notices);
    var chain := Chain(id, notices);
    var first :| first in notices && first.id == id;
    assert first in chain;
    forall i: nat | i < |chain|
      ensures chain[i] in notices && chain[i].id == id
      ensures IsSuperseded(chain[i], notices) <==> i < |chain| - 1
    {
      assert chain[i] in chain;
      if i < |chain| - 1 {
        assert chain[i + 1] in chain;
        assert IsSuperseded(chain[i], notices);
      } else {
        forall m | m in notices && m.id == id ensures m.version <= chain[i].version { assert m in chain; }
      }
    }
  }

  ghost function ConsideredIn(notices: seq<Notice>, ids: set<string>): set<string> {
    set n | n in notices && n.id in ids :: NoticeRef(n)
  }

  ghost function SupersededIn(notices: seq<Notice>, ids: set<string>): set<string> {
    set n | n in notices && n.id in ids && IsSuperseded(n, notices) :: NoticeRef(n)
  }

  ghost function ActiveIn(notices: seq<Notice>, ids: set<string>, assessedAt: int): set<Notice> {
    set n | n in notices && n.id in ids && InForce(n, notices, assessedAt)
  }

  /** What the loop over the identifiers has gathered so far. */
  ghost predicate Gathered(notices: seq<Notice>, walked: set<string>, assessedAt: int, active: seq<Notice>, considered: seq<string>, superseded: seq<string>) {
    && Lists(active, ActiveIn(notices, walked, assessedAt)) && Lists(considered, ConsideredIn(notices, walked))
    && Lists(superseded, SupersededIn(notices, walked))
  }

  function RefsOf(chain: seq<Notice>, n: nat): seq<string>
    requires n <= |chain|
  {
    seq(n, i requires 0 <= i < n => NoticeRef(chain[i]))
  }

  lemma ChainApart(id: string, notices: seq<Notice>, entries: map<string, Entry>)
    requires Contiguous(Chain(id, notices)) && forall n :: n in notices ==> ValidNotice(n, entries)
    ensures var c := Chain(id, notices); forall i: nat, j: nat :: i < j < |c| ==> NoticeRef(c[i]) != NoticeRef(c[j])
  {
    hide Chain, NoticeRef, NoticeId;
    var c := Chain(id, notices);
    OfNoticeMembers(id, notices);
    forall i: nat, j: nat | i < j < |c| ensures NoticeRef(c[i]) != NoticeRef(c[j]) {
      assert c[i] in c && c[j] in c;
      if NoticeRef(c[i]) == NoticeRef(c[j]) { NoticeRefUnique(c[i], c[j]); assert false; }
    }
  }

  lemma ChainConsidered(id: string, notices: seq<Notice>, entries: map<string, Entry>)
    requires Contiguous(Chain(id, notices)) && forall n :: n in notices ==> ValidNotice(n, entries)
    ensures var c := Chain(id, notices); Lists(RefsOf(c, |c|), ConsideredIn(notices, {id}))
  {
    hide Chain, NoticeRef, ValidNotice, Contiguous;
    var c := Chain(id, notices);
    ChainApart(id, notices, entries);
    OfNoticeMembers(id, notices);
    forall s | s in RefsOf(c, |c|) ensures s in ConsideredIn(notices, {id}) {
      var i: nat :| i < |c| && RefsOf(c, |c|)[i] == s;
      assert c[i] in c;
    }
    forall s | s in ConsideredIn(notices, {id}) ensures s in RefsOf(c, |c|) {
      var n :| n in notices && n.id == id && NoticeRef(n) == s;
      assert n in c;
      var i: nat :| i < |c| && c[i] == n;
      assert RefsOf(c, |c|)[i] == s;
    }
  }

  lemma ChainSuperseded(id: string, notices: seq<Notice>, entries: map<string, Entry>)
    requires Contiguous(Chain(id, notices)) && id in NoticeIds(notices) && forall n :: n in notices ==> ValidNotice(n, entries)
    ensures var c := Chain(id, notices); c != [] && Lists(RefsOf(c, |c| - 1), SupersededIn(notices, {id}))
  {
    hide Chain, NoticeRef, ValidNotice, Contiguous, IsSuperseded;
    var c := Chain(id, notices);
    ChainApart(id, notices, entries);
    ChainOrder(id, notices);
    OfNoticeMembers(id, notices);
    forall s | s in RefsOf(c, |c| - 1) ensures s in SupersededIn(notices, {id}) {
      var i: nat :| i < |c| - 1 && RefsOf(c, |c| - 1)[i] == s;
      assert IsSuperseded(c[i], notices);
    }
    forall s | s in SupersededIn(notices, {id}) ensures s in RefsOf(c, |c| - 1) {
      var n :| n in notices && n.id == id && IsSuperseded(n, notices) && NoticeRef(n) == s;
      assert n in c;
      var i: nat :| i < |c| && c[i] == n;
      assert RefsOf(c, |c| - 1)[i] == s;
    }
  }

  lemma ChainActive(id: string, notices: seq<Notice>, assessedAt: int)
    requires Contiguous(Chain(id, notices)) && id in NoticeIds(notices)
    ensures var c := Chain(id, notices);
            && c != []
            && Lists(if c[|c| - 1].state != WithdrawnNotice && CurrentNotice(c[|c| - 1], assessedAt) then [c[|c| - 1]] else [],
                     ActiveIn(notices, {id}, assessedAt))
  {
    hide Chain, Contiguous, IsSuperseded, CurrentNotice;
    var c := Chain(id, notices);
    ChainOrder(id, notices);
    OfNoticeMembers(id, notices);
    forall n | n in notices && n.id == id && !IsSuperseded(n, notices) ensures n == c[|c| - 1] {
      assert n in c;
      var i: nat :| i < |c| && c[i] == n;
      assert i == |c| - 1;
    }
  }

  /** References of different identifiers differ. */
  lemma ApartById(notices: seq<Notice>, entries: map<string, Entry>, walked: set<string>, id: string)
    requires id !in walked && forall n :: n in notices ==> ValidNotice(n, entries)
    ensures ConsideredIn(notices, walked) !! ConsideredIn(notices, {id})
    ensures SupersededIn(notices, walked) !! SupersededIn(notices, {id})
  {
    hide NoticeRef, NoticeId, IsSuperseded;
    assert SupersededIn(notices, walked) <= ConsideredIn(notices, walked);
    assert SupersededIn(notices, {id}) <= ConsideredIn(notices, {id});
    forall s | s in ConsideredIn(notices, walked) ensures s !in ConsideredIn(notices, {id}) {
      if s in ConsideredIn(notices, {id}) {
        var m :| m in notices && m.id in walked && NoticeRef(m) == s;
        var n :| n in notices && n.id == id && NoticeRef(n) == s;
        NoticeRefUnique(m, n);
        assert false;
      }
    }
  }

  lemma WalkedGrows(notices: seq<Notice>, walked: set<string>, id: string, assessedAt: int)
    ensures ConsideredIn(notices, walked + {id}) == ConsideredIn(notices, walked) + ConsideredIn(notices, {id})
    ensures SupersededIn(notices, walked + {id}) == SupersededIn(notices, walked) + SupersededIn(notices, {id})
    ensures ActiveIn(notices, walked + {id}, assessedAt) == ActiveIn(notices, walked, assessedAt) + ActiveIn(notices, {id}, assessedAt)
    ensures id !in walked ==> ActiveIn(notices, walked, assessedAt) !! ActiveIn(notices, {id}, assessedAt)
  {
    hide NoticeRef, IsSuperseded, InForce;
  }

  lemma GatherOne(notices: seq<Notice>, entries: map<string, Entry>, walked: set<string>, id: string, assessedAt: int,
                  active: seq<Notice>, considered: seq<string>, superseded: seq<string>, c: seq<Notice>)
    requires forall n :: n in notices ==> ValidNotice(n, entries)
    requires Gathered(notices, walked, assessedAt, active, considered, superseded)
    requires id in NoticeIds(notices) && id !in walked && c == Chain(id, notices) && Contiguous(c)
    ensures c != []
    ensures Gathered(notices, walked + {id}, assessedAt,
                     if c[|c| - 1].state != WithdrawnNotice && CurrentNotice(c[|c| - 1], assessedAt) then active + [c[|c| - 1]] else active,
                     considered + RefsOf(c, |c|), superseded + RefsOf(c, |c| - 1))
  {
    hide NoticeIds, NoticeRef, Contiguous, Chain, RefsOf, ValidNotice, CurrentNotice, ConsideredIn, SupersededIn, ActiveIn, Lists;
    ChainConsidered(id, notices, entries);
    ChainSuperseded(id, notices, entries);
    ChainActive(id, notices, assessedAt);
    ApartById(notices, entries, walked, id);
    WalkedGrows(notices, walked, id, assessedAt);
    ListsConcat(considered, RefsOf(c, |c|), ConsideredIn(notices, walked), ConsideredIn(notices, {id}));
    ListsConcat(superseded, RefsOf(c, |c| - 1), SupersededIn(notices, walked), SupersededIn(notices, {id}));
    var last := if c[|c| - 1].state != WithdrawnNotice && CurrentNotice(c[|c| - 1], assessedAt) then [c[|c| - 1]] else [];
    ListsConcat(active, last, ActiveIn(notices, walked, assessedAt), ActiveIn(notices, {id}, assessedAt));
    assert active + [] == active;
  }

  lemma AllWalked(notices: seq<Notice>, assessedAt: int)
    ensures ConsideredIn(notices, NoticeIds(notices)) == set n | n in notices :: NoticeRef(n)
    ensures SupersededIn(notices, NoticeIds(notices)) == set n | n in notices && IsSuperseded(n, notices) :: NoticeRef(n)
    ensures ActiveIn(notices, NoticeIds(notices), assessedAt) == ActiveSet(notices, assessedAt)
  {
    hide NoticeRef, IsSuperseded, InForce;
  }

  lemma {:induction false} GatheredSorts(notices: seq<Notice>, entries: map<string, Entry>, assessedAt: int, active: seq<Notice>, considered: seq<string>, superseded: seq<string>)
    requires forall n :: n in notices ==> ValidNotice(n, entries)
    requires ChainsContiguous(notices) && Gathered(notices, NoticeIds(notices), assessedAt, active, considered, superseded)
    ensures SortBy(ByReference, active) == Active(notices, assessedAt)
    ensures SortBy(Less, considered) == Considered(notices)
    ensures SortBy(Less, superseded) == Superseded(notices)
  {
    hide SortBy, Less, NoticeRef, ChainsContiguous, ValidNotice, ActiveSet, ConsideredIn, SupersededIn, ActiveIn, StrictWeak, ByReference, IsSuperseded, Ascending;
    LessIsStrictWeak();
    ReferencesOrdered();
    AllWalked(notices, assessedAt);
    TextsComparable(ConsideredIn(notices, NoticeIds(notices)));
    SortIsAscending(Less, ConsideredIn(notices, NoticeIds(notices)), considered);
    TextsComparable(SupersededIn(notices, NoticeIds(notices)));
    SortIsAscending(Less, SupersededIn(notices, NoticeIds(notices)), superseded);
    ActiveComparable(notices, entries, assessedAt);
    SortIsAscending(ByReference, ActiveSet(notices, assessedAt), active);
  }

  lemma ActiveComparable(notices: seq<Notice>, entries: map<string, Entry>, assessedAt: int)
    requires forall n :: n in notices ==> ValidNotice(n, entries)
    requires ChainsContiguous(notices)
    ensures Comparable(ByReference, ActiveSet(notices, assessedAt))
  {
    hide NoticeRef, Contiguous, Chain, Less, NoticeId, IsSuperseded, CurrentNotice;
    forall x, y | x in ActiveSet(notices, assessedAt) && y in ActiveSet(notices, assessedAt) && x != y
      ensures ByReference(x, y) || ByReference(y, x)
    {
      LessTotal(NoticeRef(x), NoticeRef(y));
      if NoticeRef(x) == NoticeRef(y) {
        NoticeRefUnique(x, y);
        assert x.id in NoticeIds(notices);
        assert x in ActiveIn(notices, {x.id}, assessedAt) && y in ActiveIn(notices, {x.id}, assessedAt);
        ChainActive(x.id, notices, assessedAt);
        assert false;
      }
    }
  }

  datatype Notices = Notices(active: seq<Notice>, considered: seq<string>, superseded: seq<string>)

  method SelectActiveNotices(replay: Replay, entries: map<string, Entry>) returns (r: Result<Notices, CorrelationError>)
    ensures (exists n :: n in replay.notices && !ValidNotice(n, entries)) <==> r == Err(InvalidNotice)
    ensures r.Err? ==> r.error == InvalidNotice || r.error == BrokenChain
    ensures r == Err(BrokenChain) ==> !ChainsContiguous(replay.notices)
    ensures r.Ok? ==> ChainsContiguous(replay.notices)
    ensures r.Ok? ==> r.value == Notices(Active(replay.notices, replay.assessedAt), Considered(replay.notices), Superseded(replay.notices))
  {
    hide *;
    var notices := replay.notices;
    var byId := GroupNotices(replay, entries);
    if byId.None? { return Err(InvalidNotice); }
    var active: seq<Notice>, considered: seq<string>, superseded: seq<string> := [], [], [];
    var remaining := byId.value.Keys;
    NoneGathered(notices, replay.assessedAt);
    assert byId.value.Keys - remaining == {};
    while remaining != {}
      invariant remaining <= byId.value.Keys
      invariant Gathered(notices, byId.value.Keys - remaining, replay.assessedAt, active, considered, superseded)
      invariant forall id :: id in byId.value.Keys - remaining ==> Contiguous(Chain(id, notices))
    {
      var id :| id in remaining;
      var versions := SortBy(OlderVersion, byId.value[id]);
      ChainIs(id, notices, versions);
      var ok, refs, older := CheckChain(versions);
      if !ok {
        NotContiguous(id, notices);
        return Err(BrokenChain);
      }
      GatherOne(notices, entries, byId.value.Keys - remaining, id, replay.assessedAt, active, considered, superseded, versions);
      RefsOfIs(versions, refs, older);
      considered, superseded := considered + refs, superseded + older;
      var last := versions[|versions| - 1];
      if last.state != WithdrawnNotice && CurrentNotice(last, replay.assessedAt) { active := active + [last]; }
      assert byId.value.Keys - (remaining - {id}) == byId.value.Keys - remaining + {id};
      remaining := remaining - {id};
    }
    assert byId.value.Keys - remaining == NoticeIds(notices);
    AllContiguous(notices);
    GatheredSorts(notices, entries, replay.assessedAt, active, considered, superseded);
    r := Ok(Notices(SortBy(ByReference, active), SortBy(Less, considered), SortBy(Less, superseded)));
  }

  lemma NoneGathered(notices: seq<Notice>, assessedAt: int)
    ensures Gathered(notices, {}, assessedAt, [], [], [])
  {
  }

  lemma ChainIs(id: string, notices: seq<Notice>, versions: seq<Notice>)
    requires id in NoticeIds(notices) && versions == SortBy(OlderVersion, OfNotice(id, notices))
    ensures versions == Chain(id, notices) && versions != []
  {
    hide OfNotice, SortBy;
    OfNoticeMembers(id, notices);
    var n :| n in notices && n.id == id;
    assert n in Chain(id, notices);
  }

  lemma NotContiguous(id: string, notices: seq<Notice>)
    requires id in NoticeIds(notices) && !Contiguous(Chain(id, notices))
    ensures !ChainsContiguous(notices)
  {
  }

  lemma AllContiguous(notices: seq<Notice>)
    requires forall id :: id in NoticeIds(notices) ==> Contiguous(Chain(id, notices))
    ensures ChainsContiguous(notices)
  {
  }

  lemma RefsOfIs(versions: seq<Notice>, refs: seq<string>, older: seq<string>)
    requires versions != []
    requires refs == seq(|versions|, i requires 0 <= i < |versions| => NoticeRef(versions[i]))
    requires older == seq(|versions| - 1, i requires 0 <= i < |versions| - 1 => NoticeRef(versions[i]))
    ensures refs == RefsOf(versions, |versions|) && older == RefsOf(versions, |versions| - 1)
  {
    hide NoticeRef;
  }

  // ---------------------------------------------------------------------
  // The correlation
  // ---------------------------------------------------------------------

  method BuildEvidence(replay: Replay, base: Receipt, affected: seq<Observation>, entries: map<string, Entry>)
    returns (evidence: seq<Evidence>, bindings: seq<Binding>)
    ensures DegradedReceipt(base, replay, affected, base.linked, entries).evidence == evidence
    ensures DegradedReceipt(base, replay, affected, base.linked, entries).bindings == bindings
  {
    hide EvidenceOf, BindingOf;
    evidence, bindings := [], [];
    for i := 0 to |affected|
      invariant |evidence| == |bindings| == i
      invariant forall k: nat :: k < i ==> evidence[k] == EvidenceOf(affected[k], replay, base.affected, base.controls)
      invariant forall k: nat :: k < i ==> bindings[k] == BindingOf(affected[k], replay, base.affected, base.controls, entries)
    {
      evidence := evidence + [EvidenceOf(affected[i], replay, base.affected, base.controls)];
      bindings := bindings + [BindingOf(affected[i], replay, base.affected, base.controls, entries)];
    }
  }

  method LinkNotice(active: seq<Notice>, dependency: string, affected: seq<Observation>) returns (linked: string)
    ensures linked == FirstCovering(active, dependency, affected)
  {
    hide Covers, NoticeRef;
    for i := 0 to |active|
      invariant FirstCovering(active, dependency, affected) == FirstCovering(active[i..], dependency, affected)
    {
      assert active[i..][1..] == active[i + 1..];
      if Covers(active[i], dependency, affected) { return NoticeRef(active[i]); }
    }
    linked := "";
  }

  method CorrelateProviderOutage(bound: bool, canaries: seq<string>, catalog: map<string, Entry>, replay: Replay) returns (r: Result<Receipt, CorrelationError>)
    ensures r == Correlate(bound, canaries, catalog, replay)
  {
    hide Latest, ValidNotice, ChainsContiguous, Affected, Controls, Active, Considered, Superseded, FirstCovering, EvidenceOf, BindingOf, EntriesOf, NoticeRef;
    if !bound || replay.scope.provider != PROVIDER || replay.scope.canaryScope != CANARY_SCOPE { return Err(NotBound); }
    var entries := BuildEntries(canaries, catalog);
    if entries.None? { return Err(CatalogIncomplete); }
    var latest := LatestObservations(replay, entries.value);
    if latest.Err? { return Err(latest.error); }
    LatestKeyed(replay, entries.value);
    var affected, controls := SplitObservations(latest.value);
    var notices := SelectActiveNotices(replay, entries.value);
    if notices.Err? { return Err(notices.error); }
    var base := InsufficientReceipt(replay, affected, controls, notices.value.considered, notices.value.superseded);
    if |affected| < MINIMUM_AFFECTED || |controls| < MINIMUM_CONTROLS { return Ok(base); }
    var evidence, bindings := BuildEvidence(replay, base, affected, entries.value);
    var receipt := base.(cause := OutageCause, determination := Inferred, state := Degraded, evidence := evidence, bindings := bindings);
    var linked := LinkNotice(notices.value.active, replay.scope.dependency, affected);
    if linked != "" { receipt := receipt.(determination := ObservedDetermination, linked := linked); }
    r := Ok(receipt);
  }

  lemma {:induction false} LatestKeyed(replay: Replay, entries: map<string, Entry>)
    requires Latest(replay.observations, replay, entries).Ok?
    ensures Keyed(Latest(replay.observations, replay, entries).value)
  {
    LatestIsMaximum(replay.observations, replay, entries);
  }

  // ---------------------------------------------------------------------
  // Order independence
  // ---------------------------------------------------------------------

  /** Whether the notices form whole chains does not depend on their order. */
  lemma ChainsOrderFree(a: seq<Notice>, b: seq<Notice>)
    requires multiset(a) == multiset(b) && ChainsContiguous(a)
    ensures ChainsContiguous(b)
  {
    hide SortBy, Contiguous;
    forall n ensures n in a <==> n in b { assert n in multiset(a) <==> n in a; assert n in multiset(b) <==> n in b; }
    assert NoticeIds(a) == NoticeIds(b);
    forall id | id in NoticeIds(b) ensures Contiguous(Chain(id, b)) { ChainOrderFree(id, a, b); }
  }

  lemma ChainOrderFree(id: string, a: seq<Notice>, b: seq<Notice>)
    requires multiset(a) == multiset(b) && Contiguous(Chain(id, a))
    ensures Chain(id, a) == Chain(id, b)
  {
    hide SortBy, Expand;
    var c, d := Chain(id, a), Chain(id, b);
    ExpandPermutation((n: Notice) => if n.id == id then 1 else 0, a, b);
    assert multiset(c) == multiset(d);
    VersionsOrdered();
    SortSorts(OlderVersion, OfNotice(id, a));
    SortSorts(OlderVersion, OfNotice(id, b));
    assert StrictlySorted(OlderVersion, c);
    NoDuplicatesCount(c);
    assert NoDuplicates(c);
    forall x ensures x in c <==> x in d { assert x in multiset(c) <==> x in c; assert x in multiset(d) <==> x in d; }
    var all := set x | x in c;
    ContiguousComparable(c, all);
    assert multiset(c) == multiset(all) by {
      forall x ensures multiset(c)[x] == multiset(all)[x] { assert x in c <==> x in multiset(all); }
    }
    ListingIsStrict(OlderVersion, all, d);
    StrictlySortedUnique(OlderVersion, c, d);
  }

  lemma ContiguousComparable(c: seq<Notice>, all: set<Notice>)
    requires Contiguous(c) && forall x :: x in all ==> x in c
    ensures Comparable(OlderVersion, all)
  {
    forall x, y | x in all && y in all && x != y ensures OlderVersion(x, y) || OlderVersion(y, x) {
      var i: nat :| i < |c| && c[i] == x;
      var j: nat :| j < |c| && c[j] == y;
    }
  }

  predicate SameInputs(a: Replay, b: Replay) {
    && a.assessedAt == b.assessedAt && a.scope == b.scope
    && multiset(a.observations) == multiset(b.observations) && multiset(a.notices) == multiset(b.notices)
  }

  lemma {:induction false} LatestIgnoresOrderFields(s: seq<Observation>, a: Replay, b: Replay, entries: map<string, Entry>)
    requires a.assessedAt == b.assessedAt && a.scope == b.scope
    ensures Latest(s, a, entries) == Latest(s, b, entries)
  {
    if s != [] {
      LatestIgnoresOrderFields(s[..|s| - 1], a, b, entries);
      assert forall o :: Judge(o, a, entries) == Judge(o, b, entries);
    }
  }

  lemma NoticesOrderFree(a: seq<Notice>, b: seq<Notice>, assessedAt: int)
    requires multiset(a) == multiset(b)
    ensures Active(a, assessedAt) == Active(b, assessedAt) && Considered(a) == Considered(b) && Superseded(a) == Superseded(b)
  {
    hide NoticeRef, CurrentNotice, Ascending;
    forall n ensures n in a <==> n in b { assert n in multiset(a) <==> n in a; assert n in multiset(b) <==> n in b; }
    assert forall n :: IsSuperseded(n, a) <==> IsSuperseded(n, b);
    assert ActiveSet(a, assessedAt) == ActiveSet(b, assessedAt);
    assert (set n | n in a :: NoticeRef(n)) == (set n | n in b :: NoticeRef(n));
    assert (set n | n in a && IsSuperseded(n, a) :: NoticeRef(n)) == (set n | n in b && IsSuperseded(n, b) :: NoticeRef(n));
  }

  /** Two orders of the same observations and notices that both correlate give the same
      receipt; and only the scan of the observations can make one order fail. */
  lemma {:induction false} ReceiptOrderFree(bound: bool, canaries: seq<string>, catalog: map<string, Entry>, a: Replay, b: Replay)
    requires SameInputs(a, b) && Correlate(bound, canaries, catalog, a).Ok?
    requires Latest(b.observations, b, EntriesOf(canaries, catalog)).Ok?
    ensures Correlate(bound, canaries, catalog, b) == Correlate(bound, canaries, catalog, a)
  {
    hide Latest, ValidNotice, ChainsContiguous, Affected, Controls, Active, Considered, Superseded, FirstCovering, EntriesOf, NoticeRef, Judge, Counted;
    var entries := EntriesOf(canaries, catalog);
    LatestIgnoresOrderFields(a.observations, a, b, entries);
    LatestOrderFree(a.observations, b.observations, b, entries);
    forall n ensures n in a.notices <==> n in b.notices {
      assert n in multiset(a.notices) <==> n in a.notices;
      assert n in multiset(b.notices) <==> n in b.notices;
    }
    ChainsOrderFree(a.notices, b.notices);
    NoticesOrderFree(a.notices, b.notices, a.assessedAt);
    SameReceipt(Latest(b.observations, b, entries).value, a, b, entries);
  }

  lemma SameReceipt(latest: map<string, Observation>, a: Replay, b: Replay, entries: map<string, Entry>)
    requires a.assessedAt == b.assessedAt && a.scope == b.scope
    requires Active(a.notices, a.assessedAt) == Active(b.notices, b.assessedAt)
    requires Considered(a.notices) == Considered(b.notices) && Superseded(a.notices) == Superseded(b.notices)
    ensures ReceiptOf(latest, a, entries) == ReceiptOf(latest, b, entries)
  {
    hide Affected, Controls, Active, Considered, Superseded, FirstCovering, PolicyText, TimingOf;
  }

  // ---------------------------------------------------------------------
  // The tie error
  // ---------------------------------------------------------------------

  /** Observation j meets another of its operation with the same time that is still the
      newest one seen. */
  ghost predicate TieAt(observations: seq<Observation>, j: nat, replay: Replay, entries: map<string, Entry>)
    requires j < |observations|
  {
    var o := observations[j];
    && Counted(o, replay, entries)
    && (exists i: nat :: i < j && SameOperation(observations[i], o, replay, entries) && observations[i].observedAt == o.observedAt)
    && (forall k: nat :: k < j && SameOperation(observations[k], o, replay, entries) ==> observations[k].observedAt <= o.observedAt)
  }

  predicate SameOperation(p: Observation, o: Observation, replay: Replay, entries: map<string, Entry>) {
    Counted(p, replay, entries) && p.operation == o.operation
  }

  ghost predicate Scannable(observations: seq<Observation>, replay: Replay, entries: map<string, Entry>) {
    && (forall i: nat, j: nat :: i < j < |observations| ==> observations[i].ref != observations[j].ref)
    && (forall i: nat :: i < |observations| ==> Judge(observations[i], replay, entries) != Refused)
  }

  /** The scan succeeds exactly when no reference repeats, nothing is refused and no
      observation meets a tie: the last condition is the one that depends on the order. */
  lemma {:induction false} ScanSucceedsIff(observations: seq<Observation>, replay: Replay, entries: map<string, Entry>)
    ensures Latest(observations, replay, entries).Ok? <==>
              Scannable(observations, replay, entries)
              && forall j: nat :: j < |observations| ==> !TieAt(observations, j, replay, entries)
  {
    hide Judge, Counted, Scan, IsLatest, Scannable, TieAt;
    if observations == [] {
      NothingToScan(replay, entries);
    } else {
      var n := |observations| - 1;
      ScanSucceedsIff(observations[..n], replay, entries);
      PrefixScans(observations, replay, entries);
      if Latest(observations[..n], replay, entries).Ok? {
        LatestIsMaximum(observations[..n], replay, entries);
        ScanStepIff(Latest(observations[..n], replay, entries).value, observations[..n], observations[n], replay, entries);
        assert observations == observations[..n] + [observations[n]];
      }
    }
  }

  lemma NothingToScan(replay: Replay, entries: map<string, Entry>)
    ensures Scannable([], replay, entries)
  {
  }

  lemma PrefixScans(observations: seq<Observation>, replay: Replay, entries: map<string, Entry>)
    requires observations != []
    ensures var n := |observations| - 1;
            var init, o := observations[..n], observations[n];
            && (Scannable(observations, replay, entries) <==>
                  Scannable(init, replay, entries) && (forall i: nat :: i < n ==> init[i].ref != o.ref) && Judge(o, replay, entries) != Refused)
            && (forall j: nat :: j < n ==> (TieAt(init, j, replay, entries) <==> TieAt(observations, j, replay, entries)))
  {
    hide Judge, Counted;
    var init := observations[..|observations| - 1];
    assert forall i: nat :: i < |init| ==> init[i] == observations[i];
  }

  lemma ScanStepIff(latest: map<string, Observation>, init: seq<Observation>, o: Observation, replay: Replay, entries: map<string, Entry>)
    requires IsLatest(latest, init, replay, entries)
    ensures Scan(latest, init, o, replay, entries).Ok? <==>
              && (forall i: nat :: i < |init| ==> init[i].ref != o.ref)
              && Judge(o, replay, entries) != Refused
              && !TieAt(init + [o], |init|, replay, entries)
  {
    hide Judge, Counted;
    var s := init + [o];
    assert forall i: nat :: i < |init| ==> s[i] == init[i] && init[i] in init;
    if o.operation in latest {
      var l := latest[o.operation];
      var i: nat :| i < |init| && init[i] == l;
      assert s[i] == l;
    }
  }

  ghost predicate Untied(a: Replay, entries: map<string, Entry>) {
    forall o, p ::
      (o in a.observations && p in a.observations && Counted(o, a, entries) && SameOperation(p, o, a, entries)
       && o.observedAt == p.observedAt) ==> o == p
  }

  /** Without two counted observations of one operation at the same time, every order of
      the observations correlates, and to the same receipt. */
  lemma UntiedOrdersAgree(bound: bool, canaries: seq<string>, catalog: map<string, Entry>, a: Replay, b: Replay)
    requires SameInputs(a, b) && Correlate(bound, canaries, catalog, a).Ok?
    requires Untied(a, EntriesOf(canaries, catalog))
    ensures Correlate(bound, canaries, catalog, b) == Correlate(bound, canaries, catalog, a)
  {
    hide Judge, Counted, Latest, ReceiptOf, EntriesOf, ChainsContiguous, ValidNotice, Untied;
    var entries := EntriesOf(canaries, catalog);
    ScanAdmits(a.observations, a, entries);
    ReorderScannable(a, b, entries);
    forall j: nat | j < |b.observations| ensures !TieAt(b.observations, j, b, entries) {
      UntiedAt(a, b, entries, j);
    }
    ScanSucceedsIff(b.observations, b, entries);
    ReceiptOrderFree(bound, canaries, catalog, a, b);
  }

  lemma ReorderScannable(a: Replay, b: Replay, entries: map<string, Entry>)
    requires SameInputs(a, b)
    requires forall i: nat, j: nat :: i < j < |a.observations| ==> a.observations[i].ref != a.observations[j].ref
    requires forall o :: o in a.observations ==> Judge(o, a, entries) != Refused
    ensures Scannable(b.observations, b, entries)
    ensures NoDuplicates(b.observations)
  {
    var s, t := a.observations, b.observations;
    NoDuplicatesCount(s);
    NoDuplicatesCount(t);
    assert NoDuplicates(s);
    forall o ensures (o in s <==> o in t) && multiset(s)[o] == multiset(t)[o] { assert o in multiset(s) <==> o in s; assert o in multiset(t) <==> o in t; }
    assert NoDuplicates(t);
    assert forall o :: Judge(o, a, entries) == Judge(o, b, entries);
    forall i: nat, j: nat | i < j < |t| ensures t[i].ref != t[j].ref {
      assert t[i] in s && t[j] in s && t[i] != t[j];
    }
  }

  lemma UntiedAt(a: Replay, b: Replay, entries: map<string, Entry>, j: nat)
    requires SameInputs(a, b) && j < |b.observations| && NoDuplicates(b.observations)
    requires Untied(a, entries)
    ensures !TieAt(b.observations, j, b, entries)
  {
    assert forall o :: Counted(o, a, entries) == Counted(o, b, entries);
    hide Counted, Judge;
    var t := b.observations;
    forall o ensures o in a.observations <==> o in t {
      assert o in multiset(a.observations) <==> o in a.observations;
      assert o in multiset(t) <==> o in t;
    }
    forall i: nat | i < j && SameOperation(t[i], t[j], b, entries) && Counted(t[j], b, entries)
      ensures t[i].observedAt != t[j].observedAt
    {
      assert t[i] in t && t[j] in t && t[i] != t[j];
    }
  }

  /** The error does depend on the order: with two simultaneous observations and a newer
      one, the order that brings the newer one first succeeds and the other fails. */
  lemma {:induction false} TieDependsOnOrder(p: Observation, q: Observation, newer: Observation, replay: Replay, entries: map<string, Entry>)
    requires Counted(p, replay, entries) && Counted(q, replay, entries) && Counted(newer, replay, entries)
    requires p.operation == q.operation == newer.operation && p.observedAt == q.observedAt < newer.observedAt
    requires p.ref != q.ref && p.ref != newer.ref && q.ref != newer.ref
    ensures Latest([newer, p, q], replay, entries) == Ok(map[p.operation := newer])
    ensures Latest([p, q, newer], replay, entries) == Err(ConflictingTimestamps)
  {
    hide Judge, Counted, Latest, Scan;
    var none: seq<Observation> := [];
    NoneLatest(replay, entries);
    assert none + [newer] == [newer] && [newer] + [p] == [newer, p] && [newer, p] + [q] == [newer, p, q];
    assert none + [p] == [p] && [p] + [q] == [p, q] && [p, q] + [newer] == [p, q, newer];
    LatestSnoc(none, newer, replay, entries);
    LatestSnoc([newer], p, replay, entries);
    LatestSnoc([newer, p], q, replay, entries);
    ScanTakes(map[], none, newer, replay, entries);
    ScanPasses(map[p.operation := newer], [newer], p, replay, entries);
    ScanPasses(map[p.operation := newer], [newer, p], q, replay, entries);
    LatestSnoc(none, p, replay, entries);
    LatestSnoc([p], q, replay, entries);
    LatestSnoc([p, q], newer, replay, entries);
    ScanTakes(map[], none, p, replay, entries);
    ScanTies(map[p.operation := p], [p], q, replay, entries);
  }

  lemma ScanTakes(latest: map<string, Observation>, before: seq<Observation>, o: Observation, replay: Replay, entries: map<string, Entry>)
    requires Counted(o, replay, entries) && o.operation !in latest && forall p :: p in before ==> p.ref != o.ref
    ensures Scan(latest, before, o, replay, entries) == Ok(latest[o.operation := o])
  {
  }

  lemma ScanPasses(latest: map<string, Observation>, before: seq<Observation>, o: Observation, replay: Replay, entries: map<string, Entry>)
    requires Counted(o, replay, entries) && forall p :: p in before ==> p.ref != o.ref
    requires o.operation in latest && o.observedAt < latest[o.operation].observedAt
    ensures Scan(latest, before, o, replay, entries) == Ok(latest)
  {
  }

  lemma ScanTies(latest: map<string, Observation>, before: seq<Observation>, o: Observation, replay: Replay, entries: map<string, Entry>)
    requires Counted(o, replay, entries) && forall p :: p in before ==> p.ref != o.ref
    requires o.operation in latest && o.observedAt == latest[o.operation].observedAt && o.ref != latest[o.operation].ref
    ensures Scan(latest, before, o, replay, entries) == Err(ConflictingTimestamps)
  {
  }
}
