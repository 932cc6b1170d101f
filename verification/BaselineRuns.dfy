/** Baselines: which snapshots a mark keeps, and what no sequence of steps can take away. */
module BaselineRuns {
  import opened Sample
  import opened Rows
  import opened Text
  import opened Differ
  import opened Schema
  import opened Retention
  import opened Incidents
  import opened Collector
  import opened Api
  import opened Convert
  import opened Recorder
  import opened SampleLogs

  // --- the newest of some rows -----------------------------------------------------------

  /** What `ORDER BY ts, id` compares. */
  datatype Rank = Rank(ts: int, id: int)

  predicate Before(a: Rank, b: Rank) {
    a.ts < b.ts || (a.ts == b.ts && a.id < b.id)
  }

  function RankOf<T>(r: Row<T>): Rank { Rank(r.ts, r.id) }

  function Ranks<T(==,!new)>(s: seq<Row<T>>): (r: set<Rank>)
    ensures forall x :: x in s ==> RankOf(x) in r
    ensures forall k :: k in r ==> exists x :: x in s && RankOf(x) == k
  {
    set x | x in s :: RankOf(x)
  }

  /** `kept` are the newest `keep` of `all`, or all of them. */
  ghost predicate NewestOf(kept: set<Rank>, all: set<Rank>, keep: nat) {
    && kept <= all && |kept| <= keep
    && (forall a, b :: a in all - kept && b in kept ==> Before(a, b))
    && (|kept| < keep ==> kept == all)
  }

  ghost predicate NewerThanAll(x: Rank, s: set<Rank>) {
    forall a :: a in s ==> a == x || Before(a, x)
  }

  /** Keeping the newest again after one more has come is keeping the newest of everything that ever came. */
  lemma NewestOfAllSoFar(kept: set<Rank>, all: set<Rank>, x: Rank, kept': set<Rank>, keep: nat)
    requires keep > 0 && NewestOf(kept, all, keep) && NewerThanAll(x, kept)
    requires x in kept' && NewestOf(kept', kept + {x}, keep)
    ensures NewestOf(kept', all + {x}, keep)
  {
    forall a, b | a in all + {x} - kept' && b in kept' ensures Before(a, b) {
      if a !in kept + {x} {
        assert a in all - kept;
        if b == x {
          assert kept != {};
          var c :| c in kept;
          assert Before(a, c);
        }
      }
    }
    if |kept'| < keep {
      assert kept' == kept + {x};
      SubsetSize(kept, kept');
    }
  }

  lemma {:induction false} RanksOfSorted<T(!new)>(s: seq<Row<T>>)
    requires OldestFirst(s)
    ensures |Ranks(s)| == |s|
  {
    if s != [] {
      var s', x := s[..|s| - 1], s[|s| - 1];
      assert OldestFirst(s');
      RanksOfSorted(s');
      assert s == s' + [x];
      LastRankIsNew(s', x);
    }
  }

  lemma RanksSnoc<T(!new)>(s: seq<Row<T>>, x: Row<T>)
    ensures Ranks(s + [x]) == Ranks(s) + {RankOf(x)}
  {
    forall k ensures k in Ranks(s + [x]) <==> k in Ranks(s) || k == RankOf(x) {
      assert x in s + [x];
      assert forall y :: y in s + [x] <==> y in s || y == x;
    }
  }

  lemma LastRankIsNew<T(!new)>(s: seq<Row<T>>, x: Row<T>)
    requires OldestFirst(s + [x])
    ensures |Ranks(s + [x])| == |Ranks(s)| + 1
  {
    RanksSnoc(s, x);
    forall i | 0 <= i < |s| ensures RankOf(s[i]) != RankOf(x) {
      assert Older((s + [x])[i], (s + [x])[|s|]);
    }
  }

  lemma SuffixIsNewest<T(!new)>(s: seq<Row<T>>, n: nat)
    requires OldestFirst(s) && n <= |s|
    ensures NewestOf(Ranks(s[n..]), Ranks(s), |s| - n)
  {
    hide Ranks;
    assert OldestFirst(s[n..]);
    RanksOfSorted(s[n..]);
    assert forall i :: n <= i < |s| ==> s[i] in s[n..];
    forall a, b | a in Ranks(s) - Ranks(s[n..]) && b in Ranks(s[n..]) ensures Before(a, b) {
      FrontIsBefore(s, n, a, b);
    }
  }

  lemma FrontIsBefore<T(!new)>(s: seq<Row<T>>, n: nat, a: Rank, b: Rank)
    requires OldestFirst(s) && n <= |s| && a in Ranks(s) && a !in Ranks(s[n..]) && b in Ranks(s[n..])
    ensures Before(a, b)
  {
    hide OldestFirst, Ranks;
    var x :| x in s && RankOf(x) == a;
    var y :| y in s[n..] && RankOf(y) == b;
    assert s == s[..n] + s[n..];
    FrontIsOlder(s, n, x, y);
  }

  lemma AllAreNewest<T(!new)>(s: seq<Row<T>>, keep: nat)
    requires OldestFirst(s) && |s| <= keep
    ensures NewestOf(Ranks(s), Ranks(s), keep)
  {
    RanksOfSorted(s);
  }

  lemma SameRanks<T(!new)>(a: seq<Row<T>>, b: seq<Row<T>>)
    requires multiset(a) == multiset(b)
    ensures Ranks(a) == Ranks(b)
  {
    SameMembers(a, b);
  }

  lemma NewestRowsAreNewest(s: seq<Row<Snapshot>>, next: int, keep: nat)
    requires Ordered(s, next)
    ensures NewestOf(Ranks(NewestRows(s, keep)), Ranks(s), keep)
  {
    hide StableSort, Ranks, NewestOf, Ordered;
    var sorted := StableSort(s, ByTs());
    SortByTsIsLexicographic(s, next);
    SameRanks(sorted, s);
    if |s| > keep { SuffixIsNewest(sorted, |s| - keep); } else { AllAreNewest(sorted, keep); }
  }

  // --- marking one group ----------------------------------------------------------------------

  function Baselines(s: seq<Row<Snapshot>>, node: string, source: Source): set<Rank> {
    Ranks(Filter(s, BaselineOf(node, source)))
  }

  function Reflagged(r: Row<Snapshot>, b: bool): Row<Snapshot> {
    Row(r.id, r.ts, r.val.(baseline := b))
  }

  lemma FlagRows(s: seq<Row<Snapshot>>, p: Row<Snapshot> -> bool, b: bool, r: Row<Snapshot>)
    ensures r in Flag(s, p, b) <==> exists x :: x in s && r == if p(x) then Reflagged(x, b) else x
  {
    var f := Flag(s, p, b);
    if r in f {
      var i :| 0 <= i < |f| && f[i] == r;
      assert s[i] in s;
    }
    if x :| x in s && r == if p(x) then Reflagged(x, b) else x {
      var i :| 0 <= i < |s| && s[i] == x;
      assert f[i] == r;
    }
  }

  lemma FlagOrdered(s: seq<Row<Snapshot>>, p: Row<Snapshot> -> bool, b: bool, next: int)
    requires Ordered(s, next)
    ensures Ordered(Flag(s, p, b), next)
  {
  }

  lemma BaselineMember(s: seq<Row<Snapshot>>, node: string, source: Source, r: Row<Snapshot>)
    requires r in s && BaselineOf(node, source)(r)
    ensures RankOf(r) in Baselines(s, node, source)
  {
    assert r in Filter(s, BaselineOf(node, source));
  }

  lemma BaselineRow(s: seq<Row<Snapshot>>, node: string, source: Source, k: Rank) returns (r: Row<Snapshot>)
    requires k in Baselines(s, node, source)
    ensures r in s && BaselineOf(node, source)(r) && RankOf(r) == k
  {
    r :| r in Filter(s, BaselineOf(node, source)) && RankOf(r) == k;
  }

  /** Flagging the latest row adds its rank to the baselines. */
  lemma FlaggedBaselines(s: seq<Row<Snapshot>>, next: int, node: string, source: Source, l: Row<Snapshot>)
    requires Ordered(s, next) && l in s && Of(node, source)(l)
    ensures Baselines(Flag(s, HasId({l.id}), true), node, source) == Baselines(s, node, source) + {RankOf(l)}
  {
    hide Baselines, Flag;
    var f := Flag(s, HasId({l.id}), true);
    forall k ensures k in Baselines(f, node, source) <==> k in Baselines(s, node, source) + {RankOf(l)} {
      if k in Baselines(f, node, source) {
        var r := BaselineRow(f, node, source, k);
        FlagRows(s, HasId({l.id}), true, r);
        var x :| x in s && r == if HasId({l.id})(x) then Reflagged(x, true) else x;
        if x.id == l.id { SameIdSameRow(s, next, x, l); }
        else { BaselineMember(s, node, source, x); }
      }
      if k in Baselines(s, node, source) {
        var r := BaselineRow(s, node, source, k);
        var r' := if r.id == l.id then Reflagged(r, true) else r;
        FlagRows(s, HasId({l.id}), true, r');
        BaselineMember(f, node, source, r');
      }
      if k == RankOf(l) {
        FlagRows(s, HasId({l.id}), true, Reflagged(l, true));
        BaselineMember(f, node, source, Reflagged(l, true));
      }
    }
  }

  lemma KeptRow(f: seq<Row<Snapshot>>, next: int, rows: seq<Row<Snapshot>>, r: Row<Snapshot>)
    requires Ordered(f, next) && r in f && (forall y :: y in rows ==> y in f)
    ensures r.id in Ids(rows) <==> r in rows
  {
    if r.id in Ids(rows) {
      var y :| y in rows && y.id == r.id;
      SameIdSameRow(f, next, r, y);
    }
  }

  lemma NewestRowsMembers(s: seq<Row<Snapshot>>, keep: nat)
    ensures forall r :: r in NewestRows(s, keep) ==> r in s
  {
    hide StableSort;
    SameMembers(StableSort(s, ByTs()), s);
    assert forall r :: r in NewestRows(s, keep) ==> r in StableSort(s, ByTs());
  }

  /** Clearing the surplus leaves the ranks of the newest rows. */
  lemma KeptBaselines(f: seq<Row<Snapshot>>, next: int, node: string, source: Source, keep: nat)
    requires Ordered(f, next)
    ensures Baselines(Flag(f, Surplus(f, node, source, keep), false), node, source) ==
            Ranks(NewestRows(Filter(f, BaselineOf(node, source)), keep))
  {
    hide Baselines, Flag, NewestRows;
    var rows := NewestRows(Filter(f, BaselineOf(node, source)), keep);
    NewestRowsMembers(Filter(f, BaselineOf(node, source)), keep);
    var surplus := Surplus(f, node, source, keep);
    var after := Flag(f, surplus, false);
    forall k ensures k in Baselines(after, node, source) <==> k in Ranks(rows) {
      if k in Baselines(after, node, source) {
        var r := BaselineRow(after, node, source, k);
        FlagRows(f, surplus, false, r);
        var x :| x in f && r == if surplus(x) then Reflagged(x, false) else x;
        KeptRow(f, next, rows, x);
      }
      if k in Ranks(rows) {
        var r :| r in rows && RankOf(r) == k;
        KeptRow(f, next, rows, r);
        FlagRows(f, surplus, false, r);
        BaselineMember(after, node, source, r);
      }
    }
  }

  /** A mark keeps the newest of the baselines there were and the latest snapshot. */
  lemma MarkKeepsNewest(s: seq<Row<Snapshot>>, next: int, node: string, source: Source, keep: nat)
    requires Ordered(s, next) && Latest(s, node, source).Some?
    ensures NewestOf(Baselines(Mark(s, node, source, keep), node, source),
                     Baselines(s, node, source) + {RankOf(Latest(s, node, source).value)}, keep)
  {
    var l := Latest(s, node, source).value;
    var f := Flag(s, HasId({l.id}), true);
    FlaggedBaselines(s, next, node, source, l);
    FlagOrdered(s, HasId({l.id}), true, next);
    KeptBaselines(f, next, node, source, keep);
    FilterOrdered(f, BaselineOf(node, source), next);
    NewestRowsAreNewest(Filter(f, BaselineOf(node, source)), next, keep);
  }

  lemma BaselinesAreRows(s: seq<Row<Snapshot>>, node: string, source: Source)
    ensures Baselines(s, node, source) <= Ranks(Filter(s, Of(node, source)))
  {
    forall k | k in Baselines(s, node, source) ensures k in Ranks(Filter(s, Of(node, source))) {
      var r := BaselineRow(s, node, source, k);
      assert r in Filter(s, Of(node, source));
    }
  }

  /** No snapshot of a group is newer than its latest. */
  lemma LatestIsNewest(s: seq<Row<Snapshot>>, next: int, node: string, source: Source)
    requires Ordered(s, next) && Latest(s, node, source).Some?
    ensures NewerThanAll(RankOf(Latest(s, node, source).value), Ranks(Filter(s, Of(node, source))))
    ensures NewerThanAll(RankOf(Latest(s, node, source).value), Baselines(s, node, source))
  {
    hide Newest, Baselines, Filter, Ordered, Ranks;
    var rows := Filter(s, Of(node, source));
    FilterOrdered(s, Of(node, source), next);
    NewestIsLast(rows, next);
    BaselinesAreRows(s, node, source);
  }

  /** One more rank joins and the newest are kept, or nothing changes. */
  ghost predicate Advances(b: set<Rank>, b': set<Rank>, keep: nat) {
    b' == b || exists x :: x in b' && NewerThanAll(x, b) && NewestOf(b', b + {x}, keep)
  }

  lemma NewestIsKept(b: set<Rank>, x: Rank, b': set<Rank>, keep: nat)
    requires keep > 0 && NewerThanAll(x, b) && NewestOf(b', b + {x}, keep)
    ensures x in b'
  {
    if x !in b' {
      assert x in b + {x} - b';
      assert b' == {} <==> |b'| == 0;
      var y :| y in b';
      assert false;
    }
  }

  lemma MarkSourceAdvances(s: seq<Row<Snapshot>>, next: int, node: string, source: Source)
    requires Ordered(s, next)
    ensures Advances(Baselines(s, node, source), Baselines(MarkSource(s, node, source), node, source), BASELINES_KEPT)
    ensures Latest(s, node, source).Some? ==>
              var l, b := RankOf(Latest(s, node, source).value), Baselines(MarkSource(s, node, source), node, source);
              l in b && NewerThanAll(l, b)
  {
    if Latest(s, node, source).Some? {
      var l := Latest(s, node, source).value;
      LatestIsNewest(s, next, node, source);
      if l.val.baseline {
        assert l in Filter(s, BaselineOf(node, source));
      } else {
        var b, b' := Baselines(s, node, source), Baselines(Mark(s, node, source, BASELINES_KEPT), node, source);
        MarkKeepsNewest(s, next, node, source, BASELINES_KEPT);
        NewestIsKept(b, RankOf(l), b', BASELINES_KEPT);
      }
    }
  }

  // --- marks touch one group at a time ---------------------------------------------------------

  function GroupRows(s: seq<Row<Snapshot>>, node: string, source: Source): seq<Row<Snapshot>> {
    Filter(s, Of(node, source))
  }

  lemma {:induction false} FlagOfGroup(s: seq<Row<Snapshot>>, p: Row<Snapshot> -> bool, b: bool, node: string,
      source: Source)
    ensures GroupRows(Flag(s, p, b), node, source) == Flag(GroupRows(s, node, source), p, b)
  {
    if s != [] {
      var s', x := s[..|s| - 1], s[|s| - 1];
      assert s == s' + [x];
      FlagOfGroup(s', p, b, node, source);
      FlagSnoc(s', x, p, b);
      FlagSnoc(GroupRows(s', node, source), x, p, b);
      FilterSnoc(s', x, Of(node, source));
      FilterSnoc(Flag(s', p, b), if p(x) then Reflagged(x, b) else x, Of(node, source));
    }
  }

  lemma FlagNothing(s: seq<Row<Snapshot>>, p: Row<Snapshot> -> bool, b: bool)
    requires forall r :: r in s ==> !p(r)
    ensures Flag(s, p, b) == s
  {
  }

  lemma GroupOfGroup(s: seq<Row<Snapshot>>, node: string, source: Source)
    ensures Latest(GroupRows(s, node, source), node, source) == Latest(s, node, source)
    ensures Filter(GroupRows(s, node, source), BaselineOf(node, source)) == Filter(s, BaselineOf(node, source))
    ensures Baselines(GroupRows(s, node, source), node, source) == Baselines(s, node, source)
  {
    FilterAll(GroupRows(s, node, source), Of(node, source));
    FilterFilter(s, BaselineOf(node, source), Of(node, source));
  }

  /** A mark works on its group as if it were the whole table. */
  lemma MarkOfGroup(s: seq<Row<Snapshot>>, node: string, source: Source, keep: nat)
    ensures GroupRows(Mark(s, node, source, keep), node, source) == Mark(GroupRows(s, node, source), node, source, keep)
  {
    hide Flag, NewestRows, GroupRows;
    var f := FlagLatest(s, node, source);
    GroupOfGroup(s, node, source);
    GroupOfGroup(f, node, source);
    if Latest(s, node, source).Some? {
      FlagOfGroup(s, HasId({Latest(s, node, source).value.id}), true, node, source);
    }
    FlagOfGroup(f, Surplus(f, node, source, keep), false, node, source);
  }

  /** A mark leaves every other group alone. */
  lemma FlagLatestOfOther(s: seq<Row<Snapshot>>, next: int, marked: string, from: Source, node: string,
      source: Source)
    requires Ordered(s, next) && !(marked == node && from == source)
    ensures GroupRows(FlagLatest(s, marked, from), node, source) == GroupRows(s, node, source)
  {
    hide Newest, Ordered;
    var g, latest := GroupRows(s, node, source), Latest(s, marked, from);
    if latest.Some? {
      var l := latest.value;
      assert l in Filter(s, Of(marked, from));
      forall r | r in g ensures !HasId({l.id})(r) {
        if r.id == l.id { SameIdSameRow(s, next, r, l); }
      }
      FlagOfGroup(s, HasId({l.id}), true, node, source);
      FlagNothing(g, HasId({l.id}), true);
    }
  }

  lemma MarkOfOther(s: seq<Row<Snapshot>>, next: int, marked: string, from: Source, keep: nat, node: string,
      source: Source)
    requires Ordered(s, next) && !(marked == node && from == source)
    ensures GroupRows(Mark(s, marked, from, keep), node, source) == GroupRows(s, node, source)
  {
    hide NewestRows, Newest, Ordered, FlagLatest;
    var g, f := GroupRows(s, node, source), FlagLatest(s, marked, from);
    FlagLatestOfOther(s, next, marked, from, node, source);
    FlagOfGroup(f, Surplus(f, marked, from, keep), false, node, source);
    FlagNothing(g, Surplus(f, marked, from, keep), false);
  }

  lemma MarkSourceOrdered(s: seq<Row<Snapshot>>, next: int, node: string, source: Source)
    requires Ordered(s, next)
    ensures Ordered(MarkSource(s, node, source), next)
  {
    hide Flag, Surplus, Latest;
    if Latest(s, node, source).Some? {
      FlagOrdered(s, HasId({Latest(s, node, source).value.id}), true, next);
      var f := FlagLatest(s, node, source);
      FlagOrdered(f, Surplus(f, node, source, BASELINES_KEPT), false, next);
    }
  }

  lemma MarkSourceOfGroup(s: seq<Row<Snapshot>>, next: int, marked: string, from: Source, node: string, source: Source)
    requires Ordered(s, next)
    ensures GroupRows(MarkSource(s, marked, from), node, source) ==
            if marked == node && from == source then MarkSource(GroupRows(s, node, source), node, source)
              else GroupRows(s, node, source)
  {
    hide Mark, GroupRows, Latest;
    GroupOfGroup(s, node, source);
    if marked == node && from == source {
      MarkOfGroup(s, node, source, BASELINES_KEPT);
    } else {
      MarkOfOther(s, next, marked, from, BASELINES_KEPT, node, source);
    }
  }

  /** Marking the nodes one after the other marks each of their groups once. */
  lemma {:induction false} MarkNodesOfGroup(s: seq<Row<Snapshot>>, next: int, nodes: seq<string>, node: string,
      source: Source)
    requires Ordered(s, next) && StrictlySorted(nodes) && (source == API || source == Agent)
    ensures Ordered(MarkNodes(s, nodes), next)
    ensures GroupRows(MarkNodes(s, nodes), node, source) ==
            if node in nodes then MarkSource(GroupRows(s, node, source), node, source) else GroupRows(s, node, source)
  {
    hide MarkSource, GroupRows;
    if nodes != [] {
      var front, n := nodes[..|nodes| - 1], nodes[|nodes| - 1];
      MarkNodesOfGroup(s, next, front, node, source);
      var s' := MarkNodes(s, front);
      MarkSourceOfGroup(s', next, n, API, node, source);
      MarkSourceOrdered(s', next, n, API);
      MarkSourceOfGroup(MarkSource(s', n, API), next, n, Agent, node, source);
      MarkSourceOrdered(MarkSource(s', n, API), next, n, Agent);
      assert nodes == front + [n];
      LastIsNew(nodes);
    }
  }

  lemma LastIsNew(nodes: seq<string>)
    requires StrictlySorted(nodes) && nodes != []
    ensures nodes[|nodes| - 1] !in nodes[..|nodes| - 1]
  {
    LessIrreflexive(nodes[|nodes| - 1]);
  }

  /** The marks of a tick depend on the tables as they were before it. */
  lemma TickSnapshots(t: Tables, cfg: Config, now: int)
    ensures TickOf(t, cfg, now).snapshots ==
            if QuietCluster(t, Ms(now - cfg.Stable())) then MarkNodes(t.snapshots, SortedKeys(Nodes(t.snapshots)))
              else t.snapshots
  {
    hide MarkNodes, IncidentPass, NodeReady, PodsCalm, TransitionsCalm, ChangesCalm, SortedKeys;
    TickLeaves(t, cfg, now);
  }

  /** A tick marks every group once if the cluster has been quiet, else none. */
  lemma TickOfGroup(t: Tables, cfg: Config, now: int, node: string, source: Source)
    requires Ordered(t.snapshots, t.next.snapshot) && (source == API || source == Agent)
    ensures Ordered(TickOf(t, cfg, now).snapshots, t.next.snapshot)
    ensures GroupRows(TickOf(t, cfg, now).snapshots, node, source) ==
            if QuietCluster(t, Ms(now - cfg.Stable()))
              then MarkSource(GroupRows(t.snapshots, node, source), node, source)
            else GroupRows(t.snapshots, node, source)
  {
    hide MarkSource, MarkNodes, TickOf, QuietCluster, GroupRows;
    TickSnapshots(t, cfg, now);
    var nodes := SortedKeys(Nodes(t.snapshots));
    MarkNodesOfGroup(t.snapshots, t.next.snapshot, nodes, node, source);
    if node !in nodes { NoRowsNoMark(t.snapshots, node, source); }
  }

  lemma NoRowsNoMark(s: seq<Row<Snapshot>>, node: string, source: Source)
    requires node !in Nodes(s)
    ensures GroupRows(s, node, source) == [] && MarkSource([], node, source) == []
  {
    FilterNone(s, Of(node, source));
  }

  // --- every step -----------------------------------------------------------------------------------

  /** Rowids increase along the two tables the size cap works on. */
  ghost predicate StoreOrdered(t: Tables) {
    Ordered(t.snapshots, t.next.snapshot) && Ordered(t.events, t.next.event)
  }

  /** Only these two tables matter here. */
  ghost predicate SameStore(t: Tables, u: Tables) {
    u.snapshots == t.snapshots && u.next.snapshot == t.next.snapshot && u.events == t.events &&
      u.next.event == t.next.event
  }

  lemma PodStepsKeepStore(t: Tables, oldPod: Option<Pod>, newPod: Pod, reason: string, gone: Pod, now: int)
    ensures SameStore(t, PodSeen(t, oldPod, newPod, reason, now)) && SameStore(t, PodGone(t, gone, now))
  {
    hide Collector.Emitted, StateOf, Upsert, InsertTransitions;
  }

  /** One more row that is no baseline, or none. */
  ghost predicate PutsAtMostOne(t: Tables, u: Tables) {
    && u.events == t.events && u.next.event == t.next.event
    && (SameStore(t, u) || exists ts, snap: Snapshot ::
          !snap.baseline && u.snapshots == t.snapshots + [Row(t.next.snapshot, ts, snap)] &&
            u.next.snapshot == t.next.snapshot + 1)
  }

  lemma StoredPuts(t: Tables, s: Timed<Snapshot>, cs: seq<Change>)
    requires !s.val.baseline
    ensures PutsAtMostOne(t, Stored(t, s, cs))
  {
    hide InsertChanges;
    assert Stored(t, s, cs).snapshots == t.snapshots + [Row(t.next.snapshot, Ms(s.time), s.val)];
  }

  lemma NothingPut(t: Tables)
    ensures PutsAtMostOne(t, t)
  {
  }

  lemma SeenPuts(t: Tables, snap: Snapshot, now: int)
    requires !snap.baseline
    ensures PutsAtMostOne(t, SnapshotSeen(t, snap, now))
  {
    hide Stored, Diff, FieldsEqual, PutsAtMostOne;
    NothingPut(t);
    var latest := Latest(t.snapshots, snap.node, snap.source);
    StoredPuts(t, Timed(now, snap), []);
    if latest.Some? { StoredPuts(t, Timed(now, snap), Diff(latest.value.val, snap)); }
  }

  lemma IngestedPuts(t: Tables, sample: Timed<Snapshot>, now: int)
    ensures PutsAtMostOne(t, Ingested(t, sample, now))
  {
    hide Stored, Between, PutsAtMostOne, WellFormed;
    NothingPut(t);
    var s := Normalised(sample, now);
    StoredPuts(t, s, ChangesFrom(Latest(t.snapshots, s.val.node, s.val.source), s.val));
  }

  /** A put changes no baseline. */
  lemma PutKeepsBaselines(t: Tables, u: Tables, node: string, source: Source)
    requires PutsAtMostOne(t, u) && StoreOrdered(t)
    ensures StoreOrdered(u) && Baselines(u.snapshots, node, source) == Baselines(t.snapshots, node, source)
  {
    hide Filter, Ranks;
    if !SameStore(t, u) {
      var ts, snap: Snapshot :|
        !snap.baseline && u.snapshots == t.snapshots + [Row(t.next.snapshot, ts, snap)] &&
          u.next.snapshot == t.next.snapshot + 1;
      FilterSnoc(t.snapshots, Row(t.next.snapshot, ts, snap), BaselineOf(node, source));
    }
  }

  lemma EventKeepsBaselines(t: Tables, e: Timed<Event>)
    requires StoreOrdered(t)
    ensures StoreOrdered(WithEvent(t, e)) && WithEvent(t, e).snapshots == t.snapshots
  {
    FilterOrdered(t.events, OtherUid(e.val.uid), t.next.event);
  }

  lemma PruneKeepsBaselines(t: Tables, now: int, keep: Periods, node: string, source: Source)
    requires StoreOrdered(t)
    ensures var u := Pruned(t, now, keep);
            StoreOrdered(u) && Baselines(u.snapshots, node, source) == Baselines(t.snapshots, node, source)
  {
    var cuts := CutsAt(now, keep);
    FilterOrdered(t.snapshots, SinceOrBaseline(cuts.snapshots), t.next.snapshot);
    FilterOrdered(t.events, Since(cuts.events), t.next.event);
    FilterFilter(t.snapshots, BaselineOf(node, source), SinceOrBaseline(cuts.snapshots));
  }

  lemma CapKeepsBaselines(t: Tables, maxBytes: int, size: Tables -> int, node: string, source: Source)
    requires StoreOrdered(t)
    ensures var u := Capped(t, maxBytes, size).0;
            StoreOrdered(u) && Baselines(u.snapshots, node, source) == Baselines(t.snapshots, node, source)
  {
    hide Capped;
    var u := Capped(t, maxBytes, size).0;
    CapRemovesOldestFirst(t, maxBytes, size);
    FilterFilter(t.snapshots, BaselineOf(node, source), IsBaseline());
    FilterFilter(u.snapshots, BaselineOf(node, source), IsBaseline());
  }

  lemma TickAdvances(t: Tables, cfg: Config, now: int, node: string, source: Source)
    requires StoreOrdered(t) && (source == API || source == Agent)
    ensures var u := TickOf(t, cfg, now);
            StoreOrdered(u) && Advances(Baselines(t.snapshots, node, source), Baselines(u.snapshots, node, source),
              BASELINES_KEPT)
  {
    hide TickOf, MarkSource, NewestOf, Baselines, QuietCluster;
    var u, g := TickOf(t, cfg, now), GroupRows(t.snapshots, node, source);
    TickOfGroup(t, cfg, now, node, source);
    TickKeepsEvents(t, cfg, now);
    GroupOfGroup(t.snapshots, node, source);
    GroupOfGroup(u.snapshots, node, source);
    FilterOrdered(t.snapshots, Of(node, source), t.next.snapshot);
    MarkSourceAdvances(g, t.next.snapshot, node, source);
  }

  lemma TickKeepsEvents(t: Tables, cfg: Config, now: int)
    ensures var u := TickOf(t, cfg, now);
            u.events == t.events && u.next.event == t.next.event && u.next.snapshot == t.next.snapshot
  {
    hide Decide, QuietCluster, MarkNodes, SortedKeys, WithIncident, SetPods, SetClosed;
    ApplyKeepsEvents(t, Decide(t, cfg, now), now);
  }

  lemma ApplyKeepsEvents(t: Tables, d: Decision, now: int)
    ensures var u := Apply(t, d, now);
            u.events == t.events && u.next.event == t.next.event && u.next.snapshot == t.next.snapshot
  {
  }

  /** Whatever the step, the baselines of a group stay or advance. */
  lemma StepAdvances(t: Tables, setup: Setup, s: Step, node: string, source: Source)
    requires StoreOrdered(t) && (source == API || source == Agent)
    ensures var u := Next(t, setup, s);
            StoreOrdered(u) && Advances(Baselines(t.snapshots, node, source), Baselines(u.snapshots, node, source),
              BASELINES_KEPT)
  {
    hide PodSeen, PodGone, WithEvent, NodeSample, SnapshotSeen, Ingested, TickOf, Pruned, Capped, Baselines,
        PutsAtMostOne;
    match s.action
    case PodDelivered(oldPod, newPod, reason) => PodStepsKeepStore(t, oldPod, newPod, reason, newPod, s.now);
    case PodDeleted(pod) => PodStepsKeepStore(t, None, pod, "", pod, s.now);
    case EventDelivered(e) => EventKeepsBaselines(t, e);
    case NodeDelivered(n) =>
      NotABaseline(n);
      SeenPuts(t, NodeSample(n), s.now);
      PutKeepsBaselines(t, Next(t, setup, s), node, source);
    case SamplePosted(sample) =>
      IngestedPuts(t, sample, s.now);
      PutKeepsBaselines(t, Next(t, setup, s), node, source);
    case Ticked => TickAdvances(t, setup.cfg, s.now, node, source);
    case PruneRan => PruneKeepsBaselines(t, s.now, setup.keep, node, source);
    case CapRan(maxBytes, size) => CapKeepsBaselines(t, maxBytes, size, node, source);
  }

  lemma NotABaseline(n: Node)
    ensures !NodeSample(n).baseline
  {
  }

  // --- whole runs --------------------------------------------------------------------------------------

  lemma {:induction false} RunOrdered(setup: Setup, steps: seq<Step>)
    ensures StoreOrdered(Run(setup, steps))
  {
    hide Next, Baselines;
    if steps != [] {
      RunOrdered(setup, steps[..|steps| - 1]);
      StepAdvances(Run(setup, steps[..|steps| - 1]), setup, steps[|steps| - 1], "", API);
    }
  }

  /** Every snapshot of a group that was a baseline at some time. */
  ghost function EverMarked(setup: Setup, steps: seq<Step>, node: string, source: Source): set<Rank> {
    (if steps == [] then {} else EverMarked(setup, steps[..|steps| - 1], node, source)) +
    Baselines(Run(setup, steps).snapshots, node, source)
  }

  /** In every run, through every put, mark, prune and size cap, the baselines of a group are the newest four of
      all that were ever marked. */
  lemma {:induction false} BaselinesAreNewestMarked(setup: Setup, steps: seq<Step>, node: string, source: Source)
    requires source == API || source == Agent
    ensures NewestOf(Baselines(Run(setup, steps).snapshots, node, source), EverMarked(setup, steps, node, source),
            4)
  {
    hide Next;
    if steps != [] {
      var front := steps[..|steps| - 1];
      BaselinesAreNewestMarked(setup, front, node, source);
      RunOrdered(setup, front);
      StepAdvances(Run(setup, front), setup, steps[|steps| - 1], node, source);
      AdvanceKeepsNewest(Baselines(Run(setup, front).snapshots, node, source), EverMarked(setup, front, node, source),
                         Baselines(Run(setup, steps).snapshots, node, source));
    }
  }

  lemma AdvanceKeepsNewest(b: set<Rank>, all: set<Rank>, b': set<Rank>)
    requires NewestOf(b, all, BASELINES_KEPT) && Advances(b, b', BASELINES_KEPT)
    ensures NewestOf(b', all + b', BASELINES_KEPT)
  {
    if b' == b {
      assert all + b' == all;
    } else {
      var x :| x in b' && NewerThanAll(x, b) && NewestOf(b', b + {x}, BASELINES_KEPT);
      NewestOfAllSoFar(b, all, x, b', BASELINES_KEPT);
      assert all + b' == all + {x};
    }
  }

  /** At least as new as every one of these, and there are some if there were some. */
  ghost predicate NoOlder(b: set<Rank>, b': set<Rank>) {
    b == {} || exists y :: y in b' && NewerThanAll(y, b)
  }

  lemma {:induction false} Greatest(b: set<Rank>) returns (x: Rank)
    requires b != {}
    ensures x in b && NewerThanAll(x, b)
    decreases b
  {
    var z :| z in b;
    x := z;
    if b - {z} != {} {
      var y := Greatest(b - {z});
      if Before(z, y) { x := y; }
    }
    assert forall a :: a in b ==> a == z || a in b - {z};
  }

  lemma AdvanceIsNoOlder(a: set<Rank>, b: set<Rank>, b': set<Rank>)
    requires NoOlder(a, b) && Advances(b, b', BASELINES_KEPT)
    ensures NoOlder(a, b')
  {
    if a != {} && b' != b {
      var y :| y in b && NewerThanAll(y, a);
      var x :| x in b' && NewerThanAll(x, b) && NewestOf(b', b + {x}, BASELINES_KEPT);
      assert NewerThanAll(x, a);
    }
  }

  /** Once a group has a baseline it always has one, and its newest never gets older: whatever ran since, some
      baseline is at least as new as every one there was. */
  lemma {:induction false} BaselineNeverLost(setup: Setup, steps: seq<Step>, i: nat, node: string, source: Source)
    requires i <= |steps| && (source == API || source == Agent)
    ensures NoOlder(Baselines(Run(setup, steps[..i]).snapshots, node, source),
            Baselines(Run(setup, steps).snapshots, node, source))
  {
    hide Next, Baselines;
    if i == |steps| {
      assert steps[..i] == steps;
      var b := Baselines(Run(setup, steps).snapshots, node, source);
      if b != {} { var x := Greatest(b); }
    } else {
      var front := steps[..|steps| - 1];
      assert front[..i] == steps[..i];
      BaselineNeverLost(setup, front, i, node, source);
      RunOrdered(setup, front);
      StepAdvances(Run(setup, front), setup, steps[|steps| - 1], node, source);
      AdvanceIsNoOlder(Baselines(Run(setup, steps[..i]).snapshots, node, source),
                       Baselines(Run(setup, front).snapshots, node, source),
                       Baselines(Run(setup, steps).snapshots, node, source));
    }
  }

  // --- what a tick marks ----------------------------------------------------------------------------------

  lemma NewestBaselineIs(s: seq<Row<Snapshot>>, next: int, node: string, source: Source, l: Row<Snapshot>)
    requires Ordered(s, next) && RankOf(l) in Baselines(s, node, source) &&
             NewerThanAll(RankOf(l), Baselines(s, node, source))
    ensures LatestBaseline(s, node, source).Some? && LatestBaseline(s, node, source).value.id == l.id
  {
    var rows := Filter(s, BaselineOf(node, source));
    var r :| r in rows && RankOf(r) == RankOf(l);
    FilterOrdered(s, BaselineOf(node, source), next);
    NewestIsLast(rows, next);
    var b := Newest(rows).value;
    assert RankOf(b) in Baselines(s, node, source);
  }

  lemma MarkedRows(s: seq<Row<Snapshot>>, node: string, source: Source, r: Row<Snapshot>)
    requires r in MarkSource(s, node, source)
    ensures exists x :: x in s && r == Reflagged(x, r.val.baseline)
  {
    hide Flag, Surplus, Latest;
    var f := FlagLatest(s, node, source);
    if r !in s {
      FlagRows(f, Surplus(f, node, source, BASELINES_KEPT), false, r);
      var y :| y in f && r == if Surplus(f, node, source, BASELINES_KEPT)(y) then Reflagged(y, false) else y;
      if y !in s {
        var ids := HasId({Latest(s, node, source).value.id});
        FlagRows(s, ids, true, y);
        var x :| x in s && y == if ids(x) then Reflagged(x, true) else x;
        assert r == Reflagged(x, r.val.baseline);
      } else {
        assert r == Reflagged(y, r.val.baseline);
      }
    } else {
      assert r == Reflagged(r, r.val.baseline);
    }
  }

  lemma MarkSourceMarksLatest(s: seq<Row<Snapshot>>, next: int, node: string, source: Source)
    requires Ordered(s, next) && Latest(s, node, source).Some?
    ensures LatestBaseline(MarkSource(s, node, source), node, source) ==
            Some(Reflagged(Latest(s, node, source).value, true))
  {
    hide MarkSource, Newest, Baselines;
    var u, l := MarkSource(s, node, source), Latest(s, node, source).value;
    MarkSourceAdvances(s, next, node, source);
    MarkSourceOrdered(s, next, node, source);
    NewestBaselineIs(u, next, node, source, l);
    var b := LatestBaseline(u, node, source).value;
    assert b in Filter(u, BaselineOf(node, source));
    MarkedRows(s, node, source, b);
    var x :| x in s && b == Reflagged(x, b.val.baseline);
    assert l in Filter(s, Of(node, source));
    SameIdSameRow(s, next, x, l);
  }

  /** In every run, a tick that finds the cluster quiet makes the latest snapshot of every node and source its newest
      baseline; any other tick changes no baseline. */
  lemma TickMarksLatest(setup: Setup, steps: seq<Step>, now: int, node: string, source: Source)
    requires source == API || source == Agent
    ensures var t := Run(setup, steps);
            var after := TickOf(t, setup.cfg, now).snapshots;
            if QuietCluster(t, Ms(now - setup.cfg.Stable())) && Latest(t.snapshots, node, source).Some?
            then LatestBaseline(after, node, source) == Some(Reflagged(Latest(t.snapshots, node, source).value, true))
            else Filter(after, BaselineOf(node, source)) == Filter(t.snapshots, BaselineOf(node, source))
  {
    hide RunFrom, TickOf, MarkSource, Newest, QuietCluster;
    var t := Run(setup, steps);
    var g := GroupRows(t.snapshots, node, source);
    RunOrdered(setup, steps);
    TickOfGroup(t, setup.cfg, now, node, source);
    GroupOfGroup(t.snapshots, node, source);
    GroupOfGroup(TickOf(t, setup.cfg, now).snapshots, node, source);
    FilterOrdered(t.snapshots, Of(node, source), t.next.snapshot);
    if Latest(g, node, source).Some? {
      MarkSourceMarksLatest(g, t.next.snapshot, node, source);
    } else {
      NothingToMark(g, node, source);
    }
  }

  lemma NothingToMark(s: seq<Row<Snapshot>>, node: string, source: Source)
    requires Latest(s, node, source) == None
    ensures MarkSource(s, node, source) == s
  {
  }
}
