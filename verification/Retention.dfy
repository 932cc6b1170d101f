/** Retention and the size cap: which rows the store deletes, and what it must not lose. */
module Retention {
  import opened Sample
  import opened Rows
  import opened Schema

  /** How long each record class is kept, in nanoseconds. */
  datatype Periods = Periods(events: int, changes: int, snapshots: int)

  function Since<T(!new)>(cut: int): Row<T> -> bool {
    (r: Row<T>) => cut <= r.ts
  }

  function SinceOrBaseline(cut: int): Row<Snapshot> -> bool {
    (r: Row<Snapshot>) => cut <= r.ts || r.val.baseline
  }

  function OpenOrClosedSince(cut: int): Incident -> bool {
    (i: Incident) => i.closedAt == None || cut <= i.closedAt.value
  }

  /** The stored times before which each record class is deleted. */
  datatype Cuts = Cuts(events: int, changes: int, snapshots: int)

  function CutsAt(now: int, keep: Periods): Cuts {
    Cuts(Ms(now - keep.events), Ms(now - keep.changes), Ms(now - keep.snapshots))
  }

  function DeletedBefore(t: Tables, c: Cuts): Tables {
    t.(events := Filter(t.events, Since(c.events)),
       transitions := Filter(t.transitions, Since(c.events)),
       changes := Filter(t.changes, Since(c.changes)),
       snapshots := Filter(t.snapshots, SinceOrBaseline(c.snapshots)),
       incidents := Filter(t.incidents, OpenOrClosedSince(c.changes)))
  }

  /** Deletes what is older than its period; baselines and open incidents are exempt. */
  function Pruned(t: Tables, now: int, keep: Periods): Tables {
    DeletedBefore(t, CutsAt(now, keep))
  }

  /** What a prune leaves of each table: exactly the rows the retention period still covers, the baselines, and the
      incidents that are open; pods and ids are as they were. */
  lemma PruneLeavesExactly(t: Tables, now: int, keep: Periods)
    ensures var u := Pruned(t, now, keep);
            && (forall r :: r in u.events <==> r in t.events && Ms(now - keep.events) <= r.ts)
            && (forall r :: r in u.transitions <==> r in t.transitions && Ms(now - keep.events) <= r.ts)
            && (forall r :: r in u.changes <==> r in t.changes && Ms(now - keep.changes) <= r.ts)
            && (forall r :: r in u.snapshots <==>
                  r in t.snapshots && (r.val.baseline || Ms(now - keep.snapshots) <= r.ts))
            && (forall x :: x in u.incidents <==>
                  x in t.incidents && (x.closedAt == None || Ms(now - keep.changes) <= x.closedAt.value))
            && u.pods == t.pods && u.next == t.next
  {
  }

  /** And it leaves them in their order, each as often as it was there. */
  lemma PruneKeepsOrder(t: Tables, now: int, keep: Periods)
    requires Ordered(t.events, t.next.event) && Ordered(t.transitions, t.next.transition)
    requires Ordered(t.changes, t.next.change) && Ordered(t.snapshots, t.next.snapshot)
    ensures var u := Pruned(t, now, keep);
            && Ordered(u.events, t.next.event) && Ordered(u.transitions, t.next.transition)
            && Ordered(u.changes, t.next.change) && Ordered(u.snapshots, t.next.snapshot)
  {
    var cuts := CutsAt(now, keep);
    FilterOrdered(t.events, Since(cuts.events), t.next.event);
    FilterOrdered(t.transitions, Since(cuts.events), t.next.transition);
    FilterOrdered(t.changes, Since(cuts.changes), t.next.change);
    FilterOrdered(t.snapshots, SinceOrBaseline(cuts.snapshots), t.next.snapshot);
  }

  lemma SinceAbsorbs<T(!new)>(s: seq<Row<T>>, a: int, b: int)
    requires a <= b
    ensures Filter(Filter(s, Since(a)), Since(b)) == Filter(s, Since(b))
  {
    FilterFilter(s, Since(b), Since(a));
  }

  lemma DeletedBeforeAbsorbs(t: Tables, a: Cuts, b: Cuts)
    requires a.events <= b.events && a.changes <= b.changes && a.snapshots <= b.snapshots
    ensures DeletedBefore(DeletedBefore(t, a), b) == DeletedBefore(t, b)
  {
    SinceAbsorbs(t.events, a.events, b.events);
    SinceAbsorbs(t.transitions, a.events, b.events);
    SinceAbsorbs(t.changes, a.changes, b.changes);
    FilterFilter(t.snapshots, SinceOrBaseline(b.snapshots), SinceOrBaseline(a.snapshots));
    FilterFilter(t.incidents, OpenOrClosedSince(b.changes), OpenOrClosedSince(a.changes));
  }

  /** A later prune absorbs an earlier one. */
  lemma PruneAbsorbs(t: Tables, earlier: int, later: int, keep: Periods)
    requires earlier <= later
    ensures Pruned(Pruned(t, earlier, keep), later, keep) == Pruned(t, later, keep)
  {
    MsMonotone(earlier - keep.events, later - keep.events);
    MsMonotone(earlier - keep.changes, later - keep.changes);
    MsMonotone(earlier - keep.snapshots, later - keep.snapshots);
    DeletedBeforeAbsorbs(t, CutsAt(earlier, keep), CutsAt(later, keep));
  }

  /** Deleting rows spares the newest one exactly when it is not among them. */
  lemma {:induction false} NewestSpared<T(!new)>(s: seq<Row<T>>, p: Row<T> -> bool)
    ensures Newest(Filter(s, p)) == Newest(s) <==> s == [] || p(Newest(s).value)
  {
    hide Newest, Filter;
    if s == [] {
      assert Filter(s, p) == s;
    } else {
      var s', x := s[..|s| - 1], s[|s| - 1];
      NewestSpared(s', p);
      assert s == s' + [x];
      FilterSnoc(s', x, p);
      NewestByLast(s', x);
      if p(x) { NewestByLast(Filter(s', p), x); } else { assert Filter(s, p) == Filter(s', p); }
      if Filter(s', p) != [] { assert Newest(Filter(s', p)).value in s'; }
    }
  }

  lemma NewestByLast<T(!new)>(s: seq<Row<T>>, x: Row<T>)
    ensures Newest(s + [x]) == if s == [] || Newest(s).value.ts <= x.ts then Some(x) else Newest(s)
  {
    assert (s + [x])[..|s + [x]| - 1] == s;
  }

  /** A prune deletes the latest snapshot of a group exactly when that has left the retention period and is no
      baseline. */
  lemma PruneSparesLatestExactly(t: Tables, now: int, keep: Periods, node: string, source: Source)
    ensures var latest := Latest(t.snapshots, node, source);
            Latest(Pruned(t, now, keep).snapshots, node, source) == latest <==>
            latest.None? || latest.value.val.baseline || Ms(now - keep.snapshots) <= latest.value.ts
  {
    var spared := SinceOrBaseline(CutsAt(now, keep).snapshots);
    FilterCommutes(t.snapshots, spared, Of(node, source));
    NewestSpared(Filter(t.snapshots, Of(node, source)), spared);
  }

  // --- the size cap ---------------------------------------------------------------

  const BATCH := 100

  function IsBaseline(): Row<Snapshot> -> bool { (r: Row<Snapshot>) => r.val.baseline }

  function Raw(): Row<Snapshot> -> bool { (r: Row<Snapshot>) => !r.val.baseline }

  /** The first rows of `ORDER BY ts`, at most one batch of them. */
  function OldestBatch<T(!new)>(s: seq<Row<T>>): seq<Row<T>> {
    if |s| <= BATCH then StableSort(s, ByTs()) else StableSort(s, ByTs())[..BATCH]
  }

  function NotIn<T(!new)>(ids: set<int>): Row<T> -> bool {
    (r: Row<T>) => r.id !in ids
  }

  function DropSnapshots(t: Tables): Tables {
    t.(snapshots := Filter(t.snapshots, NotIn(Ids(OldestBatch(Filter(t.snapshots, Raw()))))))
  }

  function DropEvents(t: Tables): Tables {
    t.(events := Filter(t.events, NotIn(Ids(OldestBatch(t.events)))))
  }

  function Droppable(t: Tables): nat {
    |Filter(t.snapshots, Raw())| + |t.events|
  }

  lemma {:induction false} FilterDrops<T(!new)>(s: seq<T>, p: T -> bool, x: T)
    requires x in s && !p(x)
    ensures |Filter(s, p)| < |s|
  {
    if x in s[..|s| - 1] {
      FilterDrops(s[..|s| - 1], p, x);
    } else {
      assert s == s[..|s| - 1] + [s[|s| - 1]];
    }
  }

  lemma FilterCommutes<T(!new)>(s: seq<T>, p: T -> bool, q: T -> bool)
    ensures Filter(Filter(s, p), q) == Filter(Filter(s, q), p)
  {
    var both := (x: T) => p(x) && q(x);
    FilterFilter(s, both, p);
    FilterFilter(s, both, q);
    FilterAgree(Filter(s, p), q, both);
    FilterAgree(Filter(s, q), p, both);
  }

  lemma BatchMember<T(!new)>(s: seq<Row<T>>)
    ensures forall x :: x in OldestBatch(s) ==> x in s
    ensures s != [] ==> OldestBatch(s) != []
  {
    SameMembers(StableSort(s, ByTs()), s);
  }

  lemma DropSnapshotsShrinks(t: Tables)
    requires Filter(t.snapshots, Raw()) != []
    ensures Droppable(DropSnapshots(t)) < Droppable(t)
  {
    var raw := Filter(t.snapshots, Raw());
    var gone := Ids(OldestBatch(raw));
    BatchMember(raw);
    var x := OldestBatch(raw)[0];
    FilterCommutes(t.snapshots, NotIn(gone), Raw());
    FilterDrops(raw, NotIn(gone), x);
  }

  lemma DropEventsShrinks(t: Tables)
    requires t.events != []
    ensures Droppable(DropEvents(t)) < Droppable(t)
  {
    BatchMember(t.events);
    var x := OldestBatch(t.events)[0];
    FilterDrops(t.events, NotIn(Ids(OldestBatch(t.events))), x);
  }

  /** Drops batches, snapshots before events, until the size fits; false when nothing is left to drop. */
  function Capped(t: Tables, maxBytes: int, size: Tables -> int): (r: (Tables, bool))
    ensures r.1 <==> size(r.0) <= maxBytes
    ensures !r.1 ==> Droppable(r.0) == 0
    decreases Droppable(t)
  {
    if size(t) <= maxBytes then (t, true)
    else if Filter(t.snapshots, Raw()) != [] then
      DropSnapshotsShrinks(t);
      Capped(DropSnapshots(t), maxBytes, size)
    else if t.events != [] then
      DropEventsShrinks(t);
      Capped(DropEvents(t), maxBytes, size)
    else (t, false)
  }

  /** The size cap deletes the latest snapshot of a group exactly when it leaves another one in its place, or none. */
  lemma {:induction false} CapSparesLatestExactly(t: Tables, maxBytes: int, size: Tables -> int, node: string,
      source: Source)
    ensures var latest, after := Latest(t.snapshots, node, source), Capped(t, maxBytes, size).0;
            Latest(after.snapshots, node, source) == latest <==> latest.None? || latest.value in after.snapshots
    decreases Droppable(t)
  {
    hide Newest;
    if size(t) > maxBytes {
      if Filter(t.snapshots, Raw()) != [] {
        var gone := Ids(OldestBatch(Filter(t.snapshots, Raw())));
        DropSnapshotsShrinks(t);
        CapSparesLatestExactly(DropSnapshots(t), maxBytes, size, node, source);
        CapOnlyDrops(DropSnapshots(t), maxBytes, size);
        FilterCommutes(t.snapshots, NotIn(gone), Of(node, source));
        NewestSpared(Filter(t.snapshots, Of(node, source)), NotIn(gone));
      } else if t.events != [] {
        DropEventsShrinks(t);
        CapSparesLatestExactly(DropEvents(t), maxBytes, size, node, source);
      }
    }
  }

  lemma {:induction false} CapOnlyDrops(t: Tables, maxBytes: int, size: Tables -> int)
    ensures forall r :: r in Capped(t, maxBytes, size).0.snapshots ==> r in t.snapshots
    decreases Droppable(t)
  {
    if size(t) > maxBytes {
      if Filter(t.snapshots, Raw()) != [] {
        DropSnapshotsShrinks(t);
        CapOnlyDrops(DropSnapshots(t), maxBytes, size);
      } else if t.events != [] {
        DropEventsShrinks(t);
        CapOnlyDrops(DropEvents(t), maxBytes, size);
      }
    }
  }

  /** Every row of `before` missing from `after` is older than every row that is still there. */
  ghost predicate OldestGone<T(!new)>(before: seq<Row<T>>, after: seq<Row<T>>) {
    && (forall x :: x in after ==> x in before)
    && forall x, y :: x in before && x !in after && y in after ==> Older(x, y)
  }

  lemma OldestGoneTransitive<T(!new)>(a: seq<Row<T>>, b: seq<Row<T>>, c: seq<Row<T>>)
    requires OldestGone(a, b) && OldestGone(b, c)
    ensures OldestGone(a, c)
  {
  }

  lemma BatchIsOldest<T(!new)>(s: seq<Row<T>>, next: int)
    requires Ordered(s, next)
    ensures OldestGone(s, Filter(s, NotIn(Ids(OldestBatch(s)))))
  {
    hide StableSort, Filter;
    SortByTsIsLexicographic(s, next);
    var sorted, batch := StableSort(s, ByTs()), OldestBatch(s);
    SameMembers(sorted, s);
    var rest := Filter(s, NotIn(Ids(batch)));
    forall x, y | x in s && x !in rest && y in rest ensures Older(x, y) {
      assert x.id in Ids(batch);
      var x' :| x' in batch && x'.id == x.id;
      SameIdSameRow(s, next, x, x');
      assert sorted == sorted[..|batch|] + sorted[|batch|..];
      FrontIsOlder(sorted, |batch|, x, y);
    }
  }

  lemma FrontIsOlder<T(!new)>(sorted: seq<Row<T>>, n: nat, x: Row<T>, y: Row<T>)
    requires OldestFirst(sorted) && n <= |sorted| && x in sorted[..n] && y in sorted[n..]
    ensures Older(x, y)
  {
    var i :| 0 <= i < n && sorted[i] == x;
    var j :| 0 <= j < |sorted| - n && sorted[n..][j] == y;
    assert sorted[n + j] == y;
  }

  lemma SameIdSameRow<T(!new)>(s: seq<Row<T>>, next: int, x: Row<T>, y: Row<T>)
    requires Ordered(s, next) && x in s && y in s && x.id == y.id
    ensures x == y
  {
  }

  /** One batch of snapshots: baselines untouched, raw rows gone oldest first. */
  lemma DropSnapshotsKeepsBaselines(t: Tables)
    requires Ordered(t.snapshots, t.next.snapshot)
    ensures Filter(DropSnapshots(t).snapshots, IsBaseline()) == Filter(t.snapshots, IsBaseline())
    ensures OldestGone(Filter(t.snapshots, Raw()), Filter(DropSnapshots(t).snapshots, Raw()))
    ensures Ordered(DropSnapshots(t).snapshots, t.next.snapshot)
  {
    var raw := Filter(t.snapshots, Raw());
    var gone := Ids(OldestBatch(raw));
    FilterOrdered(t.snapshots, Raw(), t.next.snapshot);
    FilterOrdered(t.snapshots, NotIn(gone), t.next.snapshot);
    FilterCommutes(t.snapshots, NotIn(gone), Raw());
    BatchIsOldest(raw, t.next.snapshot);
    BatchMember(raw);
    forall x | x in t.snapshots && IsBaseline()(x) ensures NotIn(gone)(x) {
      if x.id in gone {
        var y :| y in OldestBatch(raw) && y.id == x.id;
        assert y in t.snapshots && !y.val.baseline;
        SameIdSameRow(t.snapshots, t.next.snapshot, x, y);
      }
    }
    FilterFilter(t.snapshots, IsBaseline(), NotIn(gone));
  }

  /** What the size cap may remove: raw snapshots oldest first, then, only once none is left, events oldest first.
      Baselines and every other table are as they were. */
  lemma {:induction false} CapRemovesOldestFirst(t: Tables, maxBytes: int, size: Tables -> int)
    requires Ordered(t.snapshots, t.next.snapshot) && Ordered(t.events, t.next.event)
    ensures var after := Capped(t, maxBytes, size).0;
            && after == t.(snapshots := after.snapshots, events := after.events)
            && Filter(after.snapshots, IsBaseline()) == Filter(t.snapshots, IsBaseline())
            && OldestGone(Filter(t.snapshots, Raw()), Filter(after.snapshots, Raw()))
            && OldestGone(t.events, after.events)
            && (after.events != t.events ==> Filter(after.snapshots, Raw()) == [])
            && Ordered(after.snapshots, t.next.snapshot) && Ordered(after.events, t.next.event)
    decreases Droppable(t)
  {
    if size(t) <= maxBytes {
    } else if Filter(t.snapshots, Raw()) != [] {
      var u := DropSnapshots(t);
      DropSnapshotsShrinks(t);
      DropSnapshotsKeepsBaselines(t);
      CapRemovesOldestFirst(u, maxBytes, size);
      OldestGoneTransitive(Filter(t.snapshots, Raw()), Filter(u.snapshots, Raw()),
        Filter(Capped(u, maxBytes, size).0.snapshots, Raw()));
    } else if t.events != [] {
      var u := DropEvents(t);
      DropEventsShrinks(t);
      BatchIsOldest(t.events, t.next.event);
      FilterOrdered(t.events, NotIn(Ids(OldestBatch(t.events))), t.next.event);
      CapRemovesOldestFirst(u, maxBytes, size);
      OldestGoneTransitive(t.events, u.events, Capped(u, maxBytes, size).0.events);
      NothingRawLeft(u, maxBytes, size);
    }
  }

  lemma {:induction false} NothingRawLeft(t: Tables, maxBytes: int, size: Tables -> int)
    requires Filter(t.snapshots, Raw()) == []
    ensures Capped(t, maxBytes, size).0.snapshots == t.snapshots
    decreases Droppable(t)
  {
    if size(t) > maxBytes && t.events != [] {
      DropEventsShrinks(t);
      NothingRawLeft(DropEvents(t), maxBytes, size);
    }
  }

  lemma {:induction false} FilterPermuted<T(!new)>(s: seq<T>, p: T -> bool, x: T)
    ensures multiset(Filter(s, p))[x] == if p(x) then multiset(s)[x] else 0
  {
    if s != [] {
      FilterPermuted(s[..|s| - 1], p, x);
      assert s == s[..|s| - 1] + [s[|s| - 1]];
    }
  }

  /** A batch is the hundred oldest rows, or all when there are fewer, and deleting it takes exactly those. */
  lemma BatchCount<T(!new)>(s: seq<Row<T>>, next: int)
    requires Ordered(s, next)
    ensures |Filter(s, NotIn(Ids(OldestBatch(s))))| == if |s| <= 100 then 0 else |s| - 100
  {
    hide StableSort, Filter, Ordered;
    var sorted, batch := StableSort(s, ByTs()), OldestBatch(s);
    var rest, left := sorted[|batch|..], NotIn(Ids(batch));
    SortByTsIsLexicographic(s, next);
    SameMembers(sorted, s);
    assert sorted == batch + rest;
    forall y | y in rest ensures left(y) {
      if x :| x in batch && x.id == y.id {
        FrontIsOlder(sorted, |batch|, x, y);
        SameIdSameRow(s, next, x, y);
      }
    }
    FilterConcat(batch, rest, left);
    FilterNone(batch, left);
    FilterAll(rest, left);
    forall x ensures multiset(Filter(s, left))[x] == multiset(rest)[x] {
      FilterPermuted(s, left, x);
      FilterPermuted(sorted, left, x);
    }
    assert multiset(Filter(s, left)) == multiset(rest);
    assert |multiset(Filter(s, left))| == |multiset(rest)|;
  }

  /** The oldest hundred rows gone, or all when there were fewer, and no other. */
  ghost predicate LostABatch<T(!new)>(before: seq<Row<T>>, after: seq<Row<T>>) {
    && OldestGone(before, after)
    && |after| == if |before| <= 100 then 0 else |before| - 100
  }

  /** One round of the cap: a batch of raw snapshots while there are any, else a batch of events; nothing else. */
  ghost predicate OneRound(t: Tables, u: Tables) {
    var raw := Filter(t.snapshots, Raw());
    && u == t.(snapshots := u.snapshots, events := u.events)
    && Filter(u.snapshots, IsBaseline()) == Filter(t.snapshots, IsBaseline())
    && if raw != [] then u.events == t.events && LostABatch(raw, Filter(u.snapshots, Raw()))
       else t.events != [] && u.snapshots == t.snapshots && LostABatch(t.events, u.events)
  }

  ghost predicate RoundAt(rounds: seq<Tables>, i: nat, maxBytes: int, size: Tables -> int)
    requires i + 1 < |rounds|
  {
    size(rounds[i]) > maxBytes && OneRound(rounds[i], rounds[i + 1])
  }

  /** Rounds of the cap that begin with `t`, each taken because the size did not fit yet. */
  ghost predicate Rounds(rounds: seq<Tables>, t: Tables, maxBytes: int, size: Tables -> int) {
    rounds != [] && rounds[0] == t && forall i :: 0 <= i < |rounds| - 1 ==> RoundAt(rounds, i, maxBytes, size)
  }

  lemma DropSnapshotsIsOneRound(t: Tables)
    requires Ordered(t.snapshots, t.next.snapshot) && Filter(t.snapshots, Raw()) != []
    ensures OneRound(t, DropSnapshots(t))
  {
    hide StableSort, Filter, Ordered, OldestGone;
    var raw := Filter(t.snapshots, Raw());
    DropSnapshotsKeepsBaselines(t);
    FilterOrdered(t.snapshots, Raw(), t.next.snapshot);
    FilterCommutes(t.snapshots, NotIn(Ids(OldestBatch(raw))), Raw());
    BatchCount(raw, t.next.snapshot);
  }

  lemma DropEventsIsOneRound(t: Tables)
    requires Ordered(t.events, t.next.event) && Filter(t.snapshots, Raw()) == [] && t.events != []
    ensures OneRound(t, DropEvents(t))
  {
    hide StableSort, Filter, Ordered, OldestGone;
    BatchIsOldest(t.events, t.next.event);
    BatchCount(t.events, t.next.event);
  }

  lemma RoundsCons(t: Tables, u: Tables, rounds: seq<Tables>, maxBytes: int, size: Tables -> int)
    requires size(t) > maxBytes && OneRound(t, u) && Rounds(rounds, u, maxBytes, size)
    ensures Rounds([t] + rounds, t, maxBytes, size)
  {
    hide OneRound;
    forall i | 0 <= i < |rounds| ensures RoundAt([t] + rounds, i, maxBytes, size) {
      if i > 0 { assert RoundAt(rounds, i - 1, maxBytes, size); }
    }
  }

  /** The cap goes in rounds of a hundred rows and takes no round more than it needs: before each the size was over the
      limit, and after the last it fits or there is nothing left to drop. */
  lemma {:induction false} CapGoesInRounds(t: Tables, maxBytes: int, size: Tables -> int) returns (rounds: seq<Tables>)
    requires Ordered(t.snapshots, t.next.snapshot) && Ordered(t.events, t.next.event)
    ensures Rounds(rounds, t, maxBytes, size)
    ensures Capped(t, maxBytes, size).0 == rounds[|rounds| - 1]
    ensures var last := rounds[|rounds| - 1];
            size(last) <= maxBytes || (last.events == [] && Filter(last.snapshots, Raw()) == [])
    decreases Droppable(t)
  {
    hide OneRound, StableSort, Filter, Ordered, DropSnapshots, DropEvents;
    rounds := [t];
    if size(t) > maxBytes && Filter(t.snapshots, Raw()) != [] {
      var u := DropSnapshots(t);
      DropSnapshotsShrinks(t);
      DropSnapshotsIsOneRound(t);
      DropLeavesOrdered(t);
      var later := CapGoesInRounds(u, maxBytes, size);
      RoundsCons(t, u, later, maxBytes, size);
      rounds := [t] + later;
    } else if size(t) > maxBytes && t.events != [] {
      var u := DropEvents(t);
      DropEventsShrinks(t);
      DropEventsIsOneRound(t);
      DropLeavesOrdered(t);
      var later := CapGoesInRounds(u, maxBytes, size);
      RoundsCons(t, u, later, maxBytes, size);
      rounds := [t] + later;
    }
  }

  lemma DropLeavesOrdered(t: Tables)
    requires Ordered(t.snapshots, t.next.snapshot) && Ordered(t.events, t.next.event)
    ensures var u := DropSnapshots(t);
            Ordered(u.snapshots, u.next.snapshot) && Ordered(u.events, u.next.event)
    ensures var u := DropEvents(t);
            Ordered(u.snapshots, u.next.snapshot) && Ordered(u.events, u.next.event)
  {
    hide OldestBatch, Ordered;
    FilterOrdered(t.snapshots, NotIn(Ids(OldestBatch(Filter(t.snapshots, Raw())))), t.next.snapshot);
    FilterOrdered(t.events, NotIn(Ids(OldestBatch(t.events))), t.next.event);
  }
}
