/** The per-node timeline: three queries merged by time (Timeline, internal/store/store.go). */
module Timelines {
  import opened Sample
  import opened Rows
  import opened Differ
  import opened Schema
  import opened Retention

  const DEFAULT_LIMIT := 1000

  datatype Item = ChangeItem(id: int, change: Change) | EventItem(event: Event) |
    TransitionItem(id: int, transition: PodTransition)

  /** One row of the timeline; `time` is a stored millisecond. */
  datatype Entry = Entry(time: int, node: string, item: Item)

  predicate Within<T>(r: Row<T>, of: string, node: string, from: int, to: int) {
    Ms(from) <= r.ts <= Ms(to) && (node == "" || of == node)
  }

  function WantedChange(node: string, from: int, to: int): Row<Change> -> bool {
    (r: Row<Change>) => Within(r, r.val.node, node, from, to)
  }

  function WantedEvent(namespace: string, node: string, from: int, to: int): Row<Event> -> bool {
    (r: Row<Event>) => Within(r, r.val.node, node, from, to) && (namespace == "" || r.val.namespace == namespace)
  }

  function WantedTransition(node: string, from: int, to: int): Row<PodTransition> -> bool {
    (r: Row<PodTransition>) => Within(r, r.val.node, node, from, to)
  }

  function Changes(t: Tables, node: string, from: int, to: int): seq<Row<Change>> {
    StableSort(Filter(t.changes, WantedChange(node, from, to)), ByTs())
  }

  function Transitions(t: Tables, node: string, from: int, to: int): seq<Row<PodTransition>> {
    StableSort(Filter(t.transitions, WantedTransition(node, from, to)), ByTs())
  }

  /** The earliest `limit` events in range; a limit of zero or less means the default. */
  function Events(t: Tables, namespace: string, node: string, from: int, to: int, limit: int): seq<Row<Event>> {
    var found := StableSort(Filter(t.events, WantedEvent(namespace, node, from, to)), ByTs());
    var n := if limit <= 0 then DEFAULT_LIMIT else limit;
    if |found| <= n then found else found[..n]
  }

  function EntryOfChange(r: Row<Change>): Entry { Entry(r.ts, r.val.node, ChangeItem(r.id, r.val)) }

  function EntryOfEvent(r: Row<Event>): Entry { Entry(r.ts, r.val.node, EventItem(r.val)) }

  function EntryOfTransition(r: Row<PodTransition>): Entry { Entry(r.ts, r.val.node, TransitionItem(r.id, r.val)) }

  function Entries<T(!new)>(rows: seq<Row<T>>, entry: Row<T> -> Entry): (r: seq<Entry>)
    ensures |r| == |rows|
    ensures forall i :: 0 <= i < |rows| ==> r[i] == entry(rows[i])
  {
    seq(|rows|, i requires 0 <= i < |rows| => entry(rows[i]))
  }

  function ByTime(): Entry -> int { (e: Entry) => e.time }

  /** The three query results, as timeline entries. */
  datatype Sources = Sources(changes: seq<Entry>, events: seq<Entry>, transitions: seq<Entry>)

  function SourcesOf(t: Tables, node: string, from: int, to: int): Sources {
    Sources(
      Entries(Changes(t, node, from, to), EntryOfChange),
      Entries(Events(t, "", node, from, to, 0), EntryOfEvent),
      Entries(Transitions(t, node, from, to), EntryOfTransition))
  }

  /** Oldest first; at equal times changes before events before pod transitions, each source in its own order. */
  function Merged(s: Sources): seq<Entry> {
    Merge(Merge(s.changes, s.events, ByTime()), s.transitions, ByTime())
  }

  function TimelineOf(t: Tables, node: string, from: int, to: int): seq<Entry> {
    Merged(SourcesOf(t, node, from, to))
  }

  ghost predicate SortedSources(s: Sources) {
    SortedBy(s.changes, ByTime()) && SortedBy(s.events, ByTime()) && SortedBy(s.transitions, ByTime())
  }

  lemma SortedEntries<T(!new)>(rows: seq<Row<T>>, entry: Row<T> -> Entry)
    requires SortedBy(rows, ByTs())
    requires forall r :: entry(r).time == r.ts
    ensures SortedBy(Entries(rows, entry), ByTime())
  {
    forall i, j | 0 <= i < j < |rows|
      ensures ByTime()(Entries(rows, entry)[i]) <= ByTime()(Entries(rows, entry)[j])
    {
      assert ByTs()(rows[i]) <= ByTs()(rows[j]);
    }
  }

  lemma SourcesSorted(t: Tables, node: string, from: int, to: int)
    ensures SortedSources(SourcesOf(t, node, from, to))
  {
    StableSortSorted(Filter(t.changes, WantedChange(node, from, to)), ByTs());
    StableSortSorted(Filter(t.events, WantedEvent("", node, from, to)), ByTs());
    StableSortSorted(Filter(t.transitions, WantedTransition(node, from, to)), ByTs());
    SortedEntries(Changes(t, node, from, to), EntryOfChange);
    SortedEntries(Events(t, "", node, from, to, 0), EntryOfEvent);
    SortedEntries(Transitions(t, node, from, to), EntryOfTransition);
  }

  /** Collecting the three results one after the other and sorting stably by time merges them. */
  lemma SortingMerges(s: Sources)
    requires SortedSources(s)
    ensures StableSort(s.changes + s.events + s.transitions, ByTime()) == Merged(s)
  {
    SortIsMerge(s.changes, s.events, s.transitions, ByTime());
  }

  /** Oldest first, and at each instant the three sources one after the other, each in its own order. */
  ghost predicate IsStableMerge(out: seq<Entry>, s: Sources) {
    && SortedBy(out, ByTime())
    && forall t :: Filter(out, At(ByTime(), t)) ==
                   Filter(s.changes, At(ByTime(), t)) + Filter(s.events, At(ByTime(), t)) +
                     Filter(s.transitions, At(ByTime(), t))
  }

  lemma MergedIsStable(s: Sources)
    requires SortedSources(s)
    ensures IsStableMerge(Merged(s), s)
  {
    SortingMerges(s);
    StableSortSorted(s.changes + s.events + s.transitions, ByTime());
    forall u
      ensures Filter(Merged(s), At(ByTime(), u)) ==
              Filter(s.changes, At(ByTime(), u)) + Filter(s.events, At(ByTime(), u)) +
                Filter(s.transitions, At(ByTime(), u))
    {
      StableSortStable(s.changes + s.events + s.transitions, ByTime(), u);
      FilterConcat(s.changes + s.events, s.transitions, At(ByTime(), u));
      FilterConcat(s.changes, s.events, At(ByTime(), u));
    }
  }

  lemma OneStableMerge(s: Sources, a: seq<Entry>, b: seq<Entry>)
    requires IsStableMerge(a, s) && IsStableMerge(b, s)
    ensures a == b
  {
    forall u ensures Filter(a, At(ByTime(), u)) == Filter(b, At(ByTime(), u)) {}
    SortedUnique(a, b, ByTime());
  }

  /** The timeline is a permutation of the three query results, and the only stable merge of them. */
  lemma TimelineIsTheStableMerge(t: Tables, node: string, from: int, to: int, out: seq<Entry>)
    ensures var s := SourcesOf(t, node, from, to);
            && (IsStableMerge(out, s) <==> out == TimelineOf(t, node, from, to))
            && multiset(TimelineOf(t, node, from, to)) == multiset(s.changes + s.events + s.transitions)
  {
    var s := SourcesOf(t, node, from, to);
    SourcesSorted(t, node, from, to);
    SortingMerges(s);
    MergedIsStable(s);
    if IsStableMerge(out, s) { OneStableMerge(s, out, Merged(s)); }
  }

  /** Collecting the three query results one after the other and sorting stably by time gives the timeline. */
  lemma CollectedThenSorted(t: Tables, node: string, from: int, to: int,
                            cs: seq<Row<Change>>, es: seq<Row<Event>>, ts: seq<Row<PodTransition>>)
    requires cs == Changes(t, node, from, to) && es == Events(t, "", node, from, to, 0) &&
             ts == Transitions(t, node, from, to)
    ensures StableSort([] + Entries(cs, EntryOfChange) + Entries(es, EntryOfEvent) + Entries(ts, EntryOfTransition),
            ByTime())
            == TimelineOf(t, node, from, to)
  {
    hide StableSort, Merged, Entries, Changes, Events, Transitions;
    SourcesSorted(t, node, from, to);
    SortingMerges(SourcesOf(t, node, from, to));
    assert [] + Entries(cs, EntryOfChange) == Entries(cs, EntryOfChange);
  }

  // --- what the three queries select ------------------------------------------------------------

  lemma SelectedOldestFirst<T(!new)>(s: seq<Row<T>>, p: Row<T> -> bool, next: int)
    requires Ordered(s, next)
    ensures var r := StableSort(Filter(s, p), ByTs());
            OldestFirst(r) && (forall x :: x in r <==> x in s && p(x)) && |r| == |Filter(s, p)|
  {
    hide StableSort, Filter, Ordered, OldestFirst;
    FilterOrdered(s, p, next);
    SortByTsIsLexicographic(Filter(s, p), next);
    SameMembers(StableSort(Filter(s, p), ByTs()), Filter(s, p));
    assert |multiset(StableSort(Filter(s, p), ByTs()))| == |multiset(Filter(s, p))|;
  }

  /** The change records of the range, of one node or of all, oldest first and by rowid at equal times. */
  lemma ChangesTell(t: Tables, node: string, from: int, to: int)
    requires Ordered(t.changes, t.next.change)
    ensures OldestFirst(Changes(t, node, from, to))
    ensures forall r :: r in Changes(t, node, from, to) <==>
              r in t.changes && Ms(from) <= r.ts <= Ms(to) && (node == "" || r.val.node == node)
  {
    hide StableSort, Filter, Ordered, OldestFirst;
    SelectedOldestFirst(t.changes, WantedChange(node, from, to), t.next.change);
  }

  /** The pod transitions of the range, likewise. */
  lemma TransitionsTell(t: Tables, node: string, from: int, to: int)
    requires Ordered(t.transitions, t.next.transition)
    ensures OldestFirst(Transitions(t, node, from, to))
    ensures forall r :: r in Transitions(t, node, from, to) <==>
              r in t.transitions && Ms(from) <= r.ts <= Ms(to) && (node == "" || r.val.node == node)
  {
    hide StableSort, Filter, Ordered, OldestFirst;
    SelectedOldestFirst(t.transitions, WantedTransition(node, from, to), t.next.transition);
  }

  /** The event is of the range, the namespace and the node asked for, an empty one meaning any. */
  predicate AskedFor(r: Row<Event>, namespace: string, node: string, from: int, to: int) {
    && Ms(from) <= r.ts <= Ms(to)
    && (namespace == "" || r.val.namespace == namespace) && (node == "" || r.val.node == node)
  }

  /** The events asked for, oldest first, and of those the earliest up to the limit, which is 1000 unless it is
      positive. */
  lemma EventsTell(t: Tables, namespace: string, node: string, from: int, to: int, limit: int)
    requires Ordered(t.events, t.next.event)
    ensures var r, n := Events(t, namespace, node, from, to, limit), if limit <= 0 then 1000 else limit;
            && OldestFirst(r) && |r| <= n
            && (forall x :: x in r ==> x in t.events && AskedFor(x, namespace, node, from, to))
            && forall x :: x in t.events && AskedFor(x, namespace, node, from, to) && x !in r ==>
                 |r| == n && forall y :: y in r ==> Older(y, x)
  {
    hide StableSort, Filter, Ordered, Older;
    var wanted := WantedEvent(namespace, node, from, to);
    SelectedOldestFirst(t.events, wanted, t.next.event);
    var found := StableSort(Filter(t.events, wanted), ByTs());
    var n := if limit <= 0 then 1000 else limit;
    if |found| > n {
      assert found == found[..n] + found[n..];
      forall x, y | x in found[n..] && y in found[..n] ensures Older(y, x) { FrontIsOlder(found, n, y, x); }
    }
  }

  lemma EntryMembers<T(!new)>(rows: seq<Row<T>>, entry: Row<T> -> Entry, e: Entry)
    ensures e in Entries(rows, entry) <==> exists r :: r in rows && e == entry(r)
  {
    var es := Entries(rows, entry);
    if e in es {
      var i :| 0 <= i < |es| && es[i] == e;
      assert rows[i] in rows;
    }
    if r :| r in rows && e == entry(r) {
      var i :| 0 <= i < |rows| && rows[i] == r;
      assert es[i] == e;
    }
  }

  /** What a timeline holds: each change, each event up to the default limit and each transition found, under its stored
      time and node. */
  lemma TimelineMembers(t: Tables, node: string, from: int, to: int, e: Entry)
    ensures e in TimelineOf(t, node, from, to) <==>
            || (exists r :: r in Changes(t, node, from, to) && e == Entry(r.ts, r.val.node, ChangeItem(r.id, r.val)))
            || (exists r :: r in Events(t, "", node, from, to, 0) && e == Entry(r.ts, r.val.node, EventItem(r.val)))
            || exists r :: r in Transitions(t, node, from, to) &&
                           e == Entry(r.ts, r.val.node, TransitionItem(r.id, r.val))
  {
    hide Changes, Events, Transitions, Merged, IsStableMerge, Entries;
    var s := SourcesOf(t, node, from, to);
    TimelineIsTheStableMerge(t, node, from, to, TimelineOf(t, node, from, to));
    SameMembers(TimelineOf(t, node, from, to), s.changes + s.events + s.transitions);
    EntryMembers(Changes(t, node, from, to), EntryOfChange, e);
    EntryMembers(Events(t, "", node, from, to, 0), EntryOfEvent, e);
    EntryMembers(Transitions(t, node, from, to), EntryOfTransition, e);
  }

  lemma ChangesWithin(t: Tables, u: Tables, cut: int, node: string, from: int, to: int)
    requires u.changes == Filter(t.changes, Since(cut)) && cut <= Ms(from)
    ensures Changes(u, node, from, to) == Changes(t, node, from, to)
  {
    FilterFilter(t.changes, WantedChange(node, from, to), Since(cut));
  }

  lemma EventsWithin(t: Tables, u: Tables, cut: int, namespace: string, node: string, from: int, to: int, limit: int)
    requires u.events == Filter(t.events, Since(cut)) && cut <= Ms(from)
    ensures Events(u, namespace, node, from, to, limit) == Events(t, namespace, node, from, to, limit)
  {
    FilterFilter(t.events, WantedEvent(namespace, node, from, to), Since(cut));
  }

  lemma TransitionsWithin(t: Tables, u: Tables, cut: int, node: string, from: int, to: int)
    requires u.transitions == Filter(t.transitions, Since(cut)) && cut <= Ms(from)
    ensures Transitions(u, node, from, to) == Transitions(t, node, from, to)
  {
    FilterFilter(t.transitions, WantedTransition(node, from, to), Since(cut));
  }

  /** Pruning is invisible to a timeline that starts within both retention periods, event limit and ties included. */
  lemma PruneInvisibleToTimeline(t: Tables, now: int, keep: Periods, node: string, from: int, to: int)
    requires Ms(now - keep.events) <= Ms(from) && Ms(now - keep.changes) <= Ms(from)
    ensures TimelineOf(Pruned(t, now, keep), node, from, to) == TimelineOf(t, node, from, to)
  {
    var u, cuts := Pruned(t, now, keep), CutsAt(now, keep);
    ChangesWithin(t, u, cuts.changes, node, from, to);
    EventsWithin(t, u, cuts.events, "", node, from, to, 0);
    TransitionsWithin(t, u, cuts.events, node, from, to);
  }
}
