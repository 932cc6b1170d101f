/** The database's tables and the meaning of each statement run on them (internal/store). */
module Schema {
  import opened Sample
  import opened Rows
  import opened Differ

  const CRASH_LOOP := "CrashLoopBackOff"

  datatype Event = Event(
    uid: string, namespace: string, name: string, kind: string, reason: string, message: string,
    objKind: string, objNamespace: string, objName: string, node: string, count: int, first: int)

  datatype TransitionKind = Phase | Restart | Waiting

  datatype PodTransition = PodTransition(
    namespace: string, name: string, node: string, kind: TransitionKind, before: string, after: string, detail: string)

  /** Current state of one pod; `since` is the stored millisecond column. */
  datatype PodState = PodState(
    namespace: string, name: string, node: string, phase: string, waitingReason: string, restarts: int, since: int)

  /** `openedAt` and `closedAt` are the stored millisecond columns. */
  datatype Incident = Incident(id: int, openedAt: int, closedAt: Option<int>, pods: seq<string>)

  datatype NextIds = NextIds(event: int, transition: int, snapshot: int, change: int, incident: int)

  datatype Tables = Tables(
    events: seq<Row<Event>>,
    transitions: seq<Row<PodTransition>>,
    pods: map<string, PodState>,
    snapshots: seq<Row<Snapshot>>,
    changes: seq<Row<Change>>,
    incidents: seq<Incident>,
    next: NextIds)

  const EMPTY := Tables([], [], map[], [], [], [], NextIds(1, 1, 1, 1, 1))

  ghost predicate IncidentsOrdered(s: seq<Incident>, next: int) {
    && (forall i, j :: 0 <= i < j < |s| ==> s[i].id < s[j].id)
    && (forall i :: 0 <= i < |s| ==> s[i].id < next)
  }

  function Key(namespace: string, name: string): string {
    namespace + "/" + name
  }

  // --- pod transitions ------------------------------------------------------------

  predicate IsCrash(t: PodTransition) {
    t.kind == Waiting && t.after == CRASH_LOOP
  }

  /** The transitions into CrashLoopBackOff at or after a stored time. */
  function CrashSince(cut: int): Row<PodTransition> -> bool {
    (r: Row<PodTransition>) => IsCrash(r.val) && cut <= r.ts
  }

  function RestartSince(cut: int): Row<PodTransition> -> bool {
    (r: Row<PodTransition>) => r.val.kind == Restart && cut <= r.ts
  }

  function KeyOf(t: PodTransition): string { Key(t.namespace, t.name) }

  function InsertTransitions(s: seq<Row<PodTransition>>, next: int,
      ts: seq<Timed<PodTransition>>): (r: seq<Row<PodTransition>>)
    ensures |r| == |s| + |ts|
    ensures forall i :: 0 <= i < |s| ==> r[i] == s[i]
    ensures forall i :: 0 <= i < |ts| ==> r[|s| + i] == Row(next + i, Ms(ts[i].time), ts[i].val)
  {
    s + seq(|ts|, i requires 0 <= i < |ts| => Row(next + i, Ms(ts[i].time), ts[i].val))
  }

  /** `SELECT key, MIN(ts) ... GROUP BY key` over the crash transitions from `cut` on. */
  function CrashLoops(s: seq<Row<PodTransition>>, cut: int): map<string, int> {
    if s == [] then map[] else
      var x := s[|s| - 1];
      var m := CrashLoops(s[..|s| - 1], cut);
      if CrashSince(cut)(x) then Earliest(m, KeyOf(x.val), x.ts) else m
  }

  function Earliest(m: map<string, int>, k: string, ts: int): (r: map<string, int>)
    ensures r.Keys == m.Keys + {k}
    ensures r[k] <= ts && (r[k] == ts || (k in m && r[k] == m[k])) && (k in m ==> r[k] <= m[k])
    ensures forall x :: x in m && x != k ==> r[x] == m[x]
  {
    m[k := if k in m && m[k] <= ts then m[k] else ts]
  }

  predicate CrashRow(r: Row<PodTransition>, cut: int, k: string) {
    CrashSince(cut)(r) && KeyOf(r.val) == k
  }

  /** Each listed pod has a crash row at the listed time and none earlier in the window; no other pod has one. */
  lemma {:induction false} CrashLoopsAre(s: seq<Row<PodTransition>>, cut: int, k: string)
    ensures k in CrashLoops(s, cut) <==> exists r :: r in s && CrashRow(r, cut, k)
    ensures k in CrashLoops(s, cut) ==> exists r :: r in s && CrashRow(r, cut, k) && r.ts == CrashLoops(s, cut)[k]
    ensures forall r :: r in s && CrashRow(r, cut, k) ==> CrashLoops(s, cut)[k] <= r.ts
  {
    if s != [] {
      var s', x := s[..|s| - 1], s[|s| - 1];
      CrashLoopsAre(s', cut, k);
      assert s == s' + [x];
      assert forall r :: r in s <==> r in s' || r == x;
      assert CrashRow(x, cut, k) || !CrashRow(x, cut, k);
    }
  }

  /** The crash query reads nothing but the crash transitions in its window. */
  lemma {:induction false} CrashLoopsReadsWindow(s: seq<Row<PodTransition>>, cut: int)
    ensures CrashLoops(s, cut) == CrashLoops(Filter(s, CrashSince(cut)), cut)
  {
    if s != [] {
      CrashLoopsReadsWindow(s[..|s| - 1], cut);
      if CrashSince(cut)(s[|s| - 1]) {
        CrashLoopsSnoc(Filter(s[..|s| - 1], CrashSince(cut)), s[|s| - 1], cut);
      }
    }
  }

  lemma CrashLoopsSnoc(s: seq<Row<PodTransition>>, x: Row<PodTransition>, cut: int)
    ensures CrashLoops(s + [x], cut) ==
            if CrashSince(cut)(x) then Earliest(CrashLoops(s, cut), KeyOf(x.val), x.ts) else CrashLoops(s, cut)
  {
    assert (s + [x])[..|s + [x]| - 1] == s;
  }

  // --- pods -------------------------------------------------------------------------

  function PodKey(p: PodState): string { Key(p.namespace, p.name) }

  /** INSERT ... ON CONFLICT DO UPDATE: the clock is kept while phase and waiting reason stay the same. */
  function Upsert(pods: map<string, PodState>, p: PodState, now: int): map<string, PodState> {
    var k := PodKey(p);
    var same := k in pods && pods[k].phase == p.phase && pods[k].waitingReason == p.waitingReason;
    pods[k := p.(since := if same then pods[k].since else Ms(now))]
  }

  // --- snapshots ----------------------------------------------------------------------

  /** `ORDER BY ts DESC, id DESC LIMIT 1` over rows in rowid order. */
  function Newest<T(!new)>(s: seq<Row<T>>): (r: Option<Row<T>>)
    ensures r == None <==> s == []
    ensures r.Some? ==> r.value in s && forall x :: x in s ==> x.ts <= r.value.ts
  {
    if s == [] then None else
      var x := s[|s| - 1];
      var best := Newest(s[..|s| - 1]);
      assert s == s[..|s| - 1] + [x];
      if best == None || best.value.ts <= x.ts then Some(x) else best
  }

  lemma {:induction false} NewestIsLast<T(!new)>(s: seq<Row<T>>, next: int)
    requires Ordered(s, next) && s != []
    ensures forall x :: x in s ==> x == Newest(s).value || Older(x, Newest(s).value)
  {
    if |s| > 1 {
      var s', x := s[..|s| - 1], s[|s| - 1];
      NewestIsLast(s', next);
      assert s == s' + [x];
      assert Newest(s').value in s';
    }
  }

  /** Appending the newest row makes it the newest. */
  lemma NewestSnoc<T(!new)>(s: seq<Row<T>>, x: Row<T>)
    requires forall y :: y in s ==> y.ts <= x.ts
    ensures Newest(s + [x]) == Some(x)
  {
    assert (s + [x])[..|s + [x]| - 1] == s;
  }

  /** The rows of one node and source. */
  function Of(node: string, source: Source): Row<Snapshot> -> bool {
    (r: Row<Snapshot>) => r.val.node == node && r.val.source == source
  }

  function BaselineOf(node: string, source: Source): Row<Snapshot> -> bool {
    (r: Row<Snapshot>) => r.val.node == node && r.val.source == source && r.val.baseline
  }

  function Latest(s: seq<Row<Snapshot>>, node: string, source: Source): Option<Row<Snapshot>> {
    Newest(Filter(s, Of(node, source)))
  }

  function LatestBaseline(s: seq<Row<Snapshot>>, node: string, source: Source): Option<Row<Snapshot>> {
    Newest(Filter(s, BaselineOf(node, source)))
  }

  /** `UPDATE snapshots SET baseline = b WHERE p`. */
  function Flag(s: seq<Row<Snapshot>>, p: Row<Snapshot> -> bool, b: bool): (r: seq<Row<Snapshot>>)
    ensures |r| == |s|
    ensures forall i :: 0 <= i < |s| ==> r[i] == if p(s[i]) then s[i].(val := s[i].val.(baseline := b)) else s[i]
  {
    seq(|s|, i requires 0 <= i < |s| => if p(s[i]) then s[i].(val := s[i].val.(baseline := b)) else s[i])
  }

  function Ids<T(==,!new)>(s: seq<Row<T>>): (r: set<int>)
    ensures forall x :: x in s ==> x.id in r
    ensures forall i :: i in r ==> exists x :: x in s && x.id == i
  {
    set x | x in s :: x.id
  }

  function HasId<T(!new)>(ids: set<int>): Row<T> -> bool {
    (r: Row<T>) => r.id in ids
  }

  /** `ORDER BY ts DESC, id DESC LIMIT keep`, listed oldest first. */
  function NewestRows<T(!new)>(s: seq<Row<T>>, keep: nat): (r: seq<Row<T>>)
    ensures |r| == if |s| < keep then |s| else keep
  {
    var sorted := StableSort(s, ByTs());
    if |s| <= keep then sorted else sorted[|s| - keep..]
  }

  function FlagLatest(s: seq<Row<Snapshot>>, node: string, source: Source): seq<Row<Snapshot>> {
    match Latest(s, node, source)
    case None => s
    case Some(l) => Flag(s, HasId({l.id}), true)
  }

  /** The baselines of a node and source beyond the newest `keep`. */
  function Surplus(s: seq<Row<Snapshot>>, node: string, source: Source, keep: nat): Row<Snapshot> -> bool {
    var kept := Ids(NewestRows(Filter(s, BaselineOf(node, source)), keep));
    (r: Row<Snapshot>) => BaselineOf(node, source)(r) && r.id !in kept
  }

  function Mark(s: seq<Row<Snapshot>>, node: string, source: Source, keep: nat): seq<Row<Snapshot>> {
    var flagged := FlagLatest(s, node, source);
    Flag(flagged, Surplus(flagged, node, source, keep), false)
  }

  function Nodes(s: seq<Row<Snapshot>>): (r: set<string>)
    ensures forall x :: x in s ==> x.val.node in r
    ensures forall n :: n in r ==> exists x :: x in s && x.val.node == n
  {
    set x | x in s :: x.val.node
  }

  // --- changes --------------------------------------------------------------------------

  function InsertChanges(s: seq<Row<Change>>, next: int, cs: seq<Timed<Change>>): (r: seq<Row<Change>>)
    ensures |r| == |s| + |cs|
    ensures forall i :: 0 <= i < |s| ==> r[i] == s[i]
    ensures forall i :: 0 <= i < |cs| ==> r[|s| + i] == Row(next + i, Ms(cs[i].time), cs[i].val)
  {
    s + seq(|cs|, i requires 0 <= i < |cs| => Row(next + i, Ms(cs[i].time), cs[i].val))
  }

  function OnFieldSince(node: string, field: string, cut: int): Row<Change> -> bool {
    (r: Row<Change>) => r.val.node == node && r.val.field == field && cut <= r.ts
  }

  function AlertSince(cut: int): Row<Change> -> bool {
    (r: Row<Change>) => r.val.severity == Alert && cut <= r.ts
  }

  // --- incidents ------------------------------------------------------------------------

  predicate IsOpen(i: Incident) { i.closedAt == None }

  function OpenBy(at: int): Incident -> bool {
    (i: Incident) => IsOpen(i) && i.openedAt <= at
  }

  /** The first row of `ORDER BY opened_ts DESC`. */
  function FirstByOpened(s: seq<Incident>): (r: Option<Incident>)
    ensures r == None <==> s == []
    ensures r.Some? ==> r.value in s && forall i :: i in s ==> i.openedAt <= r.value.openedAt
  {
    if s == [] then None else
      var x := s[|s| - 1];
      var best := FirstByOpened(s[..|s| - 1]);
      assert s == s[..|s| - 1] + [x];
      if best == None || best.value.openedAt < x.openedAt then Some(x) else best
  }

  /** The incident an evaluation at `now` works on. */
  function Current(s: seq<Incident>, now: int): Option<Incident> {
    FirstByOpened(Filter(s, OpenBy(Ms(now))))
  }

  /** `UPDATE incidents SET pods = ? WHERE id = ?`. */
  function SetPods(s: seq<Incident>, id: int, pods: seq<string>): (r: seq<Incident>)
    ensures |r| == |s|
    ensures forall i :: 0 <= i < |s| ==> r[i] == if s[i].id == id then s[i].(pods := pods) else s[i]
  {
    seq(|s|, i requires 0 <= i < |s| => if s[i].id == id then s[i].(pods := pods) else s[i])
  }

  /** `UPDATE incidents SET closed_ts = ? WHERE id = ?`. */
  function SetClosed(s: seq<Incident>, id: int, at: int): (r: seq<Incident>)
    ensures |r| == |s|
    ensures forall i :: 0 <= i < |s| ==> r[i] == if s[i].id == id then s[i].(closedAt := Some(at)) else s[i]
  {
    seq(|s|, i requires 0 <= i < |s| => if s[i].id == id then s[i].(closedAt := Some(at)) else s[i])
  }

  // --- events ---------------------------------------------------------------------------

  function OtherUid(uid: string): Row<Event> -> bool {
    (r: Row<Event>) => r.val.uid != uid
  }

  // --- statements on the whole database ---------------------------------------------------

  /** INSERT OR REPLACE: an event seen before moves to the end of the table. */
  function WithEvent(t: Tables, e: Timed<Event>): Tables {
    t.(events := Filter(t.events, OtherUid(e.val.uid))
                 + [Row(t.next.event, Ms(e.time), e.val.(first := Ms(e.val.first)))],
       next := t.next.(event := t.next.event + 1))
  }

  function WithTransitions(t: Tables, ts: seq<Timed<PodTransition>>): Tables {
    t.(transitions := InsertTransitions(t.transitions, t.next.transition, ts),
       next := t.next.(transition := t.next.transition + |ts|))
  }

  function WithPod(t: Tables, p: PodState, now: int): Tables {
    t.(pods := Upsert(t.pods, p, now))
  }

  function WithoutPod(t: Tables, key: string): Tables {
    t.(pods := t.pods - {key})
  }

  function WithSnapshot(t: Tables, s: Timed<Snapshot>): Tables {
    t.(snapshots := t.snapshots + [Row(t.next.snapshot, Ms(s.time), s.val)],
       next := t.next.(snapshot := t.next.snapshot + 1))
  }

  function WithChanges(t: Tables, cs: seq<Timed<Change>>): Tables {
    t.(changes := InsertChanges(t.changes, t.next.change, cs), next := t.next.(change := t.next.change + |cs|))
  }

  function WithIncident(t: Tables, openedAt: int, pods: seq<string>): Tables {
    t.(incidents := t.incidents + [Incident(t.next.incident, Ms(openedAt), None, pods)],
       next := t.next.(incident := t.next.incident + 1))
  }
}
