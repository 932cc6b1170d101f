/** Runs on which a snapshot that lacks something becomes a baseline: three ways in which the sample without it was not
    compared, in the stable window, with one that had it. */
module MissingRuns {
  import opened Sample
  import opened Rows
  import opened Text
  import opened Differ
  import opened Schema
  import opened Convert
  import opened Incidents
  import opened Collector
  import opened Api
  import opened Recorder
  import opened Retention
  import opened SampleLogs
  import opened ArrivalRuns
  import opened QuietRuns

  /** A tick makes a snapshot that lacks the field the newest baseline of its group, the alert query being empty: the
      run meets the conditions of QuietRuns.MarksWhileMissingExactly. */
  ghost predicate MarksLacking(setup: Setup, steps: seq<Step>, now: int, node: string, source: Source, k: string) {
    var cut := Ms(now - setup.cfg.Stable());
    && LegalBetween(0, steps, now) && (source == API || source == Agent)
    && OtherwiseQuiet(Run(setup, steps), cut) && LatestLacks(Run(setup, steps), node, source, k)
    && Marks(Run(setup, steps), setup.cfg, now, node, source)
    && (setup.keep.changes >= setup.cfg.Stable() ==>
          NoOtherLoss(setup, steps, node, source, cut, k) && !Lost(setup, steps, node, source, cut, k))
  }

  lemma QuietMarksLacking(setup: Setup, steps: seq<Step>, now: int, node: string, source: Source, k: string)
    requires LegalBetween(0, steps, now) && (source == API || source == Agent)
    requires QuietCluster(Run(setup, steps), Ms(now - setup.cfg.Stable()))
    requires LatestLacks(Run(setup, steps), node, source, k)
    ensures MarksLacking(setup, steps, now, node, source, k)
  {
    hide RunFrom, QuietCluster, OtherwiseQuiet, Marks, LostAt, ChangesCalm, Reads, Latest;
    QuietSplits(Run(setup, steps), Ms(now - setup.cfg.Stable()));
    MarksExactlyWhenQuiet(setup, steps, now, node, source);
    if setup.keep.changes >= setup.cfg.Stable() {
      CalmExactlyWhenNothingLost(setup, 0, steps, now, setup.cfg.Stable());
    }
  }

  // --- a loss that has left the window -------------------------------------------------------

  /** Two ready versions of one node, the second without a field the first has. */
  ghost predicate Loss(whole: Node, lacking: Node, k: string) {
    && whole.name == lacking.name
    && ReportsReady(NodeFields(lacking))
    && Vanishes(NodeFields(whole), NodeFields(lacking), k)
  }

  /** The database after the loss: both versions, and the changes between them, at time zero. */
  lemma AfterLoss(whole: Node, lacking: Node, k: string) returns (t: Tables)
    requires Loss(whole, lacking, k)
    ensures t == NodeSeen(NodeSeen(EMPTY, whole, 0), lacking, 0)
    ensures t.snapshots == [Row(1, 0, NodeSample(whole)), Row(2, 0, NodeSample(lacking))]
    ensures t.changes == InsertChanges([], 1, Stamp(0, Diff(NodeSample(whole), NodeSample(lacking))))
    ensures t.pods == map[] && t.transitions == [] && t.incidents == []
  {
    hide NodeFields, Diff, Vanishes, SnapshotSeen;
    var first, second := NodeSample(whole), NodeSample(lacking);
    FirstSeen(first);
    LossDiffers(NodeFields(whole), NodeFields(lacking), k);
    t := SnapshotSeen(SnapshotSeen(EMPTY, first, 0), second, 0);
    SecondSeen(SnapshotSeen(EMPTY, first, 0), first, second);
  }

  lemma LossDiffers(prev: Fields, cur: Fields, k: string)
    requires Vanishes(prev, cur, k)
    ensures !FieldsEqual(prev, cur)
  {
    FieldsEqualSameKeys(prev, cur);
  }

  lemma FirstSeen(a: Snapshot)
    ensures var t := SnapshotSeen(EMPTY, a, 0);
            t == EMPTY.(snapshots := [Row(1, 0, a)], next := EMPTY.next.(snapshot := 2))
  {
    hide FieldsEqual, Diff;
    FilterNone(EMPTY.snapshots, Of(a.node, a.source));
    assert InsertChanges([], 1, Stamp(0, [])) == [];
  }

  lemma SecondSeen(t: Tables, a: Snapshot, b: Snapshot)
    requires t == EMPTY.(snapshots := [Row(1, 0, a)], next := EMPTY.next.(snapshot := 2))
    requires a.node == b.node && a.source == b.source && !FieldsEqual(a.fields, b.fields)
    ensures var u := SnapshotSeen(t, b, 0);
            && u.snapshots == [Row(1, 0, a), Row(2, 0, b)]
            && u.changes == InsertChanges([], 1, Stamp(0, Diff(a, b)))
            && u.pods == map[] && u.transitions == [] && u.incidents == []
  {
    hide FieldsEqual, Diff;
    OneRow(Row(1, 0, a));
  }

  lemma OneRow(r: Row<Snapshot>)
    ensures Latest([r], r.val.node, r.val.source) == Some(r)
  {
    FilterAll([r], Of(r.val.node, r.val.source));
    NewestSnoc([], r);
    assert [] + [r] == [r];
  }

  lemma OneRowOnly(r: Row<Snapshot>, node: string, source: Source)
    requires !(r.val.node == node && r.val.source == source)
    ensures Latest([r], node, source) == None
  {
    FilterNone([r], Of(node, source));
  }

  lemma LastOfTwo(a: Row<Snapshot>, b: Row<Snapshot>)
    requires a.val.node == b.val.node && a.val.source == b.val.source && a.ts <= b.ts
    ensures Latest([a, b], b.val.node, b.val.source) == Some(b)
    ensures Nodes([a, b]) == {b.val.node}
  {
    FilterAll([a, b], Of(b.val.node, b.val.source));
    NewestSnoc([a], b);
    assert [a] + [b] == [a, b];
    assert a in [a, b];
  }

  lemma AllOlder(cs: seq<Change>, p: Row<Change> -> bool)
    requires forall r: Row<Change> :: r.ts == 0 ==> !p(r)
    ensures Filter(InsertChanges([], 1, Stamp(0, cs)), p) == []
  {
    FilterNone(InsertChanges([], 1, Stamp(0, cs)), p);
  }

  /** With nothing but two versions of one node on record, and all changes between them older than the window, the
      cluster counts as quiet. */
  lemma QuietAfterTwo(t: Tables, a: Row<Snapshot>, b: Row<Snapshot>, cs: seq<Change>, since: int)
    requires t.snapshots == [a, b] && t.changes == InsertChanges([], 1, Stamp(0, cs)) && t.pods == map[] &&
             t.transitions == []
    requires a.val.node == b.val.node && a.val.source == b.val.source == API && a.ts <= b.ts &&
             ReportsReady(b.val.fields)
    requires since > 0
    ensures QuietCluster(t, since)
  {
    hide Latest, ReportsReady;
    LastOfTwo(a, b);
    AllOlder(cs, AlertSince(since));
    AllOlder(cs, OnFieldSince(b.val.node, READY, since));
  }

  lemma QuietAfterLoss(t: Tables, whole: Node, lacking: Node, k: string, since: int)
    requires Loss(whole, lacking, k) && since > 0
    requires t.snapshots == [Row(1, 0, NodeSample(whole)), Row(2, 0, NodeSample(lacking))]
    requires t.changes == InsertChanges([], 1, Stamp(0, Diff(NodeSample(whole), NodeSample(lacking))))
    requires t.pods == map[] && t.transitions == []
    ensures QuietCluster(t, since)
  {
    hide NodeFields, Diff, QuietCluster, ReportsReady, Vanishes;
    QuietAfterTwo(t, t.snapshots[0], t.snapshots[1], Diff(NodeSample(whole), NodeSample(lacking)), since);
  }

  lemma TwoDeliveries(setup: Setup, whole: Node, lacking: Node)
    ensures var steps := [Step(0, NodeDelivered(whole)), Step(0, NodeDelivered(lacking))];
            Run(setup, steps) == NodeSeen(NodeSeen(EMPTY, whole, 0), lacking, 0)
  {
    hide NodeSeen;
    var first := [Step(0, NodeDelivered(whole))];
    RunSnoc(EMPTY, setup, [], Step(0, NodeDelivered(whole)));
    RunSnoc(EMPTY, setup, first, Step(0, NodeDelivered(lacking)));
    assert [] + [Step(0, NodeDelivered(whole))] == first;
    assert first + [Step(0, NodeDelivered(lacking))] ==
      [Step(0, NodeDelivered(whole)), Step(0, NodeDelivered(lacking))];
  }

  /** The guard forgets losses older than the stable window: a snapshot taken while something is still missing becomes
      a baseline once the alert has left the window. */
  lemma OldLossBecomesBaseline(setup: Setup, whole: Node, lacking: Node, k: string) returns (steps: seq<Step>, now: int)
    requires setup.cfg.Valid() && Loss(whole, lacking, k)
    ensures steps == [Step(0, NodeDelivered(whole)), Step(0, NodeDelivered(lacking))]
    ensures MarksLacking(setup, steps, now, lacking.name, API, k)
    ensures exists c :: c in Run(setup, steps).changes && c.val.field == k && c.val.severity == Alert
    ensures Latest(Run(setup, steps).snapshots, lacking.name, API) == Some(Row(2, 0, NodeSample(lacking)))
  {
    hide NodeSeen, QuietCluster, NodeFields, Diff, RunFrom, InsertChanges, Vanishes, ReportsReady, MarksLacking, Latest,
        LegalBetween;
    steps, now := [Step(0, NodeDelivered(whole)), Step(0, NodeDelivered(lacking))], setup.cfg.Stable() + MILLI;
    TwoDeliveries(setup, whole, lacking);
    var t := AfterLoss(whole, lacking, k);
    QuietAfterLoss(t, whole, lacking, k, Ms(MILLI));
    LastOfTwo(t.snapshots[0], t.snapshots[1]);
    LossLacks(whole, lacking, k);
    PodlessLegal(0, steps, now);
    QuietMarksLacking(setup, steps, now, lacking.name, API, k);
    VanishingIsInserted(NodeSample(whole), NodeSample(lacking), k);
  }

  lemma LossLacks(whole: Node, lacking: Node, k: string)
    requires Loss(whole, lacking, k)
    ensures Reads(NodeSample(lacking).fields, k, StateAbsent) && !NodeSample(lacking).baseline
  {
    hide NodeFields, ReportsReady;
  }

  lemma VanishingIsInserted(prev: Snapshot, cur: Snapshot, k: string)
    requires Vanishes(prev.fields, cur.fields, k)
    ensures exists c ::
              c in InsertChanges([], 1, Stamp(0, Diff(prev, cur))) && c.val.field == k && c.val.severity == Alert
  {
    hide Diff, Between, Vanishes;
    var cs := Diff(prev, cur);
    var c := VanishingAlerts(prev, cur, k);
    var i :| 0 <= i < |cs| && cs[i] == c;
    var rows := InsertChanges([], 1, Stamp(0, cs));
    assert rows[i] in rows && rows[i].val == c;
  }

  /** Such nodes exist. */
  lemma ALoss() returns (whole: Node, lacking: Node)
    ensures Loss(whole, lacking, "node.internal_ip")
  {
    hide NodeFields;
    var info := NodeInfo("", "", "", "", "");
    whole := Node("n1", [Condition("Ready", "True")], false, info, [], "", [Address("InternalIP", "10.0.0.1")], []);
    lacking := whole.(addresses := []);
    ReadyReads(lacking, "True");
    AddressOf(whole);
    AddressOf(lacking);
  }

  lemma ReadyReads(n: Node, status: string)
    requires n.conditions == [Condition("Ready", status)] && status != ""
    ensures READY in NodeFields(n) && NodeFields(n)[READY] == Present(JString(status))
  {
    hide InfoFields, SpecFields;
    var f := ConditionFields(n);
    ReadyCondition(n, status);
    var g := Put(f, "node.unschedulable", Present(JBool(n.unschedulable)));
    StillReady(g, n);
    assert NodeFields(n) == SpecFields(InfoFields(g, n.info), n);
  }

  lemma ReadyCondition(n: Node, status: string)
    requires n.conditions == [Condition("Ready", status)] && status != ""
    ensures READY in ConditionFields(n) && ConditionFields(n)[READY] == Present(JString(status))
  {
    assert ConditionMap(n.conditions[..0]) == map[];
    assert READY in CONDITION_FIELDS;
  }

  lemma StillReady(f: Fields, n: Node)
    requires PlainFields(f) && READY in f
    ensures READY in SpecFields(InfoFields(f, n.info), n) && SpecFields(InfoFields(f, n.info), n)[READY] == f[READY]
  {
    hide InfoFields, SpecFields;
    InfoKeepsReady(f, n.info);
    SpecKeepsReady(InfoFields(f, n.info), n);
  }

  lemma InfoKeepsReady(f: Fields, n: NodeInfo)
    requires PlainFields(f) && READY in f
    ensures READY in InfoFields(f, n) && InfoFields(f, n)[READY] == f[READY]
  {
    hide PlainFields;
  }

  lemma SpecKeepsReady(f: Fields, n: Node)
    requires PlainFields(f) && READY in f
    ensures READY in SpecFields(f, n) && SpecFields(f, n)[READY] == f[READY]
  {
    hide Join, TaintTexts, SortStrings, PlainFields;
  }

  lemma AddressOf(n: Node)
    ensures "node.internal_ip" in NodeFields(n)
            && NodeFields(n)["node.internal_ip"] == TextField(InternalIP(n.addresses))
  {
    hide Join, TaintTexts, SortStrings, ConditionFields, InfoFields;
  }

  // --- a loss that was read through a failure ---------------------------------------------------

  /** An agent sample with one field. */
  function OneField(node: string, time: int, k: string, f: Field): Timed<Snapshot> {
    Timed(time, Snapshot(node, Agent, "", 0, "", map[k := f], false))
  }

  /** The field is there, then the read fails, then it is gone: one period apart. */
  function MaskedSample(node: string, k: string, v: Json, i: int): Timed<Snapshot> {
    OneField(node, i * PERIOD, k, if i == 0 then Present(v) else if i == 1 then Unknown("netlink") else Absent())
  }

  function MaskedRow(node: string, k: string, v: Json, i: int): Row<Snapshot> {
    Row(i + 2, Ms(i * PERIOD), MaskedSample(node, k, v, i).val)
  }

  lemma MaskedIsAccepted(node: string, k: string, v: Json, i: int)
    requires node != "" && 0 <= i <= 2
    ensures WellFormed(MaskedSample(node, k, v, i))
            && Normalised(MaskedSample(node, k, v, i), i * PERIOD) == MaskedSample(node, k, v, i)
  {
  }

  lemma LatestAppended(s: seq<Row<Snapshot>>, r: Row<Snapshot>)
    requires forall x :: x in s ==> x.ts <= r.ts
    ensures Latest(s + [r], r.val.node, r.val.source) == Some(r)
  {
    FilterSnoc(s, r, Of(r.val.node, r.val.source));
    NewestSnoc(Filter(s, Of(r.val.node, r.val.source)), r);
  }

  lemma LatestOfOther(s: seq<Row<Snapshot>>, r: Row<Snapshot>, node: string, source: Source)
    requires !(r.val.node == node && r.val.source == source)
    ensures Latest(s + [r], node, source) == Latest(s, node, source)
  {
    FilterSnoc(s, r, Of(node, source));
  }

  /** What a failed read hides: present to unknown is only degraded, and unknown to absent is nothing. */
  lemma MaskedChanges(node: string, k: string, v: Json)
    ensures forall c :: c in Between(MaskedSample(node, k, v, 0).val, MaskedSample(node, k, v, 1).val) ==>
            c.field == k && c.severity == Degraded
    ensures Between(MaskedSample(node, k, v, 1).val, MaskedSample(node, k, v, 2).val) == []
  {
    hide Diff;
    var a, b, c := MaskedSample(node, k, v, 0).val, MaskedSample(node, k, v, 1).val, MaskedSample(node, k, v, 2).val;
    forall x | x in Between(a, b) ensures x.field == k && x.severity == Degraded { DiffMembers(a, b, x); }
    if Diff(b, c) != [] { DiffMembers(b, c, Diff(b, c)[0]); }
  }

  /** The node's own row, and then those of the first `n` samples. */
  function MaskedRows(first: Row<Snapshot>, k: string, v: Json, n: nat): seq<Row<Snapshot>> {
    if n == 0 then [first] else MaskedRows(first, k, v, n - 1) + [MaskedRow(first.val.node, k, v, n - 1)]
  }

  ghost predicate MaskedState(t: Tables, first: Row<Snapshot>, k: string, v: Json, n: nat) {
    && t.snapshots == MaskedRows(first, k, v, n) && t.next.snapshot == n + 2
    && (forall r :: r in t.changes ==> r.val.field == k && r.val.severity == Degraded)
    && t.pods == map[] && t.transitions == [] && t.incidents == []
  }

  lemma {:induction false} MaskedLatest(first: Row<Snapshot>, k: string, v: Json, n: nat)
    requires first.ts == 0 && first.val.source == API
    ensures var s, node := MaskedRows(first, k, v, n), first.val.node;
            && Latest(s, node, API) == Some(first)
            && Latest(s, node, Agent) == (if n == 0 then None else Some(MaskedRow(node, k, v, n - 1)))
            && (forall r :: r in s ==> r.val.node == node && r.ts <= Ms(n * PERIOD))
  {
    hide Latest, MaskedSample;
    var node := first.val.node;
    if n == 0 {
      OneRow(first);
      OneRowOnly(first, node, Agent);
    } else {
      var front, r := MaskedRows(first, k, v, n - 1), MaskedRow(node, k, v, n - 1);
      MaskedLatest(first, k, v, n - 1);
      MsMonotone((n - 1) * PERIOD, n * PERIOD);
      NextMaskedRow(first, k, v, n - 1);
      LatestAppended(front, r);
      LatestOfOther(front, r, node, API);
    }
  }

  lemma MaskedNode(first: Row<Snapshot>, k: string, v: Json, n: nat)
    requires first.ts == 0 && first.val.source == API
    ensures Nodes(MaskedRows(first, k, v, n)) == {first.val.node}
  {
    hide Latest, MaskedSample, MaskedRows;
    var s := MaskedRows(first, k, v, n);
    MaskedLatest(first, k, v, n);
    FirstMaskedRow(first, k, v, n);
    assert first in s;
  }

  lemma {:induction false} FirstMaskedRow(first: Row<Snapshot>, k: string, v: Json, n: nat)
    ensures first in MaskedRows(first, k, v, n)
  {
    if n > 0 { FirstMaskedRow(first, k, v, n - 1); }
  }

  lemma MaskedStep(t: Tables, first: Row<Snapshot>, k: string, v: Json, n: nat)
    requires n <= 2 && MaskedState(t, first, k, v, n) && first.val.node != "" && first.ts == 0 &&
             first.val.source == API
    ensures MaskedState(Ingested(t, MaskedSample(first.val.node, k, v, n), n * PERIOD), first, k, v, n + 1)
  {
    hide Between, Latest, WellFormed, Normalised, MaskedRows, MaskedSample;
    var s := MaskedSample(first.val.node, k, v, n);
    MaskedIsAccepted(first.val.node, k, v, n);
    MaskedLatest(first, k, v, n);
    MaskedFollows(first.val.node, k, v, n);
    var cs := ChangesFrom(Latest(t.snapshots, first.val.node, Agent), s.val);
    DegradedStored(t, s, cs, k);
    NextMaskedRow(first, k, v, n);
  }

  lemma NextMaskedRow(first: Row<Snapshot>, k: string, v: Json, n: nat)
    ensures MaskedRows(first, k, v, n + 1) ==
            MaskedRows(first, k, v, n) + [Row(n + 2, Ms(MaskedSample(first.val.node, k, v, n).time),
              MaskedSample(first.val.node, k, v, n).val)]
    ensures MaskedSample(first.val.node, k, v, n).val.node == first.val.node
    ensures MaskedSample(first.val.node, k, v, n).val.source == Agent
  {
  }

  lemma MaskedFollows(node: string, k: string, v: Json, n: nat)
    requires n <= 2
    ensures MaskedSample(node, k, v, n).val.node == node && MaskedSample(node, k, v, n).val.source == Agent
    ensures forall c ::
              c in ChangesFrom(if n == 0 then None else Some(MaskedRow(node, k, v, n - 1)),
                     MaskedSample(node, k, v, n).val) ==>
              c.field == k && c.severity == Degraded
  {
    hide Between;
    MaskedChanges(node, k, v);
  }

  lemma DegradedStored(t: Tables, s: Timed<Snapshot>, cs: seq<Change>, k: string)
    requires forall r :: r in t.changes ==> r.val.field == k && r.val.severity == Degraded
    requires forall c :: c in cs ==> c.field == k && c.severity == Degraded
    ensures var u := Stored(t, s, cs);
            && (forall r :: r in u.changes ==> r.val.field == k && r.val.severity == Degraded)
            && u.snapshots == t.snapshots + [Row(t.next.snapshot, Ms(s.time), s.val)]
            && u.next.snapshot == t.next.snapshot + 1
            && u.pods == t.pods && u.transitions == t.transitions && u.incidents == t.incidents
  {
    StoredRows(t, s, cs);
    var rows := RowsFor(t.next.change, s.time, cs);
    forall r | r in rows ensures r.val.field == k && r.val.severity == Degraded {
      var j :| 0 <= j < |rows| && rows[j] == r;
      assert cs[j] in cs;
    }
  }

  lemma QuietWhenMasked(t: Tables, first: Row<Snapshot>, k: string, v: Json, since: int)
    requires MaskedState(t, first, k, v, 3) && first.ts == 0 && first.val.source == API
    requires ReportsReady(first.val.fields) && k != READY
    ensures QuietCluster(t, since)
  {
    hide Latest, ReportsReady, MaskedRows;
    MaskedLatest(first, k, v, 3);
    MaskedNode(first, k, v, 3);
    NextMaskedRow(first, k, v, 2);
    FilterNone(t.changes, AlertSince(since));
    FilterNone(t.changes, OnFieldSince(first.val.node, READY, since));
  }

  function MaskedPost(node: string, k: string, v: Json, i: int): Step {
    Step(i * PERIOD, SamplePosted(MaskedSample(node, k, v, i)))
  }

  lemma MaskedRun(setup: Setup, node: Node, k: string, v: Json) returns (steps: seq<Step>)
    requires node.name != ""
    ensures steps == [Step(0, NodeDelivered(node)), MaskedPost(node.name, k, v, 0), MaskedPost(node.name, k, v, 1),
            MaskedPost(node.name, k, v, 2)]
    ensures MaskedState(Run(setup, steps), Row(1, 0, NodeSample(node)), k, v, 3)
  {
    hide NodeSeen, Ingested, MaskedState, RunFrom, NodeFields, MaskedSample, Next;
    var first := Row(1, 0, NodeSample(node));
    steps := [Step(0, NodeDelivered(node))];
    NodeFirst(setup, node, k, v);
    for i := 0 to 3
      invariant |steps| == i + 1 && steps[0] == Step(0, NodeDelivered(node))
      invariant forall j :: 0 <= j < i ==> steps[j + 1] == MaskedPost(node.name, k, v, j)
      invariant MaskedState(Run(setup, steps), first, k, v, i)
    {
      MaskedStep(Run(setup, steps), first, k, v, i);
      ThenPost(setup, steps, MaskedSample(node.name, k, v, i), i * PERIOD);
      steps := steps + [MaskedPost(node.name, k, v, i)];
    }
  }

  lemma ThenPost(setup: Setup, steps: seq<Step>, sample: Timed<Snapshot>, now: int)
    ensures Run(setup, steps + [Step(now, SamplePosted(sample))]) == Ingested(Run(setup, steps), sample, now)
  {
    hide RunFrom, Ingested, Pruned, PodSeen, PodGone, WithEvent, NodeSeen, TickOf, Capped;
    RunSnoc(EMPTY, setup, steps, Step(now, SamplePosted(sample)));
  }

  lemma NodeFirst(setup: Setup, node: Node, k: string, v: Json)
    ensures MaskedState(Run(setup, [Step(0, NodeDelivered(node))]), Row(1, 0, NodeSample(node)), k, v, 0)
  {
    hide RunFrom, NodeFields, SnapshotSeen;
    FirstSeen(NodeSample(node));
    NothingRun(setup);
    ThenNode(setup, [], node, 0);
    assert [] + [Step(0, NodeDelivered(node))] == [Step(0, NodeDelivered(node))];
  }

  /** A fresh loss read through a failure: an agent sees a field, fails to read, and then finds the field gone, all
      within the stable window. No alert is recorded, and the very next tick makes the sample that lacks the field the
      node's newest baseline. */
  lemma MaskedLossBecomesBaseline(setup: Setup, node: Node, k: string, v: Json) returns (steps: seq<Step>, now: int)
    requires setup.cfg.Valid() && node.name != "" && ReportsReady(NodeFields(node)) && k != READY
    ensures steps == [Step(0, NodeDelivered(node)), MaskedPost(node.name, k, v, 0), MaskedPost(node.name, k, v, 1),
            MaskedPost(node.name, k, v, 2)]
    ensures now == 2 * PERIOD && Ms(now - setup.cfg.Stable()) <= 0
    ensures MarksLacking(setup, steps, now, node.name, Agent, k)
    ensures Latest(Run(setup, steps).snapshots, node.name, Agent) == Some(MaskedRow(node.name, k, v, 2))
  {
    hide RunFrom, MaskedState, NodeFields, ReportsReady, MaskedRows, Latest, QuietCluster, NodeSample, MaskedRow,
        MarksLacking, LegalBetween;
    now := 2 * PERIOD;
    steps := MaskedRun(setup, node, k, v);
    var t, first := Run(setup, steps), Row(1, 0, NodeSample(node));
    MsMonotone(now - setup.cfg.Stable(), 0);
    OwnRow(node);
    QuietWhenMasked(t, first, k, v, Ms(now - setup.cfg.Stable()));
    MaskedEnd(t, first, k, v);
    MaskedLatest(first, k, v, 3);
    LastMaskedRow(node.name, k, v);
    MaskedLegal(node, k, v);
    QuietMarksLacking(setup, steps, now, node.name, Agent, k);
  }

  lemma MaskedLegal(node: Node, k: string, v: Json)
    ensures LegalBetween(0, [Step(0, NodeDelivered(node)), MaskedPost(node.name, k, v, 0),
              MaskedPost(node.name, k, v, 1), MaskedPost(node.name, k, v, 2)], 2 * PERIOD)
  {
    hide LegalBetween, MaskedSample;
    PodlessLegal(0, [Step(0, NodeDelivered(node)), MaskedPost(node.name, k, v, 0), MaskedPost(node.name, k, v, 1),
      MaskedPost(node.name, k, v, 2)], 2 * PERIOD);
  }

  lemma LastMaskedRow(node: string, k: string, v: Json)
    ensures !MaskedRow(node, k, v, 2).val.baseline && Reads(MaskedRow(node, k, v, 2).val.fields, k, StateAbsent)
  {
  }

  lemma OwnRow(n: Node)
    ensures NodeSample(n).node == n.name && NodeSample(n).source == API && NodeSample(n).fields == NodeFields(n)
    ensures !NodeSample(n).baseline
  {
    hide NodeFields;
  }

  lemma MaskedEnd(t: Tables, first: Row<Snapshot>, k: string, v: Json)
    requires MaskedState(t, first, k, v, 3)
    ensures t.snapshots == MaskedRows(first, k, v, 3)
  {
  }

  // --- a loss against a sample that was pruned -----------------------------------------------------

  /** When the sample that had the field has been pruned by then, the one that lacks it is compared with nothing: no
      alert is recorded, and the next tick makes it a baseline. */
  lemma PrunedLossBecomesBaseline(setup: Setup, whole: Node, lacking: Node, k: string)
    returns (steps: seq<Step>, now: int)
    requires setup.cfg.Valid() && Loss(whole, lacking, k)
    ensures steps == PrunedSteps(whole, lacking, now)
    ensures Delivered(steps, lacking.name) == [Timed(0, NodeSample(whole)), Timed(Ms(now), NodeSample(lacking))]
    ensures MarksLacking(setup, steps, now, lacking.name, API, k)
    ensures Run(setup, steps).changes == []
    ensures Latest(Run(setup, steps).snapshots, lacking.name, API) == Some(Row(2, Ms(now), NodeSample(lacking)))
  {
    hide NodeSample, QuietCluster, NodeFields, RunFrom, Vanishes, ReportsReady, MarksLacking, Latest, Reads, Arrivals,
        LegalBetween, PrunedSteps;
    now := (if setup.keep.snapshots > 0 then setup.keep.snapshots else 0) + MILLI;
    steps := PrunedSteps(whole, lacking, now);
    MsMonotone(MILLI, now - setup.keep.snapshots);
    PrunedThen(setup, whole, lacking, now);
    OwnRow(lacking);
    OneRow(Row(2, Ms(now), NodeSample(lacking)));
    QuietWithOne(Run(setup, steps), Row(2, Ms(now), NodeSample(lacking)), Ms(now - setup.cfg.Stable()));
    LossLacks(whole, lacking, k);
    PrunedLegal(whole, lacking, now);
    QuietMarksLacking(setup, steps, now, lacking.name, API, k);
    TwoArrivals(whole, lacking, now);
  }

  /** One version, a prune, and the next version. */
  function PrunedSteps(whole: Node, lacking: Node, now: int): seq<Step> {
    [Step(0, NodeDelivered(whole)), Step(now, PruneRan), Step(now, NodeDelivered(lacking))]
  }

  lemma PrunedLegal(whole: Node, lacking: Node, now: int)
    requires now >= 0
    ensures LegalBetween(0, PrunedSteps(whole, lacking, now), now)
  {
    hide LegalBetween;
    PodlessLegal(0, PrunedSteps(whole, lacking, now), now);
  }

  lemma PrunedThen(setup: Setup, whole: Node, lacking: Node, now: int)
    requires Ms(now - setup.keep.snapshots) > 0
    ensures var t := Run(setup, PrunedSteps(whole, lacking, now));
            && t.snapshots == [Row(2, Ms(now), NodeSample(lacking))] && t.changes == []
            && t.pods == map[] && t.transitions == []
  {
    hide RunFrom, NodeSample, SnapshotSeen;
    var second := [Step(0, NodeDelivered(whole))] + [Step(now, PruneRan)];
    assert PrunedSteps(whole, lacking, now) == second + [Step(now, NodeDelivered(lacking))];
    AfterPrune(setup, whole, now);
    ThenNode(setup, second, lacking, now);
    FirstRow(Run(setup, second), NodeSample(lacking), now);
  }

  /** A run without pods is legal along its clock. */
  lemma PodlessLegal(start: int, steps: seq<Step>, end: int)
    requires forall i :: 0 <= i < |steps| ==> !steps[i].action.PodDelivered? && start <= steps[i].now <= end
    requires forall i, j :: 0 <= i < j < |steps| ==> steps[i].now <= steps[j].now
    requires start <= end
    ensures LegalBetween(start, steps, end)
  {
    hide MayReport;
  }

  lemma TwoArrivals(whole: Node, lacking: Node, now: int)
    requires whole.name == lacking.name
    ensures Delivered(PrunedSteps(whole, lacking, now), lacking.name) ==
            [Timed(0, NodeSample(whole)), Timed(Ms(now), NodeSample(lacking))]
  {
    hide NodeSample;
    var first := [Step(0, NodeDelivered(whole))];
    var second := first + [Step(now, PruneRan)];
    assert first == [] + first;
    ArrivalsSnoc([], first[0], lacking.name, API);
    ArrivalsSnoc(first, Step(now, PruneRan), lacking.name, API);
    ArrivalsSnoc(second, Step(now, NodeDelivered(lacking)), lacking.name, API);
    assert second + [Step(now, NodeDelivered(lacking))] == PrunedSteps(whole, lacking, now);
  }

  lemma ThenNode(setup: Setup, steps: seq<Step>, n: Node, now: int)
    ensures Run(setup, steps + [Step(now, NodeDelivered(n))]) == SnapshotSeen(Run(setup, steps), NodeSample(n), now)
  {
    hide RunFrom, SnapshotSeen, NodeSample, Pruned, PodSeen, PodGone, WithEvent, Ingested, TickOf, Capped;
    RunSnoc(EMPTY, setup, steps, Step(now, NodeDelivered(n)));
  }

  lemma ThenPrune(setup: Setup, steps: seq<Step>, now: int)
    ensures Run(setup, steps + [Step(now, PruneRan)]) == Pruned(Run(setup, steps), now, setup.keep)
  {
    hide RunFrom, Pruned, PodSeen, PodGone, WithEvent, NodeSeen, Ingested, TickOf, Capped;
    RunSnoc(EMPTY, setup, steps, Step(now, PruneRan));
  }

  /** The first version of a node, pruned before another comes. */
  lemma AfterPrune(setup: Setup, n: Node, now: int)
    requires Ms(now - setup.keep.snapshots) > 0
    ensures var t := Run(setup, [Step(0, NodeDelivered(n))] + [Step(now, PruneRan)]);
            && t.snapshots == [] && t.changes == [] && t.pods == map[] && t.transitions == []
            && t.next.snapshot == 2
  {
    hide RunFrom, NodeSample, SnapshotSeen, Pruned;
    var first := [Step(0, NodeDelivered(n))];
    assert [] + first == first;
    ThenNode(setup, [], n, 0);
    NothingRun(setup);
    FirstSeen(NodeSample(n));
    ThenPrune(setup, first, now);
    OwnRow(n);
    PrunesOne(Run(setup, first), Row(1, 0, NodeSample(n)), now, setup.keep);
  }

  lemma PrunesOne(t: Tables, r: Row<Snapshot>, now: int, keep: Periods)
    requires t.snapshots == [r] && t.changes == [] && t.pods == map[] && t.transitions == []
    requires !r.val.baseline && r.ts < Ms(now - keep.snapshots)
    ensures var u := Pruned(t, now, keep);
            u.snapshots == [] && u.changes == [] && u.pods == map[] && u.transitions == [] && u.next == t.next
  {
    FilterNone([r], SinceOrBaseline(Ms(now - keep.snapshots)));
  }

  lemma NothingRun(setup: Setup)
    ensures Run(setup, []) == EMPTY
  {
    hide Next;
  }

  lemma FirstRow(t: Tables, a: Snapshot, now: int)
    requires t.snapshots == [] && t.changes == [] && t.pods == map[] && t.transitions == []
    ensures var u := SnapshotSeen(t, a, now);
            && u.snapshots == [Row(t.next.snapshot, Ms(now), a)] && u.changes == []
            && u.pods == map[] && u.transitions == []
  {
    hide FieldsEqual, Diff;
    FilterNone(t.snapshots, Of(a.node, a.source));
  }

  lemma QuietWithOne(t: Tables, r: Row<Snapshot>, since: int)
    requires t.snapshots == [r] && t.changes == [] && t.pods == map[] && t.transitions == []
    requires r.val.source == API && ReportsReady(r.val.fields)
    ensures QuietCluster(t, since)
  {
    hide Latest, ReportsReady;
    OneRow(r);
    assert Nodes([r]) == {r.val.node} by { assert r in [r]; }
  }
}
