/** What a run forgets with a snapshot: runs on which a prune deletes the latest snapshot of a node and an older
    baseline takes its place. */
module ForgottenRuns {
  import opened Sample
  import opened Rows
  import opened Text
  import opened Differ
  import opened Schema
  import opened Retention
  import opened Convert
  import opened Incidents
  import opened Collector
  import opened Api
  import opened Recorder
  import opened SampleLogs
  import opened ArrivalRuns
  import opened LogRuns
  import opened ReplayRuns
  import opened BaselineRuns
  import opened QuietRuns
  import opened MissingRuns

  // --- a node that fell ill and whose illness was pruned ------------------------------------------

  /** Two versions of one node: ready, and not. */
  ghost predicate Illness(healthy: Node, ill: Node) {
    healthy.name == ill.name && ReportsReady(NodeFields(healthy)) && !ReportsReady(NodeFields(ill))
  }

  /** When the second version has left the retention period of snapshots and its changes the stable window. */
  function LongAfter(setup: Setup): int {
    2 * PERIOD + (if setup.keep.snapshots > 0 then setup.keep.snapshots else 0) + setup.cfg.Stable() + MILLI
  }

  /** The first version is marked, the second comes, and is pruned. */
  function Forgetting(setup: Setup, healthy: Node, ill: Node): seq<Step> {
    [Step(0, NodeDelivered(healthy)), Step(PERIOD, Ticked), Step(2 * PERIOD, NodeDelivered(ill)),
     Step(LongAfter(setup), PruneRan)]
  }

  /** The first version, as the baseline it became. */
  function MarkedRow(healthy: Node): Row<Snapshot> { Row(1, 0, NodeSample(healthy).(baseline := true)) }

  /** Nothing on record but these snapshots and changes. */
  ghost predicate OnlySnapshots(t: Tables, snapshots: seq<Row<Snapshot>>, changesAt: int) {
    && t.snapshots == snapshots && t.pods == map[] && t.transitions == []
    && forall r :: r in t.changes ==> r.ts == changesAt
  }

  lemma {:induction false} MarkingKeepsLength(s: seq<Row<Snapshot>>, nodes: seq<string>)
    ensures |MarkNodes(s, nodes)| == |s|
  {
    if nodes != [] { MarkingKeepsLength(s, nodes[..|nodes| - 1]); }
  }

  lemma TickKeepsLength(t: Tables, cfg: Config, now: int)
    ensures var u := TickOf(t, cfg, now);
            && |u.snapshots| == |t.snapshots| && u.changes == t.changes && u.pods == t.pods
            && u.transitions == t.transitions && u.next.snapshot == t.next.snapshot
  {
    hide QuietCluster, MarkNodes, Decide;
    TickLeaves(t, cfg, now);
    MarkingKeepsLength(t.snapshots, SortedKeys(Nodes(t.snapshots)));
  }

  lemma ThenTick(setup: Setup, steps: seq<Step>, now: int)
    ensures Run(setup, steps + [Step(now, Ticked)]) == TickOf(Run(setup, steps), setup.cfg, now)
  {
    hide RunFrom, TickOf, Pruned, PodSeen, PodGone, WithEvent, NodeSeen, Ingested, Capped;
    RunSnoc(EMPTY, setup, steps, Step(now, Ticked));
  }

  /** A ready node's first version becomes a baseline at the next tick. */
  lemma FirstIsMarked(setup: Setup, healthy: Node)
    requires ReportsReady(NodeFields(healthy))
    ensures var t := Run(setup, [Step(0, NodeDelivered(healthy))] + [Step(PERIOD, Ticked)]);
            OnlySnapshots(t, [MarkedRow(healthy)], 0) && t.changes == [] && t.next.snapshot == 2
  {
    hide RunFrom, NodeSample, TickOf, QuietCluster, ReportsReady, NodeFields, Latest, LatestBaseline;
    var first, r := [Step(0, NodeDelivered(healthy))], Row(1, 0, NodeSample(healthy));
    var t := Run(setup, first);
    AfterFirst(setup, healthy);
    OwnRow(healthy);
    ThenTick(setup, first, PERIOD);
    TickKeepsLength(t, setup.cfg, PERIOD);
    QuietWithOne(t, r, Ms(PERIOD - setup.cfg.Stable()));
    OneRow(r);
    TickMarksLatest(setup, first, PERIOD, healthy.name, API);
    BaselineIsThere(TickOf(t, setup.cfg, PERIOD).snapshots, healthy.name, Reflagged(r, true));
  }

  lemma AfterFirst(setup: Setup, n: Node)
    ensures Run(setup, [Step(0, NodeDelivered(n))]) ==
            EMPTY.(snapshots := [Row(1, 0, NodeSample(n))], next := EMPTY.next.(snapshot := 2))
  {
    hide RunFrom, NodeSample, SnapshotSeen;
    assert [] + [Step(0, NodeDelivered(n))] == [Step(0, NodeDelivered(n))];
    ThenNode(setup, [], n, 0);
    NothingRun(setup);
    FirstSeen(NodeSample(n));
  }

  lemma BaselineIsThere(s: seq<Row<Snapshot>>, node: string, r: Row<Snapshot>)
    requires |s| == 1 && LatestBaseline(s, node, API) == Some(r)
    ensures s == [r]
  {
    assert r in Filter(s, BaselineOf(node, API));
    assert r in s;
  }

  /** The second version is stored next to it, with its changes. */
  lemma SecondIsStored(t: Tables, a: Row<Snapshot>, b: Snapshot, now: int)
    requires t.snapshots == [a] && t.changes == [] && t.pods == map[] && t.transitions == []
    requires a.val.node == b.node && a.val.source == b.source && !FieldsEqual(a.val.fields, b.fields)
    ensures OnlySnapshots(SnapshotSeen(t, b, now), [a, Row(t.next.snapshot, Ms(now), b)], Ms(now))
  {
    hide FieldsEqual, Diff;
    OneRow(a);
  }

  /** The prune deletes it, and its place is taken by the first one. */
  lemma PruneForgets(t: Tables, a: Row<Snapshot>, b: Row<Snapshot>, changesAt: int, now: int, keep: Periods)
    requires OnlySnapshots(t, [a, b], changesAt)
    requires a.val.baseline && !b.val.baseline && b.ts < Ms(now - keep.snapshots)
    ensures OnlySnapshots(Pruned(t, now, keep), [a], changesAt)
  {
    var p := SinceOrBaseline(Ms(now - keep.snapshots));
    assert [a, b] == [a] + [b];
    FilterSnoc([a], b, p);
    FilterAll([a], p);
  }

  lemma IllnessDiffers(healthy: Node, ill: Node)
    requires Illness(healthy, ill)
    ensures !FieldsEqual(NodeFields(healthy), NodeFields(ill)) && NodeSample(healthy) != NodeSample(ill)
  {
    hide NodeFields;
    FieldsEqualSameKeys(NodeFields(healthy), NodeFields(ill));
    if FieldsEqual(NodeFields(healthy), NodeFields(ill)) {
      EqualIsEquivalence(NodeFields(ill)[READY], NodeFields(healthy)[READY], Present(JString("True")));
      EqualIsEquivalence(NodeFields(healthy)[READY], NodeFields(ill)[READY], Present(JString("True")));
    }
  }

  lemma LongEnough(setup: Setup)
    requires setup.cfg.Valid()
    ensures var at, now := Ms(2 * PERIOD), LongAfter(setup);
            at < Ms(now - setup.keep.snapshots) && at < Ms(now - setup.cfg.Stable()) && 2 * PERIOD <= now
  {
    MsMonotone(2 * PERIOD + MILLI, LongAfter(setup) - setup.keep.snapshots);
    MsMonotone(2 * PERIOD + MILLI, LongAfter(setup) - setup.cfg.Stable());
  }

  /** The states of that run. */
  lemma Forgotten(setup: Setup, healthy: Node, ill: Node)
    requires setup.cfg.Valid() && Illness(healthy, ill)
    ensures var steps := Forgetting(setup, healthy, ill);
            && OnlySnapshots(Run(setup, steps[..2]), [MarkedRow(healthy)], 0)
            && OnlySnapshots(Run(setup, steps), [MarkedRow(healthy)], Ms(2 * PERIOD))
  {
    hide RunFrom, NodeSample, SnapshotSeen, NodeFields, Pruned, ReportsReady, OnlySnapshots;
    var steps := Forgetting(setup, healthy, ill);
    var second := [Step(0, NodeDelivered(healthy))] + [Step(PERIOD, Ticked)];
    var third := second + [Step(2 * PERIOD, NodeDelivered(ill))];
    assert steps[..2] == second && steps == third + [Step(LongAfter(setup), PruneRan)];
    FirstIsMarked(setup, healthy);
    var t, a, b := Run(setup, second), MarkedRow(healthy), Row(2, Ms(2 * PERIOD), NodeSample(ill));
    OwnRow(healthy);
    OwnRow(ill);
    IllnessDiffers(healthy, ill);
    ThenNode(setup, second, ill, 2 * PERIOD);
    IsOnly(t, [a], 0);
    SecondIsStored(t, a, NodeSample(ill), 2 * PERIOD);
    LongEnough(setup);
    ThenPrune(setup, third, LongAfter(setup));
    PruneForgets(Run(setup, third), a, b, Ms(2 * PERIOD), LongAfter(setup), setup.keep);
  }

  lemma IsOnly(t: Tables, snapshots: seq<Row<Snapshot>>, changesAt: int)
    requires OnlySnapshots(t, snapshots, changesAt)
    ensures t.snapshots == snapshots && t.pods == map[] && t.transitions == []
  {
  }

  /** What has been delivered. */
  lemma BothDelivered(setup: Setup, healthy: Node, ill: Node)
    requires healthy.name == ill.name
    ensures var steps := Forgetting(setup, healthy, ill);
            && Delivered(steps[..2], ill.name) == [Timed(0, NodeSample(healthy))]
            && Delivered(steps, ill.name) == [Timed(0, NodeSample(healthy)), Timed(Ms(2 * PERIOD), NodeSample(ill))]
  {
    hide NodeSample;
    var steps := Forgetting(setup, healthy, ill);
    var first := [steps[0]];
    assert first == [] + first;
    ArrivalsSnoc([], steps[0], ill.name, API);
    ArrivalsSnoc(first, steps[1], ill.name, API);
    assert steps[..2] == first + [steps[1]];
    ArrivalsSnoc(steps[..2], steps[2], ill.name, API);
    assert steps[..3] == steps[..2] + [steps[2]];
    ArrivalsSnoc(steps[..3], steps[3], ill.name, API);
    assert steps == steps[..3] + [steps[3]];
  }

  /** The latest sample stored is then the first version again. */
  lemma StoredIsHealthy(setup: Setup, steps: seq<Step>, healthy: Node, changesAt: int)
    requires OnlySnapshots(Run(setup, steps), [MarkedRow(healthy)], changesAt)
    ensures Latest(Run(setup, steps).snapshots, healthy.name, API) == Some(MarkedRow(healthy))
    ensures StoredLatest(Run(setup, steps), healthy.name, API) == Some(Timed(0, NodeSample(healthy)))
  {
    hide RunFrom, Latest, Samples, NodeFields;
    OwnRow(healthy);
    OneRow(MarkedRow(healthy));
    LatestIsNewestSample(Run(setup, steps).snapshots, healthy.name, API);
  }

  // --- a return that goes unrecorded ----------------------------------------------------------------

  /** Up to the prune everything was compared alike. */
  lemma AlikeUntilThen(setup: Setup, healthy: Node, ill: Node, cut: int)
    requires setup.cfg.Valid() && Illness(healthy, ill)
    ensures StoredAlwaysSaysLast(setup, Forgetting(setup, healthy, ill), ill.name, cut)
  {
    hide RunFrom, NodeSample, OnlySnapshots, Arrivals, Illness, StoredLatest;
    var steps := Forgetting(setup, healthy, ill);
    SameName(healthy, ill);
    Forgotten(setup, healthy, ill);
    BothDelivered(setup, healthy, ill);
    StoredIsHealthy(setup, steps[..2], healthy, 0);
    FirstOfAll(setup, steps, ill.name);
    forall j | 0 <= j < |steps| && Brings(steps[j], ill.name, API).Some?
      ensures StoredSaysLast(setup, steps[..j], ill.name, Brings(steps[j], ill.name, API).value.val)
    {
      assert j == 0 || j == 2;
    }
  }

  lemma SameName(healthy: Node, ill: Node)
    requires Illness(healthy, ill)
    ensures healthy.name == ill.name
  {
  }

  lemma FirstOfAll(setup: Setup, steps: seq<Step>, node: string)
    ensures StoredLatest(Run(setup, steps[..0]), node, API) == None && Delivered(steps[..0], node) == []
  {
    hide Next;
  }

  /** The first version comes back after the second was pruned: it is the one stored, so nothing is recorded. The log
      does not say that the node is well again, and replaying it ends with the illness. */
  lemma ReturnGoesUnrecorded(setup: Setup, healthy: Node, ill: Node) returns (steps: seq<Step>, end: int)
    requires setup.cfg.Valid() && Illness(healthy, ill) && setup.keep.changes >= 0
    ensures end == LongAfter(setup) + PERIOD
    ensures steps == Forgetting(setup, healthy, ill) + [Step(end, NodeDelivered(healthy))]
    ensures LegalBetween(0, steps, end)
    ensures Run(setup, steps) == Run(setup, Forgetting(setup, healthy, ill))
    ensures !Agrees(setup, steps, healthy.name, API, Ms(end - setup.keep.changes))
    ensures !Replays(setup, steps, healthy.name, Ms(end - setup.keep.changes))
  {
    hide RunFrom, NodeSample, OnlySnapshots, Arrivals, Illness, StoredLatest, SnapshotSeen, Forgetting, Agrees, Replays,
        StoredAlwaysSaysLast, LegalBetween, ComparedAlike, AgreesThroughout, ReplaysThroughout, AllComparedAlike;
    var front := Forgetting(setup, healthy, ill);
    end := LongAfter(setup) + PERIOD;
    steps := front + [Step(end, NodeDelivered(healthy))];
    var cut := Ms(end - setup.keep.changes);
    MsMonotone(end - setup.keep.changes, end);
    SameName(healthy, ill);
    ForgettingLegal(setup, healthy, ill, end);
    LegalSnoc(0, front, end, Step(end, NodeDelivered(healthy)));
    Forgotten(setup, healthy, ill);
    StoredIsHealthy(setup, front, healthy, Ms(2 * PERIOD));
    ThenNode(setup, front, healthy, end);
    SkipsStored(Run(setup, front), healthy, end);
    ReturnNotAlike(setup, healthy, ill, end, cut);
    LastStepDisagrees(setup, front, Step(end, NodeDelivered(healthy)), end, healthy.name, cut, healthy, ill);
  }

  lemma ForgettingLegal(setup: Setup, healthy: Node, ill: Node, end: int)
    requires setup.cfg.Valid() && LongAfter(setup) <= end
    ensures LegalBetween(0, Forgetting(setup, healthy, ill), end)
  {
    hide LegalBetween;
    LongEnough(setup);
    PodlessLegal(0, Forgetting(setup, healthy, ill), end);
  }

  lemma SkipsStored(t: Tables, n: Node, now: int)
    requires Latest(t.snapshots, n.name, API) == Some(MarkedRow(n))
    ensures SnapshotSeen(t, NodeSample(n), now) == t
  {
    hide NodeFields, Diff, Latest, FieldsEqual;
    OwnRow(n);
    FieldsEqualIsEquivalence(NodeFields(n), NodeFields(n), NodeFields(n));
  }

  lemma ReturnNotAlike(setup: Setup, healthy: Node, ill: Node, end: int, cut: int)
    requires setup.cfg.Valid() && Illness(healthy, ill) && cut <= Ms(end)
    ensures var front, s := Forgetting(setup, healthy, ill), Step(end, NodeDelivered(healthy));
            && Brings(s, healthy.name, API) == Some(Timed(Ms(end), NodeSample(healthy)))
            && !StoredSaysLast(setup, front, healthy.name, NodeSample(healthy))
            && !Noticed(setup, front, s, healthy.name, cut)
  {
    hide RunFrom, NodeSample, OnlySnapshots, Arrivals, Illness, StoredLatest, Forgetting, Brings, ChangesNoticed,
        StoredSaysLast, Noticed;
    SameName(healthy, ill);
    ReturnBrings(healthy, end);
    Forgotten(setup, healthy, ill);
    BothDelivered(setup, healthy, ill);
    StoredIsHealthy(setup, Forgetting(setup, healthy, ill), healthy, Ms(2 * PERIOD));
    IllnessDiffers(healthy, ill);
    NotNoticed(healthy, ill);
    NotAlike(setup, Forgetting(setup, healthy, ill), Step(end, NodeDelivered(healthy)), healthy.name,
      Timed(0, NodeSample(healthy)), Timed(Ms(2 * PERIOD), NodeSample(ill)), NodeSample(healthy), cut);
  }

  lemma NotAlike(setup: Setup, front: seq<Step>, s: Step, node: string, stored: Timed<Snapshot>, last: Timed<Snapshot>,
      cur: Snapshot, cut: int)
    requires StoredLatest(Run(setup, front), node, API) == Some(stored) && Last(Delivered(front, node)) == Some(last)
    requires Brings(s, node, API).Some? && cut <= Brings(s, node, API).value.time
    requires Brings(s, node, API).value.val == cur && stored.val != last.val
    requires !ChangesNoticed(Some(stored), last.val, cur)
    ensures !StoredSaysLast(setup, front, node, cur) && !Noticed(setup, front, s, node, cut)
  {
    hide RunFrom, StoredLatest, Arrivals, Brings, ChangesNoticed;
  }

  lemma ReturnBrings(n: Node, end: int)
    ensures Brings(Step(end, NodeDelivered(n)), n.name, API) == Some(Timed(Ms(end), NodeSample(n)))
  {
    hide NodeSample;
  }

  lemma NotNoticed(healthy: Node, ill: Node)
    requires Illness(healthy, ill)
    ensures !ChangesNoticed(Some(Timed(0, NodeSample(healthy))), NodeSample(ill), NodeSample(healthy))
  {
    hide NodeFields;
    OwnRow(healthy);
    OwnRow(ill);
    assert READY in NodeFields(healthy);
  }

  /** What a last step that is not compared alike does to a log that agreed and replayed so far. */
  lemma LastStepDisagrees(setup: Setup, front: seq<Step>, s: Step, end: int, node: string, cut: int,
      healthy: Node, ill: Node)
    requires setup.cfg.Valid() && Illness(healthy, ill) && front == Forgetting(setup, healthy, ill)
    requires node == healthy.name && s == Step(end, NodeDelivered(healthy)) && cut <= Ms(end)
    requires LegalBetween(0, front, end) && LegalBetween(0, front + [s], end) && Ms(end - setup.keep.changes) <= cut
    requires Brings(s, node, API) == Some(Timed(Ms(end), NodeSample(healthy)))
    requires !StoredSaysLast(setup, front, node, NodeSample(healthy)) && !Noticed(setup, front, s, node, cut)
    ensures !Agrees(setup, front + [s], node, API, cut) && !Replays(setup, front + [s], node, cut)
  {
    hide RunFrom, NodeSample, Arrivals, Illness, Forgetting, StoredAlwaysSaysLast, LegalBetween, ComparedAlike,
        Written, AgreesThroughout, ReplaysThroughout, AllComparedAlike, StoredSaysLast, Noticed, ReplaysTo, Log, From,
        AllNoticed;
    SameName(healthy, ill);
    AlikeUntilThen(setup, healthy, ill, cut);
    AlikeAgrees(setup, front, end, node, cut);
    LogIsWritten(setup, 0, front, end, node, API, cut);
    LogIsWritten(setup, 0, front + [s], end, node, API, cut);
    DeliveryComparedAlike(setup, 0, front, s, node, cut);
    StepAgrees(setup, front, s, node, API, cut);
    SameReplays(Delivered(front, node), Log(Run(setup, front).changes, node, API),
      Written(setup, front, node, API), cut);
    SameReplays(Delivered(front + [s], node), Log(Run(setup, front + [s]).changes, node, API),
      Written(setup, front + [s], node, API), cut);
    StepReplays(setup, 0, front, s, node, cut);
  }

  lemma AlikeAgrees(setup: Setup, steps: seq<Step>, end: int, node: string, cut: int)
    requires LegalBetween(0, steps, end) && Ms(end - setup.keep.changes) <= cut
    requires StoredAlwaysSaysLast(setup, steps, node, cut)
    ensures Agrees(setup, steps, node, API, cut) && Replays(setup, steps, node, cut)
  {
    hide RunFrom, Arrivals, AgreesThroughout, ReplaysThroughout, AllComparedAlike, Noticed, Agrees, Replays,
        ComparedAlike, Brings, StoredSaysLast;
    forall j | 0 <= j < |steps| ensures ComparedAlike(setup, steps[..j], steps[j], node, API, cut) {
      LegalTo(0, steps, end, j);
      DeliveryComparedAlike(setup, 0, steps[..j], steps[j], node, cut);
    }
    assert AllComparedAlike(setup, steps, node, API, cut) by { AllAlike(setup, steps, node, cut); }
    AgreesExactly(setup, 0, steps, end, node, API, cut);
    AgreesAtEnd(setup, steps, node, API, cut);
    AlwaysNoticed(setup, steps, node, cut);
    ReplaysExactly(setup, 0, steps, end, node, cut);
    ReplaysAtEnd(setup, steps, node, cut);
  }

  lemma AllAlike(setup: Setup, steps: seq<Step>, node: string, cut: int)
    requires forall j :: 0 <= j < |steps| ==> ComparedAlike(setup, steps[..j], steps[j], node, API, cut)
    ensures AllComparedAlike(setup, steps, node, API, cut)
  {
    hide ComparedAlike;
  }

  // --- an illness the guard does not read --------------------------------------------------------------

  /** Instead, an agent's sample comes. */
  function AgentStep(n: Node, now: int, k: string, v: Json): Step {
    Step(now, SamplePosted(OneField(n.name, now, k, Present(v))))
  }

  lemma AgentRow(t: Tables, healthy: Node, changesAt: int, now: int, k: string, v: Json)
    requires OnlySnapshots(t, [MarkedRow(healthy)], changesAt) && healthy.name != "" && now != ZERO_TIME
    ensures var u := Ingested(t, OneField(healthy.name, now, k, Present(v)), now);
            OnlySnapshots(u, [MarkedRow(healthy), Row(t.next.snapshot, Ms(now), OneField(healthy.name, now, k,
              Present(v)).val)], changesAt)
  {
    hide Between, NodeFields, WellFormed, Normalised, OneField;
    OwnRow(healthy);
    OneFieldIsAccepted(healthy.name, now, k, v);
    FilterNone(t.snapshots, Of(healthy.name, Agent));
  }

  lemma OneFieldIsAccepted(node: string, now: int, k: string, v: Json)
    requires node != "" && now != ZERO_TIME
    ensures var x := OneField(node, now, k, Present(v));
            WellFormed(x) && Normalised(x, now) == x && x.time == now && x.val.node == node && x.val.source == Agent
  {
  }

  lemma TwoKinds(a: Row<Snapshot>, b: Row<Snapshot>)
    requires a.val.node == b.val.node && a.val.source == API && b.val.source == Agent
    ensures Latest([a, b], a.val.node, API) == Some(a) && Latest([a, b], a.val.node, Agent) == Some(b)
    ensures Nodes([a, b]) == {a.val.node}
  {
    hide Latest;
    assert [a, b] == [a] + [b];
    OneRow(a);
    LatestOfOther([a], b, a.val.node, API);
    OtherThenOne(a, b);
    assert a in [a, b];
  }

  lemma OtherThenOne(a: Row<Snapshot>, b: Row<Snapshot>)
    requires a.val.source != b.val.source
    ensures Latest([a] + [b], b.val.node, b.val.source) == Some(b)
  {
    FilterSnoc([a], b, Of(b.val.node, b.val.source));
    FilterNone([a], Of(b.val.node, b.val.source));
    NewestSnoc([], b);
    assert [] + [b] == [b];
  }

  lemma QuietThen(t: Tables, a: Row<Snapshot>, b: Row<Snapshot>, changesAt: int, since: int)
    requires OnlySnapshots(t, [a, b], changesAt) && changesAt < since
    requires a.val.node == b.val.node && a.val.source == API && b.val.source == Agent && ReportsReady(a.val.fields)
    ensures QuietCluster(t, since)
  {
    hide Latest, ReportsReady;
    TwoKinds(a, b);
    FilterNone(t.changes, AlertSince(since));
    FilterNone(t.changes, OnFieldSince(a.val.node, READY, since));
  }

  /** Once the version that is not ready has been pruned, the guard reads the older baseline: a tick marks an agent's
      sample of the node, though the last version delivered of it is not ready. */
  lemma IllNodeIsMarked(setup: Setup, healthy: Node, ill: Node, k: string, v: Json) returns (steps: seq<Step>, now: int)
    requires setup.cfg.Valid() && Illness(healthy, ill) && healthy.name != ""
    ensures now == LongAfter(setup)
    ensures steps == Forgetting(setup, healthy, ill) + [AgentStep(healthy, now, k, v)] && LegalBetween(0, steps, now)
    ensures var t := Run(setup, steps);
            && Marks(t, setup.cfg, now, healthy.name, Agent)
            && healthy.name in Nodes(t.snapshots) && Latest(t.snapshots, healthy.name, API) == Some(MarkedRow(healthy))
    ensures Delivered(steps, healthy.name) == [Timed(0, NodeSample(healthy)), Timed(Ms(2 * PERIOD), NodeSample(ill))]
    ensures !ReadyThroughout(Delivered(steps, healthy.name), Ms(now - setup.cfg.Stable()))
  {
    hide RunFrom, NodeSample, OnlySnapshots, Arrivals, Illness, Forgetting, LegalBetween, Ingested, QuietCluster,
        Latest, ReportsReady, Marks, Nodes, ReadyThroughout;
    var front := Forgetting(setup, healthy, ill);
    now := LongAfter(setup);
    steps := front + [AgentStep(healthy, now, k, v)];
    LongEnough(setup);
    ForgettingLegal(setup, healthy, ill, now);
    LegalSnoc(0, front, now, AgentStep(healthy, now, k, v));
    Forgotten(setup, healthy, ill);
    var t, a := Run(setup, front), MarkedRow(healthy);
    var b := Row(t.next.snapshot, Ms(now), OneField(healthy.name, now, k, Present(v)).val);
    AgentRow(t, healthy, Ms(2 * PERIOD), now, k, v);
    ThenPost(setup, front, OneField(healthy.name, now, k, Present(v)), now);
    OwnRow(healthy);
    HealthyIsReady(healthy, ill);
    IsOnly(Run(setup, steps), [a, b], Ms(2 * PERIOD));
    QuietThen(Run(setup, steps), a, b, Ms(2 * PERIOD), Ms(now - setup.cfg.Stable()));
    TwoKinds(a, b);
    MarksExactlyWhenQuiet(setup, steps, now, healthy.name, Agent);
    IllIsLast(setup, healthy, ill, AgentStep(healthy, now, k, v), Ms(now - setup.cfg.Stable()));
  }

  lemma HealthyIsReady(healthy: Node, ill: Node)
    requires Illness(healthy, ill)
    ensures ReportsReady(NodeFields(healthy))
  {
    hide NodeFields, ReportsReady;
  }

  lemma IllIsLast(setup: Setup, healthy: Node, ill: Node, s: Step, cut: int)
    requires Illness(healthy, ill) && s.action.SamplePosted?
    ensures var d := Delivered(Forgetting(setup, healthy, ill) + [s], healthy.name);
            && d == [Timed(0, NodeSample(healthy)), Timed(Ms(2 * PERIOD), NodeSample(ill))]
            && !ReadyThroughout(d, cut)
  {
    hide NodeFields, Forgetting, Arrivals, ReportsReady;
    BothDelivered(setup, healthy, ill);
    ArrivalsSnoc(Forgetting(setup, healthy, ill), s, healthy.name, API);
    OwnRow(ill);
    assert InForceSince([Timed(0, NodeSample(healthy)), Timed(Ms(2 * PERIOD), NodeSample(ill))], 1, cut);
  }

  /** Such nodes exist. */
  lemma AnIllness() returns (healthy: Node, ill: Node)
    ensures Illness(healthy, ill) && healthy.name != ""
  {
    hide NodeFields;
    var info := NodeInfo("", "", "", "", "");
    healthy := Node("n1", [Condition("Ready", "True")], false, info, [], "", [], []);
    ill := healthy.(conditions := [Condition("Ready", "False")]);
    ReadyReads(healthy, "True");
    ReadyReads(ill, "False");
  }
}
