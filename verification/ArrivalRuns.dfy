/** What reaches the store for one node and source, and what every arrival leaves in the change log: in every run,
    whatever is deleted, its comparison with the snapshot that was the latest one stored when it came. */
module ArrivalRuns {
  import opened Sample
  import opened Rows
  import opened Text
  import opened Differ
  import opened Schema
  import opened Retention
  import opened Convert
  import opened Incidents
  import opened Collector
  import opened Api
  import opened Recorder
  import opened PruneRuns
  import opened SampleLogs

  // --- arrivals ----------------------------------------------------------------------------

  predicate Accepted(sample: Timed<Snapshot>, now: int, node: string) {
    WellFormed(Normalised(sample, now)) && sample.val.node == node
  }

  /** A sample with the time it is stored under. */
  function AsStored(s: Timed<Snapshot>): Timed<Snapshot> { Timed(Ms(s.time), s.val) }

  /** The sample a step brings for a node and source: a delivered version of the node, as the collector samples it, or a
      well-formed post. */
  ghost function Brings(s: Step, node: string, source: Source): Option<Timed<Snapshot>> {
    match s.action
    case NodeDelivered(n) =>
      if source == API && n.name == node then Some(Timed(Ms(s.now), NodeSample(n))) else None
    case SamplePosted(sample) =>
      if source == Agent && Accepted(sample, s.now, node) then Some(AsStored(Normalised(sample, s.now))) else None
    case _ => None
  }

  /** Everything that has come for a node and source, in order. */
  ghost function Arrivals(steps: seq<Step>, node: string, source: Source): seq<Timed<Snapshot>> {
    if steps == [] then [] else
      var front := Arrivals(steps[..|steps| - 1], node, source);
      match Brings(steps[|steps| - 1], node, source) case None => front case Some(x) => front + [x]
  }

  ghost function Delivered(steps: seq<Step>, node: string): seq<Timed<Snapshot>> { Arrivals(steps, node, API) }

  ghost function Posted(steps: seq<Step>, node: string): seq<Timed<Snapshot>> { Arrivals(steps, node, Agent) }

  lemma ArrivalsSnoc(steps: seq<Step>, s: Step, node: string, source: Source)
    ensures Arrivals(steps + [s], node, source) ==
            match Brings(s, node, source)
            case None => Arrivals(steps, node, source)
            case Some(x) => Arrivals(steps, node, source) + [x]
  {
    assert (steps + [s])[..|steps + [s]| - 1] == steps;
  }

  // --- samples of the collector's own making ---------------------------------------------------

  const NODE_KEYS := CONDITION_FIELDS.Keys + {"node.unschedulable"} + INFO_KEYS + SPEC_KEYS

  /** A sample of the collector's own making. */
  ghost predicate Own(s: Snapshot, node: string) {
    && s == Snapshot(node, API, "", 0, "", s.fields, false)
    && PlainFields(s.fields) && s.fields.Keys == NODE_KEYS
  }

  lemma NodeSampleIsOwn(n: Node)
    ensures Own(NodeSample(n), n.name)
  {
  }

  lemma OwnSamplesCompare(a: Snapshot, b: Snapshot, node: string)
    requires Own(a, node) && Own(b, node)
    ensures FieldsEqual(a.fields, b.fields) <==> a == b
    ensures Between(a, b) == Diff(a, b)
  {
    PlainFieldsEqual(a.fields, b.fields);
  }

  ghost predicate AllOwn(s: seq<Timed<Snapshot>>, node: string) {
    forall i :: 0 <= i < |s| ==> Own(s[i].val, node)
  }

  // --- one step, seen by one group -----------------------------------------------------

  /** The stored samples and the change log of one node and source. */
  datatype Group = Group(samples: seq<Timed<Snapshot>>, log: seq<Timed<Change>>)

  function GroupOf(t: Tables, node: string, source: Source): Group {
    Group(Samples(t.snapshots, node, source), Log(t.changes, node, source))
  }

  /** The latest stored sample of a node and source. */
  function StoredLatest(t: Tables, node: string, source: Source): Option<Timed<Snapshot>> {
    NewestSample(Samples(t.snapshots, node, source))
  }

  /** The change records a sample leaves: none for a first one, else the comparison with the latest. */
  ghost function Following(latest: Option<Timed<Snapshot>>, cur: Snapshot): seq<Change> {
    match latest case None => [] case Some(p) => Between(p.val, cur)
  }

  /** One more sample, and the change records that follow. */
  ghost function Extended(g: Group, x: Timed<Snapshot>): Group {
    Group(g.samples + [x], g.log + Stamp(x.time, Following(NewestSample(g.samples), x.val)))
  }

  predicate Repeats(samples: seq<Timed<Snapshot>>, cur: Snapshot) {
    NewestSample(samples).Some? && NewestSample(samples).value.val == cur
  }

  lemma FollowsLatest(s: seq<Row<Snapshot>>, cur: Snapshot)
    ensures var latest := Latest(s, cur.node, cur.source);
            && ChangesFrom(latest, cur) == Following(NewestSample(Samples(s, cur.node, cur.source)), cur)
            && AllConcern(ChangesFrom(latest, cur), cur.node, cur.source)
  {
    hide Between;
    var latest := Latest(s, cur.node, cur.source);
    LatestIsNewestSample(s, cur.node, cur.source);
    if latest.Some? {
      BetweenIgnoresFlag(latest.value.val, cur);
      BetweenConcerns(latest.value.val, cur);
    }
  }

  /** Recording a sample extends its group and leaves every other one alone. */
  lemma RecordedExtends(t: Tables, s: Timed<Snapshot>, node: string, source: Source)
    requires !s.val.baseline
    ensures GroupOf(Recorded(t, s), node, source) ==
            if s.val.node == node && s.val.source == source then Extended(GroupOf(t, node, source), AsStored(s))
              else GroupOf(t, node, source)
  {
    hide Stored, ChangesFrom, Following;
    FollowsLatest(t.snapshots, s.val);
    var cs := ChangesFrom(Latest(t.snapshots, s.val.node, s.val.source), s.val);
    if s.val.node == node && s.val.source == source {
      StoredOwn(t, s, cs);
    } else {
      StoredElsewhere(t, s, cs, node, source);
    }
  }

  /** Skipping equal fields is skipping repetitions. */
  lemma SeenIsRecorded(t: Tables, snap: Snapshot, now: int)
    requires Own(snap, snap.node)
    requires var newest := NewestSample(Samples(t.snapshots, snap.node, API));
             newest.Some? ==> Own(newest.value.val, snap.node)
    ensures SnapshotSeen(t, snap, now) ==
            if Repeats(Samples(t.snapshots, snap.node, API), snap) then t else Recorded(t, Timed(now, snap))
  {
    hide Diff, DiffOver;
    var latest := Latest(t.snapshots, snap.node, API);
    LatestIsNewestSample(t.snapshots, snap.node, API);
    if latest.Some? {
      OwnSamplesCompare(Content(latest.value.val), snap, snap.node);
      BetweenIgnoresFlag(latest.value.val, snap);
    }
  }

  lemma EventKeepsGroups(t: Tables, e: Timed<Event>, node: string, source: Source)
    ensures GroupOf(WithEvent(t, e), node, source) == GroupOf(t, node, source)
  {
  }

  lemma TickKeepsGroups(t: Tables, cfg: Config, now: int, node: string, source: Source)
    ensures GroupOf(TickOf(t, cfg, now), node, source) == GroupOf(t, node, source)
  {
    TickLeaves(t, cfg, now);
    MarkNodesKeepsSamples(t.snapshots, SortedKeys(Nodes(t.snapshots)), node, source);
  }

  /** A node's sample is recorded unless it repeats the latest one; other groups are left alone in any case. */
  lemma SnapshotSeenExtends(t: Tables, snap: Snapshot, now: int, node: string, source: Source)
    requires Own(snap, snap.node)
    requires snap.node == node && source == API ==> LatestIsOwn(t, node)
    ensures GroupOf(SnapshotSeen(t, snap, now), node, source) ==
            if snap.node == node && source == API && !Repeats(Samples(t.snapshots, node, API), snap)
            then Extended(GroupOf(t, node, source), Timed(Ms(now), snap)) else GroupOf(t, node, source)
  {
    hide Recorded, Extended, GroupOf, Repeats;
    if snap.node == node && source == API {
      SeenIsRecorded(t, snap, now);
      RecordedExtends(t, Timed(now, snap), node, source);
    } else {
      SeenElsewhere(t, snap, now, node, source);
    }
  }

  lemma SeenElsewhere(t: Tables, snap: Snapshot, now: int, node: string, source: Source)
    requires !(snap.node == node && snap.source == source)
    ensures GroupOf(SnapshotSeen(t, snap, now), node, source) == GroupOf(t, node, source)
  {
    hide Stored, FieldsEqual, Diff, GroupOf;
    var latest := Latest(t.snapshots, snap.node, snap.source);
    ElsewhereKept(t, Timed(now, snap), [], node, source);
    if latest.Some? {
      DiffIsOwn(latest.value.val, snap);
      ElsewhereKept(t, Timed(now, snap), Diff(latest.value.val, snap), node, source);
    }
  }

  lemma ElsewhereKept(t: Tables, s: Timed<Snapshot>, cs: seq<Change>, node: string, source: Source)
    requires AllConcern(cs, s.val.node, s.val.source) && !(s.val.node == node && s.val.source == source)
    ensures GroupOf(Stored(t, s, cs), node, source) == GroupOf(t, node, source)
  {
    hide Stored;
    StoredElsewhere(t, s, cs, node, source);
  }

  lemma DiffIsOwn(prev: Snapshot, cur: Snapshot)
    ensures AllConcern(Diff(prev, cur), cur.node, cur.source)
  {
    BetweenConcerns(prev, cur);
    assert forall c :: c in Diff(prev, cur) ==> c in Between(prev, cur);
  }

  /** What a step adds to a group whose samples are `samples`: what it brings, unless the collector skips it. */
  ghost function RecordedBy(s: Step, samples: seq<Timed<Snapshot>>, node: string,
      source: Source): Option<Timed<Snapshot>> {
    match Brings(s, node, source)
    case None => None
    case Some(x) => if source == API && Repeats(samples, x.val) then None else Some(x)
  }

  ghost function After(g: Group, e: Option<Timed<Snapshot>>): Group {
    match e case None => g case Some(x) => Extended(g, x)
  }

  /** The latest api snapshot of a node is one the collector took. */
  ghost predicate LatestIsOwn(t: Tables, node: string) {
    var newest := StoredLatest(t, node, API);
    newest.Some? ==> Own(newest.value.val, node)
  }

  lemma SampleStepExtends(t: Tables, sample: Timed<Snapshot>, now: int, node: string, source: Source)
    ensures GroupOf(Ingested(t, sample, now), node, source) ==
            if source == Agent && Accepted(sample, now, node)
            then Extended(GroupOf(t, node, source), AsStored(Normalised(sample, now))) else GroupOf(t, node, source)
  {
    hide Recorded, Extended, GroupOf, WellFormed;
    RecordedExtends(t, Normalised(sample, now), node, source);
  }

  lemma PodStepsKeepGroups(t: Tables, setup: Setup, s: Step, node: string, source: Source)
    requires s.action.PodDelivered? || s.action.PodDeleted?
    ensures GroupOf(Next(t, setup, s), node, source) == GroupOf(t, node, source)
  {
    match s.action
    case PodDelivered(oldPod, newPod, reason) => PodStepsLeave(t, oldPod, newPod, reason, newPod, s.now);
    case PodDeleted(pod) => PodStepsLeave(t, None, pod, "", pod, s.now);
  }

  /** Every step that is not maintenance extends one group by the sample it records and leaves the others alone. */
  lemma StepExtends(t: Tables, setup: Setup, s: Step, node: string, source: Source)
    requires !IsMaintenance(s.action) && (source == API ==> LatestIsOwn(t, node))
    ensures GroupOf(Next(t, setup, s), node, source) ==
            After(GroupOf(t, node, source), RecordedBy(s, Samples(t.snapshots, node, source), node, source))
  {
    hide NodeSample, NodeSeen, Ingested, PodSeen, PodGone, TickOf, WithEvent, Pruned, Capped, GroupOf, Samples,
        Extended, Repeats, Accepted, Normalised, LatestIsOwn;
    match s.action
    case PodDelivered(_, _, _) => PodStepsKeepGroups(t, setup, s, node, source);
    case PodDeleted(_) => PodStepsKeepGroups(t, setup, s, node, source);
    case EventDelivered(e) => EventKeepsGroups(t, e, node, source);
    case NodeDelivered(n) => NodeStepExtends(t, n, s.now, node, source);
    case SamplePosted(sample) => SampleStepExtends(t, sample, s.now, node, source);
    case Ticked => TickKeepsGroups(t, setup.cfg, s.now, node, source);
  }

  lemma NodeStepExtends(t: Tables, n: Node, now: int, node: string, source: Source)
    requires source == API ==> LatestIsOwn(t, node)
    ensures GroupOf(NodeSeen(t, n, now), node, source) ==
            if n.name == node && source == API && !Repeats(Samples(t.snapshots, node, API), NodeSample(n))
            then Extended(GroupOf(t, node, source), Timed(Ms(now), NodeSample(n))) else GroupOf(t, node, source)
  {
    hide SnapshotSeen, GroupOf, Samples, Extended, Repeats, LatestIsOwn, NodeFields;
    NodeSampleIsOwn(n);
    SnapshotSeenExtends(t, NodeSample(n), now, node, source);
  }

  /** Skipping a repetition or recording it: the log is the same. */
  lemma StepWrites(t: Tables, setup: Setup, s: Step, node: string, source: Source)
    requires !IsMaintenance(s.action) && (source == API ==> LatestIsOwn(t, node))
    ensures var log := Log(t.changes, node, source);
            Log(Next(t, setup, s).changes, node, source) ==
            match Brings(s, node, source)
            case None => log
            case Some(x) => log + Stamp(x.time, Following(StoredLatest(t, node, source), x.val))
  {
    hide Next, Brings, Between, Log, Samples, NewestSample, LatestIsOwn;
    StepExtends(t, setup, s, node, source);
    var b := Brings(s, node, source);
    if b.Some? { NothingBetweenEqual(b.value.val); }
  }

  lemma PruneIs(t: Tables, setup: Setup, s: Step)
    requires s.action.PruneRan?
    ensures Next(t, setup, s).changes == Filter(t.changes, Since(Ms(s.now - setup.keep.changes)))
  {
    hide PodSeen, PodGone, NodeSeen, Ingested, TickOf, Capped;
  }

  lemma CapIs(t: Tables, setup: Setup, s: Step)
    requires s.action.CapRan?
    ensures Next(t, setup, s).changes == t.changes
  {
    hide PodSeen, PodGone, NodeSeen, Ingested, TickOf, Pruned, Capped;
    CapLeaves(t, s.action.maxBytes, s.action.size);
  }

  // --- the collector's samples stay recognisable ------------------------------------------------

  ghost predicate OwnStored(s: seq<Row<Snapshot>>, node: string) { AllOwn(Samples(s, node, API), node) }

  lemma OwnRows(s: seq<Row<Snapshot>>, node: string)
    ensures OwnStored(s, node) <==> forall r :: r in s && Of(node, API)(r) ==> Own(Content(r.val), node)
  {
    hide Own;
    var rows := Filter(s, Of(node, API));
    if OwnStored(s, node) {
      forall r | r in s && Of(node, API)(r) ensures Own(Content(r.val), node) {
        var i :| 0 <= i < |rows| && rows[i] == r;
        assert Samples(s, node, API)[i].val == Content(r.val);
      }
    }
  }

  lemma OwnLatest(t: Tables, node: string)
    requires OwnStored(t.snapshots, node)
    ensures LatestIsOwn(t, node)
  {
    hide Own;
    OwnRows(t.snapshots, node);
    LatestIsNewestSample(t.snapshots, node, API);
  }

  lemma MaintenanceOnlyDrops(t: Tables, setup: Setup, s: Step)
    requires IsMaintenance(s.action)
    ensures forall r :: r in Next(t, setup, s).snapshots ==> r in t.snapshots
  {
    hide PodSeen, PodGone, NodeSeen, Ingested, TickOf, Capped;
    if s.action.CapRan? { CapOnlyDrops(t, s.action.maxBytes, s.action.size); }
  }

  lemma StepKeepsOwn(t: Tables, setup: Setup, s: Step, node: string)
    requires OwnStored(t.snapshots, node)
    ensures OwnStored(Next(t, setup, s).snapshots, node)
  {
    hide Next, Own, NodeSample, Samples, NewestSample, Repeats;
    if IsMaintenance(s.action) {
      MaintenanceOnlyDrops(t, setup, s);
      OwnRows(t.snapshots, node);
      OwnRows(Next(t, setup, s).snapshots, node);
    } else {
      OwnLatest(t, node);
      StepExtends(t, setup, s, node, API);
      if s.action.NodeDelivered? { NodeSampleIsOwn(s.action.node); }
    }
  }

  /** In every run, every stored api snapshot is one the collector took. */
  lemma {:induction false} ApiSnapshotsAreOwn(setup: Setup, steps: seq<Step>, node: string)
    ensures OwnStored(Run(setup, steps).snapshots, node) && LatestIsOwn(Run(setup, steps), node)
  {
    hide Next, Own;
    if steps != [] {
      var front, s := steps[..|steps| - 1], steps[|steps| - 1];
      ApiSnapshotsAreOwn(setup, front, node);
      StepKeepsOwn(Run(setup, front), setup, s, node);
    }
    OwnLatest(Run(setup, steps), node);
  }

  lemma OwnIfStored(setup: Setup, steps: seq<Step>, node: string)
    ensures var stored := StoredLatest(Run(setup, steps), node, API);
            stored.Some? ==> Own(stored.value.val, node)
  {
    hide RunFrom, Own, Samples;
    ApiSnapshotsAreOwn(setup, steps, node);
  }

  // --- what the log holds, in every run -----------------------------------------------------------

  /** What the arrivals of a run leave in the log of a node and source: each its comparison with the latest one stored
      when it came, under its own time. */
  ghost function Written(setup: Setup, steps: seq<Step>, node: string, source: Source): seq<Timed<Change>> {
    if steps == [] then [] else
      var front := steps[..|steps| - 1];
      var before := Written(setup, front, node, source);
      match Brings(steps[|steps| - 1], node, source)
      case None => before
      case Some(x) => before + Stamp(x.time, Following(StoredLatest(Run(setup, front), node, source), x.val))
  }

  lemma RunStepWrites(setup: Setup, steps: seq<Step>, s: Step, node: string, source: Source)
    requires !IsMaintenance(s.action)
    ensures var log := Log(Run(setup, steps).changes, node, source);
            Log(Next(Run(setup, steps), setup, s).changes, node, source) ==
            match Brings(s, node, source)
            case None => log
            case Some(x) => log + Stamp(x.time, Following(StoredLatest(Run(setup, steps), node, source), x.val))
  {
    hide Next, RunFrom, Brings, Following, StoredLatest, LatestIsOwn, Log;
    ApiSnapshotsAreOwn(setup, steps, node);
    StepWrites(Run(setup, steps), setup, s, node, source);
  }

  lemma SameFrom(a: seq<Timed<Change>>, b: seq<Timed<Change>>, earlier: int, later: int)
    requires From(a, earlier) == From(b, earlier) && earlier <= later
    ensures From(a, later) == From(b, later)
  {
    FromFrom(a, earlier, later);
    FromFrom(b, earlier, later);
  }

  lemma MaintenanceWrites(t: Tables, setup: Setup, s: Step, node: string, source: Source)
    requires IsMaintenance(s.action)
    ensures var cut := Ms(s.now - setup.keep.changes);
            From(Log(Next(t, setup, s).changes, node, source), cut) == From(Log(t.changes, node, source), cut)
  {
    hide Next, Log;
    var cut := Ms(s.now - setup.keep.changes);
    if s.action.PruneRan? {
      PruneIs(t, setup, s);
      PrunedLog(t.changes, node, source, cut);
      FromFrom(Log(t.changes, node, source), cut, cut);
    } else {
      CapIs(t, setup, s);
    }
  }

  /** In every run, however often it is pruned and capped: as far back as changes are kept, the log of a node and
      source is what its arrivals left in it, in order and entry by entry. */
  lemma {:induction false} LogIsWritten(setup: Setup, start: int, steps: seq<Step>, end: int, node: string,
      source: Source, cut: int)
    requires LegalBetween(start, steps, end) && Ms(end - setup.keep.changes) <= cut
    ensures From(Log(Run(setup, steps).changes, node, source), cut) == From(Written(setup, steps, node, source), cut)
  {
    hide Next, Brings, Following, StoredLatest, From, Log;
    if steps == [] {
      NothingLogged(node, source);
    } else {
      LegalPrefix(start, steps, end);
      var front, s := steps[..|steps| - 1], steps[|steps| - 1];
      var t := Run(setup, front);
      MsMonotone(s.now - setup.keep.changes, end - setup.keep.changes);
      LogIsWritten(setup, start, front, s.now, node, source, cut);
      if IsMaintenance(s.action) {
        MaintenanceWrites(t, setup, s, node, source);
        SameFrom(Log(Next(t, setup, s).changes, node, source), Log(t.changes, node, source),
          Ms(s.now - setup.keep.changes), cut);
        MaintenanceBringsNothing(s, node, source);
      } else {
        RunStepWrites(setup, front, s, node, source);
        var b := Brings(s, node, source);
        if b.Some? {
          var added := Stamp(b.value.time, Following(StoredLatest(t, node, source), b.value.val));
          FromConcat(Log(t.changes, node, source), added, cut);
          FromConcat(Written(setup, front, node, source), added, cut);
        }
      }
    }
  }

  lemma MaintenanceBringsNothing(s: Step, node: string, source: Source)
    requires IsMaintenance(s.action)
    ensures Brings(s, node, source) == None
  {
  }

  lemma NothingLogged(node: string, source: Source)
    ensures Log(EMPTY.changes, node, source) == []
  {
  }

  /** No prune deletes a change record of this group. */
  ghost predicate KeepsLog(setup: Setup, steps: seq<Step>, node: string, source: Source) {
    steps != [] ==>
      var front, s := steps[..|steps| - 1], steps[|steps| - 1];
      && KeepsLog(setup, front, node, source)
      && (IsMaintenance(s.action) ==>
            Log(Next(Run(setup, front), setup, s).changes, node, source) ==
              Log(Run(setup, front).changes, node, source))
  }

  /** And if no change of the group is deleted, that is its whole log. */
  lemma {:induction false} WholeLogIsWritten(setup: Setup, steps: seq<Step>, node: string, source: Source)
    requires KeepsLog(setup, steps, node, source)
    ensures Log(Run(setup, steps).changes, node, source) == Written(setup, steps, node, source)
  {
    hide Next, Brings, Following, StoredLatest, Log;
    if steps == [] {
      NothingLogged(node, source);
    } else {
      var front, s := steps[..|steps| - 1], steps[|steps| - 1];
      WholeLogIsWritten(setup, front, node, source);
      if IsMaintenance(s.action) {
        MaintenanceBringsNothing(s, node, source);
      } else {
        RunStepWrites(setup, front, s, node, source);
      }
    }
  }
}
