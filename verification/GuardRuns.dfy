/** The quiet guard of the evaluator, told in every run from what was delivered: exactly when a tick marks baselines. */
module GuardRuns {
  import opened Sample
  import opened Rows
  import opened Schema
  import opened Convert
  import opened Incidents
  import opened Recorder
  import opened IncidentRuns
  import opened SampleLogs
  import opened PodRuns
  import opened QuietRuns
  import opened CrashRuns

  /** No pod, by its last report since it was last deleted, is in CrashLoopBackOff. */
  ghost predicate NobodyCrashLoops(steps: seq<Step>) {
    forall key :: var h := History(steps, key); h != [] ==> h[|h| - 1].reason != "CrashLoopBackOff"
  }

  /** The latest api snapshot on record of the node says that it is ready. */
  ghost predicate RecordedReady(setup: Setup, steps: seq<Step>, node: string) {
    var latest := Latest(Run(setup, steps).snapshots, node, API);
    && latest.Some? && "node.ready" in latest.value.val.fields
    && latest.value.val.fields["node.ready"].state == StatePresent
    && latest.value.val.fields["node.ready"].value == Some(JString("True"))
  }

  /** Nothing that came for the node since `cut` changed its readiness. */
  ghost predicate NoFlap(setup: Setup, steps: seq<Step>, node: string, cut: int) {
    forall source, j, x :: LeavesAt(setup, steps, j, node, source, x) && cut <= x.time ==> x.val.field != "node.ready"
  }

  /** All that the guard is about: there is a snapshot; nobody is in CrashLoopBackOff now or entered it since `cut`;
      no restart is known of a run that ended since; no field was lost since; and every node on record is ready and
      has been steady since. */
  ghost predicate Healthy(setup: Setup, steps: seq<Step>, cut: int) {
    && Run(setup, steps).snapshots != []
    && NobodyCrashLoops(steps) && NothingEntered(steps, cut) && NothingRestarted(steps, cut)
    && NothingLost(setup, steps, cut)
    && forall r :: r in Run(setup, steps).snapshots ==>
         RecordedReady(setup, steps, r.val.node) && NoFlap(setup, steps, r.val.node, cut)
  }

  /** The start of the stable window that ends at `now`, as stored. */
  function StableStart(cfg: Config, now: int): int { Ms(now - cfg.stableMinutes * 60_000_000_000) }

  // --- part by part --------------------------------------------------------------------------------

  lemma RowReports(setup: Setup, steps: seq<Step>, key: string)
    ensures var pods, h := Run(setup, steps).pods, History(steps, key);
            && (key in pods <==> h != [])
            && (h != [] ==> pods[key].waitingReason == h[|h| - 1].reason)
  {
    hide RunFrom, History, StretchStart;
    ClockShowsStretch(setup, steps, key);
  }

  lemma PodsCalmExactly(setup: Setup, steps: seq<Step>)
    ensures PodsCalm(Run(setup, steps).pods) <==> NobodyCrashLoops(steps)
  {
    hide RunFrom, History;
    forall key ensures var pods, h := Run(setup, steps).pods, History(steps, key);
                       (key in pods <==> h != []) && (h != [] ==> pods[key].waitingReason == h[|h| - 1].reason) {
      RowReports(setup, steps, key);
    }
    if !PodsCalm(Run(setup, steps).pods) {
      var key :| key in Run(setup, steps).pods.Keys && Run(setup, steps).pods[key].waitingReason == CRASH_LOOP;
      assert History(steps, key) != [];
    }
    if !NobodyCrashLoops(steps) {
      var key :| var h := History(steps, key); h != [] && h[|h| - 1].reason == "CrashLoopBackOff";
      assert key in Run(setup, steps).pods.Keys;
    }
  }

  lemma FlapsExactly(setup: Setup, start: int, steps: seq<Step>, now: int, window: int, node: string)
    requires LegalBetween(start, steps, now) && setup.keep.changes >= window
    ensures Filter(Run(setup, steps).changes, OnFieldSince(node, READY, Ms(now - window))) == [] <==>
            NoFlap(setup, steps, node, Ms(now - window))
  {
    hide RunFrom, LeavesAt, Log;
    var changes, cut := Run(setup, steps).changes, Ms(now - window);
    MsMonotone(now - setup.keep.changes, now - window);
    var found := Filter(changes, OnFieldSince(node, READY, cut));
    if found != [] {
      var r := found[0];
      assert r in found;
      RowLogged(changes, r, node, r.val.source);
      LogTells(setup, start, steps, now, node, r.val.source, Timed(r.ts, r.val));
    }
    if source, j, x :| LeavesAt(setup, steps, j, node, source, x) && cut <= x.time && x.val.field == READY {
      LogTells(setup, start, steps, now, node, source, x);
      var r := LoggedRow(changes, node, source, x);
      assert r in found;
    }
  }

  lemma NodeReadyExactly(setup: Setup, start: int, steps: seq<Step>, now: int, window: int, node: string)
    requires LegalBetween(start, steps, now) && setup.keep.changes >= window
    ensures NodeReady(Run(setup, steps).snapshots, Run(setup, steps).changes, node, Ms(now - window)) <==>
            RecordedReady(setup, steps, node) && NoFlap(setup, steps, node, Ms(now - window))
  {
    hide RunFrom, NoFlap, Latest;
    FlapsExactly(setup, start, steps, now, window, node);
  }

  /** In every run, the guard of a tick holds exactly when all of that does. */
  lemma QuietExactlyWhenHealthy(setup: Setup, start: int, steps: seq<Step>, now: int)
    requires LegalBetween(start, steps, now)
    requires setup.keep.changes >= setup.cfg.Stable() && setup.keep.events >= setup.cfg.Stable()
    ensures QuietCluster(Run(setup, steps), StableStart(setup.cfg, now)) <==>
            Healthy(setup, steps, StableStart(setup.cfg, now))
  {
    hide RunFrom, RecordedReady, NoFlap, NodeReady, PodsCalm, TransitionsCalm, ChangesCalm, NobodyCrashLoops,
        NothingEntered, NothingRestarted, NothingLost, Nodes;
    var t, window := Run(setup, steps), setup.cfg.Stable();
    PodsCalmExactly(setup, steps);
    CalmTransitionsExactly(setup, start, steps, now, window);
    CalmExactlyWhenNothingLost(setup, start, steps, now, window);
    forall n ensures NodeReady(t.snapshots, t.changes, n, Ms(now - window)) <==>
                     RecordedReady(setup, steps, n) && NoFlap(setup, steps, n, Ms(now - window)) {
      NodeReadyExactly(setup, start, steps, now, window, n);
    }
  }

  // --- what a tick marks ----------------------------------------------------------------------------

  /** In every run: a tick makes the latest snapshot of a group, unless it is a baseline already, its newest baseline
      if and only if the cluster has been healthy for the stable window. */
  lemma MarksExactlyWhenHealthy(setup: Setup, start: int, steps: seq<Step>, now: int, node: string, source: Source)
    requires LegalBetween(start, steps, now) && (source == API || source == Agent)
    requires setup.keep.changes >= setup.cfg.Stable() && setup.keep.events >= setup.cfg.Stable()
    requires var latest := Latest(Run(setup, steps).snapshots, node, source); latest.Some? && !latest.value.val.baseline
    ensures Marks(Run(setup, steps), setup.cfg, now, node, source) <==>
            Healthy(setup, steps, StableStart(setup.cfg, now))
  {
    hide RunFrom, Marks, QuietCluster, Healthy, Latest;
    MarksExactlyWhenQuiet(setup, steps, now, node, source);
    QuietExactlyWhenHealthy(setup, start, steps, now);
  }

  /** And a tick that changes any snapshot finds it so; in particular, no pod is in CrashLoopBackOff by its last
      report. */
  lemma MarkingMeansHealthy(setup: Setup, start: int, steps: seq<Step>, now: int)
    requires LegalBetween(start, steps, now)
    requires setup.keep.changes >= setup.cfg.Stable() && setup.keep.events >= setup.cfg.Stable()
    requires Run(setup, steps + [Step(now, Ticked)]).snapshots != Run(setup, steps).snapshots
    ensures Healthy(setup, steps, StableStart(setup.cfg, now)) && NobodyCrashLoops(steps)
  {
    hide RunFrom, TickOf, QuietCluster, RecordedReady, NoFlap, NothingEntered, NothingRestarted, NothingLost;
    ThenTicks(setup, steps, now);
    MarksOnlyWhenQuiet(Run(setup, steps), setup.cfg, now);
    QuietExactlyWhenHealthy(setup, start, steps, now);
  }

  lemma ThenTicks(setup: Setup, steps: seq<Step>, now: int)
    ensures Run(setup, steps + [Step(now, Ticked)]) == TickOf(Run(setup, steps), setup.cfg, now)
  {
    hide RunFrom, Next, TickOf;
    RunSnoc(EMPTY, setup, steps, Step(now, Ticked));
    TickIs(Run(setup, steps), setup, now);
  }

  /** Where the rest of it holds, what decides is whether some pod is in CrashLoopBackOff by its last report: whatever
      its phase, and whether or not an update was seen in which it entered. */
  lemma CrashLoopingPodDecides(setup: Setup, start: int, steps: seq<Step>, now: int, node: string, source: Source)
    requires LegalBetween(start, steps, now) && (source == API || source == Agent)
    requires setup.keep.changes >= setup.cfg.Stable() && setup.keep.events >= setup.cfg.Stable()
    requires var latest := Latest(Run(setup, steps).snapshots, node, source); latest.Some? && !latest.value.val.baseline
    requires var cut := StableStart(setup.cfg, now);
             && NothingEntered(steps, cut) && NothingRestarted(steps, cut) && NothingLost(setup, steps, cut)
             && forall r :: r in Run(setup, steps).snapshots ==>
                  RecordedReady(setup, steps, r.val.node) && NoFlap(setup, steps, r.val.node, cut)
    ensures Marks(Run(setup, steps), setup.cfg, now, node, source) <==> NobodyCrashLoops(steps)
  {
    hide RunFrom, Marks, NobodyCrashLoops, NothingEntered, NothingRestarted, NothingLost, RecordedReady, NoFlap;
    MarksExactlyWhenHealthy(setup, start, steps, now, node, source);
    SomeSnapshot(Run(setup, steps).snapshots, node, source);
  }

  lemma SomeSnapshot(s: seq<Row<Snapshot>>, node: string, source: Source)
    requires Latest(s, node, source).Some?
    ensures s != []
  {
  }
}
