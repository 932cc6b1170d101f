/** A run on which the stable window sees a restart and a tick marks baselines all the same: the guard goes by the
    time the terminated run ended. */
module LateRestarts {
  import opened Sample
  import opened Rows
  import opened Schema
  import opened Retention
  import opened Convert
  import opened Incidents
  import opened Collector
  import opened Api
  import opened Recorder
  import opened PodRuns
  import opened QuietRuns
  import opened MissingRuns
  import opened CrashRuns

  predicate Gained(before: Pod, after: Pod, k: string) {
    k in Statuses(after) && Statuses(after)[k].restartCount > StatusOr(Statuses(before), k).restartCount
  }

  predicate RunEnded(s: ContainerStatus, at: int) {
    s.lastTerminated.Some? && s.lastTerminated.value.finishedAt == Some(at)
  }

  /** Two versions of one pod between which a container restarted, its run having ended at `ended`; nothing waits. */
  ghost predicate Restarted(before: Pod, after: Pod, k: string, ended: int) {
    && MayReport(Statuses(after), "") && !CrashEntered(before, after) && Gained(before, after, k)
    && forall c :: Gained(before, after, c) ==> RunEnded(Statuses(after)[c], ended)
  }

  lemma OnlyThisRestart(before: Pod, after: Pod, k: string, ended: int, s: Step, key: string, at: int)
    requires Restarted(before, after, k, ended) && s.action == PodDelivered(Some(before), after, "")
    ensures RestartEndedAt(s, key, at) ==> at == Ms(ended)
    ensures !Enters(s, key)
  {
    hide Statuses, MayReport, CrashEntered;
    if RestartEndedAt(s, key, at) {
      var c :| Restarts(s, key, c) && Ms(EndOfRun(Statuses(after)[c], s.now)) == at;
      assert Gained(before, after, c);
    }
  }

  /** Nothing in the window but that restart, whose run ended before it. */
  lemma NothingInWindow(steps: seq<Step>, node: Node, s: Step, before: Pod, after: Pod, k: string, ended: int, cut: int)
    requires steps == [Step(0, NodeDelivered(node)), s] && s.action == PodDelivered(Some(before), after, "")
    requires Restarted(before, after, k, ended) && Ms(ended) < cut
    ensures NothingEntered(steps, cut) && NothingRestarted(steps, cut)
  {
    hide Restarted, RestartEndedAt, Enters;
    NodeSaysNothing(node);
    forall key, at | cut <= at ensures !RestartedAt(steps, key, at) && !EnteredAt(steps, key, at) {
      OnlyThisRestart(before, after, k, ended, s, key, at);
      assert forall i :: 0 <= i < |steps| ==> steps[i] == steps[0] || steps[i] == s;
    }
  }

  lemma NodeSaysNothing(node: Node)
    ensures forall key, at :: !RestartEndedAt(Step(0, NodeDelivered(node)), key, at)
    ensures forall key :: !Enters(Step(0, NodeDelivered(node)), key)
  {
  }

  lemma ThenPod(setup: Setup, steps: seq<Step>, before: Pod, after: Pod, now: int)
    ensures var t, u := Run(setup, steps), Run(setup, steps + [Step(now, PodDelivered(Some(before), after, ""))]);
            u.snapshots == t.snapshots && u.changes == t.changes && u.pods == Upsert(t.pods, StateOf(after, ""), now)
  {
    hide RunFrom, TickOf, Pruned, PodGone, WithEvent, NodeSeen, Ingested, Capped, StateOf, Changed, Upsert;
    RunSnoc(EMPTY, setup, steps, Step(now, PodDelivered(Some(before), after, "")));
  }

  lemma NoReason(p: Pod)
    ensures StateOf(p, "").waitingReason == ""
  {
    hide RestartTotal;
  }

  lemma RestartIsDelivered(node: Node, s: Step, before: Pod, after: Pod, k: string, now: int)
    requires Restarted(before, after, k, 0) && s == Step(now, PodDelivered(Some(before), after, "")) && now >= 0
    ensures Restarts(s, KeyOfPod(after), k) && LegalBetween(0, [Step(0, NodeDelivered(node)), s], now)
  {
    hide MayReport, CrashEntered, Statuses;
  }

  lemma CalmPod(p: PodState, now: int)
    requires p.waitingReason == ""
    ensures PodsCalm(Upsert(map[], p, now))
  {
  }

  lemma QuietBut(t: Tables, r: Row<Snapshot>, since: int)
    requires t.snapshots == [r] && t.changes == [] && PodsCalm(t.pods) && TransitionsCalm(t.transitions, since)
    requires r.val.source == API && ReportsReady(r.val.fields)
    ensures QuietCluster(t, since)
  {
    hide Latest, ReportsReady, TransitionsCalm;
    OneRow(r);
    assert Nodes([r]) == {r.val.node} by { assert r in [r]; }
  }

  /** An update in the stable window tells of a restart whose run ended before the window: nothing is found, and the
      tick marks the node's snapshot. */
  lemma LateRestartIsMissed(setup: Setup, node: Node, before: Pod, after: Pod, k: string)
    returns (steps: seq<Step>, now: int)
    requires setup.cfg.Valid() && setup.keep.events >= setup.cfg.Stable()
    requires ReportsReady(NodeFields(node)) && Restarted(before, after, k, 0)
    ensures steps == [Step(0, NodeDelivered(node)), Step(now, PodDelivered(Some(before), after, ""))]
    ensures LegalBetween(0, steps, now) && Ms(now - setup.cfg.Stable()) <= Ms(steps[1].now)
    ensures Restarts(steps[1], KeyOfPod(after), k)
    ensures Marks(Run(setup, steps), setup.cfg, now, node.name, API)
  {
    hide RunFrom, NodeSample, NodeFields, SnapshotSeen, QuietCluster, ReportsReady, Marks, Latest, TransitionsCalm,
        NothingEntered, NothingRestarted, PodsCalm, Upsert, StateOf, LegalBetween, Restarts, Restarted;
    now := setup.cfg.Stable() + MILLI;
    var first, s := [Step(0, NodeDelivered(node))], Step(now, PodDelivered(Some(before), after, ""));
    steps := first + [s];
    MsMonotone(now - setup.cfg.Stable(), now);
    assert [] + first == first;
    NothingRun(setup);
    ThenNode(setup, [], node, 0);
    FirstSeen(NodeSample(node));
    OwnRow(node);
    ThenPod(setup, first, before, after, now);
    NoReason(after);
    CalmPod(StateOf(after, ""), now);
    RestartIsDelivered(node, s, before, after, k, now);
    NothingInWindow(steps, node, s, before, after, k, 0, Ms(now - setup.cfg.Stable()));
    CalmTransitionsExactly(setup, 0, steps, now, setup.cfg.Stable());
    var r := Row(1, 0, NodeSample(node));
    QuietBut(Run(setup, steps), r, Ms(now - setup.cfg.Stable()));
    OneRow(r);
    MarksExactlyWhenQuiet(setup, steps, now, node.name, API);
  }

  /** Such pods exist. */
  lemma ARestart() returns (before: Pod, after: Pod)
    ensures Restarted(before, after, "app", 0)
  {
    hide ByName;
    var earlier := ContainerStatus("app", None, 0, None);
    var now := ContainerStatus("app", None, 1, Some(Terminated("Error", 1, Some(0))));
    before := Pod("shop", "cart", "n1", RUNNING, "", [], [earlier]);
    after := before.(statuses := [now]);
    OneContainer(earlier);
    OneContainer(now);
  }

  lemma OneContainer(x: ContainerStatus)
    ensures ByName([] + [x]) == map[x.name := x]
  {
    assert ([] + [x])[..0] == [];
    assert ByName(([] + [x])[..0]) == map[];
  }
}
