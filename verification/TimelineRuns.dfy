/** The timeline of a run: what a query finds in the tables that the handlers and the maintenance left. */
module TimelineRuns {
  import opened Sample
  import opened Rows
  import opened Differ
  import opened Schema
  import opened Retention
  import opened Timelines
  import opened Convert
  import opened Incidents
  import opened Collector
  import opened Api
  import opened Recorder
  import opened BaselineRuns

  /** Rowids increase along the two logs. */
  ghost predicate LogsOrdered(t: Tables) {
    Ordered(t.changes, t.next.change) && Ordered(t.transitions, t.next.transition)
  }

  /** The two logs alone. */
  ghost predicate SameLogs(t: Tables, u: Tables) {
    && u.changes == t.changes && u.next.change == t.next.change
    && u.transitions == t.transitions && u.next.transition == t.next.transition
  }

  lemma TransitionsStayOrdered(t: Tables, ts: seq<Timed<PodTransition>>)
    requires LogsOrdered(t)
    ensures LogsOrdered(WithTransitions(t, ts))
  {
    var s, u := t.transitions, WithTransitions(t, ts);
    forall i, j | 0 <= i < j < |u.transitions| ensures u.transitions[i].id < u.transitions[j].id {
      if i >= |s| { assert u.transitions[i] == u.transitions[|s| + (i - |s|)]; }
      if j >= |s| { assert u.transitions[j] == u.transitions[|s| + (j - |s|)]; }
    }
    forall i | 0 <= i < |u.transitions| ensures u.transitions[i].id < u.next.transition {
      if i >= |s| { assert u.transitions[i] == u.transitions[|s| + (i - |s|)]; }
    }
  }

  lemma StoredStaysOrdered(t: Tables, snap: Timed<Snapshot>, cs: seq<Change>)
    requires LogsOrdered(t)
    ensures LogsOrdered(Stored(t, snap, cs))
  {
    var s, u := t.changes, Stored(t, snap, cs);
    forall i, j | 0 <= i < j < |u.changes| ensures u.changes[i].id < u.changes[j].id {
      if i >= |s| { assert u.changes[i] == u.changes[|s| + (i - |s|)]; }
      if j >= |s| { assert u.changes[j] == u.changes[|s| + (j - |s|)]; }
    }
    forall i | 0 <= i < |u.changes| ensures u.changes[i].id < u.next.change {
      if i >= |s| { assert u.changes[i] == u.changes[|s| + (i - |s|)]; }
    }
  }

  lemma PodStepsStayOrdered(t: Tables, oldPod: Option<Pod>, newPod: Pod, reason: string, gone: Pod, now: int)
    requires LogsOrdered(t)
    ensures LogsOrdered(PodSeen(t, oldPod, newPod, reason, now)) && LogsOrdered(PodGone(t, gone, now))
  {
    hide WithTransitions, Upsert, Ordered, Changed;
    TransitionsStayOrdered(t, Collector.Emitted(oldPod, newPod, now));
    TransitionsStayOrdered(t, [Deletion(gone, now)]);
  }

  lemma SeenStaysOrdered(t: Tables, snap: Snapshot, now: int)
    requires LogsOrdered(t)
    ensures LogsOrdered(SnapshotSeen(t, snap, now))
  {
    hide Stored, Diff, FieldsEqual, Latest, LogsOrdered;
    StoredStaysOrdered(t, Timed(now, snap), []);
    var prev := Latest(t.snapshots, snap.node, snap.source);
    if prev.Some? { StoredStaysOrdered(t, Timed(now, snap), Diff(prev.value.val, snap)); }
  }

  lemma IngestedStaysOrdered(t: Tables, sample: Timed<Snapshot>, now: int)
    requires LogsOrdered(t)
    ensures LogsOrdered(Ingested(t, sample, now))
  {
    hide Stored, Between, Latest, LogsOrdered, WellFormed;
    var n := Normalised(sample, now);
    StoredStaysOrdered(t, n, ChangesFrom(Latest(t.snapshots, n.val.node, n.val.source), n.val));
  }

  lemma PruneStaysOrdered(t: Tables, now: int, keep: Periods)
    requires LogsOrdered(t)
    ensures LogsOrdered(Pruned(t, now, keep))
  {
    var cuts := CutsAt(now, keep);
    FilterOrdered(t.changes, Since(cuts.changes), t.next.change);
    FilterOrdered(t.transitions, Since(cuts.events), t.next.transition);
  }

  lemma TickKeepsLogs(t: Tables, cfg: Config, now: int)
    ensures SameLogs(t, TickOf(t, cfg, now))
  {
    hide Decide, QuietCluster, MarkNodes, WithIncident, SetPods, SetClosed;
    ApplyKeepsLogs(t, Decide(t, cfg, now), now);
  }

  lemma ApplyKeepsLogs(t: Tables, d: Decision, now: int)
    ensures SameLogs(t, Apply(t, d, now))
  {
  }

  lemma StepStaysOrdered(t: Tables, setup: Setup, s: Step)
    requires LogsOrdered(t)
    ensures LogsOrdered(Next(t, setup, s))
  {
    hide PodSeen, PodGone, NodeSample, SnapshotSeen, Ingested, TickOf, Pruned, Capped, Ordered;
    match s.action
    case PodDelivered(oldPod, newPod, reason) => PodStepsStayOrdered(t, oldPod, newPod, reason, newPod, s.now);
    case PodDeleted(pod) => PodStepsStayOrdered(t, None, pod, "", pod, s.now);
    case EventDelivered(_) => {}
    case NodeDelivered(n) => SeenStaysOrdered(t, NodeSample(n), s.now);
    case SamplePosted(sample) => IngestedStaysOrdered(t, sample, s.now);
    case Ticked => TickKeepsLogs(t, setup.cfg, s.now);
    case PruneRan => PruneStaysOrdered(t, s.now, setup.keep);
    case CapRan(maxBytes, size) => CapLeaves(t, maxBytes, size);
  }

  lemma {:induction false} RunLogsOrdered(setup: Setup, steps: seq<Step>)
    ensures LogsOrdered(Run(setup, steps))
  {
    hide Next;
    if steps != [] {
      RunLogsOrdered(setup, steps[..|steps| - 1]);
      StepStaysOrdered(Run(setup, steps[..|steps| - 1]), setup, steps[|steps| - 1]);
    }
  }

  predicate InRange<T>(r: Row<T>, of: string, node: string, from: int, to: int) {
    Ms(from) <= r.ts <= Ms(to) && (node == "" || of == node)
  }

  /** In every run the timeline of a node, or of all, holds exactly the change records and pod transitions of the
      range that are stored, and of the events the earliest thousand. */
  lemma TimelineOfRun(setup: Setup, steps: seq<Step>, node: string, from: int, to: int, e: Entry)
    ensures var t := Run(setup, steps);
            var events := Events(t, "", node, from, to, 0);
            && (e in TimelineOf(t, node, from, to) <==>
                  || (exists r :: r in t.changes && InRange(r, r.val.node, node, from, to) &&
                                  e == Entry(r.ts, r.val.node, ChangeItem(r.id, r.val)))
                  || (exists r :: r in t.transitions && InRange(r, r.val.node, node, from, to) &&
                                  e == Entry(r.ts, r.val.node, TransitionItem(r.id, r.val)))
                  || (exists r :: r in events && e == Entry(r.ts, r.val.node, EventItem(r.val))))
            && |events| <= 1000
            && (forall r :: r in events ==> r in t.events && InRange(r, r.val.node, node, from, to))
            && (forall r :: r in t.events && InRange(r, r.val.node, node, from, to) && r !in events ==>
                  |events| == 1000 && forall x :: x in events ==> Older(x, r))
  {
    hide Run, TimelineOf, Changes, Transitions, Events, Older, OldestFirst;
    var t := Run(setup, steps);
    RunLogsOrdered(setup, steps);
    RunOrdered(setup, steps);
    TimelineMembers(t, node, from, to, e);
    ChangesTell(t, node, from, to);
    Timelines.TransitionsTell(t, node, from, to);
    EventsTell(t, "", node, from, to, 0);
    assert forall r :: AskedFor(r, "", node, from, to) <==> InRange(r, r.val.node, node, from, to);
  }
}
