/** The recorder as one transition system: every handler and every periodic pass is one step over the database. */
module Recorder {
  import opened Sample
  import opened Rows
  import opened Differ
  import opened Schema
  import opened Retention
  import opened Convert
  import opened Incidents
  import opened Collector
  import opened Api

  datatype Action =
    | PodDelivered(oldPod: Option<Pod>, newPod: Pod, reason: string)
    | PodDeleted(pod: Pod)
    | EventDelivered(event: Timed<Event>)
    | NodeDelivered(node: Node)
    | SamplePosted(sample: Timed<Snapshot>)
    | Ticked
    | PruneRan
    | CapRan(maxBytes: int, size: Tables -> int)

  /** An action and the collector's clock when it happens. */
  datatype Step = Step(now: int, action: Action)

  datatype Setup = Setup(cfg: Config, keep: Periods)

  /** The waiting reason stored for a pod is one its summary may report. */
  predicate Possible(s: Step) {
    s.action.PodDelivered? ==> MayReport(Statuses(s.action.newPod), s.action.reason)
  }

  ghost function Next(t: Tables, setup: Setup, s: Step): Tables {
    match s.action
    case PodDelivered(oldPod, newPod, reason) => PodSeen(t, oldPod, newPod, reason, s.now)
    case PodDeleted(pod) => PodGone(t, pod, s.now)
    case EventDelivered(event) => WithEvent(t, event)
    case NodeDelivered(node) => NodeSeen(t, node, s.now)
    case SamplePosted(sample) => Ingested(t, sample, s.now)
    case Ticked => TickOf(t, setup.cfg, s.now)
    case PruneRan => Pruned(t, s.now, setup.keep)
    case CapRan(maxBytes, size) => Capped(t, maxBytes, size).0
  }

  /** The database after some steps. */
  ghost function RunFrom(t: Tables, setup: Setup, steps: seq<Step>): Tables {
    if steps == [] then t else Next(RunFrom(t, setup, steps[..|steps| - 1]), setup, steps[|steps| - 1])
  }

  ghost function Run(setup: Setup, steps: seq<Step>): Tables {
    RunFrom(EMPTY, setup, steps)
  }

  lemma RunSnoc(t: Tables, setup: Setup, steps: seq<Step>, s: Step)
    ensures RunFrom(t, setup, steps + [s]) == Next(RunFrom(t, setup, steps), setup, s)
  {
    assert (steps + [s])[..|steps + [s]| - 1] == steps;
  }

  /** Possible steps along a clock that never runs backwards, from `start` to `end`. */
  ghost predicate LegalBetween(start: int, steps: seq<Step>, end: int) {
    && (forall i :: 0 <= i < |steps| ==> Possible(steps[i]) && start <= steps[i].now <= end)
    && (forall i, j :: 0 <= i < j < |steps| ==> steps[i].now <= steps[j].now)
    && start <= end
  }

  lemma LegalSnoc(start: int, steps: seq<Step>, end: int, s: Step)
    requires LegalBetween(start, steps, end) && Possible(s) && end <= s.now
    ensures LegalBetween(start, steps + [s], s.now)
  {
  }

  lemma LegalPrefix(start: int, steps: seq<Step>, end: int)
    requires LegalBetween(start, steps, end) && steps != []
    ensures LegalBetween(start, steps[..|steps| - 1], steps[|steps| - 1].now)
    ensures Possible(steps[|steps| - 1]) && steps[|steps| - 1].now <= end
  {
    var last := steps[|steps| - 1];
    assert start <= last.now;
  }

  /** Same pods, transitions and incidents, and the same ids to come. */
  ghost predicate SameHistory(t: Tables, u: Tables) {
    && u.pods == t.pods && u.transitions == t.transitions && u.incidents == t.incidents
    && u.next.incident == t.next.incident && u.next.transition == t.next.transition
  }

  lemma StoredLeaves(t: Tables, s: Timed<Snapshot>, cs: seq<Change>)
    ensures SameHistory(t, Stored(t, s, cs))
  {
  }

  lemma SnapshotSeenLeaves(t: Tables, snap: Snapshot, now: int)
    ensures SameHistory(t, SnapshotSeen(t, snap, now))
  {
  }

  lemma EventLeaves(t: Tables, e: Timed<Event>)
    ensures SameHistory(t, WithEvent(t, e))
  {
  }

  lemma IngestedLeaves(t: Tables, s: Timed<Snapshot>, now: int)
    ensures SameHistory(t, Ingested(t, s, now))
  {
    var n := Normalised(s, now);
    StoredLeaves(t, n, ChangesFrom(Latest(t.snapshots, n.val.node, n.val.source), n.val));
  }

  lemma PodStepsLeave(t: Tables, oldPod: Option<Pod>, newPod: Pod, reason: string, gone: Pod, now: int)
    ensures var u := PodSeen(t, oldPod, newPod, reason, now);
            u.incidents == t.incidents && u.next.incident == t.next.incident
            && u.snapshots == t.snapshots && u.changes == t.changes
    ensures var u := PodGone(t, gone, now);
            u.incidents == t.incidents && u.next.incident == t.next.incident
            && u.snapshots == t.snapshots && u.changes == t.changes
  {
  }

  lemma DecisionLeaves(t: Tables, d: Decision, now: int)
    ensures var v := Apply(t, d, now);
            v.pods == t.pods && v.transitions == t.transitions && v.snapshots == t.snapshots && v.changes == t.changes
  {
  }

  lemma TickLeaves(t: Tables, cfg: Config, now: int)
    ensures var u, v := TickOf(t, cfg, now), IncidentPass(t, cfg, now);
            && SameHistory(v, u) && u.changes == v.changes
            && v.pods == t.pods && v.transitions == t.transitions && v.snapshots == t.snapshots
            && v.changes == t.changes
  {
    DecisionLeaves(t, Decide(t, cfg, now), now);
  }

  lemma NodeSeenLeaves(t: Tables, n: Node, now: int)
    ensures SameHistory(t, NodeSeen(t, n, now))
  {
    SnapshotSeenLeaves(t, NodeSample(n), now);
  }

  /** Events, nodes, samples and the size cap leave pods, transitions and incidents alone. */
  lemma Untouched(t: Tables, setup: Setup, s: Step)
    requires s.action.EventDelivered? || s.action.NodeDelivered? || s.action.SamplePosted? || s.action.CapRan?
    ensures SameHistory(t, Next(t, setup, s))
  {
    hide PodSeen, PodGone, WithEvent, NodeSeen, Ingested, TickOf, Pruned, Capped;
    match s.action
    case EventDelivered(event) => EventLeaves(t, event);
    case NodeDelivered(node) => NodeSeenLeaves(t, node, s.now);
    case SamplePosted(sample) => IngestedLeaves(t, sample, s.now);
    case CapRan(maxBytes, size) => CapLeaves(t, maxBytes, size);
  }

  lemma {:induction false} CapLeaves(t: Tables, maxBytes: int, size: Tables -> int)
    ensures var u := Capped(t, maxBytes, size).0;
            u == t.(snapshots := u.snapshots, events := u.events)
    decreases Droppable(t)
  {
    if size(t) > maxBytes {
      if Filter(t.snapshots, Raw()) != [] {
        DropSnapshotsShrinks(t);
        CapLeaves(DropSnapshots(t), maxBytes, size);
      } else if t.events != [] {
        DropEventsShrinks(t);
        CapLeaves(DropEvents(t), maxBytes, size);
      }
    }
  }
}
