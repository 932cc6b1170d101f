/** What the collector writes for each delivered API object (internal/informers/collector.go), and the
    step it shares with the ingest of agent samples: store a snapshot with the changes since the previous one. */
module Collector {
  import opened Sample
  import opened Rows
  import opened Differ
  import opened Schema
  import opened Store
  import opened Convert

  // --- pods -----------------------------------------------------------------------

  /** The state stored for a pod, with one of the waiting reasons it may report. */
  ghost function StateOf(p: Pod, reason: string): PodState {
    PodState(p.namespace, p.name, p.node, p.phase, reason, RestartTotal(Statuses(p), Statuses(p).Keys), 0)
  }

  ghost function Emitted(oldPod: Option<Pod>, newPod: Pod, now: int): seq<Timed<PodTransition>> {
    match oldPod
    case None => []
    case Some(p) => Changed(p, newPod, now)
  }

  /** An added or updated pod: its transitions, then its current state. */
  ghost function PodSeen(t: Tables, oldPod: Option<Pod>, newPod: Pod, reason: string, now: int): Tables {
    WithPod(WithTransitions(t, Emitted(oldPod, newPod, now)), StateOf(newPod, reason), now)
  }

  function Deletion(p: Pod, now: int): Timed<PodTransition> {
    Timed(now, Transition(p, Phase, p.phase, "Deleted", ""))
  }

  function PodGone(t: Tables, p: Pod, now: int): Tables {
    WithoutPod(WithTransitions(t, [Deletion(p, now)]), Key(p.namespace, p.name))
  }

  lemma NothingEmitted(t: Tables)
    ensures WithTransitions(t, []) == t
    ensures WithChanges(t, []) == t
  {
    assert InsertTransitions(t.transitions, t.next.transition, []) == t.transitions;
    assert InsertChanges(t.changes, t.next.change, []) == t.changes;
  }

  // --- snapshots --------------------------------------------------------------------

  /** A change of driver between two snapshots is itself a change record. */
  function DriverChange(prev: Snapshot, cur: Snapshot): seq<Change> {
    if prev.driver == cur.driver then []
    else [Change(cur.node, cur.source, "driver", Present(JString(prev.driver)), Present(JString(cur.driver)), Info)]
  }

  /** Every record between two consecutive agent samples. */
  ghost function Between(prev: Snapshot, cur: Snapshot): seq<Change> {
    Diff(prev, cur) + DriverChange(prev, cur)
  }

  /** A snapshot stored together with its change records. */
  function Stored(t: Tables, s: Timed<Snapshot>, cs: seq<Change>): Tables {
    WithChanges(WithSnapshot(t, s), Stamp(s.time, cs))
  }

  ghost function ChangesFrom(prev: Option<Row<Snapshot>>, cur: Snapshot): seq<Change> {
    match prev case None => [] case Some(p) => Between(p.val, cur)
  }

  /** A snapshot stored with the changes since the previous one of its node and source. */
  ghost function Recorded(t: Tables, s: Timed<Snapshot>): Tables {
    Stored(t, s, ChangesFrom(Latest(t.snapshots, s.val.node, s.val.source), s.val))
  }

  /** A snapshot the collector took itself: nothing when the fields are those of the latest one. */
  ghost function SnapshotSeen(t: Tables, snap: Snapshot, now: int): Tables {
    match Latest(t.snapshots, snap.node, snap.source)
    case None => Stored(t, Timed(now, snap), [])
    case Some(prev) =>
      if FieldsEqual(prev.val.fields, snap.fields) then t
      else Stored(t, Timed(now, snap), Diff(prev.val, snap))
  }

  ghost function NodeSeen(t: Tables, n: Node, now: int): Tables {
    SnapshotSeen(t, NodeSample(n), now)
  }

  class Watcher {
    const db: Db

    constructor (db: Db)
      ensures this.db == db
    {
      this.db := db;
    }

    /** An informer delivered a pod; the previous version is there on updates. */
    method OnPod(oldPod: Option<Pod>, newPod: Pod, now: int) returns (ghost reason: string)
      modifies db
      ensures MayReport(Statuses(newPod), reason)
      ensures db.View() == PodSeen(old(db.View()), oldPod, newPod, reason, now)
    {
      NothingEmitted(db.View());
      if oldPod.Some? {
        var ts := PodTransitions(oldPod.value, newPod, now);
        if |ts| > 0 { db.PutPodTransitions(ts); }
      }
      var s := PodStateOf(newPod);
      reason := s.waitingReason;
      db.UpsertPod(s, now);
    }

    method OnPodDelete(p: Pod, now: int)
      modifies db
      ensures db.View() == PodGone(old(db.View()), p, now)
    {
      db.PutPodTransitions([Deletion(p, now)]);
      db.ForgetPod(Key(p.namespace, p.name));
    }

    /** Snapshots a node, compares it with the previous api snapshot, and stores both; resyncs write nothing. */
    method RecordNode(n: Node, now: int)
      modifies db
      ensures db.View() == NodeSeen(old(db.View()), n, now)
    {
      var snap := NodeSnapshot(n, now);
      var prev := db.LatestSnapshot(n.name, API);
      if prev.Some? && FieldsEqual(prev.value.val.fields, snap.val.fields) { return; }
      var previous := match prev case None => None case Some(r) => Some(r.val);
      var _ := db.PutSnapshot(snap);
      var changes := Snapshots(previous, snap);
      assert previous == None ==> changes == Stamp(now, []);
      db.PutChanges(changes);
    }
  }
}
