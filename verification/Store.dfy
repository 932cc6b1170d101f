/** The object that owns the database and runs every statement (internal/store). */
module Store {
  import opened Sample
  import opened Rows
  import opened Differ
  import opened Schema
  import opened Retention
  import opened Timelines

  /** The open database. One connection serialises everything, so a statement is one step. */
  class Db {
    var events: seq<Row<Event>>
    var transitions: seq<Row<PodTransition>>
    var pods: map<string, PodState>
    var snapshots: seq<Row<Snapshot>>
    var changes: seq<Row<Change>>
    var incidents: seq<Incident>
    var next: NextIds

    /** The contents of every table. */
    function View(): Tables
      reads this
    {
      Tables(events, transitions, pods, snapshots, changes, incidents, next)
    }

    constructor ()
      ensures View() == EMPTY
    {
      events, transitions, pods, snapshots, changes, incidents := [], [], map[], [], [], [];
      next := NextIds(1, 1, 1, 1, 1);
    }

    method PutEvent(e: Timed<Event>)
      modifies this
      ensures View() == WithEvent(old(View()), e)
    {
      events := Filter(events, OtherUid(e.val.uid));
      events := events + [Row(next.event, Ms(e.time), e.val.(first := Ms(e.val.first)))];
      next := next.(event := next.event + 1);
    }

    method PutPodTransitions(ts: seq<Timed<PodTransition>>)
      modifies this
      ensures View() == WithTransitions(old(View()), ts)
    {
      for i := 0 to |ts|
        invariant View() == WithTransitions(old(View()), ts[..i])
      {
        transitions := transitions + [Row(next.transition, Ms(ts[i].time), ts[i].val)];
        next := next.(transition := next.transition + 1);
      }
      assert ts[..|ts|] == ts;
    }

    method UpsertPod(p: PodState, now: int)
      modifies this
      ensures View() == WithPod(old(View()), p, now)
    {
      var k := PodKey(p);
      if k !in pods {
        pods := pods[k := p.(since := Ms(now))];
      } else {
        var row := pods[k];
        var since := if row.phase == p.phase && row.waitingReason == p.waitingReason then row.since else Ms(now);
        pods := pods[k := p.(since := since)];
      }
    }

    method ForgetPod(key: string)
      modifies this
      ensures View() == WithoutPod(old(View()), key)
    {
      pods := pods - {key};
    }

    /** Stores a snapshot and returns its id. */
    method PutSnapshot(s: Timed<Snapshot>) returns (id: int)
      modifies this
      ensures View() == WithSnapshot(old(View()), s)
      ensures id == old(next.snapshot)
    {
      id := next.snapshot;
      snapshots := snapshots + [Row(id, Ms(s.time), s.val)];
      next := next.(snapshot := next.snapshot + 1);
    }

    function LatestSnapshot(node: string, source: Source): Option<Row<Snapshot>>
      reads this
    {
      Latest(snapshots, node, source)
    }

    /** Flags the latest snapshot, then clears all but the newest `keep` flags. */
    method MarkBaseline(node: string, source: Source, keep: nat)
      modifies this
      ensures View() == old(View()).(snapshots := Mark(old(snapshots), node, source, keep))
    {
      var latest := LatestSnapshot(node, source);
      if latest != None {
        snapshots := Flag(snapshots, HasId({latest.value.id}), true);
      }
      snapshots := Flag(snapshots, Surplus(snapshots, node, source, keep), false);
    }

    method PutChanges(cs: seq<Timed<Change>>)
      modifies this
      ensures View() == WithChanges(old(View()), cs)
    {
      for i := 0 to |cs|
        invariant View() == WithChanges(old(View()), cs[..i])
      {
        changes := changes + [Row(next.change, Ms(cs[i].time), cs[i].val)];
        next := next.(change := next.change + 1);
      }
      assert cs[..|cs|] == cs;
    }

    method OpenIncident(openedAt: int, affected: seq<string>) returns (id: int)
      modifies this
      ensures View() == WithIncident(old(View()), openedAt, affected)
      ensures id == old(next.incident)
    {
      id := next.incident;
      incidents := incidents + [Incident(id, Ms(openedAt), None, affected)];
      next := next.(incident := next.incident + 1);
    }

    method SetIncidentPods(id: int, affected: seq<string>)
      modifies this
      ensures View() == old(View()).(incidents := SetPods(old(incidents), id, affected))
    {
      incidents := SetPods(incidents, id, affected);
    }

    method CloseIncident(id: int, at: int)
      modifies this
      ensures View() == old(View()).(incidents := SetClosed(old(incidents), id, Ms(at)))
    {
      incidents := SetClosed(incidents, id, Ms(at));
    }

    /** Runs the retention deletes, in the source's order. */
    method Prune(now: int, keep: Periods)
      modifies this
      ensures View() == Pruned(old(View()), now, keep)
    {
      var cuts := CutsAt(now, keep);
      events := Filter(events, Since(cuts.events));
      transitions := Filter(transitions, Since(cuts.events));
      changes := Filter(changes, Since(cuts.changes));
      snapshots := Filter(snapshots, SinceOrBaseline(cuts.snapshots));
      incidents := Filter(incidents, OpenOrClosedSince(cuts.changes));
    }

    /** Drops the oldest raw snapshots, then the oldest events, batch by batch; false when nothing is left to drop.
        The number of bytes in use is some function of the contents. */
    method EnforceSizeCap(maxBytes: int, size: Tables -> int) returns (ok: bool)
      modifies this
      ensures (View(), ok) == Capped(old(View()), maxBytes, size)
    {
      while true
        invariant Capped(View(), maxBytes, size) == Capped(old(View()), maxBytes, size)
        decreases Droppable(View())
      {
        if size(View()) <= maxBytes { return true; }
        ghost var before := View();
        var raw := Filter(snapshots, Raw());
        if raw != [] {
          DropSnapshotsShrinks(before);
          snapshots := Filter(snapshots, NotIn(Ids(OldestBatch(raw))));
          assert View() == DropSnapshots(before);
        } else if events != [] {
          DropEventsShrinks(before);
          events := Filter(events, NotIn(Ids(OldestBatch(events))));
          assert View() == DropEvents(before);
        } else {
          return false;
        }
      }
    }

    /** Collects the three query results one after the other and sorts them stably by time. */
    method Timeline(node: string, from: int, to: int) returns (out: seq<Entry>)
      ensures out == TimelineOf(View(), node, from, to)
    {
      var cs := Changes(View(), node, from, to);
      out := Appended([], cs, EntryOfChange);
      var es := Events(View(), "", node, from, to, 0);
      out := Appended(out, es, EntryOfEvent);
      var ts := Transitions(View(), node, from, to);
      out := Appended(out, ts, EntryOfTransition);
      CollectedThenSorted(View(), node, from, to, cs, es, ts);
      out := StableSort(out, ByTime());
    }
  }

  method Appended<T(!new)>(entries: seq<Entry>, rows: seq<Row<T>>, entry: Row<T> -> Entry) returns (out: seq<Entry>)
    ensures out == entries + Entries(rows, entry)
  {
    out := entries;
    for i := 0 to |rows|
      invariant out == entries + Entries(rows[..i], entry)
    {
      out := out + [entry(rows[i])];
    }
    assert rows[..|rows|] == rows;
  }
}
