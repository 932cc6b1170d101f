/** The events table over whole runs: one row per event, and that is its last delivered version. */
module EventRuns {
  import opened Sample
  import opened Rows
  import opened Schema
  import opened Retention
  import opened Convert
  import opened Incidents
  import opened Collector
  import opened Api
  import opened Recorder
  import opened BaselineRuns

  /** The last delivered version of an event. */
  ghost function LastDelivered(steps: seq<Step>, uid: string): Option<Timed<Event>> {
    if steps == [] then None else
      var s := steps[|steps| - 1];
      if s.action.EventDelivered? && s.action.event.val.uid == uid then Some(s.action.event)
      else LastDelivered(steps[..|steps| - 1], uid)
  }

  lemma DeliveredSnoc(steps: seq<Step>, s: Step, uid: string)
    ensures LastDelivered(steps + [s], uid) ==
            if s.action.EventDelivered? && s.action.event.val.uid == uid then Some(s.action.event)
              else LastDelivered(steps, uid)
  {
    assert (steps + [s])[..|steps + [s]| - 1] == steps;
  }

  /** The row says what this version of the event said. */
  predicate Says(r: Row<Event>, e: Timed<Event>) {
    r.ts == Ms(e.time) && r.val == e.val.(first := Ms(e.val.first))
  }

  ghost predicate OnePerUid(s: seq<Row<Event>>) {
    forall i, j :: 0 <= i < j < |s| ==> s[i].val.uid != s[j].val.uid
  }

  /** Every row says what the last delivered version of its event said. */
  ghost predicate UpToDate(s: seq<Row<Event>>, steps: seq<Step>) {
    forall r :: r in s ==> LastDelivered(steps, r.val.uid).Some? && Says(r, LastDelivered(steps, r.val.uid).value)
  }

  ghost predicate Told(s: seq<Row<Event>>, steps: seq<Step>) { OnePerUid(s) && UpToDate(s, steps) }

  lemma {:induction false} FilterOnePerUid(s: seq<Row<Event>>, p: Row<Event> -> bool)
    requires OnePerUid(s)
    ensures OnePerUid(Filter(s, p))
  {
    if s != [] {
      var front, x := s[..|s| - 1], s[|s| - 1];
      FilterOnePerUid(front, p);
      forall r | r in Filter(front, p) ensures r.val.uid != x.val.uid {
        assert r in front;
        var i :| 0 <= i < |front| && front[i] == r;
        assert s[i] == r;
      }
    }
  }

  /** Deleting rows keeps it so. */
  lemma FilterTold(s: seq<Row<Event>>, steps: seq<Step>, p: Row<Event> -> bool)
    requires Told(s, steps)
    ensures Told(Filter(s, p), steps)
  {
    FilterOnePerUid(s, p);
  }

  lemma {:induction false} CapTold(t: Tables, maxBytes: int, size: Tables -> int, steps: seq<Step>)
    requires Told(t.events, steps)
    ensures Told(Capped(t, maxBytes, size).0.events, steps)
    decreases Droppable(t)
  {
    hide Told;
    if size(t) > maxBytes {
      if Filter(t.snapshots, Raw()) != [] {
        DropSnapshotsShrinks(t);
        CapTold(DropSnapshots(t), maxBytes, size, steps);
      } else if t.events != [] {
        DropEventsShrinks(t);
        FilterTold(t.events, steps, NotIn(Ids(OldestBatch(t.events))));
        CapTold(DropEvents(t), maxBytes, size, steps);
      }
    }
  }

  lemma EventTold(s: seq<Row<Event>>, steps: seq<Step>, step: Step, r: Row<Event>)
    requires Told(s, steps) && step.action.EventDelivered? && Says(r, step.action.event)
    ensures Told(Filter(s, OtherUid(r.val.uid)) + [r], steps + [step])
  {
    var kept := Filter(s, OtherUid(r.val.uid));
    FilterOnePerUid(s, OtherUid(r.val.uid));
    forall x | x in kept + [r]
      ensures LastDelivered(steps + [step], x.val.uid).Some? && Says(x, LastDelivered(steps + [step], x.val.uid).value)
    {
      DeliveredSnoc(steps, step, x.val.uid);
    }
    assert forall i :: 0 <= i < |kept| ==> kept[i] in kept;
  }

  /** No other step touches the events, but for a prune and the size cap. */
  lemma EventsKept(t: Tables, setup: Setup, s: Step)
    requires !s.action.EventDelivered? && !s.action.PruneRan? && !s.action.CapRan?
    ensures Next(t, setup, s).events == t.events
  {
    hide PodSeen, PodGone, WithEvent, NodeSample, SnapshotSeen, Ingested, TickOf, Pruned, Capped;
    match s.action
    case PodDelivered(oldPod, newPod, reason) => PodStepsKeepStore(t, oldPod, newPod, reason, newPod, s.now);
    case PodDeleted(pod) => PodStepsKeepStore(t, None, pod, "", pod, s.now);
    case NodeDelivered(n) => NotABaseline(n); SeenPuts(t, NodeSample(n), s.now);
    case SamplePosted(sample) => IngestedPuts(t, sample, s.now);
    case Ticked => TickKeepsEvents(t, setup.cfg, s.now);
  }

  lemma StillTold(s: seq<Row<Event>>, steps: seq<Step>, step: Step)
    requires Told(s, steps) && !step.action.EventDelivered?
    ensures Told(s, steps + [step])
  {
    forall r | r in s ensures LastDelivered(steps + [step], r.val.uid) == LastDelivered(steps, r.val.uid) {
      DeliveredSnoc(steps, step, r.val.uid);
    }
  }

  lemma EventStepTold(t: Tables, setup: Setup, steps: seq<Step>, s: Step)
    requires Told(t.events, steps) && s.action.EventDelivered?
    ensures Told(Next(t, setup, s).events, steps + [s])
  {
    hide PodSeen, PodGone, NodeSeen, Ingested, TickOf, Pruned, Capped, Told;
    var e := s.action.event;
    EventTold(t.events, steps, s, Row(t.next.event, Ms(e.time), e.val.(first := Ms(e.val.first))));
  }

  lemma PruneOrCapTold(t: Tables, setup: Setup, steps: seq<Step>, s: Step)
    requires Told(t.events, steps) && (s.action.PruneRan? || s.action.CapRan?)
    ensures Told(Next(t, setup, s).events, steps + [s])
  {
    hide PodSeen, PodGone, NodeSeen, Ingested, TickOf, Capped, Told;
    if s.action.PruneRan? {
      FilterTold(t.events, steps, Since(Ms(s.now - setup.keep.events)));
    } else {
      CapTold(t, s.action.maxBytes, s.action.size, steps);
    }
    StillTold(Next(t, setup, s).events, steps, s);
  }

  /** In every run the events table holds at most one row per event, and each row says what the last delivered version
      of its event said: a redelivered event replaces the row it had. */
  lemma {:induction false} EventsAreLastVersions(setup: Setup, steps: seq<Step>)
    ensures Told(Run(setup, steps).events, steps)
  {
    hide Next;
    if steps != [] {
      var front, s := steps[..|steps| - 1], steps[|steps| - 1];
      assert front + [s] == steps;
      EventsAreLastVersions(setup, front);
      var t := Run(setup, front);
      if s.action.EventDelivered? {
        EventStepTold(t, setup, front, s);
      } else if s.action.PruneRan? || s.action.CapRan? {
        PruneOrCapTold(t, setup, front, s);
      } else {
        EventsKept(t, setup, s);
        StillTold(t.events, front, s);
      }
    }
  }

  // --- nothing recent is lost -----------------------------------------------------------------

  /** The size cap drops no event. */
  ghost predicate CapKeepsEvents(setup: Setup, steps: seq<Step>) {
    steps != [] ==>
      var front, s := steps[..|steps| - 1], steps[|steps| - 1];
      && CapKeepsEvents(setup, front)
      && (s.action.CapRan? ==> Next(Run(setup, front), setup, s).events == Run(setup, front).events)
  }

  ghost predicate Holds(s: seq<Row<Event>>, uid: string) {
    exists r :: r in s && r.val.uid == uid
  }

  lemma EventStepHolds(t: Tables, setup: Setup, s: Step, uid: string)
    requires s.action.EventDelivered?
    ensures Holds(Next(t, setup, s).events, uid) <==> Holds(t.events, uid) || s.action.event.val.uid == uid
  {
    hide PodSeen, PodGone, NodeSeen, Ingested, TickOf, Pruned, Capped;
    var u, e := Next(t, setup, s), s.action.event;
    var row := Row(t.next.event, Ms(e.time), e.val.(first := Ms(e.val.first)));
    assert row in u.events;
    if r :| r in t.events && r.val.uid == uid && e.val.uid != uid {
      assert OtherUid(e.val.uid)(r);
      assert r in u.events;
    }
  }

  lemma PruneHolds(t: Tables, setup: Setup, steps: seq<Step>, s: Step, uid: string)
    requires s.action.PruneRan? && Told(t.events, steps)
    ensures Holds(Next(t, setup, s).events, uid) <==>
            Holds(t.events, uid) && Ms(s.now - setup.keep.events) <= Ms(LastDelivered(steps, uid).value.time)
  {
    hide PodSeen, PodGone, NodeSeen, Ingested, TickOf, Capped;
    var cut := Ms(s.now - setup.keep.events);
    if r :| r in t.events && r.val.uid == uid && cut <= Ms(LastDelivered(steps, uid).value.time) {
      assert Since(cut)(r);
    }
  }

  /** Unless the size cap dropped events, every event whose last version is within the retention period is stored. */
  lemma {:induction false} RecentEventsAreStored(setup: Setup, start: int, steps: seq<Step>, end: int, uid: string)
    requires LegalBetween(start, steps, end) && CapKeepsEvents(setup, steps)
    requires LastDelivered(steps, uid).Some? && Ms(end - setup.keep.events) <= Ms(LastDelivered(steps, uid).value.time)
    ensures Holds(Run(setup, steps).events, uid)
  {
    hide Next, Holds, Told;
    LegalPrefix(start, steps, end);
    var front, s := steps[..|steps| - 1], steps[|steps| - 1];
    assert front + [s] == steps;
    var t := Run(setup, front);
    DeliveredSnoc(front, s, uid);
    MsMonotone(s.now - setup.keep.events, end - setup.keep.events);
    if s.action.EventDelivered? {
      EventStepHolds(t, setup, s, uid);
      if s.action.event.val.uid != uid { RecentEventsAreStored(setup, start, front, s.now, uid); }
    } else {
      RecentEventsAreStored(setup, start, front, s.now, uid);
      EventsAreLastVersions(setup, front);
      if s.action.PruneRan? {
        PruneHolds(t, setup, front, s, uid);
      } else if !s.action.CapRan? {
        EventsKept(t, setup, s);
      }
    }
  }
}
