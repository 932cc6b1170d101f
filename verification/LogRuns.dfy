/** Change logs over whole runs: exactly when skipping resyncs and redelivering samples are invisible in them, and that
    they are as long as maintenance spares the latest snapshot. */
module LogRuns {
  import opened Sample
  import opened Differ
  import opened Schema
  import opened Retention
  import opened Convert
  import opened Incidents
  import opened Collector
  import opened Api
  import opened Recorder
  import opened PruneRuns
  import opened SampleLogs
  import opened ArrivalRuns

  function Last<T>(s: seq<T>): Option<T> { if s == [] then None else Some(s[|s| - 1]) }

  // --- when the log is the comparison of consecutive arrivals --------------------------------------

  /** What the step brings at or after `cut` is compared with the latest sample stored as it would be with the last one
      that came. */
  ghost predicate ComparedAlike(setup: Setup, front: seq<Step>, s: Step, node: string, source: Source, cut: int) {
    match Brings(s, node, source)
    case None => true
    case Some(x) =>
      cut <= x.time ==>
        Following(StoredLatest(Run(setup, front), node, source), x.val) ==
        Following(Last(Arrivals(front, node, source)), x.val)
  }

  ghost predicate AllComparedAlike(setup: Setup, steps: seq<Step>, node: string, source: Source, cut: int) {
    forall j :: 0 <= j < |steps| ==> ComparedAlike(setup, steps[..j], steps[j], node, source, cut)
  }

  /** From `cut` on, the log is the pairwise comparison of everything that came: in order and entry by entry. */
  ghost predicate Agrees(setup: Setup, steps: seq<Step>, node: string, source: Source, cut: int) {
    From(Log(Run(setup, steps).changes, node, source), cut) == From(PairLog(Arrivals(steps, node, source)), cut)
  }

  ghost predicate AgreesThroughout(setup: Setup, steps: seq<Step>, node: string, source: Source, cut: int) {
    forall j :: 0 <= j <= |steps| ==> Agrees(setup, steps[..j], node, source, cut)
  }

  lemma ThroughoutSplits(setup: Setup, steps: seq<Step>, node: string, source: Source, cut: int)
    requires steps != []
    ensures var front, s := steps[..|steps| - 1], steps[|steps| - 1];
            && (AgreesThroughout(setup, steps, node, source, cut) <==>
                AgreesThroughout(setup, front, node, source, cut) && Agrees(setup, steps, node, source, cut))
            && (AllComparedAlike(setup, steps, node, source, cut) <==>
                AllComparedAlike(setup, front, node, source, cut) && ComparedAlike(setup, front, s, node, source, cut))
  {
    hide Agrees, ComparedAlike;
    var front := steps[..|steps| - 1];
    assert steps[..|steps|] == steps;
    assert forall j :: 0 <= j <= |front| ==> steps[..j] == front[..j];
  }

  lemma StampTells(t: int, a: seq<Change>, b: seq<Change>)
    ensures Stamp(t, a) == Stamp(t, b) <==> a == b
  {
    if Stamp(t, a) == Stamp(t, b) {
      forall i | 0 <= i < |a| ensures a[i] == b[i] { assert Stamp(t, a)[i] == Stamp(t, b)[i]; }
    }
  }

  lemma PairLogExtends(arrivals: seq<Timed<Snapshot>>, x: Timed<Snapshot>)
    ensures PairLog(arrivals + [x]) == PairLog(arrivals) + Stamp(x.time, Following(Last(arrivals), x.val))
  {
    hide Between;
    PairLogSnoc(arrivals, x);
  }

  /** As long as they agree, one more arrival keeps it so exactly when it is compared alike. */
  lemma OneMoreAgrees(written: seq<Timed<Change>>, arrivals: seq<Timed<Snapshot>>, stored: Option<Timed<Snapshot>>,
      x: Timed<Snapshot>, cut: int)
    requires From(written, cut) == From(PairLog(arrivals), cut)
    ensures From(written + Stamp(x.time, Following(stored, x.val)), cut) == From(PairLog(arrivals + [x]), cut) <==>
            (cut <= x.time ==> Following(stored, x.val) == Following(Last(arrivals), x.val))
  {
    hide From, PairLog, Following, Last;
    var a, b := Following(stored, x.val), Following(Last(arrivals), x.val);
    PairLogExtends(arrivals, x);
    FromConcat(written, Stamp(x.time, a), cut);
    FromConcat(PairLog(arrivals), Stamp(x.time, b), cut);
    FromStamp(x.time, a, cut);
    FromStamp(x.time, b, cut);
    StampTells(x.time, a, b);
    SameTail(From(written, cut), Stamp(x.time, a), Stamp(x.time, b));
  }

  lemma SameTail<T>(s: seq<T>, a: seq<T>, b: seq<T>)
    ensures s + a == s + b <==> a == b
  {
    if s + a == s + b {
      assert a == (s + a)[|s|..] && b == (s + b)[|s|..];
    }
  }

  lemma StepAgrees(setup: Setup, front: seq<Step>, s: Step, node: string, source: Source, cut: int)
    requires From(Written(setup, front, node, source), cut) == From(PairLog(Arrivals(front, node, source)), cut)
    ensures From(Written(setup, front + [s], node, source), cut) ==
            From(PairLog(Arrivals(front + [s], node, source)), cut) <==>
            ComparedAlike(setup, front, s, node, source, cut)
  {
    hide RunFrom, Brings, Following, StoredLatest, From, PairLog, Last;
    assert (front + [s])[..|front + [s]| - 1] == front;
    ArrivalsSnoc(front, s, node, source);
    var b := Brings(s, node, source);
    if b.Some? {
      var stored := StoredLatest(Run(setup, front), node, source);
      OneMoreAgrees(Written(setup, front, node, source), Arrivals(front, node, source), stored, b.value, cut);
    }
  }

  /** In every run, however often it is pruned and capped: all along the run, the log of a node and source from `cut`
      on is the comparison of consecutive arrivals if and only if each of these is compared with the latest sample
      stored as it would be with the one that came before it. */
  lemma {:induction false} AgreesExactly(setup: Setup, start: int, steps: seq<Step>, end: int, node: string,
      source: Source, cut: int)
    requires LegalBetween(start, steps, end) && Ms(end - setup.keep.changes) <= cut
    ensures AgreesThroughout(setup, steps, node, source, cut) <==>
            AllComparedAlike(setup, steps, node, source, cut)
  {
    hide RunFrom, Arrivals, Written, From, Log, ComparedAlike, AgreesThroughout, AllComparedAlike;
    if steps == [] {
      NothingToAgreeOn(setup, node, source, cut);
    } else {
      LegalPrefix(start, steps, end);
      var front, s := steps[..|steps| - 1], steps[|steps| - 1];
      assert front + [s] == steps;
      MsMonotone(s.now - setup.keep.changes, end - setup.keep.changes);
      AgreesExactly(setup, start, front, s.now, node, source, cut);
      ThroughoutSplits(setup, steps, node, source, cut);
      LogIsWritten(setup, start, front, s.now, node, source, cut);
      LogIsWritten(setup, start, steps, end, node, source, cut);
      if AgreesThroughout(setup, front, node, source, cut) {
        AgreesAtEnd(setup, front, node, source, cut);
        StepAgrees(setup, front, s, node, source, cut);
      }
    }
  }

  lemma AgreesAtEnd(setup: Setup, steps: seq<Step>, node: string, source: Source, cut: int)
    requires AgreesThroughout(setup, steps, node, source, cut)
    ensures Agrees(setup, steps, node, source, cut)
  {
    hide Agrees;
    assert steps[..|steps|] == steps;
  }

  lemma NothingToAgreeOn(setup: Setup, node: string, source: Source, cut: int)
    ensures AgreesThroughout(setup, [], node, source, cut) && AllComparedAlike(setup, [], node, source, cut)
  {
    hide Next;
  }

  /** And if no change of the group was deleted, the whole log is that comparison. */
  lemma {:induction false} AlikeIsWhole(setup: Setup, steps: seq<Step>, node: string, source: Source)
    requires forall cut :: AllComparedAlike(setup, steps, node, source, cut)
    ensures Written(setup, steps, node, source) == PairLog(Arrivals(steps, node, source))
  {
    hide RunFrom, Brings, Following, StoredLatest, PairLog, Last, AllComparedAlike;
    if steps == [] {
      assert PairLog([]) == [] by { PairLogOfNone(); }
    } else {
      var front, s := steps[..|steps| - 1], steps[|steps| - 1];
      forall cut ensures AllComparedAlike(setup, front, node, source, cut) {
        ThroughoutSplits(setup, steps, node, source, cut);
      }
      AlikeIsWhole(setup, front, node, source);
      var b := Brings(s, node, source);
      if b.Some? {
        ThroughoutSplits(setup, steps, node, source, b.value.time);
        PairLogExtends(Arrivals(front, node, source), b.value);
      }
    }
  }

  lemma PairLogOfNone()
    ensures PairLog([]) == []
  {
  }

  // --- what maintenance spares ------------------------------------------------------------------------

  /** No prune and no size cap changes which sample of this group is the latest one stored. */
  ghost predicate KeepsLatest(setup: Setup, steps: seq<Step>, node: string, source: Source) {
    steps != [] ==>
      var front, s := steps[..|steps| - 1], steps[|steps| - 1];
      && KeepsLatest(setup, front, node, source)
      && (IsMaintenance(s.action) ==>
            StoredLatest(Next(Run(setup, front), setup, s), node, source) ==
            StoredLatest(Run(setup, front), node, source))
  }

  /** What can be checked before maintenance runs: there is no latest snapshot, or it is a baseline or within the
      retention period of a prune, or it is among those the cap leaves. */
  ghost predicate Spares(t: Tables, setup: Setup, s: Step, node: string, source: Source) {
    var latest := Latest(t.snapshots, node, source);
    latest.Some? ==>
      match s.action
      case PruneRan => latest.value.val.baseline || Ms(s.now - setup.keep.snapshots) <= latest.value.ts
      case CapRan(maxBytes, size) => latest.value in Capped(t, maxBytes, size).0.snapshots
      case _ => true
  }

  lemma SparesExactly(t: Tables, setup: Setup, s: Step, node: string, source: Source)
    requires IsMaintenance(s.action)
    ensures Latest(Next(t, setup, s).snapshots, node, source) == Latest(t.snapshots, node, source) <==>
            Spares(t, setup, s, node, source)
  {
    hide Capped, Pruned, PodSeen, PodGone, NodeSeen, Ingested, TickOf, WithEvent, Latest;
    match s.action
    case PruneRan => PruneSparesLatestExactly(t, s.now, setup.keep, node, source);
    case CapRan(maxBytes, size) => CapSparesLatestExactly(t, maxBytes, size, node, source);
  }

  lemma {:induction false} SparingKeepsLatest(setup: Setup, steps: seq<Step>, node: string, source: Source)
    requires forall j :: 0 <= j < |steps| && IsMaintenance(steps[j].action) ==>
               Spares(Run(setup, steps[..j]), setup, steps[j], node, source)
    ensures KeepsLatest(setup, steps, node, source)
  {
    hide Next, Spares;
    if steps != [] {
      var front, s := steps[..|steps| - 1], steps[|steps| - 1];
      assert forall j :: 0 <= j < |front| ==> steps[..j] == front[..j] && steps[j] == front[j];
      SparingKeepsLatest(setup, front, node, source);
      if IsMaintenance(s.action) {
        var t := Run(setup, front);
        SparesExactly(t, setup, s, node, source);
        LatestIsNewestSample(t.snapshots, node, source);
        LatestIsNewestSample(Next(t, setup, s).snapshots, node, source);
      }
    }
  }

  // --- the latest snapshot over a run ---------------------------------------------------------------------

  /** The samples of a group a run records: delivered versions without repetitions, or accepted posts. */
  ghost function Recordings(steps: seq<Step>, node: string, source: Source): seq<Timed<Snapshot>> {
    if source == API then Collapse(Arrivals(steps, node, source)) else Arrivals(steps, node, source)
  }

  /** The accepted posts of a group are in time order; only agent groups have posts. */
  ghost predicate Orderly(steps: seq<Step>, node: string, source: Source) {
    source == Agent ==> InTimeOrder(Posted(steps, node))
  }

  lemma OrderlyPrefix(steps: seq<Step>, node: string, source: Source)
    requires Orderly(steps, node, source) && steps != []
    ensures Orderly(steps[..|steps| - 1], node, source)
  {
    hide Brings;
    assert Posted(steps[..|steps| - 1], node) <= Posted(steps, node);
  }

  ghost predicate TimesUpTo(s: seq<Timed<Snapshot>>, end: int) {
    forall i :: 0 <= i < |s| ==> s[i].time <= end
  }

  lemma DeliverySnoc(s: seq<Timed<Snapshot>>, t: int, snap: Snapshot, node: string)
    requires InTimeOrder(s) && TimesUpTo(s, t) && AllOwn(s, node) && Own(snap, node)
    ensures InTimeOrder(s + [Timed(t, snap)]) && TimesUpTo(s + [Timed(t, snap)], t) &&
            AllOwn(s + [Timed(t, snap)], node)
  {
  }

  lemma {:induction false} DeliveredInOrder(start: int, steps: seq<Step>, end: int, node: string)
    requires LegalBetween(start, steps, end)
    ensures var d := Delivered(steps, node);
            InTimeOrder(d) && TimesUpTo(d, Ms(end)) && AllOwn(d, node)
  {
    hide NodeSample, Own, WellFormed, Normalised;
    if steps != [] {
      LegalPrefix(start, steps, end);
      var front, s := steps[..|steps| - 1], steps[|steps| - 1];
      DeliveredInOrder(start, front, s.now, node);
      MsMonotone(s.now, end);
      if s.action.NodeDelivered? && s.action.node.name == node {
        NodeSampleIsOwn(s.action.node);
        DeliverySnoc(Delivered(front, node), Ms(s.now), NodeSample(s.action.node), node);
      }
    }
  }

  lemma {:induction false} CollapseIsPart(s: seq<Timed<Snapshot>>)
    ensures forall x :: x in Collapse(s) ==> x in s
  {
    if s != [] { CollapseIsPart(s[..|s| - 1]); }
  }

  lemma {:induction false} CollapseInOrder(s: seq<Timed<Snapshot>>)
    requires InTimeOrder(s)
    ensures InTimeOrder(Collapse(s))
  {
    if s != [] {
      var r := Collapse(s[..|s| - 1]);
      CollapseInOrder(s[..|s| - 1]);
      CollapseIsPart(s[..|s| - 1]);
      assert forall i :: 0 <= i < |r| ==> r[i] in s[..|s| - 1];
    }
  }

  lemma CollapseOwn(s: seq<Timed<Snapshot>>, node: string)
    requires AllOwn(s, node)
    ensures AllOwn(Collapse(s), node)
  {
    CollapseIsPart(s);
    forall i | 0 <= i < |Collapse(s)| ensures Own(Collapse(s)[i].val, node) { assert Collapse(s)[i] in s; }
  }

  lemma OthersBringNothing(s: Step, node: string, source: Source)
    requires source != API && source != Agent
    ensures Brings(s, node, source) == None
  {
  }

  lemma {:induction false} OthersHaveNothing(steps: seq<Step>, node: string, source: Source)
    requires source != API && source != Agent
    ensures Arrivals(steps, node, source) == []
  {
    hide Brings;
    if steps != [] {
      OthersHaveNothing(steps[..|steps| - 1], node, source);
      OthersBringNothing(steps[|steps| - 1], node, source);
    }
  }

  lemma RecordingsInOrder(start: int, steps: seq<Step>, end: int, node: string, source: Source)
    requires LegalBetween(start, steps, end) && Orderly(steps, node, source)
    ensures InTimeOrder(Recordings(steps, node, source))
    ensures source == API ==> AllOwn(Recordings(steps, node, source), node)
  {
    hide Arrivals, Collapse, Own;
    if source == API {
      DeliveredInOrder(start, steps, end, node);
      CollapseInOrder(Delivered(steps, node));
      CollapseOwn(Delivered(steps, node), node);
    } else if source != Agent {
      OthersHaveNothing(steps, node, source);
    }
  }

  lemma ResyncCollapses(d: seq<Timed<Snapshot>>, t: int, snap: Snapshot)
    ensures Collapse(d + [Timed(t, snap)]) ==
            if Last(Collapse(d)).Some? && Last(Collapse(d)).value.val == snap then Collapse(d)
              else Collapse(d) + [Timed(t, snap)]
  {
    CollapseSnoc(d, Timed(t, snap));
  }

  /** A step adds to the recordings what it records. */
  lemma RecordingsSnoc(steps: seq<Step>, s: Step, samples: seq<Timed<Snapshot>>, node: string, source: Source)
    requires NewestSample(samples) == Last(Recordings(steps, node, source))
    ensures Recordings(steps + [s], node, source) ==
            match RecordedBy(s, samples, node, source)
            case None => Recordings(steps, node, source)
            case Some(x) => Recordings(steps, node, source) + [x]
  {
    hide Brings, Collapse, Arrivals, NewestSample;
    ArrivalsSnoc(steps, s, node, source);
    var b := Brings(s, node, source);
    if b.Some? && source == API { ResyncCollapses(Delivered(steps, node), b.value.time, b.value.val); }
  }

  lemma RecordingsGrow(steps: seq<Step>, s: Step, samples: seq<Timed<Snapshot>>, node: string, source: Source,
      e: Option<Timed<Snapshot>>)
    requires NewestSample(samples) == Last(Recordings(steps, node, source)) && e == RecordedBy(s, samples, node, source)
    ensures e.Some? ==> Recordings(steps + [s], node, source) == Recordings(steps, node, source) + [e.value]
    ensures e == None ==> Recordings(steps + [s], node, source) == Recordings(steps, node, source)
    ensures e.Some? && InTimeOrder(Recordings(steps + [s], node, source)) && Recordings(steps, node, source) != [] ==>
            Last(Recordings(steps, node, source)).value.time <= e.value.time
  {
    hide NewestSample, Recordings, RecordedBy;
    RecordingsSnoc(steps, s, samples, node, source);
    var r := Recordings(steps, node, source);
    if e.Some? && r != [] && InTimeOrder(r + [e.value]) {
      var all := r + [e.value];
      assert all[|r| - 1].time <= all[|r|].time;
    }
  }

  lemma MaintenanceRecordsNothing(steps: seq<Step>, s: Step, node: string, source: Source)
    requires IsMaintenance(s.action)
    ensures Recordings(steps + [s], node, source) == Recordings(steps, node, source)
  {
    hide Collapse;
    ArrivalsSnoc(steps, s, node, source);
    assert Arrivals(steps + [s], node, source) == Arrivals(steps, node, source);
  }

  lemma NothingRecordedYet(node: string, source: Source)
    ensures Recordings([], node, source) == [] && GroupOf(EMPTY, node, source) == Group([], []) &&
            NewestSample([]) == None
  {
  }

  /** The latest sample stored is the last one the run recorded. */
  ghost predicate EndsAsRecorded(setup: Setup, steps: seq<Step>, node: string, source: Source) {
    StoredLatest(Run(setup, steps), node, source) == Last(Recordings(steps, node, source))
  }

  ghost predicate EndsAsRecordedThroughout(setup: Setup, steps: seq<Step>, node: string, source: Source) {
    forall j :: 0 <= j <= |steps| ==> EndsAsRecorded(setup, steps[..j], node, source)
  }

  lemma EndsSplits(setup: Setup, steps: seq<Step>, node: string, source: Source)
    requires steps != []
    ensures EndsAsRecordedThroughout(setup, steps, node, source) <==>
            EndsAsRecordedThroughout(setup, steps[..|steps| - 1], node, source) &&
            EndsAsRecorded(setup, steps, node, source)
  {
    hide EndsAsRecorded;
    var front := steps[..|steps| - 1];
    assert steps[..|steps|] == steps;
    assert forall j :: 0 <= j <= |front| ==> steps[..j] == front[..j];
  }

  lemma NewestAfter(t: Tables, setup: Setup, s: Step, node: string, source: Source)
    requires !IsMaintenance(s.action) && (source == API ==> LatestIsOwn(t, node))
    ensures var newest := StoredLatest(t, node, source);
            var e := RecordedBy(s, Samples(t.snapshots, node, source), node, source);
            StoredLatest(Next(t, setup, s), node, source) ==
            if e.Some? && (newest.Some? ==> newest.value.time <= e.value.time) then e else newest
  {
    hide Next, Samples, NewestSample, RecordedBy, LatestIsOwn, Log, Following;
    StepExtends(t, setup, s, node, source);
    var e := RecordedBy(s, Samples(t.snapshots, node, source), node, source);
    if e.Some? { NewestSampleSnoc(Samples(t.snapshots, node, source), e.value); }
  }

  /** One step: as long as the latest sample stored is the last one recorded, it stays so exactly when maintenance
      spares it and a recorded sample is no older. */
  lemma StepEnds(setup: Setup, front: seq<Step>, s: Step, node: string, source: Source)
    requires EndsAsRecorded(setup, front, node, source)
    ensures var t, r := Run(setup, front), Recordings(front, node, source);
            var e := RecordedBy(s, Samples(t.snapshots, node, source), node, source);
            EndsAsRecorded(setup, front + [s], node, source) <==>
            && (IsMaintenance(s.action) ==>
                  StoredLatest(Next(t, setup, s), node, source) == StoredLatest(t, node, source))
            && (e.Some? && r != [] ==> Last(r).value.time <= e.value.time)
  {
    hide Next, Recordings, NewestSample, RecordedBy, LatestIsOwn, Samples;
    var t := Run(setup, front);
    var e := RecordedBy(s, Samples(t.snapshots, node, source), node, source);
    RunSnoc(EMPTY, setup, front, s);
    if IsMaintenance(s.action) {
      MaintenanceRecordsNothing(front, s, node, source);
      MaintenanceRecordedNothing(s, Samples(t.snapshots, node, source), node, source);
    } else {
      ApiSnapshotsAreOwn(setup, front, node);
      NewestAfter(t, setup, s, node, source);
      RecordingsGrow(front, s, Samples(t.snapshots, node, source), node, source, e);
    }
  }

  lemma MaintenanceRecordedNothing(s: Step, samples: seq<Timed<Snapshot>>, node: string, source: Source)
    requires IsMaintenance(s.action)
    ensures RecordedBy(s, samples, node, source) == None
  {
  }

  lemma OrderSnoc(s: seq<Timed<Snapshot>>, x: Timed<Snapshot>)
    ensures InTimeOrder(s + [x]) <==> InTimeOrder(s) && (s != [] ==> Last(s).value.time <= x.time)
  {
    if InTimeOrder(s + [x]) {
      var all := s + [x];
      forall i, j | 0 <= i < j < |s| ensures s[i].time <= s[j].time { assert all[i].time <= all[j].time; }
      if s != [] { assert all[|s| - 1].time <= all[|s|].time; }
    }
  }

  /** Whether the posts stay in order depends on the next one alone. */
  lemma OrderlySnoc(steps: seq<Step>, s: Step, samples: seq<Timed<Snapshot>>, node: string)
    ensures var r, e := Recordings(steps, node, Agent), RecordedBy(s, samples, node, Agent);
            Orderly(steps + [s], node, Agent) <==>
            Orderly(steps, node, Agent) && (e.Some? && r != [] ==> Last(r).value.time <= e.value.time)
  {
    hide Brings, Arrivals, InTimeOrder, Last;
    ArrivalsSnoc(steps, s, node, Agent);
    var b := Brings(s, node, Agent);
    if b.Some? { OrderSnoc(Posted(steps, node), b.value); }
  }

  /** Versions of a node are delivered in time order, so a recorded one is never older than the last. */
  lemma DeliveriesFollow(setup: Setup, start: int, steps: seq<Step>, s: Step, node: string, source: Source)
    requires LegalBetween(start, steps + [s], s.now) && source != Agent
    requires EndsAsRecorded(setup, steps, node, source)
    ensures var r := Recordings(steps, node, source);
            var e := RecordedBy(s, Samples(Run(setup, steps).snapshots, node, source), node, source);
            e.Some? && r != [] ==> Last(r).value.time <= e.value.time
  {
    hide RunFrom, Recordings, RecordedBy, NewestSample, Samples, LegalBetween;
    var samples := Samples(Run(setup, steps).snapshots, node, source);
    RecordingsInOrder(start, steps + [s], s.now, node, source);
    RecordingsGrow(steps, s, samples, node, source, RecordedBy(s, samples, node, source));
  }

  /** In every run, all along it, the latest sample stored of a node and source is the last one recorded if and only if
      maintenance spares it and posts come in time order. */
  lemma {:induction false} LatestIsLastExactly(setup: Setup, start: int, steps: seq<Step>, end: int, node: string,
      source: Source)
    requires LegalBetween(start, steps, end)
    ensures EndsAsRecordedThroughout(setup, steps, node, source) <==>
            KeepsLatest(setup, steps, node, source) && Orderly(steps, node, source)
  {
    hide Next, Recordings, RecordedBy, StoredLatest, EndsAsRecorded, Orderly, EndsAsRecordedThroughout, Samples;
    if steps == [] {
      NothingEnds(setup, node, source);
    } else {
      LegalPrefix(start, steps, end);
      var front, s := steps[..|steps| - 1], steps[|steps| - 1];
      assert front + [s] == steps;
      LatestIsLastExactly(setup, start, front, s.now, node, source);
      EndsSplits(setup, steps, node, source);
      if EndsAsRecordedThroughout(setup, front, node, source) {
        EndsAtEnd(setup, front, node, source);
        StepEnds(setup, front, s, node, source);
      }
      if source == Agent {
        OrderlySnoc(front, s, Samples(Run(setup, front).snapshots, node, source), node);
      } else {
        OthersOrderly(steps, node, source);
        OthersOrderly(front, node, source);
        if EndsAsRecorded(setup, front, node, source) { DeliveriesFollow(setup, start, front, s, node, source); }
      }
    }
  }

  lemma OthersOrderly(steps: seq<Step>, node: string, source: Source)
    requires source != Agent
    ensures Orderly(steps, node, source)
  {
  }

  lemma NothingEnds(setup: Setup, node: string, source: Source)
    ensures EndsAsRecordedThroughout(setup, [], node, source)
    ensures KeepsLatest(setup, [], node, source) && Orderly([], node, source)
  {
    hide Next;
    NothingRecordedYet(node, source);
  }

  lemma EndsAtEnd(setup: Setup, steps: seq<Step>, node: string, source: Source)
    requires EndsAsRecordedThroughout(setup, steps, node, source)
    ensures EndsAsRecorded(setup, steps, node, source)
  {
    hide EndsAsRecorded;
    assert steps[..|steps|] == steps;
  }

  // --- sparing the latest is enough ---------------------------------------------------------------------------

  lemma LastRecordedIsLast(steps: seq<Step>, node: string, source: Source)
    ensures var r, a := Last(Recordings(steps, node, source)), Last(Arrivals(steps, node, source));
            (r == None <==> a == None) && (a.Some? ==> r.value.val == a.value.val)
  {
    hide Arrivals;
    if source == API && Arrivals(steps, node, source) != [] { CollapseEndsAlike(Arrivals(steps, node, source)); }
  }

  lemma EndingComparesAlike(setup: Setup, front: seq<Step>, s: Step, node: string, source: Source, cut: int)
    requires EndsAsRecorded(setup, front, node, source)
    ensures ComparedAlike(setup, front, s, node, source, cut)
  {
    hide RunFrom, Recordings, Arrivals, StoredLatest, Brings, Between, Last;
    LastRecordedIsLast(front, node, source);
  }

  /** Where maintenance spares the latest sample and posts come in time order, everything is compared alike. */
  lemma KeptLatestComparesAlike(setup: Setup, start: int, steps: seq<Step>, end: int, node: string, source: Source,
      cut: int)
    requires LegalBetween(start, steps, end) && KeepsLatest(setup, steps, node, source) && Orderly(steps, node, source)
    ensures AllComparedAlike(setup, steps, node, source, cut)
  {
    hide RunFrom, ComparedAlike, EndsAsRecorded, KeepsLatest, Orderly;
    LatestIsLastExactly(setup, start, steps, end, node, source);
    forall j | 0 <= j < |steps| ensures ComparedAlike(setup, steps[..j], steps[j], node, source, cut) {
      EndingComparesAlike(setup, steps[..j], steps[j], node, source, cut);
    }
  }

  /** So then, as far back as changes are kept, the log is the comparison of consecutive arrivals; and all of it is,
      if no change of the group was deleted. */
  lemma RetainedLog(setup: Setup, start: int, steps: seq<Step>, end: int, node: string, source: Source)
    requires LegalBetween(start, steps, end) && KeepsLatest(setup, steps, node, source) && Orderly(steps, node, source)
    ensures AgreesThroughout(setup, steps, node, source, Ms(end - setup.keep.changes))
    ensures Agrees(setup, steps, node, source, Ms(end - setup.keep.changes))
    ensures KeepsLog(setup, steps, node, source) ==>
              Log(Run(setup, steps).changes, node, source) == PairLog(Arrivals(steps, node, source))
  {
    hide RunFrom, KeepsLatest, Orderly, AgreesThroughout, AllComparedAlike, Agrees, KeepsLog, Written, PairLog, Log;
    var cut := Ms(end - setup.keep.changes);
    forall c ensures AllComparedAlike(setup, steps, node, source, c) {
      KeptLatestComparesAlike(setup, start, steps, end, node, source, c);
    }
    AgreesExactly(setup, start, steps, end, node, source, cut);
    AgreesAtEnd(setup, steps, node, source, cut);
    AlikeIsWhole(setup, steps, node, source);
    if KeepsLog(setup, steps, node, source) { WholeLogIsWritten(setup, steps, node, source); }
  }

  // --- what is stored ------------------------------------------------------------------------------------------

  /** No prune and no size cap deletes a snapshot. */
  ghost predicate KeepsSnapshots(setup: Setup, steps: seq<Step>) {
    steps != [] ==>
      var front, s := steps[..|steps| - 1], steps[|steps| - 1];
      && KeepsSnapshots(setup, front)
      && (IsMaintenance(s.action) ==> Next(Run(setup, front), setup, s).snapshots == Run(setup, front).snapshots)
  }

  lemma {:induction false} KeepingAllKeepsLatest(setup: Setup, steps: seq<Step>, node: string, source: Source)
    requires KeepsSnapshots(setup, steps)
    ensures KeepsLatest(setup, steps, node, source)
  {
    hide Next;
    if steps != [] { KeepingAllKeepsLatest(setup, steps[..|steps| - 1], node, source); }
  }

  /** When no snapshot is deleted, the stored samples are the recordings. */
  lemma {:induction false} SamplesOfRun(setup: Setup, start: int, steps: seq<Step>, end: int, node: string,
      source: Source)
    requires LegalBetween(start, steps, end) && KeepsSnapshots(setup, steps) && Orderly(steps, node, source)
    ensures Samples(Run(setup, steps).snapshots, node, source) == Recordings(steps, node, source)
  {
    hide Next, Recordings, RecordedBy, NewestSample, LatestIsOwn, EndsAsRecordedThroughout, KeepsLatest, Orderly;
    if steps == [] {
      NothingRecordedYet(node, source);
    } else {
      LegalPrefix(start, steps, end);
      OrderlyPrefix(steps, node, source);
      var front, s := steps[..|steps| - 1], steps[|steps| - 1];
      assert front + [s] == steps;
      SamplesOfRun(setup, start, front, s.now, node, source);
      if IsMaintenance(s.action) {
        MaintenanceRecordsNothing(front, s, node, source);
      } else {
        KeepingAllKeepsLatest(setup, front, node, source);
        LatestIsLastExactly(setup, start, front, s.now, node, source);
        EndsAtEnd(setup, front, node, source);
        ApiSnapshotsAreOwn(setup, front, node);
        StepExtends(Run(setup, front), setup, s, node, source);
        RecordingsGrow(front, s, Recordings(front, node, source), node, source,
                       RecordedBy(s, Recordings(front, node, source), node, source));
      }
    }
  }

  // --- what this means for api and agent logs ------------------------------------------------------------------

  /** Two comparisons of the same sample agree exactly when both are with the same fields. */
  lemma DiffTellsBefore(a: Snapshot, b: Snapshot, cur: Snapshot, node: string)
    requires Own(a, node) && Own(b, node) && Own(cur, node)
    ensures Between(a, cur) == Between(b, cur) <==> a == b
  {
    hide Diff, PlainFields;
    OwnSamplesCompare(a, cur, node);
    OwnSamplesCompare(b, cur, node);
    if Between(a, cur) == Between(b, cur) {
      forall k | k in NODE_KEYS ensures a.fields[k] == b.fields[k] { SameDiffSameField(a, b, cur, node, k); }
      assert a.fields == b.fields;
    }
  }

  lemma SameDiffSameField(a: Snapshot, b: Snapshot, cur: Snapshot, node: string, k: string)
    requires Own(a, node) && Own(b, node) && Own(cur, node) && Diff(a, cur) == Diff(b, cur) && k in NODE_KEYS
    ensures a.fields[k] == b.fields[k]
  {
    hide Diff;
    assert k in a.fields && k in b.fields && k in cur.fields;
    assert a.fields[k].Plain() && b.fields[k].Plain() && cur.fields[k].Plain();
    var x, y := ChangeAt(a, cur, k), ChangeAt(b, cur, k);
    if x.Some? { DiffMembers(a, cur, x.value); DiffMembers(b, cur, x.value); }
    if y.Some? { DiffMembers(a, cur, y.value); DiffMembers(b, cur, y.value); }
  }

  /** The latest snapshot stored of a node says what its last delivered version said; or nothing is stored, and this is
      the first delivery or says the same again. */
  ghost predicate StoredSaysLast(setup: Setup, front: seq<Step>, node: string, cur: Snapshot) {
    match (StoredLatest(Run(setup, front), node, API), Last(Delivered(front, node)))
    case (Some(b), Some(l)) => b.val == l.val
    case (None, Some(l)) => l.val == cur
    case (Some(b), None) => b.val == cur
    case (None, None) => true
  }

  lemma DeliveryComparedAlike(setup: Setup, start: int, front: seq<Step>, s: Step, node: string, cut: int)
    requires LegalBetween(start, front, s.now)
    ensures ComparedAlike(setup, front, s, node, API, cut) <==>
            (Brings(s, node, API).Some? && cut <= Brings(s, node, API).value.time ==>
               StoredSaysLast(setup, front, node, Brings(s, node, API).value.val))
  {
    hide RunFrom, Arrivals, StoredLatest, Between, Own, NodeSample;
    ApiSnapshotsAreOwn(setup, front, node);
    DeliveredInOrder(start, front, s.now, node);
    var b := Brings(s, node, API);
    if b.Some? {
      NodeSampleIsOwn(s.action.node);
      var stored, last := StoredLatest(Run(setup, front), node, API), Last(Delivered(front, node));
      NothingBetweenExactly(stored, b.value.val, node);
      NothingBetweenExactly(last, b.value.val, node);
      if stored.Some? && last.Some? { DiffTellsBefore(stored.value.val, last.value.val, b.value.val, node); }
    }
  }

  lemma NothingBetweenExactly(latest: Option<Timed<Snapshot>>, cur: Snapshot, node: string)
    requires Own(cur, node) && (latest.Some? ==> Own(latest.value.val, node))
    ensures Following(latest, cur) == [] <==> latest == None || latest.value.val == cur
  {
    hide Own, Between;
    if latest.Some? {
      NothingBetweenEqual(cur);
      DiffTellsBefore(latest.value.val, cur, cur, node);
    }
  }

  /** At every delivery from `cut` on. */
  ghost predicate StoredAlwaysSaysLast(setup: Setup, steps: seq<Step>, node: string, cut: int) {
    forall j ::
      0 <= j < |steps| && Brings(steps[j], node, API).Some? && cut <= Brings(steps[j], node, API).value.time ==>
      StoredSaysLast(setup, steps[..j], node, Brings(steps[j], node, API).value.val)
  }

  /** Skipping resyncs, in every run: all along it, the change log of a node as far back as changes are kept is the
      one obtained by storing and comparing every delivered version, if and only if at every delivery since then the
      latest snapshot stored says what the version before it said. Sparing the latest snapshot is enough; then the
      whole log is, if no change was deleted. */
  lemma SkippingIsInvisible(setup: Setup, start: int, steps: seq<Step>, end: int, node: string)
    requires LegalBetween(start, steps, end)
    ensures var cut := Ms(end - setup.keep.changes);
            && (AgreesThroughout(setup, steps, node, API, cut) <==> StoredAlwaysSaysLast(setup, steps, node, cut))
            && (KeepsLatest(setup, steps, node, API) ==> AgreesThroughout(setup, steps, node, API, cut))
    ensures KeepsLatest(setup, steps, node, API) && KeepsLog(setup, steps, node, API) ==>
              Log(Run(setup, steps).changes, node, API) == PairLog(Delivered(steps, node))
  {
    hide RunFrom, KeepsLatest, KeepsLog, PairLog, AgreesThroughout, Agrees, ComparedAlike, StoredSaysLast, Brings, Log;
    var cut := Ms(end - setup.keep.changes);
    AgreesExactly(setup, start, steps, end, node, API, cut);
    forall j | 0 <= j < |steps|
      ensures ComparedAlike(setup, steps[..j], steps[j], node, API, cut) <==>
              (Brings(steps[j], node, API).Some? && cut <= Brings(steps[j], node, API).value.time ==>
                 StoredSaysLast(setup, steps[..j], node, Brings(steps[j], node, API).value.val))
    {
      LegalTo(start, steps, end, j);
      DeliveryComparedAlike(setup, start, steps[..j], steps[j], node, cut);
    }
    if KeepsLatest(setup, steps, node, API) {
      OthersOrderly(steps, node, API);
      RetainedLog(setup, start, steps, end, node, API);
    }
  }

  lemma LegalTo(start: int, steps: seq<Step>, end: int, j: nat)
    requires LegalBetween(start, steps, end) && j < |steps|
    ensures LegalBetween(start, steps[..j], steps[j].now)
  {
    assert start <= steps[j].now;
  }

  /** Redelivery, in every run: all along it, an agent's change log as far back as changes are kept is the pairwise
      comparison, driver changes included, of the accepted posts with consecutive repetitions collapsed, if and only
      if each is compared with the latest sample stored as with the post before it. Sparing the latest sample is
      enough where posts come in time order; then the whole log is, if no change was deleted. */
  lemma RedeliveryIsInvisible(setup: Setup, start: int, steps: seq<Step>, end: int, node: string)
    requires LegalBetween(start, steps, end)
    ensures var cut := Ms(end - setup.keep.changes);
            && (AgreesThroughout(setup, steps, node, Agent, cut) <==>
                AllComparedAlike(setup, steps, node, Agent, cut))
            && (KeepsLatest(setup, steps, node, Agent) && InTimeOrder(Posted(steps, node)) ==>
                  AllComparedAlike(setup, steps, node, Agent, cut))
            && (AllComparedAlike(setup, steps, node, Agent, cut) ==>
                  From(Log(Run(setup, steps).changes, node, Agent), cut) ==
                  From(PairLog(Collapse(Posted(steps, node))), cut))
    ensures KeepsLatest(setup, steps, node, Agent) && InTimeOrder(Posted(steps, node)) &&
            KeepsLog(setup, steps, node, Agent) ==>
              Log(Run(setup, steps).changes, node, Agent) == PairLog(Collapse(Posted(steps, node)))
  {
    hide RunFrom, KeepsLatest, KeepsLog, PairLog, AgreesThroughout, AllComparedAlike, Arrivals, Collapse, InTimeOrder,
        Log, From;
    var cut := Ms(end - setup.keep.changes);
    AgreesExactly(setup, start, steps, end, node, Agent, cut);
    CollapseKeepsLog(Posted(steps, node));
    if AllComparedAlike(setup, steps, node, Agent, cut) { AgreesAtEnd(setup, steps, node, Agent, cut); }
    if KeepsLatest(setup, steps, node, Agent) && InTimeOrder(Posted(steps, node)) {
      KeptLatestComparesAlike(setup, start, steps, end, node, Agent, cut);
      RetainedLog(setup, start, steps, end, node, Agent);
    }
  }

  /** The latest stored agent sample is the last accepted post, all along a run, if and only if maintenance spares it
      and posts come in time order. */
  lemma LatestIsLastPost(setup: Setup, start: int, steps: seq<Step>, end: int, node: string)
    requires LegalBetween(start, steps, end)
    ensures (forall j :: 0 <= j <= |steps| ==>
               StoredLatest(Run(setup, steps[..j]), node, Agent) == Last(Posted(steps[..j], node))) <==>
            KeepsLatest(setup, steps, node, Agent) && InTimeOrder(Posted(steps, node))
  {
    hide RunFrom, KeepsLatest, InTimeOrder, Arrivals, StoredLatest, Last;
    LatestIsLastExactly(setup, start, steps, end, node, Agent);
    forall j | 0 <= j <= |steps|
      ensures EndsAsRecorded(setup, steps[..j], node, Agent) <==>
              StoredLatest(Run(setup, steps[..j]), node, Agent) == Last(Posted(steps[..j], node))
    {
    }
  }
}
