/** Replaying a node's change log over whole runs: exactly when the log leads from one version to the last. */
module ReplayRuns {
  import opened Sample
  import opened Rows
  import opened Text
  import opened Differ
  import opened Schema
  import opened Convert
  import opened Recorder
  import opened PruneRuns
  import opened SampleLogs
  import opened ArrivalRuns
  import opened LogRuns

  // --- one more version -----------------------------------------------------------------------

  /** The version in force at `cut`: the last one before it, or the very first. */
  function InForceAt(arrivals: seq<Timed<Snapshot>>, cut: int): Timed<Snapshot>
    requires arrivals != []
  {
    var front, x := arrivals[..|arrivals| - 1], arrivals[|arrivals| - 1];
    if front == [] || x.time < cut then x else InForceAt(front, cut)
  }

  /** Wherever the new version differs from the last one, it differs from what it is compared with. */
  predicate ChangesNoticed(stored: Option<Timed<Snapshot>>, last: Snapshot, cur: Snapshot) {
    forall k :: k in cur.fields && !(k in last.fields && last.fields[k] == cur.fields[k]) ==>
      stored.Some? && !(k in stored.value.val.fields && stored.value.val.fields[k] == cur.fields[k])
  }

  lemma ReplayedKey(b: Snapshot, last: Snapshot, cur: Snapshot, node: string, k: string)
    requires Own(b, node) && Own(last, node) && Own(cur, node)
    ensures var r := Replay(last.fields, Diff(b, cur));
            && (k in r <==> k in cur.fields)
            && (k in cur.fields ==> k in last.fields && k in b.fields)
            && (k in cur.fields ==>
                  r[k] == if b.fields[k] == cur.fields[k] then last.fields[k] else cur.fields[k])
  {
    hide Replay, Own, ChangeAt, DiffOver;
    OwnField(b, node, k);
    OwnField(last, node, k);
    OwnField(cur, node, k);
    ReplayOver(last.fields, b, cur, SortedKeys(b.fields.Keys + cur.fields.Keys), k);
    if k in cur.fields { PlainChange(b, cur, k); }
  }

  lemma OwnField(s: Snapshot, node: string, k: string)
    requires Own(s, node)
    ensures (k in s.fields <==> k in NODE_KEYS) && (k in s.fields ==> s.fields[k].Plain())
  {
    assert k in s.fields <==> k in s.fields.Keys;
  }

  lemma PlainChange(prev: Snapshot, cur: Snapshot, k: string)
    requires k in prev.fields && k in cur.fields && prev.fields[k].Plain() && cur.fields[k].Plain()
    ensures ChangeAt(prev, cur, k).Some? <==> prev.fields[k] != cur.fields[k]
    ensures Reading(cur.fields, k) == cur.fields[k]
  {
  }

  /** Applying what a version leaves in the log to the fields of the last one gives its fields exactly when no change of
      it goes unnoticed. */
  lemma ReplayOneExactly(stored: Option<Timed<Snapshot>>, last: Snapshot, cur: Snapshot, node: string)
    requires Own(last, node) && Own(cur, node) && (stored.Some? ==> Own(stored.value.val, node))
    ensures Replay(last.fields, Following(stored, cur)) == cur.fields <==> ChangesNoticed(stored, last, cur)
  {
    hide Replay, PlainFields, Diff;
    assert last.fields.Keys == cur.fields.Keys;
    match stored
    case None =>
      NothingReplayed(last.fields);
      assert last.fields == cur.fields <==> forall k :: k in cur.fields.Keys ==> last.fields[k] == cur.fields[k];
    case Some(b) =>
      var r := Replay(last.fields, Diff(b.val, cur));
      OwnSamplesCompare(b.val, cur, node);
      forall k
        ensures k in r <==> k in cur.fields
        ensures k in cur.fields ==> k in last.fields && k in b.val.fields
        ensures k in cur.fields ==>
                  r[k] == if b.val.fields[k] == cur.fields[k] then last.fields[k] else cur.fields[k]
      {
        ReplayedKey(b.val, last, cur, node, k);
      }
      if forall k :: k in cur.fields ==> r[k] == cur.fields[k] { SameMap(r, cur.fields); }
  }

  /** Written entries that replay to the last version of these, from the one in force at `cut`. */
  ghost predicate ReplaysTo(arrivals: seq<Timed<Snapshot>>, log: seq<Timed<Change>>, cut: int) {
    arrivals != [] ==>
      Replay(InForceAt(arrivals, cut).val.fields, Values(From(log, cut))) == arrivals[|arrivals| - 1].val.fields
  }

  lemma InForceSnoc(arrivals: seq<Timed<Snapshot>>, x: Timed<Snapshot>, cut: int)
    ensures InForceAt(arrivals + [x], cut) == if arrivals == [] || x.time < cut then x else InForceAt(arrivals, cut)
  {
    assert (arrivals + [x])[..|arrivals + [x]| - 1] == arrivals;
  }

  /** As long as the log replays, one more version keeps it so exactly when its changes are noticed. */
  lemma OneMoreReplays(arrivals: seq<Timed<Snapshot>>, written: seq<Timed<Change>>, stored: Option<Timed<Snapshot>>,
      x: Timed<Snapshot>, cut: int, node: string)
    requires AllOwn(arrivals, node) && Own(x.val, node) && (stored.Some? ==> Own(stored.value.val, node))
    requires x.time < cut || arrivals == [] ==> From(written, cut) == []
    requires arrivals == [] ==> stored == None
    requires ReplaysTo(arrivals, written, cut)
    ensures ReplaysTo(arrivals + [x], written + Stamp(x.time, Following(stored, x.val)), cut) <==>
            (arrivals != [] && cut <= x.time ==> ChangesNoticed(stored, arrivals[|arrivals| - 1].val, x.val))
  {
    hide Own, Replay, Values, From, Following, InForceAt, ChangesNoticed;
    var cs := Following(stored, x.val);
    InForceSnoc(arrivals, x, cut);
    FromConcat(written, Stamp(x.time, cs), cut);
    FromStamp(x.time, cs, cut);
    ValuesOfNone();
    NothingReplayed(x.val.fields);
    if arrivals != [] && cut <= x.time {
      var f, last := InForceAt(arrivals, cut).val.fields, arrivals[|arrivals| - 1].val;
      ValuesOfStamped(From(written, cut), x.time, cs);
      ReplayConcat(f, Values(From(written, cut)), cs);
      ReplayOneExactly(stored, last, x.val, node);
    } else if arrivals == [] {
      assert cs == [] by { NothingFollows(x.val); }
      assert Stamp(x.time, cs) == [];
    }
  }

  lemma NothingFollows(x: Snapshot)
    ensures Following(None, x) == []
  {
  }

  lemma ValuesOfNone()
    ensures Values([]) == []
  {
  }

  // --- before the first version, and before the cut -----------------------------------------------------

  /** Nothing is stored of a node before its first version comes. */
  lemma {:induction false} NothingStored(setup: Setup, steps: seq<Step>, node: string)
    requires Arrivals(steps, node, API) == []
    ensures Samples(Run(setup, steps).snapshots, node, API) == []
  {
    hide Next, Brings, Own, LatestIsOwn, Log;
    if steps != [] {
      var front, s := steps[..|steps| - 1], steps[|steps| - 1];
      var t := Run(setup, front);
      NothingStored(setup, front, node);
      if IsMaintenance(s.action) {
        MaintenanceOnlyDrops(t, setup, s);
        StillNothing(t.snapshots, Next(t, setup, s).snapshots, node);
      } else {
        ApiSnapshotsAreOwn(setup, front, node);
        StepExtends(t, setup, s, node, API);
      }
    }
  }

  lemma StillNothing(before: seq<Row<Snapshot>>, after: seq<Row<Snapshot>>, node: string)
    requires Samples(before, node, API) == [] && forall r :: r in after ==> r in before
    ensures Samples(after, node, API) == []
  {
    assert |Filter(before, Of(node, API))| == 0;
    forall r | r in after ensures !Of(node, API)(r) { assert Of(node, API)(r) ==> r in Filter(before, Of(node, API)); }
    FilterNone(after, Of(node, API));
  }

  ghost predicate AllBefore(s: seq<Timed<Snapshot>>, cut: int) {
    forall i :: 0 <= i < |s| ==> s[i].time < cut
  }

  lemma {:induction false} NothingWritten(setup: Setup, steps: seq<Step>, node: string, cut: int)
    requires AllBefore(Arrivals(steps, node, API), cut)
    ensures From(Written(setup, steps, node, API), cut) == []
  {
    hide Next, Brings, Following, StoredLatest, From;
    if steps == [] {
      NothingFrom(cut);
    } else {
      var front, s := steps[..|steps| - 1], steps[|steps| - 1];
      var a, b := Arrivals(steps, node, API), Brings(s, node, API);
      assert forall i :: 0 <= i < |Arrivals(front, node, API)| ==> a[i] == Arrivals(front, node, API)[i];
      NothingWritten(setup, front, node, cut);
      if b.Some? {
        assert a[|a| - 1] == b.value;
        var cs := Following(StoredLatest(Run(setup, front), node, API), b.value.val);
        FromConcat(Written(setup, front, node, API), Stamp(b.value.time, cs), cut);
        FromStamp(b.value.time, cs, cut);
      }
    }
  }

  lemma NothingFrom(cut: int)
    ensures From([], cut) == []
  {
  }

  // --- over a run ---------------------------------------------------------------------------------------

  /** The entries of a node's log from `cut` on, applied in order to the version in force at `cut`, give its last
      version. */
  ghost predicate Replays(setup: Setup, steps: seq<Step>, node: string, cut: int) {
    ReplaysTo(Delivered(steps, node), Log(Run(setup, steps).changes, node, API), cut)
  }

  ghost predicate ReplaysThroughout(setup: Setup, steps: seq<Step>, node: string, cut: int) {
    forall j :: 0 <= j <= |steps| ==> Replays(setup, steps[..j], node, cut)
  }

  /** What the step delivers of the node at or after `cut` has no change that the comparison with the latest snapshot
      stored does not notice; the first version has nothing to be compared with. */
  ghost predicate Noticed(setup: Setup, front: seq<Step>, s: Step, node: string, cut: int) {
    var x, before := Brings(s, node, API), Delivered(front, node);
    x.Some? && cut <= x.value.time && before != [] ==>
      ChangesNoticed(StoredLatest(Run(setup, front), node, API), before[|before| - 1].val, x.value.val)
  }

  ghost predicate AllNoticed(setup: Setup, steps: seq<Step>, node: string, cut: int) {
    forall j :: 0 <= j < |steps| ==> Noticed(setup, steps[..j], steps[j], node, cut)
  }

  lemma ReplaysSplits(setup: Setup, steps: seq<Step>, node: string, cut: int)
    requires steps != []
    ensures var front, s := steps[..|steps| - 1], steps[|steps| - 1];
            && (ReplaysThroughout(setup, steps, node, cut) <==>
                ReplaysThroughout(setup, front, node, cut) && Replays(setup, steps, node, cut))
            && (AllNoticed(setup, steps, node, cut) <==>
                AllNoticed(setup, front, node, cut) && Noticed(setup, front, s, node, cut))
  {
    hide Replays, Noticed;
    var front := steps[..|steps| - 1];
    assert steps[..|steps|] == steps;
    assert forall j :: 0 <= j <= |front| ==> steps[..j] == front[..j];
  }

  lemma ReplaysAtEnd(setup: Setup, steps: seq<Step>, node: string, cut: int)
    requires ReplaysThroughout(setup, steps, node, cut)
    ensures Replays(setup, steps, node, cut)
  {
    hide Replays;
    assert steps[..|steps|] == steps;
  }

  lemma NothingReplaysYet(setup: Setup, node: string, cut: int)
    ensures ReplaysThroughout(setup, [], node, cut) && AllNoticed(setup, [], node, cut)
  {
    hide Next;
  }

  lemma SameReplays(arrivals: seq<Timed<Snapshot>>, a: seq<Timed<Change>>, b: seq<Timed<Change>>, cut: int)
    requires From(a, cut) == From(b, cut)
    ensures ReplaysTo(arrivals, a, cut) <==> ReplaysTo(arrivals, b, cut)
  {
  }

  lemma EarlierVersions(start: int, front: seq<Step>, s: Step, node: string, cut: int)
    requires LegalBetween(start, front, s.now) && Brings(s, node, API).Some?
    ensures Brings(s, node, API).value.time < cut ==> AllBefore(Delivered(front, node), cut)
    ensures AllOwn(Delivered(front, node), node) && Own(Brings(s, node, API).value.val, node)
  {
    hide Arrivals, Own, NodeSample;
    DeliveredInOrder(start, front, s.now, node);
    NodeSampleIsOwn(s.action.node);
  }

  lemma StepReplays(setup: Setup, start: int, front: seq<Step>, s: Step, node: string, cut: int)
    requires LegalBetween(start, front, s.now)
    requires ReplaysTo(Delivered(front, node), Written(setup, front, node, API), cut)
    ensures ReplaysTo(Delivered(front + [s], node), Written(setup, front + [s], node, API), cut) <==>
            Noticed(setup, front, s, node, cut)
  {
    hide RunFrom, Brings, Following, StoredLatest, ReplaysTo, Own, ChangesNoticed, LatestIsOwn;
    assert (front + [s])[..|front + [s]| - 1] == front;
    ArrivalsSnoc(front, s, node, API);
    var b, before, written := Brings(s, node, API), Delivered(front, node), Written(setup, front, node, API);
    if b.Some? {
      var stored := StoredLatest(Run(setup, front), node, API);
      EarlierVersions(start, front, s, node, cut);
      ApiSnapshotsAreOwn(setup, front, node);
      OwnIfStored(setup, front, node);
      if b.value.time < cut || before == [] { NothingWritten(setup, front, node, cut); }
      if before == [] { NoneStored(setup, front, node); }
      OneMoreReplays(before, written, stored, b.value, cut, node);
    }
  }

  lemma NoneStored(setup: Setup, steps: seq<Step>, node: string)
    requires Arrivals(steps, node, API) == []
    ensures StoredLatest(Run(setup, steps), node, API) == None
  {
    hide RunFrom, Arrivals;
    NothingStored(setup, steps, node);
  }

  /** In every run, all along it: the log of a node as far back as changes are kept replays, from the version in force
      when that period began to the last one, if and only if every version delivered since then has its changes
      noticed. */
  lemma {:induction false} ReplaysExactly(setup: Setup, start: int, steps: seq<Step>, end: int, node: string, cut: int)
    requires LegalBetween(start, steps, end) && Ms(end - setup.keep.changes) <= cut
    ensures ReplaysThroughout(setup, steps, node, cut) <==> AllNoticed(setup, steps, node, cut)
  {
    hide RunFrom, Arrivals, Written, ReplaysTo, From, Log, Noticed, ReplaysThroughout, AllNoticed;
    if steps == [] {
      NothingReplaysYet(setup, node, cut);
    } else {
      LegalPrefix(start, steps, end);
      var front, s := steps[..|steps| - 1], steps[|steps| - 1];
      assert front + [s] == steps;
      MsMonotone(s.now - setup.keep.changes, end - setup.keep.changes);
      ReplaysExactly(setup, start, front, s.now, node, cut);
      ReplaysSplits(setup, steps, node, cut);
      LogIsWritten(setup, start, front, s.now, node, API, cut);
      LogIsWritten(setup, start, steps, end, node, API, cut);
      SameReplays(Delivered(front, node), Log(Run(setup, front).changes, node, API),
        Written(setup, front, node, API), cut);
      SameReplays(Delivered(steps, node), Log(Run(setup, steps).changes, node, API),
        Written(setup, steps, node, API), cut);
      if ReplaysThroughout(setup, front, node, cut) {
        ReplaysAtEnd(setup, front, node, cut);
        StepReplays(setup, start, front, s, node, cut);
      }
    }
  }

  lemma AlikeIsNoticed(stored: Option<Timed<Snapshot>>, last: Option<Timed<Snapshot>>, cur: Snapshot)
    requires last.Some?
    requires match stored case None => last.value.val == cur case Some(b) => b.val == last.value.val
    ensures ChangesNoticed(stored, last.value.val, cur)
  {
  }

  /** The change log of a node, in every run: as far back as changes are kept it replays all along the run exactly
      when no change of a delivered version goes unnoticed. It does where the latest snapshot stored always says what
      the last version said, so in every run that spares it; and then the replay ends with the fields of the latest
      snapshot stored, and the whole log replays from the first version if no change was deleted. */
  lemma LogReplays(setup: Setup, start: int, steps: seq<Step>, end: int, node: string)
    requires LegalBetween(start, steps, end)
    ensures var cut := Ms(end - setup.keep.changes);
            && (ReplaysThroughout(setup, steps, node, cut) <==> AllNoticed(setup, steps, node, cut))
            && (StoredAlwaysSaysLast(setup, steps, node, cut) ==> AllNoticed(setup, steps, node, cut))
            && (KeepsLatest(setup, steps, node, API) ==> Replays(setup, steps, node, cut))
    ensures var versions, t := Delivered(steps, node), Run(setup, steps);
            KeepsLatest(setup, steps, node, API) && versions != [] ==>
              && StoredLatest(t, node, API).Some?
              && StoredLatest(t, node, API).value.val == versions[|versions| - 1].val
              && (KeepsLog(setup, steps, node, API) ==>
                    Replay(versions[0].val.fields, Values(Log(t.changes, node, API))) ==
                    versions[|versions| - 1].val.fields)
  {
    hide RunFrom, Arrivals, StoredLatest, Noticed, Replays, ReplaysThroughout, KeepsLatest, KeepsLog,
        StoredAlwaysSaysLast, EndsAsRecordedThroughout, Agrees, AgreesThroughout, AllNoticed, Log, PairLog, Own;
    var cut := Ms(end - setup.keep.changes);
    ReplaysExactly(setup, start, steps, end, node, cut);
    if StoredAlwaysSaysLast(setup, steps, node, cut) { AlwaysNoticed(setup, steps, node, cut); }
    if KeepsLatest(setup, steps, node, API) {
      KeptLatestReplays(setup, start, steps, end, node);
      if Delivered(steps, node) != [] && KeepsLog(setup, steps, node, API) {
        SkippingIsInvisible(setup, start, steps, end, node);
        DeliveredInOrder(start, steps, end, node);
        OwnIsUniform(Delivered(steps, node), node);
        ReplayWholeLog(Delivered(steps, node), NODE_KEYS);
      }
    }
  }

  lemma OwnIsUniform(s: seq<Timed<Snapshot>>, node: string)
    requires AllOwn(s, node)
    ensures Uniform(s, NODE_KEYS)
  {
  }

  lemma AlwaysNoticed(setup: Setup, steps: seq<Step>, node: string, cut: int)
    requires StoredAlwaysSaysLast(setup, steps, node, cut)
    ensures AllNoticed(setup, steps, node, cut)
  {
    hide RunFrom, Brings, StoredLatest, Arrivals, ChangesNoticed;
    forall j | 0 <= j < |steps| ensures Noticed(setup, steps[..j], steps[j], node, cut) {
      var b, before := Brings(steps[j], node, API), Delivered(steps[..j], node);
      if b.Some? && cut <= b.value.time && before != [] {
        assert StoredSaysLast(setup, steps[..j], node, b.value.val);
        AlikeIsNoticed(StoredLatest(Run(setup, steps[..j]), node, API), Last(before), b.value.val);
      }
    }
  }

  lemma KeptLatestReplays(setup: Setup, start: int, steps: seq<Step>, end: int, node: string)
    requires LegalBetween(start, steps, end) && KeepsLatest(setup, steps, node, API)
    ensures Replays(setup, steps, node, Ms(end - setup.keep.changes))
    ensures var versions, stored := Delivered(steps, node), StoredLatest(Run(setup, steps), node, API);
            versions != [] ==> stored.Some? && stored.value.val == versions[|versions| - 1].val
  {
    hide RunFrom, Arrivals, StoredLatest, Replays, ReplaysThroughout, KeepsLatest, EndsAsRecordedThroughout, AllNoticed,
        Recordings, StoredAlwaysSaysLast, AgreesThroughout, Agrees, PairLog, Log;
    var cut := Ms(end - setup.keep.changes);
    SkippingIsInvisible(setup, start, steps, end, node);
    AlwaysNoticed(setup, steps, node, cut);
    ReplaysExactly(setup, start, steps, end, node, cut);
    ReplaysAtEnd(setup, steps, node, cut);
    OthersOrderly(steps, node, API);
    LatestIsLastExactly(setup, start, steps, end, node, API);
    EndsAtEnd(setup, steps, node, API);
    LastRecordedIsLast(steps, node, API);
  }
}
