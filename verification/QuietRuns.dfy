/** What a baseline vouches for, in every run, however often it is pruned and capped: which losses the alert query sees,
    when a tick marks a snapshot that lacks something, and when a node was ready all through the stable window. */
module QuietRuns {
  import opened Sample
  import opened Rows
  import opened Differ
  import opened Schema
  import opened Retention
  import opened Convert
  import opened Incidents
  import opened Collector
  import opened Recorder
  import opened SampleLogs
  import opened ArrivalRuns
  import opened LogRuns
  import opened BaselineRuns

  // --- the log and what came -------------------------------------------------------------

  /** The latest sample of a group stored before step j. */
  ghost function StoredBefore(setup: Setup, steps: seq<Step>, j: int, node: string,
      source: Source): Option<Timed<Snapshot>>
    requires 0 <= j < |steps|
  {
    StoredLatest(Run(setup, steps[..j]), node, source)
  }

  /** What step j brought for the group left this entry in its log. */
  ghost predicate LeavesAt(setup: Setup, steps: seq<Step>, j: int, node: string, source: Source, x: Timed<Change>) {
    && 0 <= j < |steps| && Brings(steps[j], node, source).Some?
    && x.time == Brings(steps[j], node, source).value.time
    && x.val in Following(StoredBefore(setup, steps, j, node, source), Brings(steps[j], node, source).value.val)
  }

  lemma {:induction false} WrittenMembers(setup: Setup, steps: seq<Step>, node: string, source: Source,
      x: Timed<Change>)
    ensures x in Written(setup, steps, node, source) <==> exists j :: LeavesAt(setup, steps, j, node, source, x)
  {
    hide Next, Brings, Following, StoredLatest;
    if steps != [] {
      var front, s := steps[..|steps| - 1], steps[|steps| - 1];
      WrittenMembers(setup, front, node, source, x);
      forall j ensures LeavesAt(setup, steps, j, node, source, x) <==>
                       LeavesAt(setup, front, j, node, source, x) ||
                       (j == |front| && LeavesAt(setup, steps, j, node, source, x)) {
        if 0 <= j < |front| { assert steps[..j] == front[..j]; }
      }
      var b := Brings(s, node, source);
      if b.Some? {
        StampMembers(b.value.time, Following(StoredLatest(Run(setup, front), node, source), b.value.val), x);
      }
      assert LeavesAt(setup, steps, |front|, node, source, x) <==>
        b.Some? && x.time == b.value.time &&
        x.val in Following(StoredLatest(Run(setup, front), node, source), b.value.val);
    }
  }

  /** In every run, an entry recent enough to be kept is in the log exactly when some arrival differed in it from the
      latest sample stored when it came. */
  lemma LogTells(setup: Setup, start: int, steps: seq<Step>, end: int, node: string, source: Source, x: Timed<Change>)
    requires LegalBetween(start, steps, end) && Ms(end - setup.keep.changes) <= x.time
    ensures x in Log(Run(setup, steps).changes, node, source) <==>
            exists j :: LeavesAt(setup, steps, j, node, source, x)
  {
    hide RunFrom, Written, Log, LeavesAt;
    LogIsWritten(setup, start, steps, end, node, source, x.time);
    WrittenMembers(setup, steps, node, source, x);
    assert NotBefore(x.time)(x);
  }

  lemma LoggedRow(s: seq<Row<Change>>, node: string, source: Source, x: Timed<Change>) returns (r: Row<Change>)
    requires x in Log(s, node, source)
    ensures r in s && r.ts == x.time && r.val == x.val && r.val.node == node && r.val.source == source
  {
    var rows := Filter(s, Concerns(node, source));
    var i :| 0 <= i < |rows| && Timed(rows[i].ts, rows[i].val) == x;
    r := rows[i];
  }

  lemma RowLogged(s: seq<Row<Change>>, r: Row<Change>, node: string, source: Source)
    requires r in s && r.val.node == node && r.val.source == source
    ensures Timed(r.ts, r.val) in Log(s, node, source)
  {
    var rows := Filter(s, Concerns(node, source));
    assert r in rows;
    var i :| 0 <= i < |rows| && rows[i] == r;
    assert Entries(rows)[i] == Timed(r.ts, r.val);
  }

  // --- alerts are losses ------------------------------------------------------------------------

  predicate Reads(f: Fields, k: string, state: FieldState) { k in f && f[k].state == state }

  predicate Vanishes(prev: Fields, cur: Fields, k: string) {
    Reads(prev, k, StatePresent) && Reads(cur, k, StateAbsent)
  }

  lemma VanishingAlerts(prev: Snapshot, cur: Snapshot, k: string) returns (c: Change)
    requires Vanishes(prev.fields, cur.fields, k)
    ensures c in Diff(prev, cur) && c in Between(prev, cur) && c.severity == Alert && c.field == k
  {
    c := ChangeAt(prev, cur, k).value;
    DiffMembers(prev, cur, c);
  }

  lemma AlertVanishes(prev: Snapshot, cur: Snapshot, c: Change)
    requires c in Between(prev, cur) && c.severity == Alert
    ensures Vanishes(prev.fields, cur.fields, c.field)
  {
    hide Diff;
    if c in Diff(prev, cur) { DiffMembers(prev, cur, c); }
  }

  /** At or after `cut`, step j brought a sample without a field that the latest sample stored had. */
  ghost predicate LostAt(setup: Setup, steps: seq<Step>, node: string, source: Source, cut: int, j: int, k: string) {
    && 0 <= j < |steps|
    && var stored, x := StoredBefore(setup, steps, j, node, source), Brings(steps[j], node, source);
       stored.Some? && x.Some? && cut <= x.value.time && Vanishes(stored.value.val.fields, x.value.val.fields, k)
  }

  ghost predicate Lost(setup: Setup, steps: seq<Step>, node: string, source: Source, cut: int, k: string) {
    exists j :: LostAt(setup, steps, node, source, cut, j, k)
  }

  ghost predicate NothingLost(setup: Setup, steps: seq<Step>, cut: int) {
    forall node, source, j, k :: !LostAt(setup, steps, node, source, cut, j, k)
  }

  /** The alert query finds a record of this field of the group. */
  ghost predicate LossSeen(changes: seq<Row<Change>>, node: string, source: Source, k: string, cut: int) {
    exists r ::
      r in Filter(changes, AlertSince(cut)) && r.val.node == node && r.val.source == source && r.val.field == k
  }

  lemma FollowingAlert(stored: Option<Timed<Snapshot>>, cur: Snapshot, c: Change)
    requires c in Following(stored, cur) && c.severity == Alert
    ensures stored.Some? && Vanishes(stored.value.val.fields, cur.fields, c.field)
  {
    hide Between, Vanishes;
    if stored.Some? { AlertVanishes(stored.value.val, cur, c); }
  }

  /** What the guard sees of the losses of one field, in every run: the alert query finds a record of it in a window the
      changes are kept for if and only if some sample of the window lacked the field while the latest one stored before
      it had it. A loss whose sample was compared with nothing, with an unreadable field or with something older that
      lacks it too is never seen, and an old one no longer is. */
  lemma GuardSeesLossExactly(setup: Setup, start: int, steps: seq<Step>, now: int, window: int, node: string,
      source: Source, k: string)
    requires LegalBetween(start, steps, now) && setup.keep.changes >= window
    ensures LossSeen(Run(setup, steps).changes, node, source, k, Ms(now - window)) <==>
            Lost(setup, steps, node, source, Ms(now - window), k)
  {
    hide RunFrom, Brings, Following, Between, StoredBefore, Log, Vanishes;
    var changes, cut := Run(setup, steps).changes, Ms(now - window);
    MsMonotone(now - setup.keep.changes, now - window);
    if j :| LostAt(setup, steps, node, source, cut, j, k) {
      var r := LossIsLogged(setup, start, steps, now, node, source, cut, j, k);
      assert r in Filter(changes, AlertSince(cut));
    }
    if LossSeen(changes, node, source, k, cut) {
      var r :|
        r in Filter(changes, AlertSince(cut)) && r.val.node == node && r.val.source == source && r.val.field == k;
      var j := AlertIsLoss(setup, start, steps, now, cut, r);
    }
  }

  lemma LossIsLogged(setup: Setup, start: int, steps: seq<Step>, now: int, node: string, source: Source, cut: int,
      j: int, k: string)
    returns (r: Row<Change>)
    requires LegalBetween(start, steps, now) && Ms(now - setup.keep.changes) <= cut
    requires LostAt(setup, steps, node, source, cut, j, k)
    ensures r in Run(setup, steps).changes && AlertSince(cut)(r)
    ensures r.val.node == node && r.val.source == source && r.val.field == k
  {
    hide RunFrom, Brings, Between, StoredBefore, Log;
    var stored, x := StoredBefore(setup, steps, j, node, source).value, Brings(steps[j], node, source).value;
    var c := VanishingAlerts(stored.val, x.val, k);
    assert LeavesAt(setup, steps, j, node, source, Timed(x.time, c));
    LogTells(setup, start, steps, now, node, source, Timed(x.time, c));
    r := LoggedRow(Run(setup, steps).changes, node, source, Timed(x.time, c));
  }

  lemma AlertIsLoss(setup: Setup, start: int, steps: seq<Step>, now: int, cut: int, r: Row<Change>) returns (j: int)
    requires LegalBetween(start, steps, now) && Ms(now - setup.keep.changes) <= cut
    requires r in Run(setup, steps).changes && AlertSince(cut)(r)
    ensures LostAt(setup, steps, r.val.node, r.val.source, cut, j, r.val.field)
  {
    hide RunFrom, Brings, Following, StoredBefore, Log, Vanishes;
    var node, source, x := r.val.node, r.val.source, Timed(r.ts, r.val);
    RowLogged(Run(setup, steps).changes, r, node, source);
    LogTells(setup, start, steps, now, node, source, x);
    j :| LeavesAt(setup, steps, j, node, source, x);
    FollowingAlert(StoredBefore(setup, steps, j, node, source), Brings(steps[j], node, source).value.val, r.val);
  }

  /** In every run, the alert query finds nothing in a window the changes are kept for if and only if no sample of the
      window, on any node and of either kind, lacked a field that the latest one stored before it had. */
  lemma CalmExactlyWhenNothingLost(setup: Setup, start: int, steps: seq<Step>, now: int, window: int)
    requires LegalBetween(start, steps, now) && setup.keep.changes >= window
    ensures ChangesCalm(Run(setup, steps).changes, Ms(now - window)) <==> NothingLost(setup, steps, Ms(now - window))
  {
    hide RunFrom, LostAt;
    var changes, cut := Run(setup, steps).changes, Ms(now - window);
    if node, source, j, k :| LostAt(setup, steps, node, source, cut, j, k) {
      GuardSeesLossExactly(setup, start, steps, now, window, node, source, k);
    }
    if !ChangesCalm(changes, cut) {
      var r := Filter(changes, AlertSince(cut))[0];
      GuardSeesLossExactly(setup, start, steps, now, window, r.val.node, r.val.source, r.val.field);
      assert LossSeen(changes, r.val.node, r.val.source, r.val.field, cut);
    }
  }

  /** Where maintenance spares the latest sample and posts come in time order, that is a field which went from present
      to absent between two consecutive samples of the group. */
  lemma LossIsBetweenArrivals(setup: Setup, start: int, steps: seq<Step>, now: int, node: string, source: Source,
      cut: int, j: int, k: string)
    requires LegalBetween(start, steps, now) && KeepsLatest(setup, steps, node, source) && Orderly(steps, node, source)
    ensures LostAt(setup, steps, node, source, cut, j, k) <==>
            && 0 <= j < |steps|
            && var last, x := Last(Arrivals(steps[..j], node, source)), Brings(steps[j], node, source);
               last.Some? && x.Some? && cut <= x.value.time && Vanishes(last.value.val.fields, x.value.val.fields, k)
  {
    hide RunFrom, Arrivals, KeepsLatest, Orderly, Brings, StoredLatest, Recordings, Last;
    LatestIsLastExactly(setup, start, steps, now, node, source);
    if 0 <= j < |steps| {
      assert EndsAsRecorded(setup, steps[..j], node, source);
      LastRecordedIsLast(steps[..j], node, source);
    }
  }

  // --- what a tick reads ------------------------------------------------------------------------

  /** A tick changes the stored snapshots only when the cluster has been quiet. */
  lemma MarksOnlyWhenQuiet(t: Tables, cfg: Config, now: int)
    requires TickOf(t, cfg, now).snapshots != t.snapshots
    ensures QuietCluster(t, Ms(now - cfg.Stable()))
  {
    hide MarkNodes, IncidentPass, NodeReady, PodsCalm, TransitionsCalm, ChangesCalm;
    TickLeaves(t, cfg, now);
  }

  lemma QuietNodeReady(t: Tables, since: int, node: string)
    requires QuietCluster(t, since) && node in Nodes(t.snapshots)
    ensures NodeReady(t.snapshots, t.changes, node, since)
  {
    hide NodeReady, PodsCalm, TransitionsCalm, ChangesCalm;
  }

  /** If a tick marks baselines, nothing was lost in the stable window, in any run: no sample of any node, api or agent,
      lacked a field that the latest one stored before it had. */
  lemma BaselineMeansNothingLost(setup: Setup, start: int, steps: seq<Step>, now: int)
    requires LegalBetween(start, steps, now) && setup.keep.changes >= setup.cfg.Stable()
    requires TickOf(Run(setup, steps), setup.cfg, now).snapshots != Run(setup, steps).snapshots
    ensures NothingLost(setup, steps, Ms(now - setup.cfg.Stable()))
  {
    hide RunFrom, TickOf, Nodes, NodeReady, NothingLost, PodsCalm, TransitionsCalm, ChangesCalm;
    MarksOnlyWhenQuiet(Run(setup, steps), setup.cfg, now);
    CalmExactlyWhenNothingLost(setup, start, steps, now, setup.cfg.Stable());
  }

  // --- when a snapshot that lacks something is marked -------------------------------------------

  /** Everything the guard asks for, except that there are no alerts. */
  ghost predicate OtherwiseQuiet(t: Tables, since: int) {
    && t.snapshots != [] && PodsCalm(t.pods) && TransitionsCalm(t.transitions, since)
    && forall n :: n in Nodes(t.snapshots) ==> NodeReady(t.snapshots, t.changes, n, since)
  }

  lemma QuietSplits(t: Tables, since: int)
    ensures QuietCluster(t, since) <==> OtherwiseQuiet(t, since) && ChangesCalm(t.changes, since)
  {
    hide NodeReady, PodsCalm, TransitionsCalm, ChangesCalm;
  }

  /** The tick makes the latest snapshot of the group, not a baseline so far, its newest baseline. */
  ghost predicate Marks(t: Tables, cfg: Config, now: int, node: string, source: Source) {
    && Latest(t.snapshots, node, source).Some?
    && LatestBaseline(TickOf(t, cfg, now).snapshots, node, source) ==
      Some(Reflagged(Latest(t.snapshots, node, source).value, true))
  }

  lemma MarksExactlyWhenQuiet(setup: Setup, steps: seq<Step>, now: int, node: string, source: Source)
    requires source == API || source == Agent
    requires var latest := Latest(Run(setup, steps).snapshots, node, source); latest.Some? && !latest.value.val.baseline
    ensures Marks(Run(setup, steps), setup.cfg, now, node, source) <==>
            QuietCluster(Run(setup, steps), Ms(now - setup.cfg.Stable()))
  {
    hide RunFrom, TickOf, QuietCluster, Newest;
    var t := Run(setup, steps);
    var l := Latest(t.snapshots, node, source).value;
    TickMarksLatest(setup, steps, now, node, source);
    if !QuietCluster(t, Ms(now - setup.cfg.Stable())) {
      RunOrdered(setup, steps);
      UnflaggedIsNoBaseline(t.snapshots, t.next.snapshot, node, source, l);
    }
  }

  lemma UnflaggedIsNoBaseline(s: seq<Row<Snapshot>>, next: int, node: string, source: Source, l: Row<Snapshot>)
    requires Ordered(s, next) && l in s && !l.val.baseline
    ensures LatestBaseline(s, node, source) != Some(Reflagged(l, true))
  {
    hide Newest;
    if LatestBaseline(s, node, source) == Some(Reflagged(l, true)) {
      assert Reflagged(l, true) in Filter(s, BaselineOf(node, source));
      SameIdSameRow(s, next, l, Reflagged(l, true));
    }
  }

  /** In every run: an otherwise quiet tick marks a group's latest snapshot, whatever it lacks, if and only if nothing
      was lost in the stable window. */
  lemma MarksExactlyWhenNothingLost(setup: Setup, start: int, steps: seq<Step>, now: int, node: string,
      source: Source)
    requires LegalBetween(start, steps, now) && setup.keep.changes >= setup.cfg.Stable()
    requires OtherwiseQuiet(Run(setup, steps), Ms(now - setup.cfg.Stable())) && (source == API || source == Agent)
    requires var latest := Latest(Run(setup, steps).snapshots, node, source); latest.Some? && !latest.value.val.baseline
    ensures Marks(Run(setup, steps), setup.cfg, now, node, source) <==>
            NothingLost(setup, steps, Ms(now - setup.cfg.Stable()))
  {
    hide RunFrom, NothingLost, Marks, QuietCluster, OtherwiseQuiet, ChangesCalm, Latest;
    MarksExactlyWhenQuiet(setup, steps, now, node, source);
    QuietSplits(Run(setup, steps), Ms(now - setup.cfg.Stable()));
    CalmExactlyWhenNothingLost(setup, start, steps, now, setup.cfg.Stable());
  }

  /** Nothing was lost since `cut` but, perhaps, this field of this group. */
  ghost predicate NoOtherLoss(setup: Setup, steps: seq<Step>, node: string, source: Source, cut: int, k: string) {
    forall n, s, j, q :: LostAt(setup, steps, n, s, cut, j, q) ==> n == node && s == source && q == k
  }

  /** The group's latest snapshot is no baseline yet and says that the field is absent. */
  ghost predicate LatestLacks(t: Tables, node: string, source: Source, k: string) {
    var latest := Latest(t.snapshots, node, source);
    latest.Some? && !latest.value.val.baseline && Reads(latest.value.val.fields, k, StateAbsent)
  }

  /** In every run: a tick that nothing else holds back marks a snapshot that lacks a field if and only if no sample
      of the stable window lacked it while the latest one stored before it had it. */
  lemma MarksWhileMissingExactly(setup: Setup, start: int, steps: seq<Step>, now: int, node: string, source: Source,
      k: string)
    requires LegalBetween(start, steps, now) && setup.keep.changes >= setup.cfg.Stable()
    requires OtherwiseQuiet(Run(setup, steps), Ms(now - setup.cfg.Stable())) && (source == API || source == Agent)
    requires LatestLacks(Run(setup, steps), node, source, k)
    requires NoOtherLoss(setup, steps, node, source, Ms(now - setup.cfg.Stable()), k)
    ensures Marks(Run(setup, steps), setup.cfg, now, node, source) <==>
            !Lost(setup, steps, node, source, Ms(now - setup.cfg.Stable()), k)
  {
    hide RunFrom, Marks, OtherwiseQuiet, Latest, LostAt, Reads;
    MarksExactlyWhenNothingLost(setup, start, steps, now, node, source);
  }

  // --- ready throughout ---------------------------------------------------------------------

  /** A node that stays ready and whose log has no change of readiness was ready before. */
  lemma ReadyBefore(prev: Snapshot, cur: Snapshot, node: string)
    requires Own(prev, node) && Own(cur, node) && ReportsReady(cur.fields)
    requires forall c :: c in Between(prev, cur) ==> c.field != READY
    ensures ReportsReady(prev.fields)
  {
    hide Between;
    assert READY in CONDITION_FIELDS.Keys;
    assert prev.fields[READY].Plain() && cur.fields[READY].Plain();
    if !ReportsReady(prev.fields) {
      var c := ReadinessChange(prev, cur);
      assert false;
    }
  }

  lemma ReadinessChange(prev: Snapshot, cur: Snapshot) returns (c: Change)
    requires READY in prev.fields && READY in cur.fields
    requires prev.fields[READY].Plain() && !ReportsReady(prev.fields) && ReportsReady(cur.fields)
    ensures c in Between(prev, cur) && c.field == READY
  {
    c := ChangeAt(prev, cur, READY).value;
    DiffMembers(prev, cur, c);
  }

  /** The version is the last one, or was replaced at or after `cut`: it was in force at some time since then. */
  ghost predicate InForceSince(versions: seq<Timed<Snapshot>>, i: int, cut: int) {
    0 <= i < |versions| && (i == |versions| - 1 || cut <= versions[i + 1].time)
  }

  ghost predicate ReadyThroughout(versions: seq<Timed<Snapshot>>, cut: int) {
    forall i :: InForceSince(versions, i, cut) ==> ReportsReady(versions[i].val.fields)
  }

  /** What the guard takes a node for that has this latest sample stored; with none, it has heard of nothing. */
  predicate ReadsReady(stored: Option<Timed<Snapshot>>) {
    stored.Some? ==> ReportsReady(stored.value.val.fields)
  }

  /** The latest sample stored of the node reads as ready exactly when its last version was. */
  ghost predicate ReadsAsLast(setup: Setup, front: seq<Step>, node: string) {
    var last := Last(Delivered(front, node));
    last.Some? ==> (ReadsReady(StoredLatest(Run(setup, front), node, API)) <==> ReportsReady(last.value.val.fields))
  }

  /** Every delivery of the node since `cut` was compared with a sample that reads as the version before it. */
  ghost predicate DeliveriesReadAsLast(setup: Setup, steps: seq<Step>, node: string, cut: int) {
    forall j :: 0 <= j < |steps| && Brings(steps[j], node, API).Some? && cut <= Brings(steps[j], node, API).value.time
      ==> ReadsAsLast(setup, steps[..j], node)
  }

  /** And after the last step the latest sample stored reads as the last version. */
  ghost predicate AlwaysReadsAsLast(setup: Setup, steps: seq<Step>, node: string, cut: int) {
    ReadsAsLast(setup, steps, node) && DeliveriesReadAsLast(setup, steps, node, cut)
  }

  /** No arrival since `cut` left a change of readiness. */
  ghost predicate SteadyReadiness(setup: Setup, steps: seq<Step>, node: string, cut: int) {
    forall j, x :: LeavesAt(setup, steps, j, node, API, x) && cut <= x.time ==> x.val.field != READY
  }

  lemma ReadinessIsSteady(setup: Setup, start: int, steps: seq<Step>, now: int, node: string, cut: int)
    requires LegalBetween(start, steps, now) && Ms(now - setup.keep.changes) <= cut
    requires Filter(Run(setup, steps).changes, OnFieldSince(node, READY, cut)) == []
    ensures SteadyReadiness(setup, steps, node, cut)
  {
    hide RunFrom, LeavesAt, Log;
    var changes := Run(setup, steps).changes;
    forall j, x | LeavesAt(setup, steps, j, node, API, x) && cut <= x.time ensures x.val.field != READY {
      LogTells(setup, start, steps, now, node, API, x);
      var row := LoggedRow(changes, node, API, x);
      assert x.val.field == READY ==> row in Filter(changes, OnFieldSince(node, READY, cut));
    }
  }

  /** With no change of readiness, a version that is ready was compared with one that reads as ready, and the other way
      round. */
  lemma SteadyCompares(stored: Option<Timed<Snapshot>>, cur: Snapshot, node: string)
    requires Own(cur, node) && (stored.Some? ==> Own(stored.value.val, node))
    requires forall c :: c in Following(stored, cur) ==> c.field != READY
    ensures ReportsReady(cur.fields) ==> ReadsReady(stored)
  {
    hide Between, Own;
    if stored.Some? && ReportsReady(cur.fields) { ReadyBefore(stored.value.val, cur, node); }
  }

  lemma SteadyDelivery(setup: Setup, steps: seq<Step>, j: int, node: string, cut: int)
    requires 0 <= j < |steps| && SteadyReadiness(setup, steps, node, cut)
    requires Brings(steps[j], node, API).Some? && cut <= Brings(steps[j], node, API).value.time
    ensures ReportsReady(Brings(steps[j], node, API).value.val.fields) ==>
            ReadsReady(StoredLatest(Run(setup, steps[..j]), node, API))
  {
    hide RunFrom, Own, Following, StoredLatest, NodeSample, ReportsReady, ReadsReady, LatestIsOwn;
    var stored, x := StoredLatest(Run(setup, steps[..j]), node, API), Brings(steps[j], node, API).value;
    OwnIfStored(setup, steps[..j], node);
    NodeSampleIsOwn(steps[j].action.node);
    forall c | c in Following(stored, x.val) ensures c.field != READY {
      assert LeavesAt(setup, steps, j, node, API, Timed(x.time, c));
    }
    SteadyCompares(stored, x.val, node);
  }

  lemma DeliveriesSplit(setup: Setup, steps: seq<Step>, node: string, cut: int)
    requires steps != []
    ensures var front, b := steps[..|steps| - 1], Brings(steps[|steps| - 1], node, API);
            && (DeliveriesReadAsLast(setup, steps, node, cut) <==>
                DeliveriesReadAsLast(setup, front, node, cut) &&
                (b.Some? && cut <= b.value.time ==> ReadsAsLast(setup, front, node)))
            && (SteadyReadiness(setup, steps, node, cut) ==> SteadyReadiness(setup, front, node, cut))
  {
    hide ReadsAsLast, Brings, Following, RunFrom, StoredLatest;
    var front := steps[..|steps| - 1];
    assert forall j :: 0 <= j < |steps| && j < |front| ==> steps[..j] == front[..j] && steps[j] == front[j];
    if SteadyReadiness(setup, steps, node, cut) {
      forall j, x | LeavesAt(setup, front, j, node, API, x) && cut <= x.time ensures x.val.field != READY {
        assert LeavesAt(setup, steps, j, node, API, x);
      }
    }
  }

  /** The last version before the window and every one in it: one more version in the window adds itself. */
  lemma ThroughoutSnoc(versions: seq<Timed<Snapshot>>, x: Timed<Snapshot>, cut: int)
    requires InTimeOrder(versions + [x])
    ensures ReadyThroughout(versions + [x], cut) <==>
            ReportsReady(x.val.fields) && (cut <= x.time ==> ReadyThroughout(versions, cut))
  {
    hide ReportsReady;
    var all := versions + [x];
    assert InForceSince(all, |versions|, cut);
    if ReadyThroughout(all, cut) && cut <= x.time {
      forall i | InForceSince(versions, i, cut) ensures ReportsReady(versions[i].val.fields) {
        assert InForceSince(all, i, cut) && all[i] == versions[i];
      }
    }
    if ReportsReady(x.val.fields) && (cut <= x.time ==> ReadyThroughout(versions, cut)) {
      forall i | InForceSince(all, i, cut) ensures ReportsReady(all[i].val.fields) {
        if i < |versions| {
          assert all[i + 1].time <= x.time;
          assert InForceSince(versions, i, cut) && all[i] == versions[i];
        }
      }
    }
  }

  lemma NoneDelivered(setup: Setup, steps: seq<Step>, node: string, cut: int)
    requires TimesBefore(steps, node, cut)
    ensures DeliveriesReadAsLast(setup, steps, node, cut)
  {
    hide ReadsAsLast, Brings;
  }

  ghost predicate TimesBefore(steps: seq<Step>, node: string, cut: int) {
    forall j :: 0 <= j < |steps| && Brings(steps[j], node, API).Some? ==> Brings(steps[j], node, API).value.time < cut
  }

  lemma EarlierDeliveries(start: int, steps: seq<Step>, end: int, node: string, cut: int)
    requires LegalBetween(start, steps, end) && Ms(end) < cut
    ensures TimesBefore(steps, node, cut)
  {
    hide NodeSample;
    forall j | 0 <= j < |steps| ensures Ms(steps[j].now) < cut { MsMonotone(steps[j].now, end); }
  }

  /** Where no change of readiness was left since `cut` and the last version is ready. */
  lemma {:induction false} ReadySinceExactly(setup: Setup, start: int, steps: seq<Step>, end: int, node: string,
      cut: int)
    requires LegalBetween(start, steps, end) && SteadyReadiness(setup, steps, node, cut)
    requires var d := Delivered(steps, node); d != [] ==> ReportsReady(d[|d| - 1].val.fields)
    ensures ReadyThroughout(Delivered(steps, node), cut) <==> DeliveriesReadAsLast(setup, steps, node, cut)
    decreases steps, 1
  {
    hide RunFrom, Brings, StoredLatest, ReportsReady, ReadsReady, ReadyThroughout, DeliveriesReadAsLast,
        SteadyReadiness, Arrivals, InTimeOrder;
    if steps == [] {
      NothingDelivered(setup, node, cut);
    } else {
      LegalPrefix(start, steps, end);
      var front, s := steps[..|steps| - 1], steps[|steps| - 1];
      assert front + [s] == steps;
      ArrivalsSnoc(front, s, node, API);
      DeliveriesSplit(setup, steps, node, cut);
      var b := Brings(s, node, API);
      if b == None {
        ReadySinceExactly(setup, start, front, s.now, node, cut);
      } else {
        DeliveredInOrder(start, steps, end, node);
        ThroughoutSnoc(Delivered(front, node), b.value, cut);
        if cut <= b.value.time {
          ReadySinceStep(setup, start, steps, end, node, cut);
        } else {
          BroughtAt(s, node);
          EarlierDeliveries(start, steps, s.now, node, cut);
          NoneDelivered(setup, steps, node, cut);
        }
      }
    }
  }

  lemma BroughtAt(s: Step, node: string)
    requires Brings(s, node, API).Some?
    ensures Brings(s, node, API).value.time == Ms(s.now)
  {
  }

  lemma NothingDelivered(setup: Setup, node: string, cut: int)
    ensures ReadyThroughout(Delivered([], node), cut) && DeliveriesReadAsLast(setup, [], node, cut)
  {
  }

  /** A version that is ready and came since `cut`. */
  lemma ReadySinceStep(setup: Setup, start: int, steps: seq<Step>, end: int, node: string, cut: int)
    requires steps != [] && LegalBetween(start, steps, end) && SteadyReadiness(setup, steps, node, cut)
    requires var b := Brings(steps[|steps| - 1], node, API);
             b.Some? && cut <= b.value.time && ReportsReady(b.value.val.fields)
    ensures var front := steps[..|steps| - 1];
            ReadyThroughout(Delivered(front, node), cut) <==>
            DeliveriesReadAsLast(setup, front, node, cut) && ReadsAsLast(setup, front, node)
    decreases steps, 0
  {
    hide RunFrom, Brings, StoredLatest, ReportsReady, ReadsReady, DeliveriesReadAsLast, SteadyReadiness, Arrivals;
    var front := steps[..|steps| - 1];
    LegalPrefix(start, steps, end);
    DeliveriesSplit(setup, steps, node, cut);
    SteadyDelivery(setup, steps, |front|, node, cut);
    var d := Delivered(front, node);
    if d == [] || ReportsReady(d[|d| - 1].val.fields) {
      ReadySinceExactly(setup, start, front, steps[|steps| - 1].now, node, cut);
    } else {
      assert InForceSince(d, |d| - 1, cut);
    }
  }

  lemma ReadsAsStored(setup: Setup, steps: seq<Step>, node: string, since: int)
    requires NodeReady(Run(setup, steps).snapshots, Run(setup, steps).changes, node, since)
    ensures ReadsReady(StoredLatest(Run(setup, steps), node, API))
  {
    hide RunFrom, ReportsReady, Samples;
    LatestIsNewestSample(Run(setup, steps).snapshots, node, API);
  }

  /** In every run: when the guard finds a node ready, with no change of readiness in the stable window, every version
      of it in force at any time of the window was ready if and only if the sample it read, now and when each of these
      came, reads as the last version did. */
  lemma GuardReadsReadyExactly(setup: Setup, start: int, steps: seq<Step>, now: int, window: int, node: string)
    requires LegalBetween(start, steps, now) && setup.keep.changes >= window
    requires NodeReady(Run(setup, steps).snapshots, Run(setup, steps).changes, node, Ms(now - window))
    ensures ReadyThroughout(Delivered(steps, node), Ms(now - window)) <==>
            AlwaysReadsAsLast(setup, steps, node, Ms(now - window))
  {
    hide RunFrom, Brings, StoredLatest, ReportsReady, ReadsReady, SteadyReadiness, Arrivals, Latest;
    var cut, d := Ms(now - window), Delivered(steps, node);
    MsMonotone(now - setup.keep.changes, now - window);
    ReadinessIsSteady(setup, start, steps, now, node, cut);
    ReadsAsStored(setup, steps, node, cut);
    if d == [] || ReportsReady(d[|d| - 1].val.fields) {
      ReadySinceExactly(setup, start, steps, now, node, cut);
    } else {
      assert InForceSince(d, |d| - 1, cut);
    }
  }

  /** Sparing the latest snapshot makes it read as the last version. */
  lemma KeptLatestReadsAsLast(setup: Setup, start: int, steps: seq<Step>, now: int, node: string, cut: int)
    requires LegalBetween(start, steps, now) && KeepsLatest(setup, steps, node, API)
    ensures AlwaysReadsAsLast(setup, steps, node, cut)
  {
    hide RunFrom, StoredLatest, ReportsReady, Arrivals, KeepsLatest, Recordings, Last, Brings;
    OthersOrderly(steps, node, API);
    LatestIsLastExactly(setup, start, steps, now, node, API);
    forall j | 0 <= j <= |steps| ensures ReadsAsLast(setup, steps[..j], node) {
      assert EndsAsRecorded(setup, steps[..j], node, API);
      LastRecordedIsLast(steps[..j], node, API);
    }
    assert steps[..|steps|] == steps;
  }

  /** If a tick marks baselines, in any run: every version of a node in force at any time of the stable window was
      ready, if and only if what the guard read for it always read as its last version did. Sparing the latest
      snapshot is enough. */
  lemma BaselineMeansReadyThroughout(setup: Setup, start: int, steps: seq<Step>, now: int, node: string)
    requires LegalBetween(start, steps, now) && setup.keep.changes >= setup.cfg.Stable()
    requires TickOf(Run(setup, steps), setup.cfg, now).snapshots != Run(setup, steps).snapshots
    requires node in Nodes(Run(setup, steps).snapshots)
    ensures var cut := Ms(now - setup.cfg.Stable());
            && (ReadyThroughout(Delivered(steps, node), cut) <==> AlwaysReadsAsLast(setup, steps, node, cut))
            && (KeepsLatest(setup, steps, node, API) ==> ReadyThroughout(Delivered(steps, node), cut))
  {
    hide RunFrom, TickOf, QuietCluster, NodeReady, Nodes, KeepsLatest, Arrivals, ReadyThroughout, AlwaysReadsAsLast;
    var t, cut := Run(setup, steps), Ms(now - setup.cfg.Stable());
    MarksOnlyWhenQuiet(t, setup.cfg, now);
    QuietNodeReady(t, cut, node);
    GuardReadsReadyExactly(setup, start, steps, now, setup.cfg.Stable(), node);
    if KeepsLatest(setup, steps, node, API) { KeptLatestReadsAsLast(setup, start, steps, now, node, cut); }
  }
}
