/** A pod's clock over whole runs, and what a closing incident therefore knows about its pods. */
module PodRuns {
  import opened Sample
  import opened Schema
  import opened Retention
  import opened Convert
  import opened Incidents
  import opened Collector
  import opened Api
  import opened Recorder
  import opened IncidentRuns

  /** One stored report of a pod: when, and in which phase with which waiting reason. */
  datatype Report = Report(now: int, phase: string, reason: string)

  predicate SameState(a: Report, b: Report) { a.phase == b.phase && a.reason == b.reason }

  function KeyOfPod(p: Pod): string { Key(p.namespace, p.name) }

  /** The reports of a pod since it was last forgotten. */
  ghost function History(steps: seq<Step>, key: string): seq<Report> {
    if steps == [] then [] else
      var h, s := History(steps[..|steps| - 1], key), steps[|steps| - 1];
      match s.action
      case PodDelivered(_, p, reason) => if KeyOfPod(p) == key then h + [Report(s.now, p.phase, reason)] else h
      case PodDeleted(p) => if KeyOfPod(p) == key then [] else h
      case _ => h
  }

  /** Where the last stretch of reports in one state begins. */
  function StretchStart(h: seq<Report>): (i: nat)
    requires h != []
    ensures i < |h|
    ensures forall j :: i <= j < |h| ==> SameState(h[j], h[|h| - 1])
    ensures i > 0 ==> !SameState(h[i - 1], h[i])
  {
    if |h| == 1 || !SameState(h[|h| - 2], h[|h| - 1]) then |h| - 1 else StretchStart(h[..|h| - 1])
  }

  lemma StretchSnoc(h: seq<Report>, r: Report)
    ensures StretchStart(h + [r]) ==
            if h != [] && SameState(h[|h| - 1], r) then StretchStart(h) else |h|
  {
    assert (h + [r])[..|h + [r]| - 1] == h;
  }

  /** The stored row of a pod against its history. */
  ghost predicate RowTells(pods: map<string, PodState>, key: string, h: seq<Report>) {
    && (key in pods <==> h != [])
    && (h != [] ==>
          && pods[key].phase == h[|h| - 1].phase && pods[key].waitingReason == h[|h| - 1].reason
          && pods[key].since == Ms(h[StretchStart(h)].now))
  }

  lemma UpsertTells(pods: map<string, PodState>, key: string, h: seq<Report>, p: PodState, now: int)
    requires RowTells(pods, key, h)
    ensures RowTells(Upsert(pods, p, now), key,
              if PodKey(p) == key then h + [Report(now, p.phase, p.waitingReason)] else h)
  {
    if PodKey(p) == key { StretchSnoc(h, Report(now, p.phase, p.waitingReason)); }
  }

  /** In every run a pod is known exactly when it was reported since it was last deleted, and its clock shows the
      first report of the last stretch with the same phase and waiting reason. */
  lemma {:induction false} ClockShowsStretch(setup: Setup, steps: seq<Step>, key: string)
    ensures RowTells(Run(setup, steps).pods, key, History(steps, key))
  {
    hide Next, RowTells;
    if steps == [] {
      NothingReported(key);
    } else {
      var front, s := steps[..|steps| - 1], steps[|steps| - 1];
      ClockShowsStretch(setup, front, key);
      StepTells(Run(setup, front), setup, s, front, key);
      assert front + [s] == steps;
    }
  }

  lemma NothingReported(key: string)
    ensures RowTells(EMPTY.pods, key, History([], key))
  {
  }

  lemma StepTells(t: Tables, setup: Setup, s: Step, front: seq<Step>, key: string)
    requires RowTells(t.pods, key, History(front, key))
    ensures RowTells(Next(t, setup, s).pods, key, History(front + [s], key))
  {
    hide WithEvent, NodeSeen, Ingested, TickOf, Pruned, Capped, Upsert, InsertTransitions, RestartTotal, RowTells;
    assert (front + [s])[..|front + [s]| - 1] == front;
    match s.action
    case PodDelivered(_, p, reason) => UpsertTells(t.pods, key, History(front, key), StateOf(p, reason), s.now);
    case PodDeleted(p) => DeletionTells(t.pods, key, History(front, key), KeyOfPod(p));
    case Ticked => TickLeaves(t, setup.cfg, s.now);
    case PruneRan => PruneKeepsPods(t, s.now, setup.keep);
    case _ => Untouched(t, setup, s);
  }

  lemma DeletionTells(pods: map<string, PodState>, key: string, h: seq<Report>, gone: string)
    requires RowTells(pods, key, h)
    ensures RowTells(pods - {gone}, key, if gone == key then [] else h)
  {
  }

  lemma PruneKeepsPods(t: Tables, now: int, keep: Periods)
    ensures Pruned(t, now, keep).pods == t.pods
  {
  }

  ghost predicate InTimeOrder(h: seq<Report>, end: int) {
    && (forall i :: 0 <= i < |h| ==> h[i].now <= end)
    && (forall i, j :: 0 <= i < j < |h| ==> h[i].now <= h[j].now)
  }

  lemma ReportSnoc(h: seq<Report>, r: Report, end: int)
    requires InTimeOrder(h, r.now) && r.now <= end
    ensures InTimeOrder(h + [r], end) && InTimeOrder(h, end)
  {
  }

  lemma {:induction false} HistoryOrdered(start: int, steps: seq<Step>, end: int, key: string)
    requires LegalBetween(start, steps, end)
    ensures InTimeOrder(History(steps, key), end)
  {
    if steps != [] {
      LegalPrefix(start, steps, end);
      var front, s := steps[..|steps| - 1], steps[|steps| - 1];
      HistoryOrdered(start, front, s.now, key);
      ReportSnoc(History(front, key), Report(s.now, "", ""), end);
      if s.action.PodDelivered? {
        ReportSnoc(History(front, key), Report(s.now, s.action.newPod.phase, s.action.reason), end);
      }
    }
  }

  predicate Healthy(r: Report) { r.phase == RUNNING && r.reason == "" }

  /** From report `j` on, which lies at or before the stored time `from`, every report is healthy; and those are all
      the reports after `from`. */
  predicate HealthySince(h: seq<Report>, j: nat, from: int) {
    && j < |h| && Ms(h[j].now) <= from
    && (forall i :: j <= i < |h| ==> Healthy(h[i]))
    && (forall i :: 0 <= i < |h| && from < Ms(h[i].now) ==> j <= i)
  }

  lemma ClockWithinStable(since: int, now: int, stable: int)
    requires now - FromMs(since) >= stable
    ensures since <= Ms(now - stable)
  {
  }

  lemma StretchIsHealthy(h: seq<Report>, end: int, from: int)
    requires h != [] && InTimeOrder(h, end) && Healthy(h[|h| - 1]) && Ms(h[StretchStart(h)].now) <= from
    ensures HealthySince(h, StretchStart(h), from)
  {
    var j := StretchStart(h);
    forall i | 0 <= i < j ensures Ms(h[i].now) <= Ms(h[j].now) { MsMonotone(h[i].now, h[j].now); }
  }

  /** When an incident closes, every listed pod that is still known was running with nothing waiting over the whole
      stable window: by the report in force when the window began and by every report since. */
  lemma ClosingPodsWereHealthy(setup: Setup, start: int, steps: seq<Step>, now: int, key: string) returns (j: nat)
    requires LegalBetween(start, steps, now) && Closes(Run(setup, steps), setup.cfg, now)
    requires key in Run(setup, steps).pods && key in Decide(Run(setup, steps), setup.cfg, now).pods
    ensures HealthySince(History(steps, key), j, Ms(now - setup.cfg.Stable()))
  {
    hide RunFrom, CrashLoops, History;
    var t, h := Run(setup, steps), History(steps, key);
    ClosesMeans(t, setup.cfg, now);
    ClockShowsStretch(setup, steps, key);
    HistoryOrdered(start, steps, now, key);
    assert Settled(t.pods, key, now, setup.cfg.Stable());
    ClockWithinStable(t.pods[key].since, now, setup.cfg.Stable());
    StretchIsHealthy(h, now, Ms(now - setup.cfg.Stable()));
    j := StretchStart(h);
  }

  // --- the clock and map order -----------------------------------------------------------------

  /** When containers wait for two reasons, neither of them CrashLoopBackOff, delivering the same pod twice may
      restart its clock although nothing changed; otherwise it never does. */
  lemma RedeliveryKeepsClockExactly(pods: map<string, PodState>, p: Pod, first: string, at: int, later: int)
    requires MayReport(Statuses(p), first)
    requires var known := Upsert(pods, StateOf(p, first), at); known[KeyOfPod(p)].since != Ms(later)
    ensures var known := Upsert(pods, StateOf(p, first), at);
            (forall again :: MayReport(Statuses(p), again) ==>
               Upsert(known, StateOf(p, again), later)[KeyOfPod(p)].since == known[KeyOfPod(p)].since) <==>
            CRASH_LOOP in Reasons(Statuses(p)) || |Reasons(Statuses(p))| <= 1
  {
    var m := Statuses(p);
    var known := Upsert(pods, StateOf(p, first), at);
    forall again | MayReport(m, again)
      ensures Upsert(known, StateOf(p, again), later)[KeyOfPod(p)].since == known[KeyOfPod(p)].since <==> again == first
    {
    }
    SummaryDeterminedExactly(m);
    assert (forall again :: MayReport(m, again) ==> again == first) <==>
           (forall a, b :: MayReport(m, a) && MayReport(m, b) ==> a == b);
  }
}
