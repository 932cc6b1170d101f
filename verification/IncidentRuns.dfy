/** Incidents over whole runs: at most one open, none reopened by the crashes it was closed on. */
module IncidentRuns {
  import opened Sample
  import opened Rows
  import opened Text
  import opened Schema
  import opened Retention
  import opened Convert
  import opened Incidents
  import opened Collector
  import opened Api
  import opened Recorder

  // --- at most one open incident ----------------------------------------------------

  ghost predicate OneOpen(s: seq<Incident>) {
    forall i, j :: 0 <= i < j < |s| ==> !(IsOpen(s[i]) && IsOpen(s[j]))
  }

  /** Opened in the past, with a sorted list of distinct pods. */
  ghost predicate Proper(s: seq<Incident>, now: int) {
    forall i :: i in s ==> i.openedAt <= Ms(now) && StrictlySorted(i.pods)
  }

  ghost predicate IncidentsSound(t: Tables, now: int) {
    && IncidentsOrdered(t.incidents, t.next.incident)
    && OneOpen(t.incidents)
    && Proper(t.incidents, now)
  }

  lemma StrictIsSortedKeys(s: seq<string>)
    requires StrictlySorted(s)
    ensures s == SortedKeys(Members(s))
    ensures multiset(s) == multiset(Members(s))
  {
    StrictlySortedUnique(s, SortedKeys(Members(s)));
  }

  lemma SortedUnion(pods: seq<string>, missing: set<string>)
    requires StrictlySorted(pods) && Members(pods) !! missing
    ensures SortStrings(pods + SortedKeys(missing)) == SortedKeys(Members(pods) + missing)
  {
    StrictIsSortedKeys(pods);
    var collected := pods + SortedKeys(missing);
    assert multiset(collected) == multiset(Members(pods)) + multiset(missing);
    assert multiset(Members(pods) + missing) == multiset(Members(pods)) + multiset(missing);
    SortedOnceCollected(collected, Members(pods) + missing);
  }

  /** Joining crashing pods keeps the list sorted and duplicate-free, loses none and adds exactly them. */
  lemma GrownIsUnion(pods: seq<string>, crashing: set<string>)
    requires StrictlySorted(pods)
    ensures Grown(pods, crashing) == SortedKeys(Members(pods) + crashing)
  {
    hide SortStrings, Members;
    var missing := crashing - Members(pods);
    assert Members(pods) + crashing == Members(pods) + missing;
    SortedUnion(pods, missing);
    if missing == {} {
      StrictIsSortedKeys(pods);
      assert Members(pods) + missing == Members(pods);
    }
  }

  /** When no incident is found open at `now`, none is open. */
  lemma NoCurrentNoneOpen(s: seq<Incident>, now: int)
    requires Proper(s, now) && Current(s, now) == None
    ensures forall i :: i in s ==> !IsOpen(i)
  {
    assert Filter(s, OpenBy(Ms(now))) == [];
    forall i | i in s ensures !IsOpen(i) {
      assert OpenBy(Ms(now))(i) <==> IsOpen(i);
    }
  }

  lemma CurrentIsOpen(s: seq<Incident>, now: int)
    requires Current(s, now).Some?
    ensures Current(s, now).value in s && IsOpen(Current(s, now).value)
  {
  }

  lemma OpeningKeepsSound(t: Tables, openedAt: int, pods: seq<string>, now: int)
    requires IncidentsSound(t, now) && openedAt <= now && StrictlySorted(pods)
    requires forall i :: i in t.incidents ==> !IsOpen(i)
    ensures IncidentsSound(WithIncident(t, openedAt, pods), now)
  {
    MsMonotone(openedAt, now);
    var u := WithIncident(t, openedAt, pods);
    assert forall i :: 0 <= i < |t.incidents| ==> u.incidents[i] == t.incidents[i] && t.incidents[i] in t.incidents;
  }

  /** Rewriting pods and closing keep every incident in place. */
  ghost predicate Rewritten(s: seq<Incident>, u: seq<Incident>, pods: seq<string>) {
    && |u| == |s|
    && forall i :: 0 <= i < |u| ==>
         && u[i].id == s[i].id && u[i].openedAt == s[i].openedAt
         && (IsOpen(u[i]) ==> IsOpen(s[i])) && (u[i].pods == s[i].pods || u[i].pods == pods)
  }

  lemma RewritingKeepsSound(s: seq<Incident>, u: seq<Incident>, pods: seq<string>, next: int, now: int)
    requires IncidentsOrdered(s, next) && OneOpen(s) && Proper(s, now)
    requires Rewritten(s, u, pods) && StrictlySorted(pods)
    ensures IncidentsOrdered(u, next) && OneOpen(u) && Proper(u, now)
  {
    forall x | x in u ensures x.openedAt <= Ms(now) && StrictlySorted(x.pods) {
      var i :| 0 <= i < |u| && u[i] == x;
      assert s[i] in s;
    }
  }

  lemma TrackingKeepsSound(t: Tables, inc: Incident, pods: seq<string>, grown: bool, closes: bool, now: int)
    requires IncidentsSound(t, now) && inc in t.incidents && StrictlySorted(pods)
    ensures IncidentsSound(Apply(t, Track(inc.id, pods, grown, closes), now), now)
  {
    var u := Apply(t, Track(inc.id, pods, grown, closes), now).incidents;
    RewritingKeepsSound(t.incidents, u, pods, t.next.incident, now);
  }

  lemma PassKeepsSound(t: Tables, cfg: Config, now: int)
    requires IncidentsSound(t, now)
    ensures IncidentsSound(IncidentPass(t, cfg, now), now)
  {
    var crashing := CrashLoops(t.transitions, Ms(now - cfg.Window()));
    match Current(t.incidents, now)
    case None =>
      NoCurrentNoneOpen(t.incidents, now);
      if OpensOn(crashing.Keys, cfg.podThreshold, cfg.nsThreshold) {
        OpeningKeepsSound(t, EarliestOf(now, crashing), SortedKeys(crashing.Keys), now);
      }
    case Some(inc) =>
      CurrentIsOpen(t.incidents, now);
      GrownIsUnion(inc.pods, crashing.Keys);
      TrackingKeepsSound(t, inc, Grown(inc.pods, crashing.Keys), !(crashing.Keys <= Members(inc.pods)),
                         AllSettled(t.pods, Grown(inc.pods, crashing.Keys), now, cfg.Stable()), now);
  }

  lemma PruningKeepsSound(t: Tables, now: int, keep: Periods)
    requires IncidentsSound(t, now)
    ensures IncidentsSound(Pruned(t, now, keep), now)
  {
    IncidentFilterOrdered(t.incidents, OpenOrClosedSince(CutsAt(now, keep).changes), t.next.incident);
    IncidentFilterOneOpen(t.incidents, OpenOrClosedSince(CutsAt(now, keep).changes));
  }

  lemma {:induction false} IncidentFilterOrdered(s: seq<Incident>, p: Incident -> bool, next: int)
    requires IncidentsOrdered(s, next)
    ensures IncidentsOrdered(Filter(s, p), next)
  {
    if s != [] {
      var s', x := s[..|s| - 1], s[|s| - 1];
      assert forall i :: 0 <= i < |s'| ==> s'[i] == s[i];
      IncidentFilterOrdered(s', p, next);
      forall i | i in Filter(s', p) ensures i.id < x.id { assert i in s'; }
    }
  }

  lemma {:induction false} IncidentFilterOneOpen(s: seq<Incident>, p: Incident -> bool)
    requires OneOpen(s)
    ensures OneOpen(Filter(s, p))
  {
    if s != [] {
      var s', x := s[..|s| - 1], s[|s| - 1];
      IncidentFilterOneOpen(s', p);
      forall i | i in Filter(s', p) ensures !(IsOpen(i) && IsOpen(x)) { assert i in s'; }
    }
  }

  lemma SoundLater(t: Tables, earlier: int, later: int)
    requires IncidentsSound(t, earlier) && earlier <= later
    ensures IncidentsSound(t, later)
  {
    MsMonotone(earlier, later);
  }

  lemma StepKeepsSound(t: Tables, setup: Setup, s: Step, before: int)
    requires IncidentsSound(t, before) && before <= s.now
    ensures IncidentsSound(Next(t, setup, s), s.now)
  {
    hide PodSeen, PodGone, WithEvent, NodeSeen, Ingested, TickOf, Pruned, Capped, IncidentPass;
    SoundLater(t, before, s.now);
    match s.action
    case PodDelivered(oldPod, newPod, reason) => PodStepsLeave(t, oldPod, newPod, reason, newPod, s.now);
    case PodDeleted(pod) => PodStepsLeave(t, None, pod, "", pod, s.now);
    case Ticked => PassKeepsSound(t, setup.cfg, s.now); TickLeaves(t, setup.cfg, s.now);
    case PruneRan => PruningKeepsSound(t, s.now, setup.keep);
    case _ => Untouched(t, setup, s);
  }

  /** Over every run: at most one incident is open, none was opened in the future, and every pod list is sorted
      without duplicates. */
  lemma {:induction false} RunKeepsSound(t: Tables, setup: Setup, start: int, steps: seq<Step>, end: int)
    requires IncidentsSound(t, start) && LegalBetween(start, steps, end)
    ensures IncidentsSound(RunFrom(t, setup, steps), end)
  {
    hide Next;
    if steps == [] {
      MsMonotone(start, end);
    } else {
      LegalPrefix(start, steps, end);
      var last := steps[|steps| - 1];
      RunKeepsSound(t, setup, start, steps[..|steps| - 1], last.now);
      StepKeepsSound(RunFrom(t, setup, steps[..|steps| - 1]), setup, last, last.now);
      MsMonotone(last.now, end);
    }
  }

  lemma AtMostOneOpenIncident(setup: Setup, start: int, steps: seq<Step>, end: int)
    requires LegalBetween(start, steps, end)
    ensures IncidentsSound(Run(setup, steps), end)
  {
    hide RunFrom;
    RunKeepsSound(EMPTY, setup, start, steps, end);
  }

  // --- an incident only grows until it closes, and only closed ones are deleted ------------

  /** The same incident later on: more pods perhaps, closed perhaps; a closed one is final. */
  ghost predicate Continues(a: Incident, b: Incident) {
    && b.id == a.id && b.openedAt == a.openedAt
    && Members(a.pods) <= Members(b.pods)
    && (!IsOpen(a) ==> b == a)
  }

  lemma TrackContinues(t: Tables, inc: Incident, crashing: set<string>, closes: bool, now: int, x: Incident)
    requires IncidentsSound(t, now) && inc in t.incidents && IsOpen(inc) && x in t.incidents
    ensures var grown := !(crashing <= Members(inc.pods));
            var u := Apply(t, Track(inc.id, Grown(inc.pods, crashing), grown, closes), now).incidents;
            exists y :: y in u && Continues(x, y)
  {
    var grown := !(crashing <= Members(inc.pods));
    var pods := Grown(inc.pods, crashing);
    var u := Apply(t, Track(inc.id, pods, grown, closes), now).incidents;
    GrownIsUnion(inc.pods, crashing);
    var i :| 0 <= i < |t.incidents| && t.incidents[i] == x;
    var j :| 0 <= j < |t.incidents| && t.incidents[j] == inc;
    if i != j { assert x.id != inc.id by { assert i < j || j < i; } }
    assert Members(inc.pods) <= Members(pods);
    assert u[i] in u && Continues(x, u[i]);
  }

  lemma PassContinues(t: Tables, cfg: Config, now: int, x: Incident)
    requires IncidentsSound(t, now) && x in t.incidents
    ensures exists y :: y in IncidentPass(t, cfg, now).incidents && Continues(x, y)
  {
    var crashing := CrashLoops(t.transitions, Ms(now - cfg.Window()));
    var u := IncidentPass(t, cfg, now).incidents;
    match Current(t.incidents, now)
    case None => assert x in u && Continues(x, x);
    case Some(inc) =>
      CurrentIsOpen(t.incidents, now);
      TrackContinues(t, inc, crashing.Keys, AllSettled(t.pods, Grown(inc.pods, crashing.Keys), now, cfg.Stable()),
        now, x);
  }

  /** The step is a prune, and the incident was closed before the changes period it keeps. */
  predicate Expires(setup: Setup, s: Step, x: Incident) {
    s.action.PruneRan? && x.closedAt.Some? && x.closedAt.value < Ms(s.now - setup.keep.changes)
  }

  /** In every step of every run an incident keeps its opening, loses no pod and stays closed once closed; and it is
      deleted exactly when a prune finds it closed before the changes period. */
  lemma IncidentsOnlyGrow(setup: Setup, start: int, steps: seq<Step>, s: Step, x: Incident)
    requires LegalBetween(start, steps, s.now)
    requires x in Run(setup, steps).incidents
    ensures var u := Next(Run(setup, steps), setup, s).incidents;
            (exists y :: y in u && Continues(x, y)) <==> !Expires(setup, s, x)
  {
    hide RunFrom, Next;
    AtMostOneOpenIncident(setup, start, steps, s.now);
    StepContinues(Run(setup, steps), setup, s, x);
    if Expires(setup, s, x) { ExpiredIsDeleted(Run(setup, steps), setup, s, x); }
  }

  lemma ExpiredIsDeleted(t: Tables, setup: Setup, s: Step, x: Incident)
    requires IncidentsSound(t, s.now) && x in t.incidents && Expires(setup, s, x)
    ensures forall y :: y in Next(t, setup, s).incidents ==> !Continues(x, y)
  {
    hide PodSeen, PodGone, WithEvent, NodeSeen, Ingested, TickOf, Capped, Pruned;
    PruneLeavesExactly(t, s.now, setup.keep);
  }

  lemma StepContinues(t: Tables, setup: Setup, s: Step, x: Incident)
    requires IncidentsSound(t, s.now) && x in t.incidents
    ensures var u := Next(t, setup, s).incidents;
            (exists y :: y in u && Continues(x, y)) || Expires(setup, s, x)
  {
    hide PodSeen, PodGone, WithEvent, NodeSeen, Ingested, TickOf, Capped, IncidentPass;
    var u := Next(t, setup, s).incidents;
    assert Continues(x, x);
    match s.action
    case PodDelivered(oldPod, newPod, reason) => PodStepsLeave(t, oldPod, newPod, reason, newPod, s.now);
    case PodDeleted(pod) => PodStepsLeave(t, None, pod, "", pod, s.now);
    case Ticked => PassContinues(t, setup.cfg, s.now, x); TickLeaves(t, setup.cfg, s.now);
    case PruneRan => PruneLeavesExactly(t, s.now, setup.keep);
    case _ => Untouched(t, setup, s);
  }

  // --- a pod's clock against its crashes ------------------------------------------------------

  /** Each stored crash of a known pod is no later than the pod's clock, unless the pod is crashing now. */
  ghost predicate ClockCovers(pods: map<string, PodState>, r: Row<PodTransition>) {
    IsCrash(r.val) && KeyOf(r.val) in pods ==>
      pods[KeyOf(r.val)].waitingReason == CRASH_LOOP || r.ts <= pods[KeyOf(r.val)].since
  }

  ghost predicate ClocksSound(t: Tables, now: int) {
    && (forall r :: r in t.transitions && IsCrash(r.val) ==> r.ts <= Ms(now))
    && (forall r :: r in t.transitions ==> ClockCovers(t.pods, r))
  }

  lemma EnteringReportsCrash(oldPod: Pod, newPod: Pod, reason: string)
    requires CrashEntered(oldPod, newPod) && MayReport(Statuses(newPod), reason)
    ensures reason == CRASH_LOOP
  {
    var k :| k in Statuses(newPod) && CrashEnteredBy(Statuses(oldPod), Statuses(newPod), k);
    assert WaitingReason(Statuses(newPod)[k]) in Reasons(Statuses(newPod));
  }

  /** A crash transition emitted by an update is stamped with the update and names its pod, which is then crashing. */
  lemma EmittedCrash(oldPod: Option<Pod>, newPod: Pod, reason: string, now: int, x: Timed<PodTransition>)
    requires MayReport(Statuses(newPod), reason)
    requires x in Emitted(oldPod, newPod, now) && IsCrash(x.val)
    ensures x.time == now && KeyOf(x.val) == Key(newPod.namespace, newPod.name) && reason == CRASH_LOOP
    ensures oldPod.Some? && CrashEntered(oldPod.value, newPod)
  {
    CrashTransitions(oldPod.value, newPod, now);
    assert EmitsCrash(Changed(oldPod.value, newPod, now));
    EnteringReportsCrash(oldPod.value, newPod, reason);
  }

  lemma InsertedRow(s: seq<Row<PodTransition>>, next: int, ts: seq<Timed<PodTransition>>, r: Row<PodTransition>)
    requires r in InsertTransitions(s, next, ts)
    ensures r in s || exists x :: x in ts && r.ts == Ms(x.time) && r.val == x.val
  {
    var u := InsertTransitions(s, next, ts);
    var i :| 0 <= i < |u| && u[i] == r;
    if i < |s| { assert s[i] == r; } else { assert ts[i - |s|] in ts; }
  }

  /** The state stored for a pod keeps the clock only when neither phase nor reason moved. */
  lemma UpsertCovers(pods: map<string, PodState>, p: PodState, now: int, r: Row<PodTransition>)
    requires ClockCovers(pods, r) && (IsCrash(r.val) ==> r.ts <= Ms(now))
    ensures ClockCovers(Upsert(pods, p, now), r)
  {
  }

  lemma PodSeenKeepsClocks(t: Tables, oldPod: Option<Pod>, newPod: Pod, reason: string, now: int)
    requires ClocksSound(t, now) && MayReport(Statuses(newPod), reason)
    ensures ClocksSound(PodSeen(t, oldPod, newPod, reason, now), now)
  {
    var ts, p := Emitted(oldPod, newPod, now), StateOf(newPod, reason);
    var rows := InsertTransitions(t.transitions, t.next.transition, ts);
    forall r | r in rows ensures (IsCrash(r.val) ==> r.ts <= Ms(now)) && ClockCovers(Upsert(t.pods, p, now), r) {
      InsertedRow(t.transitions, t.next.transition, ts, r);
      if r in t.transitions {
        UpsertCovers(t.pods, p, now, r);
      } else if IsCrash(r.val) {
        var x :| x in ts && r.ts == Ms(x.time) && r.val == x.val;
        EmittedCrash(oldPod, newPod, reason, now, x);
      }
    }
  }

  lemma PodGoneKeepsClocks(t: Tables, p: Pod, now: int)
    requires ClocksSound(t, now)
    ensures ClocksSound(PodGone(t, p, now), now)
  {
    var u := PodGone(t, p, now);
    forall r | r in u.transitions ensures (IsCrash(r.val) ==> r.ts <= Ms(now)) && ClockCovers(u.pods, r) {
      InsertedRow(t.transitions, t.next.transition, [Deletion(p, now)], r);
    }
  }

  lemma StepKeepsClocks(t: Tables, setup: Setup, s: Step, before: int)
    requires ClocksSound(t, before) && before <= s.now && Possible(s)
    ensures ClocksSound(Next(t, setup, s), s.now)
  {
    hide PodSeen, PodGone, WithEvent, NodeSeen, Ingested, TickOf, Capped;
    MsMonotone(before, s.now);
    assert ClocksSound(t, s.now);
    match s.action
    case PodDelivered(oldPod, newPod, reason) => PodSeenKeepsClocks(t, oldPod, newPod, reason, s.now);
    case PodDeleted(pod) => PodGoneKeepsClocks(t, pod, s.now);
    case Ticked => TickLeaves(t, setup.cfg, s.now);
    case PruneRan =>
    case _ => Untouched(t, setup, s);
  }

  lemma {:induction false} RunKeepsClocks(t: Tables, setup: Setup, start: int, steps: seq<Step>, end: int)
    requires ClocksSound(t, start) && LegalBetween(start, steps, end)
    ensures ClocksSound(RunFrom(t, setup, steps), end)
  {
    hide Next;
    if steps == [] {
      MsMonotone(start, end);
    } else {
      LegalPrefix(start, steps, end);
      var last := steps[|steps| - 1];
      RunKeepsClocks(t, setup, start, steps[..|steps| - 1], last.now);
      StepKeepsClocks(RunFrom(t, setup, steps[..|steps| - 1]), setup, last, last.now);
      MsMonotone(last.now, end);
    }
  }

  // --- closing ----------------------------------------------------------------------------------

  /** The pods with a crash in the window that ends at `now`. */
  function Crashing(t: Tables, cfg: Config, now: int): set<string> {
    CrashLoops(t.transitions, Ms(now - cfg.Window())).Keys
  }

  ghost predicate Closes(t: Tables, cfg: Config, now: int) {
    var d := Decide(t, cfg, now); d.Track? && d.closes
  }

  /** Seen from `next`, what lies before the stable window at `closedAt` has left the incident window. With evaluations
      30 seconds apart that is so when the stable window is at least as long as the incident window. */
  predicate Outlasts(cfg: Config, closedAt: int, next: int) {
    closedAt - cfg.Stable() + MILLI <= next - cfg.Window()
  }

  /** A known pod that has settled has no crash left in the window as it is at `next`. */
  lemma SettledHasNoCrash(t: Tables, cfg: Config, closedAt: int, next: int, k: string)
    requires ClocksSound(t, closedAt) && Outlasts(cfg, closedAt, next)
    requires k in t.pods && Settled(t.pods, k, closedAt, cfg.Stable())
    ensures k !in Crashing(t, cfg, next)
  {
    var cut := Ms(next - cfg.Window());
    CrashLoopsAre(t.transitions, cut, k);
    forall r | r in t.transitions && IsCrash(r.val) && KeyOf(r.val) == k ensures r.ts < cut {
      assert ClockCovers(t.pods, r);
      MsMonotone(FromMs(t.pods[k].since) + MILLI, next - cfg.Window());
    }
  }

  /** What closing decides: the current incident is tracked, and every pod on its grown list has settled. */
  lemma ClosesMeans(t: Tables, cfg: Config, now: int)
    requires Closes(t, cfg, now)
    ensures Current(t.incidents, now).Some?
    ensures var inc := Current(t.incidents, now).value;
            var pods := Grown(inc.pods, Crashing(t, cfg, now));
            && Decide(t, cfg, now) == Track(inc.id, pods, !(Crashing(t, cfg, now) <= Members(inc.pods)), true)
            && AllSettled(t.pods, pods, now, cfg.Stable())
  {
  }

  lemma ClosingSettles(t: Tables, cfg: Config, now: int, k: string)
    requires IncidentsSound(t, now) && Closes(t, cfg, now) && k in Crashing(t, cfg, now)
    ensures Settled(t.pods, k, now, cfg.Stable())
  {
    ClosesMeans(t, cfg, now);
    CurrentIsOpen(t.incidents, now);
    var inc := Current(t.incidents, now).value;
    GrownIsUnion(inc.pods, Crashing(t, cfg, now));
    assert k in Grown(inc.pods, Crashing(t, cfg, now));
  }

  lemma NoClocks(now: int)
    ensures ClocksSound(EMPTY, now)
  {
  }

  /** When an incident closes, every pod with a crash in the window of the next evaluation has been deleted. */
  lemma ClosingLeavesNoKnownCrasher(setup: Setup, start: int, steps: seq<Step>, closedAt: int, next: int)
    requires LegalBetween(start, steps, closedAt) && closedAt <= next && Outlasts(setup.cfg, closedAt, next)
    requires Closes(Run(setup, steps), setup.cfg, closedAt)
    ensures Crashing(Run(setup, steps), setup.cfg, next) !! Run(setup, steps).pods.Keys
  {
    hide RunFrom, Closes, CrashLoops, ClocksSound, Settled, IncidentsSound;
    var t := Run(setup, steps);
    AtMostOneOpenIncident(setup, start, steps, closedAt);
    NoClocks(start);
    RunKeepsClocks(EMPTY, setup, start, steps, closedAt);
    CrashingShrinks(t, t, setup.cfg, closedAt, next);
    forall k | k in t.pods ensures k !in Crashing(t, setup.cfg, next) {
      if Settled(t.pods, k, closedAt, setup.cfg.Stable()) { SettledHasNoCrash(t, setup.cfg, closedAt, next, k); }
      if k in Crashing(t, setup.cfg, closedAt) { ClosingSettles(t, setup.cfg, closedAt, k); }
    }
  }

  // --- reopening --------------------------------------------------------------------------------

  /** No container enters CrashLoopBackOff in this step. */
  ghost predicate NoNewCrash(s: Step) {
    s.action.PodDelivered? && s.action.oldPod.Some? ==> !CrashEntered(s.action.oldPod.value, s.action.newPod)
  }

  ghost predicate NoneOpen(t: Tables) {
    forall i :: i in t.incidents ==> !IsOpen(i)
  }

  lemma OthersClosed(s: seq<Incident>, j: nat)
    requires OneOpen(s) && j < |s| && IsOpen(s[j])
    ensures forall i :: 0 <= i < |s| && i != j ==> !IsOpen(s[i])
  {
  }

  lemma ClosingTheOnlyOne(s: seq<Incident>, inc: Incident, at: int)
    requires OneOpen(s) && inc in s && IsOpen(inc)
    ensures forall x :: x in SetClosed(s, inc.id, at) ==> !IsOpen(x)
  {
    var j :| 0 <= j < |s| && s[j] == inc;
    OthersClosed(s, j);
  }

  lemma GrowingKeepsOneOpen(s: seq<Incident>, inc: Incident, pods: seq<string>)
    requires OneOpen(s) && inc in s && IsOpen(inc)
    ensures var u := SetPods(s, inc.id, pods);
            OneOpen(u) && inc.(pods := pods) in u
  {
    var u := SetPods(s, inc.id, pods);
    var j :| 0 <= j < |s| && s[j] == inc;
    assert u[j] == inc.(pods := pods);
  }

  lemma TrackAndClose(t: Tables, inc: Incident, pods: seq<string>, grown: bool, now: int)
    requires OneOpen(t.incidents) && inc in t.incidents && IsOpen(inc)
    ensures NoneOpen(Apply(t, Track(inc.id, pods, grown, true), now))
  {
    if grown {
      GrowingKeepsOneOpen(t.incidents, inc, pods);
      ClosingTheOnlyOne(SetPods(t.incidents, inc.id, pods), inc.(pods := pods), Ms(now));
    } else {
      ClosingTheOnlyOne(t.incidents, inc, Ms(now));
    }
  }

  lemma ClosedLeavesNoneOpen(t: Tables, cfg: Config, now: int)
    requires IncidentsSound(t, now) && Closes(t, cfg, now)
    ensures NoneOpen(TickOf(t, cfg, now))
    ensures TickOf(t, cfg, now).transitions == t.transitions
  {
    TickLeaves(t, cfg, now);
    ClosesMeans(t, cfg, now);
    CurrentIsOpen(t.incidents, now);
    var d := Decide(t, cfg, now);
    TrackAndClose(t, Current(t.incidents, now).value, d.pods, d.grown, now);
  }

  lemma NoneOpenMeansNoCurrent(s: seq<Incident>, now: int)
    requires forall i :: i in s ==> !IsOpen(i)
    ensures Current(s, now) == None
  {
    FilterNone(s, OpenBy(Ms(now)));
  }

  /** After closing, the next evaluation, whenever it comes, opens an incident again exactly when the pods that crashed
      in the window as it is then still pass the thresholds. */
  lemma ReopensExactly(setup: Setup, start: int, steps: seq<Step>, closedAt: int, next: int)
    requires LegalBetween(start, steps, closedAt) && closedAt <= next
    requires Closes(Run(setup, steps), setup.cfg, closedAt)
    ensures var t := Run(setup, steps);
            Decide(TickOf(t, setup.cfg, closedAt), setup.cfg, next).Open? <==>
            OpensOn(Crashing(t, setup.cfg, next), setup.cfg.podThreshold, setup.cfg.nsThreshold)
  {
    hide RunFrom, TickOf, CrashLoops, Closes, IncidentsSound;
    var t := Run(setup, steps);
    AtMostOneOpenIncident(setup, start, steps, closedAt);
    ClosedLeavesNoneOpen(t, setup.cfg, closedAt);
    NoneOpenMeansNoCurrent(TickOf(t, setup.cfg, closedAt).incidents, next);
  }

  /** Every stored crash was already there. */
  ghost predicate OldCrashes(t: Tables, u: Tables) {
    forall r :: r in u.transitions && IsCrash(r.val) ==> r in t.transitions
  }

  lemma NoNewCrashKeepsCrashes(t: Tables, u: Tables, setup: Setup, s: Step)
    requires OldCrashes(t, u) && Possible(s) && NoNewCrash(s)
    ensures OldCrashes(t, Next(u, setup, s))
  {
    hide WithEvent, NodeSeen, Ingested, TickOf, Capped, Changed, Statuses, StateOf, InsertTransitions;
    var v := Next(u, setup, s);
    match s.action
    case PodDelivered(oldPod, newPod, reason) =>
      forall r | r in v.transitions && IsCrash(r.val) ensures r in t.transitions {
        InsertedRow(u.transitions, u.next.transition, Emitted(oldPod, newPod, s.now), r);
        if r !in u.transitions {
          var x :| x in Emitted(oldPod, newPod, s.now) && r.ts == Ms(x.time) && r.val == x.val;
          EmittedCrash(oldPod, newPod, reason, s.now, x);
        }
      }
    case PodDeleted(pod) =>
      forall r | r in v.transitions && IsCrash(r.val) ensures r in t.transitions {
        InsertedRow(u.transitions, u.next.transition, [Deletion(pod, s.now)], r);
      }
    case Ticked => TickLeaves(u, setup.cfg, s.now);
    case PruneRan =>
    case _ => Untouched(u, setup, s);
  }

  /** With no new crashes the crashing pods can only become fewer. */
  lemma CrashingShrinks(t: Tables, u: Tables, cfg: Config, earlier: int, later: int)
    requires OldCrashes(t, u) && earlier <= later
    ensures Crashing(u, cfg, later) <= Crashing(t, cfg, earlier)
  {
    var a, b := Ms(earlier - cfg.Window()), Ms(later - cfg.Window());
    MsMonotone(earlier - cfg.Window(), later - cfg.Window());
    forall k | k in Crashing(u, cfg, later) ensures k in Crashing(t, cfg, earlier) {
      CrashLoopsAre(u.transitions, b, k);
      var r :| r in u.transitions && CrashRow(r, b, k);
      assert CrashRow(r, a, k);
      CrashLoopsAre(t.transitions, a, k);
    }
  }

  lemma QuietTick(t: Tables, u: Tables, cfg: Config, next: int, now: int)
    requires OldCrashes(t, u) && NoneOpen(u) && next <= now
    requires !OpensOn(Crashing(t, cfg, next), cfg.podThreshold, cfg.nsThreshold)
    ensures Decide(u, cfg, now) == Quiet
  {
    NoneOpenMeansNoCurrent(u.incidents, now);
    CrashingShrinks(t, u, cfg, next, now);
    if OpensOn(Crashing(u, cfg, now), cfg.podThreshold, cfg.nsThreshold) {
      OpensOnMonotone(Crashing(u, cfg, now), Crashing(t, cfg, next), cfg.podThreshold, cfg.nsThreshold);
    }
  }

  /** With nothing open, too few crashes in the window from `next` on and no new ones, no step opens an incident. */
  lemma StaysShut(t: Tables, u: Tables, setup: Setup, next: int, s: Step)
    requires OldCrashes(t, u) && NoneOpen(u) && Possible(s) && NoNewCrash(s) && (s.action.Ticked? ==> next <= s.now)
    requires !OpensOn(Crashing(t, setup.cfg, next), setup.cfg.podThreshold, setup.cfg.nsThreshold)
    ensures var v := Next(u, setup, s);
            OldCrashes(t, v) && NoneOpen(v) && v.next.incident == u.next.incident
  {
    hide PodSeen, PodGone, WithEvent, NodeSeen, Ingested, TickOf, Capped, OldCrashes, CrashLoops, OpensOn;
    NoNewCrashKeepsCrashes(t, u, setup, s);
    match s.action
    case PodDelivered(oldPod, newPod, reason) => PodStepsLeave(u, oldPod, newPod, reason, newPod, s.now);
    case PodDeleted(pod) => PodStepsLeave(u, None, pod, "", pod, s.now);
    case Ticked => QuietTick(t, u, setup.cfg, next, s.now); TickLeaves(u, setup.cfg, s.now);
    case PruneRan =>
    case _ => Untouched(u, setup, s);
  }

  /** Steps after a closing in which no container enters CrashLoopBackOff, with no evaluation before `next`. */
  ghost predicate Aftermath(closedAt: int, next: int, more: seq<Step>, end: int) {
    && LegalBetween(closedAt, more, end) && closedAt <= next
    && forall s :: s in more ==> NoNewCrash(s) && (s.action.Ticked? ==> next <= s.now)
  }

  lemma AftermathPrefix(closedAt: int, next: int, more: seq<Step>, end: int)
    requires Aftermath(closedAt, next, more, end) && more != []
    ensures var last := more[|more| - 1];
            && Aftermath(closedAt, next, more[..|more| - 1], last.now)
            && Possible(last) && NoNewCrash(last) && (last.action.Ticked? ==> next <= last.now)
  {
    LegalPrefix(closedAt, more, end);
    assert more[|more| - 1] in more;
    assert forall s :: s in more[..|more| - 1] ==> s in more;
  }

  lemma {:induction false} StaysShutForever(t: Tables, u: Tables, setup: Setup, closedAt: int, next: int,
      more: seq<Step>, end: int)
    requires OldCrashes(t, u) && NoneOpen(u) && Aftermath(closedAt, next, more, end)
    requires !OpensOn(Crashing(t, setup.cfg, next), setup.cfg.podThreshold, setup.cfg.nsThreshold)
    ensures var v := RunFrom(u, setup, more);
            OldCrashes(t, v) && NoneOpen(v) && v.next.incident == u.next.incident
  {
    hide Next, Aftermath, OldCrashes, OpensOn;
    if more != [] {
      AftermathPrefix(closedAt, next, more, end);
      var last := more[|more| - 1];
      StaysShutForever(t, u, setup, closedAt, next, more[..|more| - 1], last.now);
      StaysShut(t, RunFrom(u, setup, more[..|more| - 1]), setup, next, last);
    }
  }

  /** Further steps open an incident. */
  ghost predicate Opens(u: Tables, setup: Setup, more: seq<Step>) {
    RunFrom(u, setup, more).next.incident != u.next.incident
  }

  /** Whether a closed incident can be followed by another without a new crash: some way of going on opens one if and
      only if the crashes the closing left behind still pass the thresholds at the next evaluation. */
  lemma SomeAftermathReopensExactly(setup: Setup, start: int, steps: seq<Step>, closedAt: int, next: int)
    requires LegalBetween(start, steps, closedAt) && closedAt <= next
    requires Closes(Run(setup, steps), setup.cfg, closedAt)
    ensures (exists more, end ::
              Aftermath(closedAt, next, more, end)
              && Opens(TickOf(Run(setup, steps), setup.cfg, closedAt), setup, more))
            <==>
            OpensOn(Crashing(Run(setup, steps), setup.cfg, next), setup.cfg.podThreshold, setup.cfg.nsThreshold)
  {
    hide RunFrom, TickOf, CrashLoops, Closes, IncidentsSound, OpensOn, Aftermath;
    var t := Run(setup, steps);
    var shut := TickOf(t, setup.cfg, closedAt);
    AtMostOneOpenIncident(setup, start, steps, closedAt);
    ClosedLeavesNoneOpen(t, setup.cfg, closedAt);
    if OpensOn(Crashing(t, setup.cfg, next), setup.cfg.podThreshold, setup.cfg.nsThreshold) {
      ReopensExactly(setup, start, steps, closedAt, next);
      NextTickOpens(shut, setup, closedAt, next);
    } else {
      forall more, end | Aftermath(closedAt, next, more, end) ensures !Opens(shut, setup, more) {
        StaysShutForever(t, shut, setup, closedAt, next, more, end);
      }
    }
  }

  lemma NextTickOpens(u: Tables, setup: Setup, closedAt: int, next: int)
    requires closedAt <= next && Decide(u, setup.cfg, next).Open?
    ensures Aftermath(closedAt, next, [Step(next, Ticked)], next) && Opens(u, setup, [Step(next, Ticked)])
  {
    hide Next, Decide, QuietCluster, MarkNodes;
    RunSnoc(u, setup, [], Step(next, Ticked));
    assert [] + [Step(next, Ticked)] == [Step(next, Ticked)];
    TickIs(u, setup, next);
    TickLeaves(u, setup.cfg, next);
  }

  lemma TickIs(t: Tables, setup: Setup, now: int)
    ensures Next(t, setup, Step(now, Ticked)) == TickOf(t, setup.cfg, now)
  {
    hide PodSeen, PodGone, WithEvent, NodeSeen, Ingested, TickOf, Pruned, Capped;
  }

  /** A closed incident whose crashing pods are all still known is never followed by another without a new crash:
      however the run goes on, no incident is opened until a container enters CrashLoopBackOff again. */
  lemma ClosedStaysClosed(setup: Setup, start: int, steps: seq<Step>, closedAt: int, next: int, more: seq<Step>,
      end: int)
    requires setup.cfg.Valid() && Outlasts(setup.cfg, closedAt, next)
    requires LegalBetween(start, steps, closedAt) && Aftermath(closedAt, next, more, end)
    requires Closes(Run(setup, steps), setup.cfg, closedAt)
    requires Crashing(Run(setup, steps), setup.cfg, next) <= Run(setup, steps).pods.Keys
    ensures var shut := TickOf(Run(setup, steps), setup.cfg, closedAt);
            !Opens(shut, setup, more) && NoneOpen(RunFrom(shut, setup, more))
  {
    hide RunFrom, TickOf, CrashLoops, Closes, IncidentsSound;
    var t := Run(setup, steps);
    ClosingLeavesNoKnownCrasher(setup, start, steps, closedAt, next);
    assert Crashing(t, setup.cfg, next) == {};
    AtMostOneOpenIncident(setup, start, steps, closedAt);
    ClosedLeavesNoneOpen(t, setup.cfg, closedAt);
    StaysShutForever(t, TickOf(t, setup.cfg, closedAt), setup, closedAt, next, more, end);
  }
}
