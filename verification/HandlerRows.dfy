/** What the handlers leave in the tables, told from what was delivered: each stored transition, pod row, snapshot and
    change record, with all its columns. */
module HandlerRows {
  import opened Sample
  import opened Rows
  import opened Text
  import opened Differ
  import opened Schema
  import opened Retention
  import opened Convert
  import opened Incidents
  import opened Collector
  import opened Api
  import opened Recorder
  import opened PodRuns
  import opened CrashRuns

  // --- transitions ------------------------------------------------------------------------------------

  function Exactly(v: PodTransition): Which { (t: PodTransition) => t == v }

  /** The update from `o` to `n` says this: a change of phase, a restart or a change of waiting reason. */
  ghost predicate Says(o: Pod, n: Pod, now: int, x: Timed<PodTransition>) {
    || TellsPhase(x, o, n, now)
    || exists k :: k in Statuses(n) && TellsContainer(x, n, k, StatusOr(Statuses(o), k), Statuses(n)[k], now)
  }

  lemma ChangedExactly(o: Pod, n: Pod, now: int, x: Timed<PodTransition>)
    ensures x in Changed(o, n, now) <==> Says(o, n, now, x)
  {
    hide Changed, TellsPhase, TellsRestart, TellsWaiting, TellsContainer;
    var ts := Changed(o, n, now);
    if x in ts { TransitionsTell(o, n, now, x); }
    if TellsPhase(x, o, n, now) { PhaseIsTold(o, n, now, x); }
    if k :| k in Statuses(n) && TellsContainer(x, n, k, StatusOr(Statuses(o), k), Statuses(n)[k], now) {
      ContainerIsTold(o, n, now, k, x);
    }
  }

  lemma PhaseIsTold(o: Pod, n: Pod, now: int, x: Timed<PodTransition>)
    requires TellsPhase(x, o, n, now)
    ensures x in Changed(o, n, now)
  {
    hide ContainerChanges;
    assert x == PhaseChange(o, n, now)[0];
  }

  lemma ContainerIsTold(o: Pod, n: Pod, now: int, k: string, x: Timed<PodTransition>)
    requires k in Statuses(n) && TellsContainer(x, n, k, StatusOr(Statuses(o), k), Statuses(n)[k], now)
    ensures x in Changed(o, n, now)
  {
    hide Changed, TellsRestart, TellsWaiting;
    var ts, p, q := Changed(o, n, now), StatusOr(Statuses(o), k), Statuses(n)[k];
    ChangesAreTold(o, n, now, k);
    if TellsRestart(x, n, k, p, q, now) {
      RestartTellsAll(x, n, k, p, q, now);
      var y :| y in ts && TellsRestart(y, n, k, p, q, now);
      RestartTellsAll(y, n, k, p, q, now);
    } else {
      WaitingTellsAll(x, n, k, p, q, now);
      var y :| y in ts && TellsWaiting(y, n, k, p, q, now);
      WaitingTellsAll(y, n, k, p, q, now);
    }
  }

  lemma RestartTellsAll(x: Timed<PodTransition>, p: Pod, k: string, o: ContainerStatus, n: ContainerStatus, now: int)
    requires TellsRestart(x, p, k, o, n, now)
    ensures n.restartCount > o.restartCount && [x] == RestartChange(p, k, o, n, now)
  {
  }

  lemma WaitingTellsAll(x: Timed<PodTransition>, p: Pod, k: string, o: ContainerStatus, n: ContainerStatus, now: int)
    requires TellsWaiting(x, p, k, o, n, now)
    ensures WaitingReason(o) != WaitingReason(n) && [x] == WaitingChange(p, k, o, n, now)
  {
  }

  /** The step tells this transition, for this stored time: an update that says it, or the deletion of the pod. An added
      pod tells nothing. */
  ghost predicate StepSays(s: Step, v: PodTransition, at: int) {
    match s.action
    case PodDelivered(Some(o), n, _) => exists x :: Says(o, n, s.now, x) && x.val == v && Ms(x.time) == at
    case PodDeleted(p) =>
      at == Ms(s.now) && v == PodTransition(p.namespace, p.name, p.node, Phase, p.phase, "Deleted", "")
    case _ => false
  }

  lemma EmitsWhatItSays(s: Step, v: PodTransition, at: int)
    ensures Emits(s, Exactly(v), at) <==> StepSays(s, v, at)
  {
    hide Changed, Says;
    if s.action.PodDelivered? && s.action.oldPod.Some? {
      forall x ensures x in EmittedBy(s) <==> Says(s.action.oldPod.value, s.action.newPod, s.now, x) {
        ChangedExactly(s.action.oldPod.value, s.action.newPod, s.now, x);
      }
    } else if s.action.PodDeleted? {
      assert EmittedBy(s)[0] in EmittedBy(s);
    }
  }

  ghost predicate SomeStepSays(steps: seq<Step>, v: PodTransition, at: int) {
    exists i :: 0 <= i < |steps| && StepSays(steps[i], v, at)
  }

  /** In every run, each stored transition is one that an update or a deletion told, with its stored time; and each
      one told at a time the retention period still covers is stored. */
  lemma StoredTransitionsTell(setup: Setup, start: int, steps: seq<Step>, end: int, v: PodTransition, at: int)
    requires LegalBetween(start, steps, end)
    ensures (exists r :: r in Run(setup, steps).transitions && r.val == v && r.ts == at) ==> SomeStepSays(steps, v, at)
    ensures SomeStepSays(steps, v, at) && Ms(end - setup.keep.events) <= at ==>
            exists r :: r in Run(setup, steps).transitions && r.val == v && r.ts == at
  {
    hide Run, StepSays, Emits;
    TransitionsAreEmitted(setup, start, steps, end, Exactly(v), at);
    forall i | 0 <= i < |steps| ensures Emits(steps[i], Exactly(v), at) <==> StepSays(steps[i], v, at) {
      EmitsWhatItSays(steps[i], v, at);
    }
  }

  /** What one transition of an update is about: the phase, or a restart or waiting reason of a container. */
  datatype Subject = Subject(container: string, kind: TransitionKind)

  /** The phase comes first, then the containers by name, and a restart before a waiting reason. */
  predicate Earlier(a: Subject, b: Subject) {
    if a.kind == Phase || b.kind == Phase then a.kind == Phase && b.kind != Phase
    else Less(a.container, b.container) || (a.container == b.container && a.kind == Restart && b.kind == Waiting)
  }

  ghost predicate InSubjectOrder(l: seq<Subject>) { forall i, j :: 0 <= i < j < |l| ==> Earlier(l[i], l[j]) }

  /** The transition tells this about the update from `o` to `n`. */
  predicate TellsSubject(x: Timed<PodTransition>, a: Subject, o: Pod, n: Pod, now: int) {
    if a.kind == Phase then TellsPhase(x, o, n, now)
    else TellsOf(x, a, n, Statuses(o), Statuses(n), now)
  }

  predicate TellsOf(x: Timed<PodTransition>, a: Subject, p: Pod, before: map<string, ContainerStatus>,
      after: map<string, ContainerStatus>, now: int) {
    var o, n := StatusOr(before, a.container), StatusOr(after, a.container);
    && a.container in after
    && (a.kind == Restart ==> TellsRestart(x, p, a.container, o, n, now))
    && (a.kind == Waiting ==> TellsWaiting(x, p, a.container, o, n, now))
    && a.kind != Phase
  }

  /** One transition for each subject. */
  ghost predicate AboutContainers(l: seq<Subject>, ts: seq<Timed<PodTransition>>, p: Pod,
      before: map<string, ContainerStatus>, after: map<string, ContainerStatus>, now: int) {
    && |l| == |ts| && InSubjectOrder(l)
    && forall i :: 0 <= i < |l| ==> TellsOf(ts[i], l[i], p, before, after, now)
  }

  lemma OneContainerOnce(p: Pod, k: string, before: map<string, ContainerStatus>, after: map<string, ContainerStatus>,
      now: int) returns (l: seq<Subject>)
    requires k in after
    ensures AboutContainers(l, ContainerChange(p, k, StatusOr(before, k), StatusOr(after, k), now), p, before, after,
              now)
    ensures forall x :: x in l ==> x.container == k && x.kind != Phase
  {
    var o, n := StatusOr(before, k), StatusOr(after, k);
    l := (if n.restartCount > o.restartCount then [Subject(k, Restart)] else []) +
         (if WaitingReason(o) != WaitingReason(n) then [Subject(k, Waiting)] else []);
  }

  lemma {:induction false} ContainersOnce(p: Pod, before: map<string, ContainerStatus>,
      after: map<string, ContainerStatus>, names: seq<string>, now: int) returns (l: seq<Subject>)
    requires StrictlySorted(names) && forall k :: k in names ==> k in after
    ensures AboutContainers(l, ContainerChanges(p, before, after, names, now), p, before, after, now)
    ensures forall x :: x in l ==> x.container in names && x.kind != Phase
  {
    hide ContainerChange, TellsOf, StatusOr;
    l := [];
    if names != [] {
      var front, name := names[..|names| - 1], names[|names| - 1];
      assert names == front + [name];
      var a := ContainersOnce(p, before, after, front, now);
      var b := OneContainerOnce(p, name, before, after, now);
      l := a + b;
      forall x, y | x in a && y in b ensures Earlier(x, y) {}
    }
  }

  /** An update stores each thing it says once: first the phase, then container by container in the order of their
      names, the restart before the waiting reason. */
  lemma EachOnceInOrder(o: Pod, n: Pod, now: int) returns (l: seq<Subject>)
    ensures var ts := Changed(o, n, now);
            && |l| == |ts| && InSubjectOrder(l)
            && forall i :: 0 <= i < |l| ==> TellsSubject(ts[i], l[i], o, n, now)
  {
    hide ContainerChanges, PhaseChange, TellsSubject, TellsOf, InSubjectOrder, Statuses, Earlier, SortedKeys, StatusOr;
    var a := ContainersOnce(n, Statuses(o), Statuses(n), SortedKeys(Statuses(n).Keys), now);
    OnePhase(o, n, now);
    PhaseFirst(a);
    l := if o.phase == n.phase then a else [Subject("", Phase)] + a;
    var b := |l| - |a|;
    forall i | 0 <= i < |l| ensures TellsSubject(Changed(o, n, now)[i], l[i], o, n, now) {
      if i >= b { OneOf(Changed(o, n, now)[i], a[i - b], o, n, now); }
    }
  }

  lemma PhaseFirst(a: seq<Subject>)
    requires InSubjectOrder(a) && forall x :: x in a ==> x.kind != Phase
    ensures InSubjectOrder([Subject("", Phase)] + a)
  {
  }

  lemma OnePhase(o: Pod, n: Pod, now: int)
    ensures |PhaseChange(o, n, now)| == if o.phase == n.phase then 0 else 1
    ensures o.phase != n.phase ==> TellsSubject(PhaseChange(o, n, now)[0], Subject("", Phase), o, n, now)
  {
  }

  lemma OneOf(x: Timed<PodTransition>, a: Subject, o: Pod, n: Pod, now: int)
    requires TellsOf(x, a, n, Statuses(o), Statuses(n), now)
    ensures TellsSubject(x, a, o, n, now)
  {
  }

  // --- pod rows ----------------------------------------------------------------------------------------

  /** The last step that reported or deleted this pod. */
  ghost predicate LastAbout(steps: seq<Step>, key: string, i: int) {
    && 0 <= i < |steps| && IsAbout(steps[i], key)
    && forall j :: i < j < |steps| ==> !IsAbout(steps[j], key)
  }

  predicate IsAbout(s: Step, key: string) {
    match s.action
    case PodDelivered(_, p, _) => KeyOfPod(p) == key
    case PodDeleted(p) => KeyOfPod(p) == key
    case _ => false
  }

  lemma LastAboutSnoc(steps: seq<Step>, s: Step, key: string, i: int)
    ensures LastAbout(steps + [s], key, i) <==>
            if IsAbout(s, key) then i == |steps| else LastAbout(steps, key, i)
  {
    hide IsAbout;
    var all := steps + [s];
    assert all[|steps|] == s;
    if LastAbout(steps, key, i) && !IsAbout(s, key) {
      forall j | i < j < |all| ensures !IsAbout(all[j], key) {}
    }
    if LastAbout(all, key, i) && i < |steps| {
      forall j | i < j < |steps| ensures !IsAbout(steps[j], key) { assert all[j] == steps[j]; }
    }
  }

  /** A pod row against the pod reported: every column but the clock. */
  ghost predicate DescribesPod(row: PodState, p: Pod, reason: string) {
    && row.namespace == p.namespace && row.name == p.name && row.node == p.node
    && row.phase == p.phase && row.waitingReason == reason
    && row.restarts == RestartTotal(Statuses(p), Statuses(p).Keys)
  }

  ghost predicate LastReported(pods: map<string, PodState>, steps: seq<Step>, key: string) {
    && (key in pods ==> exists i :: LastAbout(steps, key, i) && steps[i].action.PodDelivered?)
    && forall i :: LastAbout(steps, key, i) ==>
         match steps[i].action
         case PodDelivered(_, p, reason) => key in pods && DescribesPod(pods[key], p, reason)
         case _ => key !in pods
  }

  /** In every run a pod has a row exactly when the last step about it reported it, and the row describes that report.
      */
  lemma {:induction false} PodRowIsLastReport(setup: Setup, steps: seq<Step>, key: string)
    ensures LastReported(Run(setup, steps).pods, steps, key)
  {
    hide Next, LastReported;
    if steps == [] {
      NoReport(key);
    } else {
      var front, s := steps[..|steps| - 1], steps[|steps| - 1];
      PodRowIsLastReport(setup, front, key);
      assert front + [s] == steps;
      StepReports(Run(setup, front), setup, s, front, key);
    }
  }

  lemma NoReport(key: string)
    ensures LastReported(EMPTY.pods, [], key)
  {
  }

  lemma StepReports(t: Tables, setup: Setup, s: Step, front: seq<Step>, key: string)
    requires LastReported(t.pods, front, key)
    ensures LastReported(Next(t, setup, s).pods, front + [s], key)
  {
    hide Next, RestartTotal, DescribesPod, LastAbout, IsAbout;
    forall i
      ensures LastAbout(front + [s], key, i) <==>
              if IsAbout(s, key) then i == |front| else LastAbout(front, key, i)
    {
      LastAboutSnoc(front, s, key, i);
    }
    forall i | LastAbout(front, key, i) ensures 0 <= i < |front| { AboutWithin(front, key, i); }
    StepPodRow(t, setup, s, key);
    if IsAbout(s, key) { assert (front + [s])[|front|] == s && LastAbout(front + [s], key, |front|); }
    if key in t.pods && !IsAbout(s, key) {
      var i :| LastAbout(front, key, i) && front[i].action.PodDelivered?;
      assert LastAbout(front + [s], key, i) && (front + [s])[i] == front[i];
    }
  }

  lemma AboutWithin(steps: seq<Step>, key: string, i: int)
    requires LastAbout(steps, key, i)
    ensures 0 <= i < |steps|
  {
  }

  /** A step about the pod writes or deletes its row, and any other leaves it as it is. */
  lemma StepPodRow(t: Tables, setup: Setup, s: Step, key: string)
    ensures var u := Next(t, setup, s);
            if !IsAbout(s, key)
            then (key in u.pods <==> key in t.pods) && (key in t.pods ==> u.pods[key] == t.pods[key])
            else match s.action
                 case PodDelivered(_, p, reason) => key in u.pods && DescribesPod(u.pods[key], p, reason)
                 case _ => key !in u.pods
  {
    hide WithEvent, NodeSeen, Ingested, TickOf, Pruned, Capped, InsertTransitions, RestartTotal;
    match s.action
    case PodDelivered(_, _, _) => {}
    case PodDeleted(_) => {}
    case Ticked => TickLeaves(t, setup.cfg, s.now);
    case PruneRan => PruneKeepsPods(t, s.now, setup.keep);
    case _ => Untouched(t, setup, s);
  }

  // --- snapshots and change records --------------------------------------------------------------------

  /** A value exactly when present, and one of the four states. */
  predicate Shaped(f: Field) {
    && f.state in {StatePresent, StateAbsent, StateNotApplicable, StateUnknown}
    && (f.value.Some? <==> f.state == StatePresent)
  }

  /** This snapshot was appended, with these change records, all under this time; nothing else changed. */
  ghost predicate Appended(t: Tables, u: Tables, time: int, snap: Snapshot, cs: seq<Change>) {
    && u == t.(snapshots := u.snapshots, changes := u.changes, next := u.next)
    && u.snapshots == t.snapshots + [Row(t.next.snapshot, Ms(time), snap)]
    && |u.changes| == |t.changes| + |cs| && u.changes[..|t.changes|] == t.changes
    && (forall i :: 0 <= i < |cs| ==> u.changes[|t.changes| + i] == Row(t.next.change + i, Ms(time), cs[i]))
    && u.next == t.next.(snapshot := t.next.snapshot + 1, change := t.next.change + |cs|)
  }

  lemma StoredAppends(t: Tables, s: Timed<Snapshot>, cs: seq<Change>)
    ensures Appended(t, Stored(t, s, cs), s.time, s.val, cs)
  {
  }

  /** What becomes of a post: one with a node, a time (its own or else the clock's) and some well shaped fields is
      stored as the agent's, flagged by nobody, with what differs from the latest one of its node; any other changes
      nothing. */
  lemma PostTells(t: Tables, posted: Timed<Snapshot>, now: int)
    ensures var time, snap := if posted.time == ZERO_TIME then now else posted.time,
              posted.val.(source := Agent, baseline := false);
            var accepted := snap.node != "" && time != ZERO_TIME && snap.fields != map[] &&
              forall k :: k in snap.fields ==> Shaped(snap.fields[k]);
            && (accepted ==>
                  Appended(t, Ingested(t, posted, now), time, snap,
                    match Latest(t.snapshots, snap.node, Agent)
                    case None => []
                    case Some(prev) => Between(prev.val, snap)))
            && (!accepted ==> Ingested(t, posted, now) == t)
  {
    hide Appended, Between, Latest, Stored;
    var n := Normalised(posted, now);
    StoredAppends(t, n, ChangesFrom(Latest(t.snapshots, n.val.node, Agent), n.val));
    assert |n.val.fields| == 0 <==> n.val.fields == map[];
  }

  /** What becomes of a delivered node: its fields are stored as the collector's, without a driver, unless the latest
      one has the same keys with equal fields. */
  lemma NodeTells(t: Tables, n: Node, now: int)
    ensures var f, prev := NodeFields(n), Latest(t.snapshots, n.name, API);
            var same := prev.Some? && prev.value.val.fields.Keys == f.Keys &&
              forall k :: k in f ==> prev.value.val.fields[k].Equal(f[k]);
            var snap := Snapshot(n.name, API, "", 0, "", f, false);
            && (same ==> NodeSeen(t, n, now) == t)
            && (!same ==>
                  Appended(t, NodeSeen(t, n, now), now, snap,
                    match prev case None => [] case Some(p) => Diff(p.val, snap)))
  {
    hide Appended, Diff, Latest, Stored, NodeFields;
    var snap, prev := NodeSample(n), Latest(t.snapshots, n.name, API);
    StoredAppends(t, Timed(now, snap), match prev case None => [] case Some(p) => Diff(p.val, snap));
    if prev.Some? { FieldsEqualSameKeys(prev.value.val.fields, snap.fields); }
  }
}
