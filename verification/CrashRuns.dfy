/** From delivered pod updates to incidents: the evaluator, which reads only tables, opens an incident exactly when
    enough pods across enough namespaces entered CrashLoopBackOff within the window. */
module CrashRuns {
  import opened Sample
  import opened Rows
  import opened Text
  import opened Schema
  import opened Retention
  import opened Convert
  import opened Incidents
  import opened Collector
  import opened Api
  import opened Recorder
  import opened IncidentRuns
  import opened PodRuns
  import opened QuietRuns

  // --- what is emitted and what is stored -------------------------------------------------------

  /** The transitions a step writes. */
  ghost function EmittedBy(s: Step): seq<Timed<PodTransition>> {
    match s.action
    case PodDelivered(oldPod, newPod, _) => Emitted(oldPod, newPod, s.now)
    case PodDeleted(pod) => [Deletion(pod, s.now)]
    case _ => []
  }

  /** A class of transitions. */
  type Which = PodTransition -> bool

  ghost predicate Emits(s: Step, p: Which, at: int) {
    exists x :: x in EmittedBy(s) && p(x.val) && Ms(x.time) == at
  }

  ghost predicate EmittedAt(steps: seq<Step>, p: Which, at: int) {
    exists i :: 0 <= i < |steps| && Emits(steps[i], p, at)
  }

  ghost predicate StoredAt(s: seq<Row<PodTransition>>, p: Which, at: int) {
    exists r :: r in s && p(r.val) && r.ts == at
  }

  lemma InsertedAt(s: seq<Row<PodTransition>>, next: int, ts: seq<Timed<PodTransition>>, p: Which, at: int)
    ensures StoredAt(InsertTransitions(s, next, ts), p, at) <==>
            StoredAt(s, p, at) || exists x :: x in ts && p(x.val) && Ms(x.time) == at
  {
    var u := InsertTransitions(s, next, ts);
    if StoredAt(u, p, at) {
      var r :| r in u && p(r.val) && r.ts == at;
      InsertedRow(s, next, ts, r);
    }
    if StoredAt(s, p, at) {
      var r :| r in s && p(r.val) && r.ts == at;
      var i :| 0 <= i < |s| && s[i] == r;
      assert u[i] in u;
    }
    if x :| x in ts && p(x.val) && Ms(x.time) == at {
      var i :| 0 <= i < |ts| && ts[i] == x;
      assert u[|s| + i] in u;
    }
  }

  lemma PodStepStores(t: Tables, setup: Setup, s: Step, p: Which, at: int)
    requires s.action.PodDelivered? || s.action.PodDeleted?
    ensures StoredAt(Next(t, setup, s).transitions, p, at) <==> StoredAt(t.transitions, p, at) || Emits(s, p, at)
  {
    hide InsertTransitions, Changed, StateOf, StoredAt, TickOf, NodeSeen, Ingested, Capped;
    InsertedAt(t.transitions, t.next.transition, EmittedBy(s), p, at);
  }

  lemma PrunedAt(s: seq<Row<PodTransition>>, cut: int, p: Which, at: int)
    ensures StoredAt(Filter(s, Since(cut)), p, at) <==> StoredAt(s, p, at) && cut <= at
  {
    if StoredAt(s, p, at) && cut <= at {
      var r :| r in s && p(r.val) && r.ts == at;
      assert Since(cut)(r);
    }
  }

  lemma StepStores(t: Tables, setup: Setup, s: Step, p: Which, at: int)
    ensures StoredAt(Next(t, setup, s).transitions, p, at) <==>
            if s.action.PruneRan? then StoredAt(t.transitions, p, at) && Ms(s.now - setup.keep.events) <= at
            else StoredAt(t.transitions, p, at) || Emits(s, p, at)
  {
    hide PodSeen, PodGone, TickOf, NodeSeen, Ingested, Capped, WithEvent, StoredAt, Changed;
    match s.action
    case PodDelivered(_, _, _) => PodStepStores(t, setup, s, p, at);
    case PodDeleted(_) => PodStepStores(t, setup, s, p, at);
    case Ticked => TickLeaves(t, setup.cfg, s.now);
    case PruneRan => PrunedAt(t.transitions, Ms(s.now - setup.keep.events), p, at);
    case _ => Untouched(t, setup, s);
  }

  lemma EmittedSnoc(steps: seq<Step>, s: Step, p: Which, at: int)
    ensures EmittedAt(steps + [s], p, at) <==> EmittedAt(steps, p, at) || Emits(s, p, at)
  {
    hide Emits;
    var all := steps + [s];
    if EmittedAt(steps, p, at) {
      var i :| 0 <= i < |steps| && Emits(steps[i], p, at);
      assert all[i] == steps[i];
    }
    assert all[|steps|] == s;
  }

  /** In every run, however often it is pruned, the stored transitions of any class were emitted at their time, and
      every one emitted at a time recent enough to be kept is stored. */
  lemma {:induction false} TransitionsAreEmitted(setup: Setup, start: int, steps: seq<Step>, end: int, p: Which,
      at: int)
    requires LegalBetween(start, steps, end)
    ensures StoredAt(Run(setup, steps).transitions, p, at) ==> EmittedAt(steps, p, at)
    ensures EmittedAt(steps, p, at) && Ms(end - setup.keep.events) <= at ==>
            StoredAt(Run(setup, steps).transitions, p, at)
  {
    hide Next, StoredAt, EmittedAt, Emits;
    if steps == [] {
      NothingEmittedYet(p, at);
    } else {
      LegalPrefix(start, steps, end);
      var front, s := steps[..|steps| - 1], steps[|steps| - 1];
      TransitionsAreEmitted(setup, start, front, s.now, p, at);
      StepStores(Run(setup, front), setup, s, p, at);
      EmittedSnoc(front, s, p, at);
      assert front + [s] == steps;
      MsMonotone(s.now - setup.keep.events, end - setup.keep.events);
      PruneEmitsNothing(s, p, at);
    }
  }

  lemma NothingEmittedYet(p: Which, at: int)
    ensures !EmittedAt([], p, at) && !StoredAt([], p, at)
  {
  }

  lemma PruneEmitsNothing(s: Step, p: Which, at: int)
    ensures s.action.PruneRan? ==> !Emits(s, p, at)
  {
  }

  // --- entries into CrashLoopBackOff ---------------------------------------------------------------

  /** The step delivers an update of this pod in which a container entered CrashLoopBackOff. */
  ghost predicate Enters(s: Step, key: string) {
    && s.action.PodDelivered? && s.action.oldPod.Some? && KeyOfPod(s.action.newPod) == key
    && CrashEntered(s.action.oldPod.value, s.action.newPod)
  }

  ghost predicate EnteredAt(steps: seq<Step>, key: string, ts: int) {
    exists i :: 0 <= i < |steps| && Enters(steps[i], key) && Ms(steps[i].now) == ts
  }

  ghost predicate EnteredSince(steps: seq<Step>, key: string, cut: int) {
    exists ts :: cut <= ts && EnteredAt(steps, key, ts)
  }

  function CrashOf(key: string): Which { (t: PodTransition) => IsCrash(t) && KeyOf(t) == key }

  lemma EntersEmits(s: Step, key: string, at: int)
    ensures Emits(s, CrashOf(key), at) <==> Enters(s, key) && Ms(s.now) == at
  {
    hide Changed, CrashEntered;
    if s.action.PodDelivered? && s.action.oldPod.Some? {
      CrashTransitions(s.action.oldPod.value, s.action.newPod, s.now);
    }
  }

  /** In every run the stored crashes are entries that were delivered, and every entry recent enough to be kept is
      stored. */
  lemma CrashesAreEntries(setup: Setup, start: int, steps: seq<Step>, end: int, key: string, at: int)
    requires LegalBetween(start, steps, end)
    ensures StoredAt(Run(setup, steps).transitions, CrashOf(key), at) ==> EnteredAt(steps, key, at)
    ensures EnteredAt(steps, key, at) && Ms(end - setup.keep.events) <= at ==>
            StoredAt(Run(setup, steps).transitions, CrashOf(key), at)
  {
    hide Run, StoredAt, Emits, Enters;
    TransitionsAreEmitted(setup, start, steps, end, CrashOf(key), at);
    forall i | 0 <= i < |steps|
      ensures Emits(steps[i], CrashOf(key), at) <==> Enters(steps[i], key) && Ms(steps[i].now) == at
    {
      EntersEmits(steps[i], key, at);
    }
  }

  /** The pod is listed exactly when it entered CrashLoopBackOff since `cut`, and then with its first entry. */
  ghost predicate TellsEntries(found: map<string, int>, steps: seq<Step>, cut: int, key: string) {
    && (key in found <==> EnteredSince(steps, key, cut))
    && (key in found ==> cut <= found[key] && EnteredAt(steps, key, found[key]))
    && (key in found ==> forall at :: cut <= at && EnteredAt(steps, key, at) ==> found[key] <= at)
  }

  /** The crash query, whatever the window, as long as transitions are kept for it: the pods that entered
      CrashLoopBackOff in it, each with its first entry. */
  lemma QueryTellsEntries(setup: Setup, start: int, steps: seq<Step>, now: int, window: int, key: string)
    requires LegalBetween(start, steps, now) && setup.keep.events >= window
    ensures TellsEntries(CrashLoops(Run(setup, steps).transitions, Ms(now - window)), steps, Ms(now - window), key)
  {
    hide RunFrom, CrashLoops, EnteredAt;
    var s, cut := Run(setup, steps).transitions, Ms(now - window);
    MsMonotone(now - setup.keep.events, now - window);
    CrashLoopsAre(s, cut, key);
    forall at: int
      ensures StoredAt(s, CrashOf(key), at) ==> EnteredAt(steps, key, at)
      ensures EnteredAt(steps, key, at) && cut <= at ==> exists r :: r in s && CrashRow(r, cut, key) && r.ts == at
    {
      CrashesAreEntries(setup, start, steps, now, key, at);
      if EnteredAt(steps, key, at) && cut <= at {
        var r :| r in s && IsCrash(r.val) && KeyOf(r.val) == key && r.ts == at;
        assert CrashRow(r, cut, key);
      }
    }
    forall r | r in s && CrashRow(r, cut, key) ensures StoredAt(s, CrashOf(key), r.ts) { }
  }

  /** What the opening rule promises: with no incident open, a tick opens one exactly when the pods that entered
      CrashLoopBackOff within the window pass both thresholds, and it lists exactly those pods. */
  lemma OpensExactly(setup: Setup, start: int, steps: seq<Step>, now: int, entered: set<string>)
    requires LegalBetween(start, steps, now) && setup.keep.events >= setup.cfg.Window()
    requires forall k :: k in entered <==> EnteredSince(steps, k, Ms(now - setup.cfg.Window()))
    ensures var d := Decide(Run(setup, steps), setup.cfg, now);
            && (d.Open? <==>
                  NoneOpen(Run(setup, steps)) && OpensOn(entered, setup.cfg.podThreshold, setup.cfg.nsThreshold))
            && (d.Open? ==> d.pods == SortedKeys(entered))
  {
    hide RunFrom, CrashLoops, EnteredSince, EnteredAt, OpensOn, SortedKeys;
    var t := Run(setup, steps);
    AtMostOneOpenIncident(setup, start, steps, now);
    if NoneOpen(t) { NoneOpenMeansNoCurrent(t.incidents, now); }
    if Current(t.incidents, now) == None { NoCurrentNoneOpen(t.incidents, now); }
    var found := CrashLoops(t.transitions, Ms(now - setup.cfg.Window()));
    forall k ensures k in found.Keys <==> k in entered {
      QueryTellsEntries(setup, start, steps, now, setup.cfg.Window(), k);
    }
    assert found.Keys == entered;
  }

  /** This entry is the first since `cut`. */
  ghost predicate FirstEntry(steps: seq<Step>, cut: int, key: string, at: int) {
    && cut <= at && EnteredAt(steps, key, at)
    && forall k, earlier :: cut <= earlier && EnteredAt(steps, k, earlier) ==> at <= earlier
  }

  /** The opening time is the first of those entries, to the stored millisecond. */
  lemma OpensAtFirstEntry(setup: Setup, start: int, steps: seq<Step>, now: int) returns (key: string, at: int)
    requires setup.cfg.Valid() && LegalBetween(start, steps, now) && setup.keep.events >= setup.cfg.Window()
    requires Decide(Run(setup, steps), setup.cfg, now).Open?
    ensures FirstEntry(steps, Ms(now - setup.cfg.Window()), key, at)
    ensures Ms(Decide(Run(setup, steps), setup.cfg, now).openedAt) == at
  {
    hide RunFrom, CrashLoops, TellsEntries, FirstEntry;
    var cut := Ms(now - setup.cfg.Window());
    var found := CrashLoops(Run(setup, steps).transitions, cut);
    forall k ensures TellsEntries(found, steps, cut, k) {
      QueryTellsEntries(setup, start, steps, now, setup.cfg.Window(), k);
    }
    key := FirstListed(start, steps, now, cut, found);
    at := found[key];
    MsRoundTrip(0, at);
  }

  lemma FirstListed(start: int, steps: seq<Step>, now: int, cut: int, found: map<string, int>) returns (key: string)
    requires LegalBetween(start, steps, now) && found.Keys != {}
    requires forall k :: TellsEntries(found, steps, cut, k)
    ensures key in found && EarliestOf(now, found) == FromMs(found[key]) && FirstEntry(steps, cut, key, found[key])
  {
    hide EnteredAt, LegalBetween;
    forall k | k in found ensures FromMs(found[k]) <= now {
      assert TellsEntries(found, steps, cut, k);
      EntryBefore(start, steps, now, k, found[k]);
    }
    key := FirstOf(now, found);
    assert TellsEntries(found, steps, cut, key);
    forall k, earlier | cut <= earlier && EnteredAt(steps, k, earlier) ensures found[key] <= earlier {
      assert TellsEntries(found, steps, cut, k);
      assert found[k] <= earlier;
    }
  }

  lemma EntryBefore(start: int, steps: seq<Step>, now: int, key: string, at: int)
    requires LegalBetween(start, steps, now) && EnteredAt(steps, key, at)
    ensures FromMs(at) <= now
  {
    hide Enters;
    var i :| 0 <= i < |steps| && Enters(steps[i], key) && Ms(steps[i].now) == at;
    MsRoundTrip(steps[i].now, at);
  }

  lemma FirstOf(now: int, found: map<string, int>) returns (key: string)
    requires found.Keys != {} && forall k :: k in found ==> FromMs(found[k]) <= now
    ensures key in found && EarliestOf(now, found) == FromMs(found[key])
    ensures forall k :: k in found ==> found[key] <= found[k]
  {
    var r := EarliestOf(now, found);
    var any :| any in found.Keys;
    if r == now {
      key := any;
    } else {
      key :| key in found.Keys && r == FromMs(found[key]);
    }
  }

  // --- restarts ---------------------------------------------------------------------------------------

  /** The end of the run that terminated, when it is known; otherwise the time of the update that tells of it. */
  function EndOfRun(n: ContainerStatus, now: int): int {
    if n.lastTerminated.Some? && n.lastTerminated.value.finishedAt.Some? then n.lastTerminated.value.finishedAt.value
      else now
  }

  /** The step delivers an update of this pod in which container `k` has restarted since the previous version. */
  ghost predicate Restarts(s: Step, key: string, k: string) {
    && s.action.PodDelivered? && s.action.oldPod.Some? && KeyOfPod(s.action.newPod) == key
    && k in Statuses(s.action.newPod)
    && Statuses(s.action.newPod)[k].restartCount > StatusOr(Statuses(s.action.oldPod.value), k).restartCount
  }

  /** A restart whose terminated run ended at this stored time. */
  ghost predicate RestartEndedAt(s: Step, key: string, at: int) {
    exists k :: Restarts(s, key, k) && Ms(EndOfRun(Statuses(s.action.newPod)[k], s.now)) == at
  }

  ghost predicate RestartedAt(steps: seq<Step>, key: string, at: int) {
    exists i :: 0 <= i < |steps| && RestartEndedAt(steps[i], key, at)
  }

  function RestartOf(key: string): Which { (t: PodTransition) => t.kind == Restart && KeyOf(t) == key }

  lemma RestartEmits(s: Step, key: string, at: int)
    ensures Emits(s, RestartOf(key), at) <==> RestartEndedAt(s, key, at)
  {
    hide Changed, Statuses, TellsContainer, TellsRestart, TellsWaiting, EndOfRun;
    if s.action.PodDelivered? && s.action.oldPod.Some? {
      var o, n := s.action.oldPod.value, s.action.newPod;
      if x :| x in EmittedBy(s) && RestartOf(key)(x.val) && Ms(x.time) == at {
        TransitionsTell(o, n, s.now, x);
        if TellsPhase(x, o, n, s.now) { assert false; }
        var k :| k in Statuses(n) && TellsContainer(x, n, k, StatusOr(Statuses(o), k), Statuses(n)[k], s.now);
        RestartTold(s, o, n, key, k, x);
      }
      if k :| Restarts(s, key, k) && Ms(EndOfRun(Statuses(n)[k], s.now)) == at {
        RestartsMeans(s, o, n, key, k);
        ChangesAreTold(o, n, s.now, k);
        var x :| x in Changed(o, n, s.now) && TellsRestart(x, n, k, StatusOr(Statuses(o), k), Statuses(n)[k], s.now);
        RestartTelling(x, n, k, StatusOr(Statuses(o), k), Statuses(n)[k], s.now);
        assert x in EmittedBy(s) && RestartOf(key)(x.val);
      }
    } else {
      NoRestartElsewhere(s, key, at);
    }
  }

  lemma NoRestartElsewhere(s: Step, key: string, at: int)
    requires !(s.action.PodDelivered? && s.action.oldPod.Some?)
    ensures !Emits(s, RestartOf(key), at) && !RestartEndedAt(s, key, at)
  {
  }

  lemma RestartTold(s: Step, o: Pod, n: Pod, key: string, k: string, x: Timed<PodTransition>)
    requires s.action.PodDelivered? && s.action.oldPod == Some(o) && s.action.newPod == n && k in Statuses(n)
    requires TellsContainer(x, n, k, StatusOr(Statuses(o), k), Statuses(n)[k], s.now) && RestartOf(key)(x.val)
    ensures Restarts(s, key, k) && x.time == EndOfRun(Statuses(n)[k], s.now)
  {
    hide Statuses;
  }

  lemma RestartsMeans(s: Step, o: Pod, n: Pod, key: string, k: string)
    requires s.action.PodDelivered? && s.action.oldPod == Some(o) && s.action.newPod == n && Restarts(s, key, k)
    ensures k in Statuses(n) && KeyOfPod(n) == key
    ensures Statuses(n)[k].restartCount > StatusOr(Statuses(o), k).restartCount
  {
    hide Statuses;
  }

  lemma RestartTelling(x: Timed<PodTransition>, n: Pod, k: string, before: ContainerStatus, after: ContainerStatus,
      now: int)
    requires TellsRestart(x, n, k, before, after, now)
    ensures RestartOf(KeyOfPod(n))(x.val) && x.time == EndOfRun(after, now)
  {
  }

  /** In every run the stored restarts are restarts that were delivered, each under the end of the run that
      terminated, and every one that ended recently enough to be kept is stored. */
  lemma RestartsAreDelivered(setup: Setup, start: int, steps: seq<Step>, end: int, key: string, at: int)
    requires LegalBetween(start, steps, end)
    ensures StoredAt(Run(setup, steps).transitions, RestartOf(key), at) ==> RestartedAt(steps, key, at)
    ensures RestartedAt(steps, key, at) && Ms(end - setup.keep.events) <= at ==>
            StoredAt(Run(setup, steps).transitions, RestartOf(key), at)
  {
    hide Run, StoredAt, Emits, RestartEndedAt;
    TransitionsAreEmitted(setup, start, steps, end, RestartOf(key), at);
    forall i | 0 <= i < |steps| ensures Emits(steps[i], RestartOf(key), at) <==> RestartEndedAt(steps[i], key, at) {
      RestartEmits(steps[i], key, at);
    }
  }

  /** No delivered restart, of any pod, terminated a run that ended since `cut`. */
  ghost predicate NothingRestarted(steps: seq<Step>, cut: int) {
    forall key, at :: cut <= at ==> !RestartedAt(steps, key, at)
  }

  ghost predicate NothingEntered(steps: seq<Step>, cut: int) {
    forall key :: !EnteredSince(steps, key, cut)
  }

  lemma RestartQueryTells(setup: Setup, start: int, steps: seq<Step>, now: int, window: int)
    requires LegalBetween(start, steps, now) && setup.keep.events >= window
    ensures Filter(Run(setup, steps).transitions, RestartSince(Ms(now - window))) == [] <==>
            NothingRestarted(steps, Ms(now - window))
  {
    hide Run, RestartedAt;
    var s, cut := Run(setup, steps).transitions, Ms(now - window);
    var found := Filter(s, RestartSince(cut));
    MsMonotone(now - setup.keep.events, now - window);
    if found != [] {
      RestartsAreDelivered(setup, start, steps, now, KeyOf(found[0].val), found[0].ts);
      assert found[0] in found;
    }
    if key, at :| cut <= at && RestartedAt(steps, key, at) {
      RestartsAreDelivered(setup, start, steps, now, key, at);
      var r :| r in s && RestartOf(key)(r.val) && r.ts == at;
      assert r in found;
    }
  }

  /** What the transition part of the quiet guard says: no pod entered CrashLoopBackOff in the window, and no delivered
      restart terminated a run that ended in it. A restart that the window saw, of a run that had ended before it, does
      not count. */
  lemma CalmTransitionsExactly(setup: Setup, start: int, steps: seq<Step>, now: int, window: int)
    requires LegalBetween(start, steps, now) && setup.keep.events >= window
    ensures TransitionsCalm(Run(setup, steps).transitions, Ms(now - window)) <==>
            NothingEntered(steps, Ms(now - window)) && NothingRestarted(steps, Ms(now - window))
  {
    hide Run, CrashLoops, EnteredSince, EnteredAt, NothingRestarted;
    var found, cut := CrashLoops(Run(setup, steps).transitions, Ms(now - window)), Ms(now - window);
    RestartQueryTells(setup, start, steps, now, window);
    forall key ensures key in found.Keys <==> EnteredSince(steps, key, cut) {
      QueryTellsEntries(setup, start, steps, now, window, key);
    }
    assert found == map[] <==> found.Keys == {};
  }

  // --- baselines ------------------------------------------------------------------------------------

  /** If a tick marks baselines, no pod entered CrashLoopBackOff in the stable window, and no delivered restart
      terminated a run that ended in it. */
  lemma BaselineMeansNoCrash(setup: Setup, start: int, steps: seq<Step>, now: int)
    requires LegalBetween(start, steps, now) && setup.keep.events >= setup.cfg.Stable()
    requires TickOf(Run(setup, steps), setup.cfg, now).snapshots != Run(setup, steps).snapshots
    ensures NothingEntered(steps, Ms(now - setup.cfg.Stable())) && NothingRestarted(steps, Ms(now - setup.cfg.Stable()))
  {
    hide Run, TickOf, NodeReady, NothingEntered, NothingRestarted, TransitionsCalm, PodsCalm, ChangesCalm;
    MarksOnlyWhenQuiet(Run(setup, steps), setup.cfg, now);
    CalmTransitionsExactly(setup, start, steps, now, setup.cfg.Stable());
  }
}
