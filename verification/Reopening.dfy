/** Runs on which a closed incident is followed by another from the same crashes, and runs on which it is not: for every
    configuration, with evaluations at distinct times. */
module Reopening {
  import opened Sample
  import opened Rows
  import opened Text
  import opened Schema
  import opened Convert
  import opened Incidents
  import opened Collector
  import opened Recorder
  import opened IncidentRuns
  import opened PodRuns
  import opened CrashRuns

  // --- pods that crash ------------------------------------------------------------------------

  /** A pod in two versions: healthy, and with a container that entered CrashLoopBackOff. */
  datatype Patient = Patient(healthy: Pod, crashing: Pod) {
    function Name(): string { KeyOfPod(healthy) }

    ghost predicate Valid() {
      && KeyOfPod(crashing) == Name() && healthy.phase == RUNNING
      && MayReport(Statuses(healthy), "") && MayReport(Statuses(crashing), CRASH_LOOP)
      && CrashEntered(healthy, crashing)
    }
  }

  function NamesOf(ps: seq<Patient>): set<string> {
    if ps == [] then {} else NamesOf(ps[..|ps| - 1]) + {ps[|ps| - 1].Name()}
  }

  ghost predicate AllValid(ps: seq<Patient>) {
    forall i :: 0 <= i < |ps| ==> ps[i].Valid()
  }

  /** The crashes stored are one of each of these pods, all at one time. */
  ghost predicate CrashedAt(t: Tables, keys: set<string>, at: int) {
    forall k, x :: StoredAt(t.transitions, CrashOf(k), x) <==> k in keys && x == at
  }

  lemma CrashingThen(t: Tables, cfg: Config, keys: set<string>, at: int, now: int)
    requires CrashedAt(t, keys, at)
    ensures Crashing(t, cfg, now) == if Ms(now - cfg.Window()) <= at then keys else {}
  {
    var cut := Ms(now - cfg.Window());
    forall k ensures k in Crashing(t, cfg, now) <==> k in keys && cut <= at {
      CrashLoopsAre(t.transitions, cut, k);
      if r :| r in t.transitions && CrashRow(r, cut, k) { assert StoredAt(t.transitions, CrashOf(k), r.ts); }
      if k in keys && cut <= at {
        assert StoredAt(t.transitions, CrashOf(k), at);
        var r :| r in t.transitions && CrashOf(k)(r.val) && r.ts == at;
        assert CrashRow(r, cut, k);
      }
    }
  }

  // --- one step -----------------------------------------------------------------------------------

  function Delivery(now: int, oldPod: Pod, newPod: Pod, reason: string): Step {
    Step(now, PodDelivered(Some(oldPod), newPod, reason))
  }

  /** A run that ends in a state. */
  ghost predicate Reaches(setup: Setup, steps: seq<Step>, t: Tables, start: int, end: int) {
    LegalBetween(start, steps, end) && Run(setup, steps) == t
  }

  lemma OneMore(setup: Setup, steps: seq<Step>, t: Tables, start: int, end: int, s: Step) returns (u: Tables)
    requires Reaches(setup, steps, t, start, end) && Possible(s) && end <= s.now
    ensures u == Next(t, setup, s) && Reaches(setup, steps + [s], u, start, s.now)
  {
    hide Next;
    u := Next(t, setup, s);
    RunSnoc(EMPTY, setup, steps, s);
    LegalSnoc(start, steps, end, s);
  }

  /** A step that is no prune adds exactly the crashes it emits. */
  lemma CrashedNext(t: Tables, setup: Setup, s: Step, keys: set<string>, at: int, more: set<string>)
    requires CrashedAt(t, keys, at) && !s.action.PruneRan?
    requires forall k :: Enters(s, k) ==> k in more
    requires forall k :: k in more ==> Enters(s, k) && Ms(s.now) == at
    ensures CrashedAt(Next(t, setup, s), keys + more, at)
  {
    hide Next, StoredAt, Enters, Emits;
    forall k, x ensures StoredAt(Next(t, setup, s).transitions, CrashOf(k), x) <==> k in keys + more && x == at {
      StepStores(t, setup, s, CrashOf(k), x);
      EntersEmits(s, k, x);
      assert StoredAt(t.transitions, CrashOf(k), x) <==> k in keys && x == at;
    }
  }

  /** What a delivery does to the pods. */
  lemma DeliveredPods(t: Tables, setup: Setup, now: int, oldPod: Pod, newPod: Pod, reason: string)
    ensures var u := Next(t, setup, Delivery(now, oldPod, newPod, reason));
            u.pods == Upsert(t.pods, StateOf(newPod, reason), now) && u.incidents == t.incidents
  {
    hide TickOf, NodeSeen, Upsert, StateOf, Changed;
  }

  lemma DeletedPods(t: Tables, setup: Setup, now: int, pod: Pod)
    ensures var u := Next(t, setup, Step(now, PodDeleted(pod)));
            u.pods == t.pods - {KeyOfPod(pod)} && u.incidents == t.incidents
  {
    hide TickOf, NodeSeen;
  }

  // --- all of the pods -------------------------------------------------------------------------------

  ghost predicate AllCrashLooping(pods: map<string, PodState>, keys: set<string>) {
    forall k :: k in keys ==> k in pods && pods[k].waitingReason == CRASH_LOOP
  }

  /** Running with nothing waiting since this stored time. */
  ghost predicate AllHealthySince(pods: map<string, PodState>, keys: set<string>, since: int) {
    forall k :: k in keys ==>
      k in pods && pods[k].phase == RUNNING && pods[k].waitingReason == "" && pods[k].since == since
  }

  lemma OneCrash(t: Tables, setup: Setup, p: Patient, keys: set<string>, now: int) returns (s: Step)
    requires p.Valid() && CrashedAt(t, keys, Ms(now)) && AllCrashLooping(t.pods, keys)
    ensures s == Delivery(now, p.healthy, p.crashing, CRASH_LOOP) && Possible(s)
    ensures var u := Next(t, setup, s);
            CrashedAt(u, keys + {p.Name()}, Ms(now)) && AllCrashLooping(u.pods, keys + {p.Name()}) &&
              u.incidents == t.incidents
  {
    hide Next, CrashedAt, CrashEntered, MayReport;
    s := Delivery(now, p.healthy, p.crashing, CRASH_LOOP);
    CrashedNext(t, setup, s, keys, Ms(now), {p.Name()});
    DeliveredPods(t, setup, now, p.healthy, p.crashing, CRASH_LOOP);
  }

  /** All of the pods crash at `now`, in an empty database. */
  lemma {:induction false} AllCrash(setup: Setup, ps: seq<Patient>, now: int) returns (steps: seq<Step>, t: Tables)
    requires AllValid(ps)
    ensures Reaches(setup, steps, t, now, now) && CrashedAt(t, NamesOf(ps), Ms(now))
    ensures AllCrashLooping(t.pods, NamesOf(ps)) && t.incidents == []
  {
    hide Next, CrashedAt, RunFrom;
    if ps == [] {
      steps, t := [], EMPTY;
      NothingCrashed(setup, Ms(now));
    } else {
      var front, p := ps[..|ps| - 1], ps[|ps| - 1];
      steps, t := AllCrash(setup, front, now);
      var s := OneCrash(t, setup, p, NamesOf(front), now);
      t := OneMore(setup, steps, t, now, now, s);
      steps := steps + [s];
    }
  }

  lemma NothingCrashed(setup: Setup, at: int)
    ensures CrashedAt(EMPTY, {}, at) && Run(setup, []) == EMPTY
  {
  }

  lemma OneRecovery(t: Tables, setup: Setup, p: Patient, keys: set<string>, all: set<string>, at: int,
      now: int) returns (s: Step)
    requires p.Valid() && CrashedAt(t, all, at) && AllHealthySince(t.pods, keys, Ms(now))
    requires AllCrashLooping(t.pods, all - keys) && p.Name() in all - keys
    ensures s == Delivery(now, p.crashing, p.healthy, "") && Possible(s)
    ensures var u := Next(t, setup, s);
            && CrashedAt(u, all, at) && AllHealthySince(u.pods, keys + {p.Name()}, Ms(now))
            && AllCrashLooping(u.pods, all - (keys + {p.Name()})) && u.incidents == t.incidents
  {
    hide Next, CrashedAt, CrashEntered, MayReport;
    s := Delivery(now, p.crashing, p.healthy, "");
    RecoveryEntersNothing(p, s);
    CrashedNext(t, setup, s, all, at, {});
    assert all + {} == all;
    DeliveredPods(t, setup, now, p.crashing, p.healthy, "");
  }

  lemma RecoveryEntersNothing(p: Patient, s: Step)
    requires p.Valid() && s.action == PodDelivered(Some(p.crashing), p.healthy, "")
    ensures forall k :: !Enters(s, k)
  {
    if CrashEntered(p.crashing, p.healthy) { EnteringReportsCrash(p.crashing, p.healthy, ""); }
  }

  ghost predicate Distinct(ps: seq<Patient>) {
    forall i, j :: 0 <= i < j < |ps| ==> ps[i].Name() != ps[j].Name()
  }

  lemma {:induction false} InNames(ps: seq<Patient>, k: string)
    ensures k in NamesOf(ps) <==> exists i :: 0 <= i < |ps| && ps[i].Name() == k
  {
    if ps != [] { InNames(ps[..|ps| - 1], k); }
  }

  lemma NobodyRecovered(pods: map<string, PodState>, ps: seq<Patient>, since: int)
    ensures AllHealthySince(pods, NamesOf(ps[..0]), since) && NamesOf(ps) - NamesOf(ps[..0]) == NamesOf(ps)
  {
    assert ps[..0] == [];
  }

  /** One more of them, whose name is none of those before. */
  lemma NextPatient(ps: seq<Patient>, n: nat)
    requires n < |ps| && Distinct(ps)
    ensures NamesOf(ps[..n + 1]) == NamesOf(ps[..n]) + {ps[n].Name()} && ps[n].Name() in NamesOf(ps) - NamesOf(ps[..n])
  {
    hide NamesOf, KeyOfPod;
    var name := ps[n].Name();
    NamesSnoc(ps, n);
    InNames(ps, name);
    InNames(ps[..n], name);
    forall i | 0 <= i < n ensures ps[..n][i].Name() != name { assert ps[i].Name() != ps[n].Name(); }
  }

  lemma NamesSnoc(ps: seq<Patient>, n: nat)
    requires n < |ps|
    ensures NamesOf(ps[..n + 1]) == NamesOf(ps[..n]) + {ps[n].Name()}
  {
    assert ps[..n + 1][..n] == ps[..n];
  }

  /** All of them recover at `now`. */
  lemma {:induction false} AllRecover(setup: Setup, ps: seq<Patient>, n: nat, before: seq<Step>, t0: Tables, at: int,
      start: int, now: int)
    returns (steps: seq<Step>, t: Tables)
    requires AllValid(ps) && Distinct(ps) && n <= |ps| && Reaches(setup, before, t0, start, now)
    requires CrashedAt(t0, NamesOf(ps), at) && AllCrashLooping(t0.pods, NamesOf(ps))
    ensures Reaches(setup, steps, t, start, now) && CrashedAt(t, NamesOf(ps), at) && t.incidents == t0.incidents
    ensures AllHealthySince(t.pods, NamesOf(ps[..n]), Ms(now)) &&
            AllCrashLooping(t.pods, NamesOf(ps) - NamesOf(ps[..n]))
  {
    hide Next, CrashedAt, RunFrom, NamesOf, Distinct, AllCrashLooping, AllHealthySince;
    if n == 0 {
      steps, t := before, t0;
      NobodyRecovered(t0.pods, ps, Ms(now));
    } else {
      steps, t := AllRecover(setup, ps, n - 1, before, t0, at, start, now);
      var p := ps[n - 1];
      NextPatient(ps, n - 1);
      var s := OneRecovery(t, setup, p, NamesOf(ps[..n - 1]), NamesOf(ps), at, now);
      t := OneMore(setup, steps, t, start, now, s);
      steps := steps + [s];
    }
  }

  /** All of them are deleted at `now`. */
  lemma {:induction false} AllDeleted(setup: Setup, ps: seq<Patient>, n: nat, before: seq<Step>, t0: Tables, at: int,
      start: int, now: int)
    returns (steps: seq<Step>, t: Tables)
    requires n <= |ps| && Reaches(setup, before, t0, start, now) && CrashedAt(t0, NamesOf(ps), at)
    ensures Reaches(setup, steps, t, start, now) && CrashedAt(t, NamesOf(ps), at) && t.incidents == t0.incidents
    ensures t.pods.Keys !! NamesOf(ps[..n])
  {
    hide Next, CrashedAt, RunFrom;
    if n == 0 {
      steps, t := before, t0;
      assert ps[..0] == [];
    } else {
      steps, t := AllDeleted(setup, ps, n - 1, before, t0, at, start, now);
      var p := ps[n - 1];
      assert ps[..n][..n - 1] == ps[..n - 1];
      var s := Step(now, PodDeleted(p.healthy));
      CrashedNext(t, setup, s, NamesOf(ps), at, {});
      assert NamesOf(ps) + {} == NamesOf(ps);
      DeletedPods(t, setup, now, p.healthy);
      t := OneMore(setup, steps, t, start, now, s);
      steps := steps + [s];
    }
  }

  // --- their incident ------------------------------------------------------------------------------------

  /** One open incident, on those pods, opened no later than `at`. */
  ghost predicate OneOpenOn(s: seq<Incident>, keys: set<string>, at: int) {
    |s| == 1 && IsOpen(s[0]) && s[0].openedAt <= at && s[0].pods == SortedKeys(keys)
  }

  /** An evaluation right after the crashes opens the incident. */
  lemma Opened(t: Tables, setup: Setup, keys: set<string>, now: int)
    requires setup.cfg.Valid() && OpensOn(keys, setup.cfg.podThreshold, setup.cfg.nsThreshold)
    requires CrashedAt(t, keys, Ms(now)) && t.incidents == []
    ensures var u := Next(t, setup, Step(now, Ticked));
            CrashedAt(u, keys, Ms(now)) && u.pods == t.pods && OneOpenOn(u.incidents, keys, Ms(now))
  {
    hide TickOf, CrashLoops, CrashedAt, SortedKeys, OpensOn;
    var found := CrashLoops(t.transitions, Ms(now - setup.cfg.Window()));
    TickIs(t, setup, now);
    TickLeaves(t, setup.cfg, now);
    NoneOpenMeansNoCurrent(t.incidents, now);
    MsMonotone(now - setup.cfg.Window(), now);
    CrashingThen(t, setup.cfg, keys, Ms(now), now);
    MsMonotone(EarliestOf(now, found), now);
    SameCrashes(t, TickOf(t, setup.cfg, now), keys, Ms(now));
  }

  lemma SameCrashes(t: Tables, u: Tables, keys: set<string>, at: int)
    requires CrashedAt(t, keys, at) && u.transitions == t.transitions
    ensures CrashedAt(u, keys, at)
  {
  }

  lemma CurrentOfOne(s: seq<Incident>, keys: set<string>, now: int)
    requires OneOpenOn(s, keys, Ms(now))
    ensures Current(s, now) == Some(s[0])
  {
    assert OpenBy(Ms(now))(s[0]);
    FilterAll(s, OpenBy(Ms(now)));
    assert s[..0] == [];
  }

  /** With one incident open on those pods and each settled or gone, an evaluation closes it. */
  lemma ClosesWhenSettled(t: Tables, cfg: Config, keys: set<string>, now: int)
    requires OneOpenOn(t.incidents, keys, Ms(now)) && Crashing(t, cfg, now) <= keys
    requires forall k :: k in keys ==> Settled(t.pods, k, now, cfg.Stable())
    ensures Closes(t, cfg, now)
  {
    hide CrashLoops, SortedKeys, Settled, Current, Grown;
    CurrentOfOne(t.incidents, keys, now);
    var inc := t.incidents[0];
    GrownBySubset(inc.pods, keys, Crashing(t, cfg, now));
  }

  lemma GrownBySubset(pods: seq<string>, keys: set<string>, crashing: set<string>)
    requires pods == SortedKeys(keys) && crashing <= keys
    ensures Members(pods) == keys && Grown(pods, crashing) == pods
  {
    hide SortedKeys;
    assert Members(pods) == keys;
    assert crashing - Members(pods) == {};
  }

  lemma CrashAndOpen(setup: Setup, ps: seq<Patient>) returns (steps: seq<Step>, t: Tables)
    requires setup.cfg.Valid() && AllValid(ps) && OpensOn(NamesOf(ps), setup.cfg.podThreshold, setup.cfg.nsThreshold)
    ensures Reaches(setup, steps, t, 0, 0) && CrashedAt(t, NamesOf(ps), 0)
    ensures AllCrashLooping(t.pods, NamesOf(ps)) && OneOpenOn(t.incidents, NamesOf(ps), 0)
  {
    hide Next, CrashedAt, RunFrom, AllCrashLooping, OpensOn, OneOpenOn;
    steps, t := AllCrash(setup, ps, 0);
    Opened(t, setup, NamesOf(ps), 0);
    t := OneMore(setup, steps, t, 0, 0, Step(0, Ticked));
    steps := steps + [Step(0, Ticked)];
  }

  lemma OpenLater(s: seq<Incident>, keys: set<string>, a: int, b: int)
    requires OneOpenOn(s, keys, a) && a <= b
    ensures OneOpenOn(s, keys, b)
  {
  }

  // --- the runs ------------------------------------------------------------------------------------------

  /** Deleting the pods is enough, whatever the windows and thresholds: enough pods crash and their incident opens; they
      are deleted and at the next evaluation it closes; and the one after that opens another from the same crashes. */
  lemma DeletedPodsReopen(setup: Setup) returns (steps: seq<Step>)
    requires setup.cfg.Valid()
    ensures LegalBetween(0, steps, PERIOD) && Closes(Run(setup, steps), setup.cfg, PERIOD)
    ensures Decide(TickOf(Run(setup, steps), setup.cfg, PERIOD), setup.cfg, 2 * PERIOD).Open?
  {
    hide RunFrom, CrashedAt, TickOf, CrashLoops, OpensOn, Closes;
    var ps := EnoughPatients(setup.cfg);
    var keys := NamesOf(ps);
    var before, u := CrashAndOpen(setup, ps);
    Waits(setup, before, u, 0, 0, PERIOD);
    var t;
    steps, t := AllDeleted(setup, ps, |ps|, before, u, 0, 0, PERIOD);
    assert ps[..|ps|] == ps;
    MsMonotone(0, PERIOD);
    OpenLater(t.incidents, keys, 0, Ms(PERIOD));
    CrashingThen(t, setup.cfg, keys, 0, PERIOD);
    CrashingThen(t, setup.cfg, keys, 0, 2 * PERIOD);
    MsMonotone(2 * PERIOD - setup.cfg.Window(), 0);
    ClosesWhenSettled(t, setup.cfg, keys, PERIOD);
    ReopensExactly(setup, 0, steps, PERIOD, 2 * PERIOD);
  }

  /** Time passes and nothing happens. */
  lemma Waits(setup: Setup, steps: seq<Step>, t: Tables, start: int, end: int, later: int)
    requires Reaches(setup, steps, t, start, end) && end <= later
    ensures Reaches(setup, steps, t, start, later)
  {
    hide RunFrom;
  }

  /** The pods recover at once; their incident closes when they have been healthy for the stable window. */
  lemma RecoveredPodsClose(setup: Setup, ps: seq<Patient>) returns (steps: seq<Step>, t: Tables)
    requires setup.cfg.Valid() && AllValid(ps) && Distinct(ps)
    requires OpensOn(NamesOf(ps), setup.cfg.podThreshold, setup.cfg.nsThreshold)
    ensures Reaches(setup, steps, t, 0, setup.cfg.Stable()) && Closes(t, setup.cfg, setup.cfg.Stable())
    ensures CrashedAt(t, NamesOf(ps), 0) && NamesOf(ps) <= t.pods.Keys
  {
    hide RunFrom, CrashedAt, TickOf, CrashLoops, OpensOn, Closes;
    var keys, now := NamesOf(ps), setup.cfg.Stable();
    var before, u := CrashAndOpen(setup, ps);
    steps, t := AllRecover(setup, ps, |ps|, before, u, 0, 0, 0);
    assert ps[..|ps|] == ps;
    MsMonotone(0, now);
    OpenLater(t.incidents, keys, 0, Ms(now));
    CrashingThen(t, setup.cfg, keys, 0, now);
    Waits(setup, steps, t, 0, 0, now);
    ClosesWhenSettled(t, setup.cfg, keys, now);
  }

  /** With a stable window shorter than the incident window, so does recovering at once: the incident closes with
      all its pods known, and the next evaluation opens another from the same crashes. */
  lemma ShortStableWindowReopens(setup: Setup) returns (steps: seq<Step>)
    requires setup.cfg.Valid() && setup.cfg.stableMinutes < setup.cfg.windowMinutes
    ensures var closedAt := setup.cfg.Stable();
            && LegalBetween(0, steps, closedAt) && Closes(Run(setup, steps), setup.cfg, closedAt)
            && Crashing(Run(setup, steps), setup.cfg, closedAt + PERIOD) <= Run(setup, steps).pods.Keys
            && Decide(TickOf(Run(setup, steps), setup.cfg, closedAt), setup.cfg, closedAt + PERIOD).Open?
  {
    hide RunFrom, CrashedAt, TickOf, CrashLoops, OpensOn, Closes, AllValid, Distinct, NamesOf, Decide;
    var closedAt := setup.cfg.Stable();
    var ps := EnoughPatients(setup.cfg);
    var t;
    steps, t := RecoveredPodsClose(setup, ps);
    MsMonotone(closedAt + PERIOD - setup.cfg.Window(), 0);
    CrashingThen(t, setup.cfg, NamesOf(ps), 0, closedAt + PERIOD);
    ReopensExactly(setup, 0, steps, closedAt, closedAt + PERIOD);
  }

  /** With a stable window at least as long, the same run meets the conditions of IncidentRuns.ClosedStaysClosed. */
  lemma LongStableWindowKeepsClosed(setup: Setup) returns (steps: seq<Step>)
    requires setup.cfg.Valid() && setup.cfg.windowMinutes <= setup.cfg.stableMinutes
    ensures var closedAt := setup.cfg.Stable();
            && LegalBetween(0, steps, closedAt) && Closes(Run(setup, steps), setup.cfg, closedAt)
            && Outlasts(setup.cfg, closedAt, closedAt + PERIOD)
            && Crashing(Run(setup, steps), setup.cfg, closedAt + PERIOD) == {} && Run(setup, steps).pods != map[]
  {
    hide RunFrom, CrashedAt, TickOf, CrashLoops, Closes, OpensOn, AllValid, Distinct, NamesOf;
    var closedAt := setup.cfg.Stable();
    var ps := EnoughPatients(setup.cfg);
    var t;
    steps, t := RecoveredPodsClose(setup, ps);
    MsMonotone(MILLI, closedAt + PERIOD - setup.cfg.Window());
    CrashingThen(t, setup.cfg, NamesOf(ps), 0, closedAt + PERIOD);
    NobodyOpensNothing(setup.cfg, NamesOf(ps), t.pods);
  }

  lemma NobodyOpensNothing(cfg: Config, keys: set<string>, pods: map<string, PodState>)
    requires cfg.Valid() && OpensOn(keys, cfg.podThreshold, cfg.nsThreshold) && keys <= pods.Keys
    ensures pods != map[]
  {
  }

  // --- such pods exist ---------------------------------------------------------------------------------------

  function Letters(n: nat): (r: string)
    ensures |r| == n
  {
    seq(n, i => 'a')
  }

  /** One pod in each of `n` namespaces. */
  function Ward(n: nat): (r: set<PodName>)
    ensures forall p :: p in r ==> SlashFree(p) && p.1 == "cart" && |p.0| < n
  {
    if n == 0 then {} else Ward(n - 1) + {(Letters(n - 1), "cart")}
  }

  /** Their namespaces. */
  function Spaces(n: nat): (r: set<string>)
    ensures |r| == n && forall x :: x in r ==> |x| < n
  {
    if n == 0 then {} else Spaces(n - 1) + {Letters(n - 1)}
  }

  lemma {:induction false} WardSpaces(n: nat)
    ensures forall p :: p in Ward(n) ==> p.0 in Spaces(n)
    ensures forall x :: x in Spaces(n) ==> (x, "cart") in Ward(n)
    ensures |Ward(n)| == n
  {
    hide Ward, Spaces, Letters, SlashFree;
    if n == 0 {
      NobodyInWard();
    } else {
      WardSpaces(n - 1);
      NewInWard(n, (Letters(n - 1), "cart"));
    }
  }

  lemma NobodyInWard()
    ensures Ward(0) == {} && Spaces(0) == {}
  {
  }

  lemma NewInWard(n: nat, p: PodName)
    requires n > 0 && p == (Letters(n - 1), "cart")
    ensures p !in Ward(n - 1) && Ward(n) == Ward(n - 1) + {p}
    ensures Spaces(n) == Spaces(n - 1) + {p.0}
  {
  }

  lemma WardSize(n: nat)
    ensures |Ward(n)| == n && |set p | p in Ward(n) :: p.0| == n
  {
    hide Ward, Spaces;
    WardSpaces(n);
    assert (set p | p in Ward(n) :: p.0) == Spaces(n);
  }

  function PatientNamed(p: PodName): Patient {
    Patient(Pod(p.0, p.1, "n1", RUNNING, "", [], [ContainerStatus("app", None, 0, None)]),
            Pod(p.0, p.1, "n1", RUNNING, "", [], [ContainerStatus("app", Some(WaitingState(CRASH_LOOP, "")), 0, None)]))
  }

  lemma OneStatus(x: ContainerStatus)
    ensures ByName([] + [x]) == map[x.name := x]
  {
    assert ([] + [x])[..0] == [];
    assert ByName(([] + [x])[..0]) == map[];
  }

  lemma PatientIsValid(p: PodName)
    ensures PatientNamed(p).Valid() && PatientNamed(p).Name() == Key(p.0, p.1)
  {
    var r := PatientNamed(p);
    OneStatus(r.healthy.statuses[0]);
    OneStatus(r.crashing.statuses[0]);
    assert WaitingReason(Statuses(r.crashing)["app"]) in Reasons(Statuses(r.crashing));
    assert CrashEnteredBy(Statuses(r.healthy), Statuses(r.crashing), "app");
  }

  lemma WardKeys(n: nat)
    requires n > 0
    ensures var k := Key(Letters(n - 1), "cart");
            KeysOf(Ward(n)) == KeysOf(Ward(n - 1)) + {k} && k !in KeysOf(Ward(n - 1))
  {
    hide Letters, Key, SlashFree;
    var p: PodName := (Letters(n - 1), "cart");
    assert p in Ward(n);
    forall q | q in Ward(n - 1) ensures Key(q.0, q.1) != Key(p.0, p.1) {
      assert q != p;
      if Key(q.0, q.1) == Key(p.0, p.1) { KeyTells(q, p); }
    }
  }

  lemma {:induction false} Admit(n: nat) returns (ps: seq<Patient>)
    ensures AllValid(ps) && Distinct(ps) && NamesOf(ps) == KeysOf(Ward(n))
  {
    hide AllValid, Ward, PatientNamed, Key, KeysOf, Letters;
    if n == 0 {
      ps := [];
      NobodyIsValid();
    } else {
      var rest := Admit(n - 1);
      var p: PodName := (Letters(n - 1), "cart");
      var patient := PatientNamed(p);
      PatientIsValid(p);
      WardKeys(n);
      ps := rest + [patient];
      assert ps[..|ps| - 1] == rest;
      OneMoreValid(rest, patient);
      forall i | 0 <= i < |rest| ensures rest[i].Name() != patient.Name() { InNames(rest, rest[i].Name()); }
    }
  }

  lemma NobodyIsValid()
    ensures AllValid([]) && KeysOf(Ward(0)) == {}
  {
  }

  lemma OneMoreValid(ps: seq<Patient>, p: Patient)
    requires AllValid(ps) && p.Valid()
    ensures AllValid(ps + [p])
  {
  }

  /** Enough pods in enough namespaces for any thresholds. */
  lemma EnoughPatients(cfg: Config) returns (ps: seq<Patient>)
    requires cfg.Valid()
    ensures AllValid(ps) && Distinct(ps) && OpensOn(NamesOf(ps), cfg.podThreshold, cfg.nsThreshold)
  {
    hide AllValid, Distinct, OpensOn, NamesOf;
    var n := if cfg.podThreshold < cfg.nsThreshold then cfg.nsThreshold else cfg.podThreshold;
    ps := Admit(n);
    WardSize(n);
    OpensOnPods(Ward(n), cfg.podThreshold, cfg.nsThreshold);
  }
}
