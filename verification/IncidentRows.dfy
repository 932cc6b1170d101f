/** The incident rows of a run, told from what was delivered: which pods each lists, when it was opened and when and
    why it was closed. */
module IncidentRows {
  import opened Sample
  import opened Rows
  import opened Text
  import opened Schema
  import opened Retention
  import opened Incidents
  import opened Collector
  import opened Api
  import opened Recorder
  import opened IncidentRuns
  import opened PodRuns
  import opened CrashRuns

  // --- what an evaluation can know ---------------------------------------------------------------

  /** The start of the incident window that ends at `now`, as stored. */
  function WindowStart(cfg: Config, now: int): int { Ms(now - cfg.windowMinutes * 60_000_000_000) }

  /** The pod entered CrashLoopBackOff within the incident window that ends at `now`. */
  ghost predicate JustEntered(cfg: Config, steps: seq<Step>, now: int, key: string) {
    EnteredSince(steps, key, WindowStart(cfg, now))
  }

  /** The pod is gone; or its last report says Running with nothing waiting, as every report has for the stable
      window. */
  ghost predicate HasRecovered(cfg: Config, steps: seq<Step>, now: int, key: string) {
    var h := History(steps, key);
    h != [] ==>
      && h[|h| - 1].phase == "Running" && h[|h| - 1].reason == ""
      && now - FromMs(Ms(h[StretchStart(h)].now)) >= cfg.stableMinutes * 60_000_000_000
  }

  /** What a tick makes of the open incident: the same opening; the pods it listed and those that just entered
      CrashLoopBackOff, sorted; and closed at the tick exactly when all of them have recovered. */
  ghost predicate Tracked(cfg: Config, steps: seq<Step>, now: int, x: Incident, y: Incident) {
    && y.id == x.id && y.openedAt == x.openedAt && StrictlySorted(y.pods)
    && (forall k :: k in y.pods <==> k in x.pods || JustEntered(cfg, steps, now, k))
    && y.closedAt == if forall k :: k in y.pods ==> HasRecovered(cfg, steps, now, k) then Some(Ms(now)) else None
  }

  /** Enough pods across enough namespaces. */
  predicate Enough(cfg: Config, entered: set<string>) {
    |entered| >= cfg.podThreshold && |set k | k in entered :: BeforeSlash(k)| >= cfg.nsThreshold
  }

  /** What a tick opens: under a fresh id, at the first of the entries, listing exactly the pods that entered. */
  ghost predicate Opened(cfg: Config, steps: seq<Step>, now: int, y: Incident) {
    && y.closedAt == None && StrictlySorted(y.pods)
    && (forall k :: k in y.pods <==> JustEntered(cfg, steps, now, k))
    && IsFirstEntry(steps, WindowStart(cfg, now), y.openedAt)
  }

  /** The first entry of any pod since `cut` was at this stored time. */
  ghost predicate IsFirstEntry(steps: seq<Step>, cut: int, at: int) {
    exists k :: FirstEntry(steps, cut, k, at)
  }

  // --- one tick -----------------------------------------------------------------------------------

  lemma CurrentIsTheOpenOne(s: seq<Incident>, inc: Incident, now: int)
    requires OneOpen(s) && Proper(s, now) && inc in s && IsOpen(inc)
    ensures Current(s, now) == Some(inc)
  {
    assert OpenBy(Ms(now))(inc);
    assert inc in Filter(s, OpenBy(Ms(now)));
    CurrentIsOpen(s, now);
    var c := Current(s, now).value;
    var i :| 0 <= i < |s| && s[i] == inc;
    var j :| 0 <= j < |s| && s[j] == c;
    assert i == j || i < j || j < i;
  }

  /** The table after tracking, row by row. */
  lemma TrackedRows(s: seq<Incident>, next: int, inc: Incident, pods: seq<string>, grown: bool, closes: bool, now: int,
      t: Tables)
    requires t.incidents == s && IncidentsOrdered(s, next) && inc in s && IsOpen(inc) && (!grown ==> pods == inc.pods)
    ensures var u := Apply(t, Track(inc.id, pods, grown, closes), now).incidents;
            && |u| == |s|
            && forall i :: 0 <= i < |s| ==>
                 u[i] == if s[i] == inc then inc.(pods := pods, closedAt := if closes then Some(Ms(now)) else None)
                         else s[i]
  {
    var u := Apply(t, Track(inc.id, pods, grown, closes), now).incidents;
    forall i | 0 <= i < |s| && s[i].id == inc.id ensures s[i] == inc {
      var j :| 0 <= j < |s| && s[j] == inc;
      assert i == j || i < j || j < i;
    }
  }

  lemma SettledTells(t: Tables, cfg: Config, steps: seq<Step>, now: int, key: string)
    requires RowTells(t.pods, key, History(steps, key))
    ensures Settled(t.pods, key, now, cfg.Stable()) <==> HasRecovered(cfg, steps, now, key)
  {
    hide History, StretchStart;
  }

  lemma AllSettledTells(setup: Setup, steps: seq<Step>, now: int, pods: seq<string>)
    ensures AllSettled(Run(setup, steps).pods, pods, now, setup.cfg.Stable()) <==>
            forall k :: k in pods ==> HasRecovered(setup.cfg, steps, now, k)
  {
    hide RunFrom, Settled, HasRecovered;
    forall k ensures Settled(Run(setup, steps).pods, k, now, setup.cfg.Stable()) <==>
                     HasRecovered(setup.cfg, steps, now, k) {
      ClockShowsStretch(setup, steps, k);
      SettledTells(Run(setup, steps), setup.cfg, steps, now, k);
    }
  }

  lemma CrashingTells(setup: Setup, start: int, steps: seq<Step>, now: int)
    requires LegalBetween(start, steps, now) && setup.keep.events >= setup.cfg.Window()
    ensures var found := CrashLoops(Run(setup, steps).transitions, Ms(now - setup.cfg.Window()));
            forall k :: k in found.Keys <==> JustEntered(setup.cfg, steps, now, k)
  {
    hide RunFrom, CrashLoops, EnteredSince, EnteredAt;
    forall k
      ensures k in CrashLoops(Run(setup, steps).transitions, Ms(now - setup.cfg.Window())).Keys <==>
              JustEntered(setup.cfg, steps, now, k)
    {
      QueryTellsEntries(setup, start, steps, now, setup.cfg.Window(), k);
    }
  }

  lemma AppliedAlone(t: Tables, cfg: Config, now: int)
    ensures TickOf(t, cfg, now).incidents == Apply(t, Decide(t, cfg, now), now).incidents
  {
    hide Decide, Apply;
    TickLeaves(t, cfg, now);
  }

  /** A tick with an incident open: that row is tracked, every other one stays as it is. */
  lemma TickTracks(setup: Setup, start: int, steps: seq<Step>, now: int, inc: Incident)
    requires LegalBetween(start, steps, now) && setup.keep.events >= setup.cfg.Window()
    requires inc in Run(setup, steps).incidents && inc.closedAt == None
    ensures var s, u := Run(setup, steps).incidents, Run(setup, steps + [Step(now, Ticked)]).incidents;
            && |u| == |s|
            && forall i :: 0 <= i < |s| ==>
                 if s[i] == inc then Tracked(setup.cfg, steps, now, inc, u[i]) else u[i] == s[i]
  {
    hide RunFrom, Next, CrashLoops, JustEntered, HasRecovered, Grown, Current, AllSettled, Apply, Decide, Members,
        Tracked;
    var t := Run(setup, steps);
    RunSnoc(EMPTY, setup, steps, Step(now, Ticked));
    TickIs(t, setup, now);
    AppliedAlone(t, setup.cfg, now);
    AtMostOneOpenIncident(setup, start, steps, now);
    CurrentIsTheOpenOne(t.incidents, inc, now);
    CrashingTells(setup, start, steps, now);
    var crashing := CrashLoops(t.transitions, Ms(now - setup.cfg.Window())).Keys;
    var pods := Grown(inc.pods, crashing);
    var closes := AllSettled(t.pods, pods, now, setup.cfg.Stable());
    AllSettledTells(setup, steps, now, pods);
    DecidesToTrack(t, setup.cfg, now, inc);
    NothingToGrow(inc.pods, crashing);
    TrackedRows(t.incidents, t.next.incident, inc, pods, !(crashing <= Members(inc.pods)), closes, now, t);
    GrownTells(setup.cfg, steps, now, inc, crashing);
    TrackedTells(setup.cfg, steps, now, inc, pods, closes);
  }

  lemma DecidesToTrack(t: Tables, cfg: Config, now: int, inc: Incident)
    requires Current(t.incidents, now) == Some(inc)
    ensures var crashing := CrashLoops(t.transitions, Ms(now - cfg.Window())).Keys;
            var pods := Grown(inc.pods, crashing);
            Decide(t, cfg, now) ==
            Track(inc.id, pods, !(crashing <= Members(inc.pods)), AllSettled(t.pods, pods, now, cfg.Stable()))
  {
    hide Current, CrashLoops, Grown, AllSettled, Members;
  }

  lemma GrownTells(cfg: Config, steps: seq<Step>, now: int, inc: Incident, crashing: set<string>)
    requires StrictlySorted(inc.pods) && forall k :: k in crashing <==> JustEntered(cfg, steps, now, k)
    ensures var pods := Grown(inc.pods, crashing);
            && StrictlySorted(pods)
            && forall k :: k in pods <==> k in inc.pods || JustEntered(cfg, steps, now, k)
  {
    hide Grown, JustEntered, SortedKeys, Members;
    GrownIsUnion(inc.pods, crashing);
  }

  lemma TrackedTells(cfg: Config, steps: seq<Step>, now: int, inc: Incident, pods: seq<string>, closes: bool)
    requires StrictlySorted(pods) && forall k :: k in pods <==> k in inc.pods || JustEntered(cfg, steps, now, k)
    requires closes <==> forall k :: k in pods ==> HasRecovered(cfg, steps, now, k)
    ensures Tracked(cfg, steps, now, inc, inc.(pods := pods, closedAt := if closes then Some(Ms(now)) else None))
  {
    hide JustEntered, HasRecovered;
  }

  lemma NothingToGrow(pods: seq<string>, crashing: set<string>)
    ensures crashing <= Members(pods) ==> Grown(pods, crashing) == pods
  {
    if crashing <= Members(pods) { assert crashing - Members(pods) == {}; }
  }

  lemma OpenedRows(t: Tables, openedAt: int, pods: seq<string>, now: int)
    ensures Apply(t, Open(openedAt, pods), now).incidents ==
            t.incidents + [Incident(t.next.incident, Ms(openedAt), None, pods)]
  {
  }

  /** A tick with none open: one is opened exactly when enough pods just entered CrashLoopBackOff. */
  lemma TickOpens(setup: Setup, start: int, steps: seq<Step>, now: int, entered: set<string>)
    requires setup.cfg.Valid()
    requires LegalBetween(start, steps, now) && setup.keep.events >= setup.cfg.Window()
    requires forall x :: x in Run(setup, steps).incidents ==> x.closedAt != None
    requires forall k :: k in entered <==> JustEntered(setup.cfg, steps, now, k)
    ensures var s, u := Run(setup, steps).incidents, Run(setup, steps + [Step(now, Ticked)]).incidents;
            if Enough(setup.cfg, entered)
            then |u| == |s| + 1 && u[..|s|] == s && Opened(setup.cfg, steps, now, u[|s|])
                 && forall x :: x in s ==> x.id < u[|s|].id
            else u == s
  {
    hide RunFrom, Next, CrashLoops, EnteredSince, Current, Apply, SortedKeys, FirstEntry;
    var t := Run(setup, steps);
    RunSnoc(EMPTY, setup, steps, Step(now, Ticked));
    TickIs(t, setup, now);
    AppliedAlone(t, setup.cfg, now);
    AtMostOneOpenIncident(setup, start, steps, now);
    NoneOpenMeansNoCurrent(t.incidents, now);
    CrashingTells(setup, start, steps, now);
    var found := CrashLoops(t.transitions, Ms(now - setup.cfg.Window()));
    assert found.Keys == entered;
    if Enough(setup.cfg, entered) {
      var key, at := OpensAtFirstEntry(setup, start, steps, now);
      OpenedRows(t, EarliestOf(now, found), SortedKeys(entered), now);
    } else {
      QuietRows(t, now);
    }
  }

  lemma QuietRows(t: Tables, now: int)
    ensures Apply(t, Quiet, now).incidents == t.incidents
  {
  }

  // --- whole runs -----------------------------------------------------------------------------------

  /** Tick j of the run saw the pod enter CrashLoopBackOff within its window. */
  ghost predicate SeenAt(cfg: Config, steps: seq<Step>, k: string, j: int) {
    0 <= j < |steps| && steps[j].action.Ticked? && JustEntered(cfg, steps[..j], steps[j].now, k)
  }

  ghost predicate SeenBetween(cfg: Config, steps: seq<Step>, k: string, from: int, to: int) {
    exists j :: from <= j <= to && SeenAt(cfg, steps, k, j)
  }

  /** The incident was opened by tick `o`, at the first entry of its window, and `c` is the last tick that tracked it:
      it lists exactly the pods that entered CrashLoopBackOff in the window of any tick from `o` to `c`. If it is
      closed, tick `c` closed it, as all of them had recovered; if it is open, no tick came after. */
  ghost predicate Accounted(cfg: Config, steps: seq<Step>, x: Incident, o: int, c: int) {
    && 0 <= o <= c < |steps| && steps[o].action.Ticked? && steps[c].action.Ticked?
    && StrictlySorted(x.pods) && IsFirstEntry(steps[..o], WindowStart(cfg, steps[o].now), x.openedAt)
    && (forall k :: k in x.pods <==> SeenBetween(cfg, steps, k, o, c))
    && match x.closedAt
       case None => forall j :: c < j < |steps| ==> !steps[j].action.Ticked?
       case Some(at) =>
         && o < c && at == Ms(steps[c].now)
         && forall k :: k in x.pods ==> HasRecovered(cfg, steps[..c], steps[c].now, k)
  }

  ghost predicate IsAccounted(cfg: Config, steps: seq<Step>, x: Incident) {
    exists o, c :: Accounted(cfg, steps, x, o, c)
  }

  ghost predicate AllAccounted(cfg: Config, steps: seq<Step>, s: seq<Incident>) {
    forall x :: x in s ==> IsAccounted(cfg, steps, x)
  }

  lemma SeenSnoc(cfg: Config, steps: seq<Step>, s: Step, k: string, from: int, to: int)
    requires to < |steps|
    ensures SeenBetween(cfg, steps + [s], k, from, to) <==> SeenBetween(cfg, steps, k, from, to)
  {
    hide JustEntered;
    var all := steps + [s];
    forall j | from <= j <= to && j >= 0 ensures SeenAt(cfg, all, k, j) <==> SeenAt(cfg, steps, k, j) {
      assert all[..j] == steps[..j];
    }
  }

  /** One more step changes nothing for an incident that is closed, and nothing for an open one unless it is a tick. */
  lemma AccountedSnoc(cfg: Config, steps: seq<Step>, s: Step, x: Incident)
    requires IsAccounted(cfg, steps, x) && (x.closedAt == None ==> !s.action.Ticked?)
    ensures IsAccounted(cfg, steps + [s], x)
  {
    hide HasRecovered, IsFirstEntry, SeenBetween;
    var o, c :| Accounted(cfg, steps, x, o, c);
    var all := steps + [s];
    assert all[..o] == steps[..o] && all[..c] == steps[..c];
    forall k ensures SeenBetween(cfg, all, k, o, c) <==> SeenBetween(cfg, steps, k, o, c) {
      SeenSnoc(cfg, steps, s, k, o, c);
    }
    assert Accounted(cfg, all, x, o, c);
  }

  lemma SeenOnce(cfg: Config, steps: seq<Step>, s: Step, k: string, from: int)
    requires s.action.Ticked? && from <= |steps|
    ensures SeenBetween(cfg, steps + [s], k, from, |steps|) <==>
            SeenBetween(cfg, steps, k, from, |steps| - 1) || JustEntered(cfg, steps, s.now, k)
  {
    hide JustEntered;
    var all := steps + [s];
    assert all[..|steps|] == steps;
    assert SeenAt(cfg, all, k, |steps|) <==> JustEntered(cfg, steps, s.now, k);
    SeenSnoc(cfg, steps, s, k, from, |steps| - 1);
    if j :| from <= j <= |steps| && SeenAt(cfg, all, k, j) {
      assert j == |steps| || SeenBetween(cfg, all, k, from, |steps| - 1);
    }
    if SeenBetween(cfg, all, k, from, |steps| - 1) {
      var j :| from <= j <= |steps| - 1 && SeenAt(cfg, all, k, j);
      assert from <= j <= |steps|;
    }
  }

  /** No tick came since `c`, so nothing was seen. */
  lemma NothingSeenSince(cfg: Config, steps: seq<Step>, k: string, o: int, c: int)
    requires 0 <= o <= c < |steps| && forall j :: c < j < |steps| ==> !steps[j].action.Ticked?
    ensures SeenBetween(cfg, steps, k, o, |steps| - 1) <==> SeenBetween(cfg, steps, k, o, c)
  {
    hide JustEntered;
    if SeenBetween(cfg, steps, k, o, c) {
      var j :| o <= j <= c && SeenAt(cfg, steps, k, j);
      assert o <= j <= |steps| - 1;
    }
  }

  /** The next tick tracks an open incident. */
  lemma TrackedIsAccounted(cfg: Config, steps: seq<Step>, s: Step, x: Incident, y: Incident)
    requires IsAccounted(cfg, steps, x) && x.closedAt == None && s.action.Ticked? && Tracked(cfg, steps, s.now, x, y)
    ensures IsAccounted(cfg, steps + [s], y)
  {
    hide HasRecovered, IsFirstEntry, SeenBetween, JustEntered;
    var o, c :| Accounted(cfg, steps, x, o, c);
    var all := steps + [s];
    assert all[..o] == steps[..o] && all[..|steps|] == steps;
    forall k ensures k in y.pods <==> SeenBetween(cfg, all, k, o, |steps|) {
      NothingSeenSince(cfg, steps, k, o, c);
      SeenOnce(cfg, steps, s, k, o);
    }
    assert Accounted(cfg, all, y, o, |steps|);
  }

  lemma OpenedIsAccounted(cfg: Config, steps: seq<Step>, s: Step, y: Incident)
    requires s.action.Ticked? && Opened(cfg, steps, s.now, y)
    ensures IsAccounted(cfg, steps + [s], y)
  {
    hide IsFirstEntry, SeenBetween, JustEntered;
    var all := steps + [s];
    assert all[..|steps|] == steps;
    forall k ensures k in y.pods <==> SeenBetween(cfg, all, k, |steps|, |steps|) {
      SeenOnce(cfg, steps, s, k, |steps|);
      assert !SeenBetween(cfg, steps, k, |steps|, |steps| - 1) by { NothingBetween(cfg, steps, k); }
    }
    assert Accounted(cfg, all, y, |steps|, |steps|);
  }

  lemma NothingBetween(cfg: Config, steps: seq<Step>, k: string)
    ensures !SeenBetween(cfg, steps, k, |steps|, |steps| - 1)
  {
  }

  /** The pods that entered in a window are finitely many: some set holds exactly them. */
  lemma TheEntered(setup: Setup, start: int, steps: seq<Step>, now: int) returns (entered: set<string>)
    requires LegalBetween(start, steps, now) && setup.keep.events >= setup.cfg.Window()
    ensures forall k :: k in entered <==> JustEntered(setup.cfg, steps, now, k)
  {
    hide RunFrom, CrashLoops, JustEntered;
    CrashingTells(setup, start, steps, now);
    entered := CrashLoops(Run(setup, steps).transitions, Ms(now - setup.cfg.Window())).Keys;
  }

  lemma TickAccounts(setup: Setup, start: int, steps: seq<Step>, s: Step)
    requires setup.cfg.Valid() && s.action.Ticked?
    requires LegalBetween(start, steps, s.now) && setup.keep.events >= setup.cfg.Window()
    requires AllAccounted(setup.cfg, steps, Run(setup, steps).incidents)
    ensures AllAccounted(setup.cfg, steps + [s], Run(setup, steps + [s]).incidents)
  {
    hide RunFrom, IsAccounted, Tracked, Opened, Enough, JustEntered;
    var t, u := Run(setup, steps).incidents, Run(setup, steps + [s]).incidents;
    if inc :| inc in t && inc.closedAt == None {
      TickTracks(setup, start, steps, s.now, inc);
      AtMostOneOpenIncident(setup, start, steps, s.now);
      forall y | y in u ensures IsAccounted(setup.cfg, steps + [s], y) {
        var i :| 0 <= i < |u| && u[i] == y;
        assert t[i] in t;
        if t[i] == inc {
          TrackedIsAccounted(setup.cfg, steps, s, inc, y);
        } else {
          OnlyOneOpen(t, inc, t[i]);
          AccountedSnoc(setup.cfg, steps, s, y);
        }
      }
    } else {
      var entered := TheEntered(setup, start, steps, s.now);
      TickOpens(setup, start, steps, s.now, entered);
      forall y | y in u ensures IsAccounted(setup.cfg, steps + [s], y) {
        if y in t {
          AccountedSnoc(setup.cfg, steps, s, y);
        } else {
          assert u == u[..|t|] + [u[|t|]];
          OpenedIsAccounted(setup.cfg, steps, s, y);
        }
      }
    }
  }

  lemma OnlyOneOpen(s: seq<Incident>, a: Incident, b: Incident)
    requires OneOpen(s) && a in s && b in s && a.closedAt == None && a != b
    ensures b.closedAt != None
  {
    var i :| 0 <= i < |s| && s[i] == a;
    var j :| 0 <= j < |s| && s[j] == b;
    assert i < j || j < i;
  }

  /** Other steps leave the incidents alone, but for a prune, which only deletes. */
  lemma OtherStepsKeep(t: Tables, setup: Setup, s: Step)
    requires !s.action.Ticked?
    ensures forall x :: x in Next(t, setup, s).incidents ==> x in t.incidents
  {
    hide PodSeen, PodGone, WithEvent, NodeSeen, Ingested, TickOf, Capped, Pruned;
    match s.action
    case PodDelivered(oldPod, newPod, reason) => PodStepsLeave(t, oldPod, newPod, reason, newPod, s.now);
    case PodDeleted(pod) => PodStepsLeave(t, None, pod, "", pod, s.now);
    case PruneRan => PruneLeavesExactly(t, s.now, setup.keep);
    case _ => Untouched(t, setup, s);
  }

  /** In every run, every incident on record is accounted for by what was delivered. */
  lemma {:induction false} IncidentsAreAccountedFor(setup: Setup, start: int, steps: seq<Step>, end: int)
    requires setup.cfg.Valid() && LegalBetween(start, steps, end) && setup.keep.events >= setup.cfg.Window()
    ensures AllAccounted(setup.cfg, steps, Run(setup, steps).incidents)
  {
    hide Next, IsAccounted;
    if steps != [] {
      LegalPrefix(start, steps, end);
      var front, s := steps[..|steps| - 1], steps[|steps| - 1];
      assert front + [s] == steps;
      IncidentsAreAccountedFor(setup, start, front, s.now);
      if s.action.Ticked? {
        TickAccounts(setup, start, front, s);
      } else {
        OtherStepsKeep(Run(setup, front), setup, s);
        forall x | x in Run(setup, steps).incidents ensures IsAccounted(setup.cfg, steps, x) {
          AccountedSnoc(setup.cfg, front, s, x);
        }
      }
    }
  }
}
