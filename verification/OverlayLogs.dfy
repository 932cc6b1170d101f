/** A lost overlay from the node to the collector's log: through a bounded buffer, lost posts, lost answers, pruning and
    whatever else the recorder does. */
module OverlayLogs {
  import opened Sample
  import opened Differ
  import opened Netlink
  import opened Cni
  import opened Drivers
  import opened CniRuns
  import opened Collector
  import opened Agents
  import opened Recorder
  import opened SampleLogs
  import opened ArrivalRuns
  import opened LogRuns
  import opened OverlayRuns
  import opened AgentRuns

  /** The intervals of an agent that starts from memory `m` and senses these. */
  ghost predicate IntervalsOf(xs: seq<Interval>, cfg: AgentConfig, m: Memory, ss: seq<Sensing>) {
    && |xs| == |ss|
    && forall i :: 0 <= i < |xs| ==> xs[i].sample == Timed(ss[i].now, SampleAt(cfg, m, ss, i))
  }

  /** Host fields are well formed and under keys of their own. */
  ghost predicate HostsFit(ss: seq<Sensing>) {
    forall i :: 0 <= i < |ss| ==> ss[i].now != ZERO_TIME && AllValid(ss[i].host) && HostApart(ss[i])
  }

  predicate IsOverlayAlert(c: Change) { c.field == OVERLAY.link && c.severity == Alert }

  lemma SampleIsTaken(cfg: AgentConfig, m: Memory, ss: seq<Sensing>, i: int)
    requires 0 <= i < |ss|
    ensures var after := MemoryThrough(cfg, m, ss[..i + 1]);
            after.chosen.Some? && SampleOf(cfg, after, ss[i]) == Timed(ss[i].now, SampleAt(cfg, m, ss, i))
  {
    hide MemoryAfter, FieldsOf, CidrsOf, ReasonText;
    assert ss[..i + 1][|ss[..i + 1]| - 1] == ss[i];
  }

  lemma TakenAreClean(xs: seq<Interval>, cfg: AgentConfig, m: Memory, ss: seq<Sensing>)
    requires IntervalsOf(xs, cfg, m, ss) && HostsFit(ss) && cfg.node != ""
    ensures AllClean(Taken(xs), cfg.node)
  {
    hide Clean, SampleOf, SampleAt, MemoryThrough, AllValid;
    forall x | x in Taken(xs) ensures Clean(x, cfg.node) {
      var i :| 0 <= i < |Taken(xs)| && Taken(xs)[i] == x;
      SampleIsTaken(cfg, m, ss, i);
      SamplesAreClean(cfg, MemoryThrough(cfg, m, ss[..i + 1]), ss[i]);
    }
  }

  /** Of the counted samples, the n-th lacks the link and the one counted before it showed it. */
  ghost predicate LostBetween(ss: seq<Sensing>, once: seq<nat>, name: string, n: int, at: int) {
    && 0 < n < |once| && once[n - 1] < |ss| && once[n] < |ss| && Ms(ss[once[n]].now) == at
    && Shows(ss[once[n - 1]].read, name) && Lacks(ss[once[n]].read, name)
  }

  lemma CountedPair(xs: seq<Interval>, cfg: AgentConfig, m: Memory, ss: seq<Sensing>, p: Pin, name: string,
      once: seq<nat>, n: int, at: int)
    requires IntervalsOf(xs, cfg, m, ss) && HostsFit(ss) && Below(once, |Taken(xs)|) && 0 < n < |once|
    requires Holds(m, p) && IsPinned(p) && Overlay(p) == Some(name) && KeepsDriver(cfg, m, ss)
    ensures (exists x ::
              IsStepChange(StoredAs(Pick(Taken(xs), once)), n, x) && IsOverlayAlert(x.val) && x.time == at) <==>
            LostBetween(ss, once, name, n, at)
  {
    hide SampleAt, Between, MemoryThrough, Replaces, Overlay, Has, AllValid;
    var s, i, j := StoredAs(Pick(Taken(xs), once)), once[n - 1], once[n];
    assert s[n - 1].val == SampleAt(cfg, m, ss, i) && s[n] == Timed(Ms(ss[j].now), SampleAt(cfg, m, ss, j));
    LossIsRecordedExactly(cfg, m, ss, p, name, i, j);
    if LostBetween(ss, once, name, n, at) {
      var c :| c in Between(s[n - 1].val, s[n].val) && c.field == OVERLAY.link && c.severity == Alert;
      assert IsStepChange(s, n, Timed(at, c));
    }
  }

  /** End to end, in any run of the recorder whose posts for a node are those of its agent, compared in the store as
      they came: while the agent keeps a driver pinned to an overlay mode, the node's log as far back as changes are
      kept has an alert on the overlay at some stored time if and only if a sample of that time that was counted lacks
      the link, and the one counted before it, however many were dropped in between, showed it. */
  lemma LossReachesLogExactly(xs: seq<Interval>, size: nat, cfg: AgentConfig, m: Memory, ss: seq<Sensing>, p: Pin,
      name: string, setup: Setup, start: int, steps: seq<Step>, end: int, at: int)
    requires IntervalsOf(xs, cfg, m, ss) && HostsFit(ss) && cfg.node != ""
    requires Holds(m, p) && IsPinned(p) && Overlay(p) == Some(name) && KeepsDriver(cfg, m, ss)
    requires LegalBetween(start, steps, end) && PostsFor(steps, cfg.node) == AllPosts(xs, size)
    requires AllComparedAlike(setup, steps, cfg.node, Agent, Ms(end - setup.keep.changes))
    requires Ms(end - setup.keep.changes) <= at
    ensures var once := Firsts(HistoryOf(xs, size).arrivals);
            var log := Log(Run(setup, steps).changes, cfg.node, Agent);
            (exists x :: x in log && IsOverlayAlert(x.val) && x.time == at) <==>
            exists n :: LostBetween(ss, once, name, n, at)
  {
    hide RunFrom, Log, PairLog, From, AllComparedAlike, AgreesThroughout, AllPosts, PostsFor, HistoryOf, Firsts,
        AllClean, LostBetween, KeepsDriver, Holds, Overlay, IntervalsOf, HostsFit, IsStepChange, KeepsLatest, KeepsLog,
        Pick, StoredAs;
    var log, cut := Log(Run(setup, steps).changes, cfg.node, Agent), Ms(end - setup.keep.changes);
    TakenAreClean(xs, cfg, m, ss);
    LogCountsEachSampleOnce(xs, size, setup, start, steps, end, cfg.node);
    AlertsFrom(xs, cfg, m, ss, p, name, Firsts(HistoryOf(xs, size).arrivals), log, cut, at);
  }

  lemma AlertsFrom(xs: seq<Interval>, cfg: AgentConfig, m: Memory, ss: seq<Sensing>, p: Pin, name: string,
      once: seq<nat>, log: seq<Timed<Change>>, cut: int, at: int)
    requires IntervalsOf(xs, cfg, m, ss) && HostsFit(ss) && Below(once, |Taken(xs)|)
    requires Holds(m, p) && IsPinned(p) && Overlay(p) == Some(name) && KeepsDriver(cfg, m, ss)
    requires From(log, cut) == From(PairLog(StoredAs(Pick(Taken(xs), once))), cut) && cut <= at
    ensures (exists x :: x in log && IsOverlayAlert(x.val) && x.time == at) <==>
            exists n :: LostBetween(ss, once, name, n, at)
  {
    hide PairLog, LostBetween, KeepsDriver, Holds, Overlay, IntervalsOf, HostsFit, Pick, StoredAs, Between;
    var s := StoredAs(Pick(Taken(xs), once));
    forall x: Timed<Change> | x.time == at ensures x in log <==> exists n :: IsStepChange(s, n, x) {
      assert NotBefore(cut)(x);
      assert x in From(log, cut) <==> x in log;
      assert x in From(PairLog(s), cut) <==> x in PairLog(s);
      PairLogMembers(s, x);
    }
    forall n | 0 < n < |once|
      ensures (exists x :: IsStepChange(s, n, x) && IsOverlayAlert(x.val) && x.time == at) <==>
              LostBetween(ss, once, name, n, at)
    {
      CountedPair(xs, cfg, m, ss, p, name, once, n, at);
    }
    AlertIsCounted(s, log, ss, once, name, at);
  }

  lemma AlertIsCounted(s: seq<Timed<Snapshot>>, log: seq<Timed<Change>>, ss: seq<Sensing>, once: seq<nat>, name: string,
      at: int)
    requires |s| == |once|
    requires forall x: Timed<Change> :: x.time == at ==> (x in log <==> exists n :: IsStepChange(s, n, x))
    requires forall n :: 0 < n < |once| ==>
               ((exists x :: IsStepChange(s, n, x) && IsOverlayAlert(x.val) && x.time == at) <==>
                LostBetween(ss, once, name, n, at))
    ensures (exists x :: x in log && IsOverlayAlert(x.val) && x.time == at) <==>
            exists n :: LostBetween(ss, once, name, n, at)
  {
    hide IsOverlayAlert, Between;
    if x :| x in log && IsOverlayAlert(x.val) && x.time == at {
      var n :| IsStepChange(s, n, x);
      assert LostBetween(ss, once, name, n, at);
    }
    if n :| LostBetween(ss, once, name, n, at) {
      var x :| IsStepChange(s, n, x) && IsOverlayAlert(x.val) && x.time == at;
      assert x in log;
    }
  }
}
