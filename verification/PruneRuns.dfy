/** Retention and the size cap never change an incident decision. */
module PruneRuns {
  import opened Sample
  import opened Rows
  import opened Schema
  import opened Retention
  import opened Convert
  import opened Incidents
  import opened Collector
  import opened Api
  import opened Recorder

  predicate IsMaintenance(a: Action) { a.PruneRan? || a.CapRan? }

  /** The same run in which nothing is ever pruned or dropped. */
  ghost function WithoutMaintenance(steps: seq<Step>): seq<Step> {
    if steps == [] then [] else
      var rest := WithoutMaintenance(steps[..|steps| - 1]);
      if IsMaintenance(steps[|steps| - 1].action) then rest else rest + [steps[|steps| - 1]]
  }

  /** What each evaluation of a run decides about incidents, in order. */
  ghost function Decisions(setup: Setup, steps: seq<Step>): seq<Timed<Decision>> {
    if steps == [] then [] else
      var s := steps[|steps| - 1];
      Decisions(setup, steps[..|steps| - 1]) +
      if s.action.Ticked? then [Timed(s.now, Decide(Run(setup, steps[..|steps| - 1]), setup.cfg, s.now))] else []
  }

  function Opens(): Incident -> bool { (i: Incident) => IsOpen(i) }

  /** Two databases no evaluation at `now` or later can tell apart. */
  ghost predicate Alike(a: Tables, b: Tables, cfg: Config, now: int) {
    && a.pods == b.pods
    && a.next.incident == b.next.incident && a.next.transition == b.next.transition
    && Filter(a.incidents, Opens()) == Filter(b.incidents, Opens())
    && Filter(a.transitions, CrashSince(Ms(now - cfg.Window()))) ==
      Filter(b.transitions, CrashSince(Ms(now - cfg.Window())))
  }

  lemma LaterWindow(s: seq<Row<PodTransition>>, earlier: int, later: int)
    requires earlier <= later
    ensures Filter(Filter(s, CrashSince(earlier)), CrashSince(later)) == Filter(s, CrashSince(later))
  {
    FilterFilter(s, CrashSince(later), CrashSince(earlier));
  }

  lemma AlikeLater(a: Tables, b: Tables, cfg: Config, earlier: int, later: int)
    requires Alike(a, b, cfg, earlier) && earlier <= later
    ensures Alike(a, b, cfg, later)
  {
    MsMonotone(earlier - cfg.Window(), later - cfg.Window());
    LaterWindow(a.transitions, Ms(earlier - cfg.Window()), Ms(later - cfg.Window()));
    LaterWindow(b.transitions, Ms(earlier - cfg.Window()), Ms(later - cfg.Window()));
  }

  lemma AlikeCurrent(a: seq<Incident>, b: seq<Incident>, now: int)
    requires Filter(a, Opens()) == Filter(b, Opens())
    ensures Current(a, now) == Current(b, now)
  {
    FilterFilter(a, OpenBy(Ms(now)), Opens());
    FilterFilter(b, OpenBy(Ms(now)), Opens());
  }

  lemma AlikeCrashing(a: seq<Row<PodTransition>>, b: seq<Row<PodTransition>>, cut: int)
    requires Filter(a, CrashSince(cut)) == Filter(b, CrashSince(cut))
    ensures CrashLoops(a, cut) == CrashLoops(b, cut)
  {
    CrashLoopsReadsWindow(a, cut);
    CrashLoopsReadsWindow(b, cut);
  }

  lemma AlikeEvidence(a: Tables, b: Tables, cfg: Config, now: int)
    requires Alike(a, b, cfg, now)
    ensures EvidenceOf(a, cfg, now) == EvidenceOf(b, cfg, now)
  {
    hide CrashLoops, Current, Filter;
    AlikeCurrent(a.incidents, b.incidents, now);
    AlikeCrashing(a.transitions, b.transitions, Ms(now - cfg.Window()));
  }

  /** Databases that are alike decide alike. */
  lemma AlikeDecides(a: Tables, b: Tables, cfg: Config, now: int)
    requires Alike(a, b, cfg, now)
    ensures Decide(a, cfg, now) == Decide(b, cfg, now)
  {
    AlikeEvidence(a, b, cfg, now);
  }

  lemma UpdatesSnoc(s: seq<Incident>, x: Incident, id: int, pods: seq<string>, at: int)
    ensures SetPods(s + [x], id, pods) == SetPods(s, id, pods) + [if x.id == id then x.(pods := pods) else x]
    ensures SetClosed(s + [x], id, at) == SetClosed(s, id, at) + [if x.id == id then x.(closedAt := Some(at)) else x]
  {
  }

  lemma {:induction false} OpenAfterSetPods(s: seq<Incident>, id: int, pods: seq<string>)
    ensures Filter(SetPods(s, id, pods), Opens()) == SetPods(Filter(s, Opens()), id, pods)
  {
    if s != [] {
      var s', x := s[..|s| - 1], s[|s| - 1];
      assert s == s' + [x];
      OpenAfterSetPods(s', id, pods);
      UpdatesSnoc(s', x, id, pods, 0);
      UpdatesSnoc(Filter(s', Opens()), x, id, pods, 0);
      FilterSnoc(SetPods(s', id, pods), if x.id == id then x.(pods := pods) else x, Opens());
      FilterSnoc(s', x, Opens());
    }
  }

  function OtherThan(id: int): Incident -> bool { (i: Incident) => i.id != id }

  lemma {:induction false} OpenAfterSetClosed(s: seq<Incident>, id: int, at: int)
    ensures Filter(SetClosed(s, id, at), Opens()) == Filter(Filter(s, Opens()), OtherThan(id))
  {
    if s != [] {
      var s', x := s[..|s| - 1], s[|s| - 1];
      assert s == s' + [x];
      OpenAfterSetClosed(s', id, at);
      UpdatesSnoc(s', x, id, [], at);
      FilterSnoc(SetClosed(s', id, at), if x.id == id then x.(closedAt := Some(at)) else x, Opens());
      FilterSnoc(s', x, Opens());
      FilterSnoc(Filter(s', Opens()), x, OtherThan(id));
    }
  }

  lemma AlikeApplied(a: Tables, b: Tables, d: Decision, now: int)
    requires Filter(a.incidents, Opens()) == Filter(b.incidents, Opens()) && a.next.incident == b.next.incident
    ensures Filter(Apply(a, d, now).incidents, Opens()) == Filter(Apply(b, d, now).incidents, Opens())
    ensures Apply(a, d, now).next.incident == Apply(b, d, now).next.incident
    ensures Apply(a, d, now).next.transition == a.next.transition &&
            Apply(b, d, now).next.transition == b.next.transition
  {
    match d
    case Quiet =>
    case Open(openedAt, pods) =>
      var x := Incident(a.next.incident, Ms(openedAt), None, pods);
      FilterSnoc(a.incidents, x, Opens());
      FilterSnoc(b.incidents, x, Opens());
    case Track(id, pods, grown, closes) =>
      OpenAfterSetPods(a.incidents, id, pods);
      OpenAfterSetPods(b.incidents, id, pods);
      OpenAfterSetClosed(a.incidents, id, Ms(now));
      OpenAfterSetClosed(b.incidents, id, Ms(now));
      OpenAfterSetClosed(SetPods(a.incidents, id, pods), id, Ms(now));
      OpenAfterSetClosed(SetPods(b.incidents, id, pods), id, Ms(now));
  }

  lemma AlikeTick(a: Tables, b: Tables, cfg: Config, now: int)
    requires Alike(a, b, cfg, now)
    ensures Alike(TickOf(a, cfg, now), TickOf(b, cfg, now), cfg, now)
  {
    AlikeDecides(a, b, cfg, now);
    AlikeApplied(a, b, Decide(a, cfg, now), now);
    TickLeaves(a, cfg, now);
    TickLeaves(b, cfg, now);
  }

  lemma AlikeInserted(a: Tables, b: Tables, ts: seq<Timed<PodTransition>>, cut: int)
    requires a.next.transition == b.next.transition
    requires Filter(a.transitions, CrashSince(cut)) == Filter(b.transitions, CrashSince(cut))
    ensures Filter(WithTransitions(a, ts).transitions, CrashSince(cut)) ==
            Filter(WithTransitions(b, ts).transitions, CrashSince(cut))
  {
    var rows := seq(|ts|, i requires 0 <= i < |ts| => Row(a.next.transition + i, Ms(ts[i].time), ts[i].val));
    assert WithTransitions(a, ts).transitions == a.transitions + rows;
    assert WithTransitions(b, ts).transitions == b.transitions + rows;
    FilterConcat(a.transitions, rows, CrashSince(cut));
    FilterConcat(b.transitions, rows, CrashSince(cut));
  }

  lemma AlikePodSeen(a: Tables, b: Tables, cfg: Config, oldPod: Option<Pod>, newPod: Pod, reason: string, now: int)
    requires Alike(a, b, cfg, now)
    ensures Alike(PodSeen(a, oldPod, newPod, reason, now), PodSeen(b, oldPod, newPod, reason, now), cfg, now)
  {
    AlikeInserted(a, b, Emitted(oldPod, newPod, now), Ms(now - cfg.Window()));
  }

  lemma AlikePodGone(a: Tables, b: Tables, cfg: Config, p: Pod, now: int)
    requires Alike(a, b, cfg, now)
    ensures Alike(PodGone(a, p, now), PodGone(b, p, now), cfg, now)
  {
    AlikeInserted(a, b, [Deletion(p, now)], Ms(now - cfg.Window()));
  }

  /** A prune removes no open incident, and no crash that an evaluation can still see. */
  lemma AlikePruned(a: Tables, b: Tables, setup: Setup, now: int)
    requires Alike(a, b, setup.cfg, now) && setup.keep.events >= setup.cfg.Window()
    ensures Alike(Pruned(a, now, setup.keep), b, setup.cfg, now)
  {
    var cuts, window := CutsAt(now, setup.keep), Ms(now - setup.cfg.Window());
    MsMonotone(now - setup.keep.events, now - setup.cfg.Window());
    FilterFilter(a.incidents, Opens(), OpenOrClosedSince(cuts.changes));
    FilterFilter(a.transitions, CrashSince(window), Since(cuts.events));
  }

  lemma AlikeUntouched(a: Tables, a': Tables, b: Tables, b': Tables, cfg: Config, now: int)
    requires Alike(a, b, cfg, now)
    requires SameHistory(a, a') && SameHistory(b, b')
    ensures Alike(a', b', cfg, now)
  {
  }

  /** Both databases take an ordinary step; only one of them takes a maintenance step. */
  lemma AlikeStep(a: Tables, b: Tables, setup: Setup, s: Step)
    requires Alike(a, b, setup.cfg, s.now) && setup.keep.events >= setup.cfg.Window()
    ensures Alike(Next(a, setup, s), if IsMaintenance(s.action) then b else Next(b, setup, s), setup.cfg, s.now)
  {
    hide PodSeen, PodGone, WithEvent, NodeSeen, Ingested, TickOf, Pruned, Capped, Alike;
    match s.action
    case PodDelivered(oldPod, newPod, reason) => AlikePodSeen(a, b, setup.cfg, oldPod, newPod, reason, s.now);
    case PodDeleted(pod) => AlikePodGone(a, b, setup.cfg, pod, s.now);
    case Ticked => AlikeTick(a, b, setup.cfg, s.now);
    case PruneRan => AlikePruned(a, b, setup, s.now);
    case CapRan(_, _) =>
      Untouched(a, setup, s);
      AlikeUntouched(a, Next(a, setup, s), b, b, setup.cfg, s.now);
    case _ =>
      Untouched(a, setup, s);
      Untouched(b, setup, s);
      AlikeUntouched(a, Next(a, setup, s), b, Next(b, setup, s), setup.cfg, s.now);
  }

  /** However pruning and size capping are interleaved with a run, every evaluation decides exactly what it would
      have decided had nothing ever been deleted. */
  lemma {:induction false} MaintenanceInvisible(setup: Setup, start: int, steps: seq<Step>, end: int)
    requires LegalBetween(start, steps, end) && setup.keep.events >= setup.cfg.Window()
    ensures Alike(Run(setup, steps), Run(setup, WithoutMaintenance(steps)), setup.cfg, end)
    ensures Decisions(setup, steps) == Decisions(setup, WithoutMaintenance(steps))
  {
    hide Next, Decide;
    if steps != [] {
      LegalPrefix(start, steps, end);
      var front, s := steps[..|steps| - 1], steps[|steps| - 1];
      MaintenanceInvisible(setup, start, front, s.now);
      var bare := WithoutMaintenance(front);
      var a, b := Run(setup, front), Run(setup, bare);
      AlikeStep(a, b, setup, s);
      AlikeDecides(a, b, setup.cfg, s.now);
      assert (bare + [s])[..|bare + [s]| - 1] == bare;
      AlikeLater(Run(setup, steps), Run(setup, WithoutMaintenance(steps)), setup.cfg, s.now, end);
    }
  }
}
