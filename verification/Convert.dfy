/** API objects turned into records (internal/informers/convert.go). */
module Convert {
  import opened Sample
  import opened Text
  import opened Schema

  datatype WaitingState = WaitingState(reason: string, message: string)
  datatype Terminated = Terminated(reason: string, exitCode: int, finishedAt: Option<int>)
  datatype ContainerStatus = ContainerStatus(
    name: string, waiting: Option<WaitingState>, restartCount: int, lastTerminated: Option<Terminated>)
  datatype Pod = Pod(
    namespace: string, name: string, node: string, phase: string, reason: string,
    initStatuses: seq<ContainerStatus>, statuses: seq<ContainerStatus>)

  // --- container statuses -----------------------------------------------------------

  function ByName(l: seq<ContainerStatus>): map<string, ContainerStatus> {
    if l == [] then map[] else ByName(l[..|l| - 1])[l[|l| - 1].name := l[|l| - 1]]
  }

  /** Statuses by container name; a container listed twice keeps its last status, and init containers come first. */
  function Statuses(p: Pod): map<string, ContainerStatus> {
    ByName(p.initStatuses + p.statuses)
  }

  ghost predicate LastNamed(l: seq<ContainerStatus>, k: string, i: int) {
    0 <= i < |l| && l[i].name == k && forall j :: i < j < |l| ==> l[j].name != k
  }

  /** A name stands for its last entry in the list. */
  lemma {:induction false} LastStatusWins(l: seq<ContainerStatus>, k: string)
    ensures k in ByName(l) <==> exists i :: LastNamed(l, k, i)
    ensures k in ByName(l) ==> exists i :: LastNamed(l, k, i) && l[i] == ByName(l)[k]
  {
    if l != [] {
      var l', x := l[..|l| - 1], l[|l| - 1];
      LastStatusWins(l', k);
      if x.name == k {
        assert LastNamed(l, k, |l| - 1);
      } else {
        forall i ensures LastNamed(l, k, i) <==> LastNamed(l', k, i) {
          assert i < |l'| ==> forall j :: 0 <= j < |l'| ==> l[j] == l'[j];
        }
      }
    }
  }

  method ContainerStatuses(p: Pod) returns (out: map<string, ContainerStatus>)
    ensures out == Statuses(p)
  {
    out := map[];
    for i := 0 to |p.initStatuses|
      invariant out == ByName(p.initStatuses[..i])
    {
      assert p.initStatuses[..i + 1][..i] == p.initStatuses[..i];
      out := out[p.initStatuses[i].name := p.initStatuses[i]];
    }
    assert p.initStatuses[..|p.initStatuses|] == p.initStatuses + p.statuses[..0];
    for i := 0 to |p.statuses|
      invariant out == ByName(p.initStatuses + p.statuses[..i])
    {
      var l := p.initStatuses + p.statuses[..i + 1];
      assert l[..|l| - 1] == p.initStatuses + p.statuses[..i];
      out := out[p.statuses[i].name := p.statuses[i]];
    }
    assert p.statuses[..|p.statuses|] == p.statuses;
  }

  function WaitingReason(cs: ContainerStatus): string {
    match cs.waiting
    case Some(w) => w.reason
    case None => ""
  }

  /** The status of a container that is not there. */
  function StatusOr(m: map<string, ContainerStatus>, k: string): ContainerStatus {
    if k in m then m[k] else ContainerStatus("", None, 0, None)
  }

  // --- pod transitions ------------------------------------------------------------------

  function Transition(p: Pod, kind: TransitionKind, before: string, after: string, detail: string): PodTransition {
    PodTransition(p.namespace, p.name, p.node, kind, before, after, detail)
  }

  function PhaseChange(oldPod: Pod, newPod: Pod, now: int): seq<Timed<PodTransition>> {
    if oldPod.phase == newPod.phase then []
    else [Timed(now, Transition(newPod, Phase, oldPod.phase, newPod.phase, newPod.reason))]
  }

  /** A restart carries the end of the terminated run, which may lie before `now`. */
  function RestartChange(p: Pod, name: string, o: ContainerStatus, n: ContainerStatus,
      now: int): seq<Timed<PodTransition>> {
    if n.restartCount <= o.restartCount then [] else
      var (time, detail) := match n.lastTerminated
        case None => (now, "container=" + name)
        case Some(t) =>
          (match t.finishedAt case None => now case Some(at) => at,
           "container=" + name + " reason=" + t.reason + " exit=" + Decimal(t.exitCode));
      [Timed(time, Transition(p, Restart, Decimal(o.restartCount), Decimal(n.restartCount), detail))]
  }

  function WaitingChange(p: Pod, name: string, o: ContainerStatus, n: ContainerStatus,
      now: int): seq<Timed<PodTransition>> {
    if WaitingReason(o) == WaitingReason(n) then [] else
      var message := match n.waiting case Some(w) => if w.message == "" then "" else " " + w.message case None => "";
      [Timed(now, Transition(p, Waiting, WaitingReason(o), WaitingReason(n), "container=" + name + message))]
  }

  function ContainerChange(p: Pod, name: string, o: ContainerStatus, n: ContainerStatus,
      now: int): seq<Timed<PodTransition>> {
    RestartChange(p, name, o, n, now) + WaitingChange(p, name, o, n, now)
  }

  function ContainerChanges(p: Pod, before: map<string, ContainerStatus>, after: map<string, ContainerStatus>,
                            names: seq<string>, now: int): seq<Timed<PodTransition>> {
    if names == [] then [] else
      var name := names[|names| - 1];
      ContainerChanges(p, before, after, names[..|names| - 1], now) +
      ContainerChange(p, name, StatusOr(before, name), StatusOr(after, name), now)
  }

  lemma ContainerChangesSnoc(p: Pod, before: map<string, ContainerStatus>, after: map<string, ContainerStatus>,
                             names: seq<string>, i: nat, now: int)
    requires i < |names|
    ensures ContainerChanges(p, before, after, names[..i + 1], now) ==
            ContainerChanges(p, before, after, names[..i], now) +
            ContainerChange(p, names[i], StatusOr(before, names[i]), StatusOr(after, names[i]), now)
  {
    assert names[..i + 1][..i] == names[..i];
  }

  /** What changed between two versions of a pod: its phase, then its containers in name order. */
  ghost function Changed(oldPod: Pod, newPod: Pod, now: int): seq<Timed<PodTransition>> {
    PhaseChange(oldPod, newPod, now) +
    ContainerChanges(newPod, Statuses(oldPod), Statuses(newPod), SortedKeys(Statuses(newPod).Keys), now)
  }

  method PodTransitions(oldPod: Pod, newPod: Pod, now: int) returns (out: seq<Timed<PodTransition>>)
    ensures out == Changed(oldPod, newPod, now)
  {
    out := [];
    if oldPod.phase != newPod.phase {
      out := out + [Timed(now, Transition(newPod, Phase, oldPod.phase, newPod.phase, newPod.reason))];
    }
    var oldCS := ContainerStatuses(oldPod);
    var newCS := ContainerStatuses(newPod);
    var names := SortedNames(newCS.Keys);
    out := AppendContainers(out, newPod, oldCS, newCS, names, now);
  }

  method AppendContainers(found: seq<Timed<PodTransition>>, p: Pod, oldCS: map<string, ContainerStatus>,
                          newCS: map<string, ContainerStatus>, names: seq<string>, now: int)
    returns (out: seq<Timed<PodTransition>>)
    requires forall k :: k in names ==> k in newCS
    ensures out == found + ContainerChanges(p, oldCS, newCS, names, now)
  {
    out := found;
    for i := 0 to |names|
      invariant out == found + ContainerChanges(p, oldCS, newCS, names[..i], now)
    {
      assert names[i] in names;
      var change := OneContainer(p, names[i], StatusOr(oldCS, names[i]), newCS[names[i]], now);
      ContainerChangesSnoc(p, oldCS, newCS, names, i, now);
      ConcatAssociative(found, ContainerChanges(p, oldCS, newCS, names[..i], now), change);
      out := out + change;
    }
    assert names[..|names|] == names;
  }

  lemma ConcatAssociative<T>(a: seq<T>, b: seq<T>, c: seq<T>)
    ensures a + b + c == a + (b + c)
  {
  }

  method OneContainer(p: Pod, name: string, o: ContainerStatus, n: ContainerStatus, now: int)
    returns (out: seq<Timed<PodTransition>>)
    ensures out == ContainerChange(p, name, o, n, now)
  {
    out := [];
    if n.restartCount > o.restartCount {
      var time := now;
      var detail := "container=" + name;
      if n.lastTerminated.Some? {
        var term := n.lastTerminated.value;
        detail := "container=" + name + " reason=" + term.reason + " exit=" + Decimal(term.exitCode);
        if term.finishedAt.Some? { time := term.finishedAt.value; }
      }
      out := [Timed(time, Transition(p, Restart, Decimal(o.restartCount), Decimal(n.restartCount), detail))];
    }
    var ow, nw := WaitingReason(o), WaitingReason(n);
    if ow != nw {
      var message := "";
      if n.waiting.Some? && n.waiting.value.message != "" { message := " " + n.waiting.value.message; }
      out := out + [Timed(now, Transition(p, Waiting, ow, nw, "container=" + name + message))];
    }
  }

  predicate CrashEnteredBy(before: map<string, ContainerStatus>, after: map<string, ContainerStatus>, k: string) {
    && WaitingReason(StatusOr(after, k)) == CRASH_LOOP
    && WaitingReason(StatusOr(before, k)) != CRASH_LOOP
  }

  /** Some container that was not waiting in CrashLoopBackOff now is. */
  ghost predicate CrashEntered(oldPod: Pod, newPod: Pod) {
    exists k :: k in Statuses(newPod) && CrashEnteredBy(Statuses(oldPod), Statuses(newPod), k)
  }

  ghost predicate EmitsCrash(ts: seq<Timed<PodTransition>>) {
    exists t :: t in ts && IsCrash(t.val)
  }

  lemma EmitsCrashConcat(a: seq<Timed<PodTransition>>, b: seq<Timed<PodTransition>>)
    ensures EmitsCrash(a + b) <==> EmitsCrash(a) || EmitsCrash(b)
  {
  }

  ghost predicate CrashesStamped(ts: seq<Timed<PodTransition>>, key: string, now: int) {
    forall t :: t in ts && IsCrash(t.val) ==> t.time == now && KeyOf(t.val) == key
  }

  lemma ContainerChangeCrash(p: Pod, name: string, o: ContainerStatus, n: ContainerStatus, now: int)
    ensures CrashesStamped(ContainerChange(p, name, o, n, now), Key(p.namespace, p.name), now)
    ensures EmitsCrash(ContainerChange(p, name, o, n, now)) <==>
            WaitingReason(n) == CRASH_LOOP && WaitingReason(o) != CRASH_LOOP
  {
    EmitsCrashConcat(RestartChange(p, name, o, n, now), WaitingChange(p, name, o, n, now));
    var w := WaitingChange(p, name, o, n, now);
    if w != [] { assert w[0] in w; }
  }

  lemma {:induction false} ContainerChangesCrash(p: Pod, before: map<string, ContainerStatus>,
      after: map<string, ContainerStatus>, names: seq<string>, now: int)
    ensures CrashesStamped(ContainerChanges(p, before, after, names, now), Key(p.namespace, p.name), now)
    ensures EmitsCrash(ContainerChanges(p, before, after, names, now)) <==>
            exists k :: k in names && CrashEnteredBy(before, after, k)
  {
    if names != [] {
      var front, name := names[..|names| - 1], names[|names| - 1];
      ContainerChangesCrash(p, before, after, front, now);
      assert forall k :: k in names <==> k in front || k == name;
      var o, n := StatusOr(before, name), StatusOr(after, name);
      ContainerChangeCrash(p, name, o, n, now);
      assert EmitsCrash(ContainerChange(p, name, o, n, now)) <==> CrashEnteredBy(before, after, name);
      EmitsCrashConcat(ContainerChanges(p, before, after, front, now), ContainerChange(p, name, o, n, now));
    }
  }

  /** An update emits a crash transition exactly when a container entered CrashLoopBackOff, and stamps it `now`. */
  lemma CrashTransitions(oldPod: Pod, newPod: Pod, now: int)
    ensures EmitsCrash(Changed(oldPod, newPod, now)) <==> CrashEntered(oldPod, newPod)
    ensures CrashesStamped(Changed(oldPod, newPod, now), Key(newPod.namespace, newPod.name), now)
  {
    var before, after := Statuses(oldPod), Statuses(newPod);
    var names := SortedKeys(after.Keys);
    ContainerChangesCrash(newPod, before, after, names, now);
    EmitsCrashConcat(PhaseChange(oldPod, newPod, now), ContainerChanges(newPod, before, after, names, now));
  }

  /** Nothing to report about a container: no new restart, and waiting for the same reason as before. */
  predicate Steady(o: ContainerStatus, n: ContainerStatus) {
    n.restartCount <= o.restartCount && WaitingReason(o) == WaitingReason(n)
  }

  lemma {:induction false} NoContainerChanges(p: Pod, before: map<string, ContainerStatus>,
      after: map<string, ContainerStatus>, names: seq<string>, now: int)
    ensures ContainerChanges(p, before, after, names, now) == [] <==>
            forall k :: k in names ==> Steady(StatusOr(before, k), StatusOr(after, k))
  {
    if names != [] {
      var front, name := names[..|names| - 1], names[|names| - 1];
      NoContainerChanges(p, before, after, front, now);
      assert forall k :: k in names <==> k in front || k == name;
    }
  }

  /** An update emits nothing exactly when the phase is the same and every container is steady; a resync, which
      delivers a pod unchanged, therefore emits nothing. */
  lemma NothingEmittedExactly(oldPod: Pod, newPod: Pod, now: int)
    ensures Changed(oldPod, newPod, now) == [] <==>
            oldPod.phase == newPod.phase &&
            forall k :: k in Statuses(newPod) ==> Steady(StatusOr(Statuses(oldPod), k), Statuses(newPod)[k])
    ensures Changed(newPod, newPod, now) == []
  {
    NoContainerChanges(newPod, Statuses(oldPod), Statuses(newPod), SortedKeys(Statuses(newPod).Keys), now);
    NoContainerChanges(newPod, Statuses(newPod), Statuses(newPod), SortedKeys(Statuses(newPod).Keys), now);
  }

  predicate IsOf(x: PodTransition, p: Pod, kind: TransitionKind) {
    x.namespace == p.namespace && x.name == p.name && x.node == p.node && x.kind == kind
  }

  /** What an update says about a restart of a container: its counts, why and how the terminated run ended, and when. */
  predicate TellsRestart(x: Timed<PodTransition>, p: Pod, name: string, o: ContainerStatus, n: ContainerStatus,
      now: int) {
    && IsOf(x.val, p, Restart) && n.restartCount > o.restartCount
    && x.val.before == Decimal(o.restartCount) && x.val.after == Decimal(n.restartCount)
    && match n.lastTerminated
       case None => x.val.detail == "container=" + name && x.time == now
       case Some(end) =>
         && x.val.detail == "container=" + name + " reason=" + end.reason + " exit=" + Decimal(end.exitCode)
         && x.time == (match end.finishedAt case None => now case Some(at) => at)
  }

  /** What it says about a change of waiting reason: both reasons, and the new message if there is one. */
  predicate TellsWaiting(x: Timed<PodTransition>, p: Pod, name: string, o: ContainerStatus, n: ContainerStatus,
      now: int) {
    && IsOf(x.val, p, Waiting) && x.time == now && WaitingReason(o) != WaitingReason(n)
    && x.val.before == WaitingReason(o) && x.val.after == WaitingReason(n)
    && x.val.detail == "container=" + name +
                       if n.waiting.Some? && n.waiting.value.message != "" then " " + n.waiting.value.message else ""
  }

  predicate TellsPhase(x: Timed<PodTransition>, oldPod: Pod, newPod: Pod, now: int) {
    && IsOf(x.val, newPod, Phase) && oldPod.phase != newPod.phase
    && x.val.before == oldPod.phase && x.val.after == newPod.phase && x.val.detail == newPod.reason && x.time == now
  }

  predicate TellsContainer(x: Timed<PodTransition>, p: Pod, name: string, o: ContainerStatus, n: ContainerStatus,
      now: int) {
    TellsRestart(x, p, name, o, n, now) || TellsWaiting(x, p, name, o, n, now)
  }

  lemma {:induction false} ContainerTransitionsTell(p: Pod, before: map<string, ContainerStatus>,
      after: map<string, ContainerStatus>, names: seq<string>, now: int, x: Timed<PodTransition>)
    requires x in ContainerChanges(p, before, after, names, now)
    ensures exists k :: k in names && TellsContainer(x, p, k, StatusOr(before, k), StatusOr(after, k), now)
  {
    hide ContainerChange, TellsContainer;
    var front, name := names[..|names| - 1], names[|names| - 1];
    assert forall k :: k in names <==> k in front || k == name;
    if x in ContainerChanges(p, before, after, front, now) {
      ContainerTransitionsTell(p, before, after, front, now, x);
    } else {
      ContainerChangeTells(p, name, StatusOr(before, name), StatusOr(after, name), now, x);
    }
  }

  lemma ContainerChangeTells(p: Pod, name: string, o: ContainerStatus, n: ContainerStatus, now: int,
      x: Timed<PodTransition>)
    requires x in ContainerChange(p, name, o, n, now)
    ensures TellsContainer(x, p, name, o, n, now)
  {
  }

  /** Every transition an update emits is a change of phase, a restart or a change of waiting reason that happened
      between the two versions, with both sides of it, under the pod's name and node. */
  lemma TransitionsTell(oldPod: Pod, newPod: Pod, now: int, x: Timed<PodTransition>)
    requires x in Changed(oldPod, newPod, now)
    ensures TellsPhase(x, oldPod, newPod, now) ||
            exists k :: k in Statuses(newPod) && TellsContainer(x, newPod, k, StatusOr(Statuses(oldPod), k),
              Statuses(newPod)[k], now)
  {
    var names := SortedKeys(Statuses(newPod).Keys);
    if x in ContainerChanges(newPod, Statuses(oldPod), Statuses(newPod), names, now) {
      ContainerTransitionsTell(newPod, Statuses(oldPod), Statuses(newPod), names, now, x);
      var k :| k in names && TellsContainer(x, newPod, k, StatusOr(Statuses(oldPod), k),
        StatusOr(Statuses(newPod), k), now);
      assert k in Statuses(newPod);
    }
  }

  ghost predicate ToldRestart(ts: seq<Timed<PodTransition>>, p: Pod, name: string, o: ContainerStatus,
      n: ContainerStatus, now: int) {
    exists x :: x in ts && TellsRestart(x, p, name, o, n, now)
  }

  ghost predicate ToldWaiting(ts: seq<Timed<PodTransition>>, p: Pod, name: string, o: ContainerStatus,
      n: ContainerStatus, now: int) {
    exists x :: x in ts && TellsWaiting(x, p, name, o, n, now)
  }

  lemma ContainerTold(p: Pod, name: string, o: ContainerStatus, n: ContainerStatus, now: int)
    ensures n.restartCount > o.restartCount ==> ToldRestart(ContainerChange(p, name, o, n, now), p, name, o, n, now)
    ensures WaitingReason(o) != WaitingReason(n) ==>
            ToldWaiting(ContainerChange(p, name, o, n, now), p, name, o, n, now)
  {
    var r, w := RestartChange(p, name, o, n, now), WaitingChange(p, name, o, n, now);
    if n.restartCount > o.restartCount { assert TellsRestart(r[0], p, name, o, n, now) && r[0] in r + w; }
    if WaitingReason(o) != WaitingReason(n) { assert TellsWaiting(w[0], p, name, o, n, now) && w[0] in r + w; }
  }

  lemma {:induction false} ContainersTold(p: Pod, before: map<string, ContainerStatus>,
      after: map<string, ContainerStatus>, names: seq<string>, now: int, k: string)
    requires k in names
    ensures var ts, o, n := ContainerChanges(p, before, after, names, now), StatusOr(before, k), StatusOr(after, k);
            && (n.restartCount > o.restartCount ==> ToldRestart(ts, p, k, o, n, now))
            && (WaitingReason(o) != WaitingReason(n) ==> ToldWaiting(ts, p, k, o, n, now))
  {
    hide ContainerChange, TellsRestart, TellsWaiting;
    var front, name := names[..|names| - 1], names[|names| - 1];
    assert names == front + [name];
    if k in front {
      ContainersTold(p, before, after, front, now, k);
    } else {
      ContainerTold(p, name, StatusOr(before, name), StatusOr(after, name), now);
    }
  }

  /** And every such change is told: the phase, each new restart, each change of waiting reason. */
  lemma ChangesAreTold(oldPod: Pod, newPod: Pod, now: int, k: string)
    requires k in Statuses(newPod)
    ensures var ts, o, n := Changed(oldPod, newPod, now), StatusOr(Statuses(oldPod), k), Statuses(newPod)[k];
            && (oldPod.phase != newPod.phase ==> exists x :: x in ts && TellsPhase(x, oldPod, newPod, now))
            && (n.restartCount > o.restartCount ==> ToldRestart(ts, newPod, k, o, n, now))
            && (WaitingReason(o) != WaitingReason(n) ==> ToldWaiting(ts, newPod, k, o, n, now))
  {
    hide ContainerChange, TellsRestart, TellsWaiting;
    var phase := PhaseChange(oldPod, newPod, now);
    if oldPod.phase != newPod.phase {
      assert TellsPhase(phase[0], oldPod, newPod, now) && phase[0] in Changed(oldPod, newPod, now);
    }
    ContainersTold(newPod, Statuses(oldPod), Statuses(newPod), SortedKeys(Statuses(newPod).Keys), now, k);
  }

  // --- pod state --------------------------------------------------------------------------

  /** The waiting reasons of a pod's containers. */
  function Reasons(m: map<string, ContainerStatus>): set<string> {
    set k | k in m && WaitingReason(m[k]) != "" :: WaitingReason(m[k])
  }

  /** The reasons a summary may give: CrashLoopBackOff wins, any other one may. */
  predicate MayReport(m: map<string, ContainerStatus>, reason: string) {
    if CRASH_LOOP in Reasons(m) then reason == CRASH_LOOP
    else if Reasons(m) == {} then reason == ""
    else reason in Reasons(m)
  }

  /** The accumulation over the statuses in one iteration order. */
  function Scan(m: map<string, ContainerStatus>, order: seq<string>): string
    requires forall k :: k in order ==> k in m
  {
    if order == [] then "" else
      var acc := Scan(m, order[..|order| - 1]);
      var r := WaitingReason(m[order[|order| - 1]]);
      if r != "" && (acc == "" || r == CRASH_LOOP) then r else acc
  }

  ghost function RestartTotal(m: map<string, ContainerStatus>, keys: set<string>): int
    requires keys <= m.Keys
  {
    if keys == {} then 0 else
      var k :| k in keys;
      m[k].restartCount + RestartTotal(m, keys - {k})
  }

  lemma {:induction false} RestartTotalAnyOrder(m: map<string, ContainerStatus>, keys: set<string>, k: string)
    requires keys <= m.Keys && k in keys
    ensures RestartTotal(m, keys) == m[k].restartCount + RestartTotal(m, keys - {k})
    ensures RestartTotal(m, {}) == 0
    decreases keys
  {
    var p :| p in keys && RestartTotal(m, keys) == m[p].restartCount + RestartTotal(m, keys - {p});
    if p != k {
      RestartTotalAnyOrder(m, keys - {p}, k);
      RestartTotalAnyOrder(m, keys - {k}, p);
      assert keys - {p} - {k} == keys - {k} - {p};
    }
  }

  lemma {:induction false} ScanReports(m: map<string, ContainerStatus>, order: seq<string>)
    requires forall k :: k in order ==> k in m
    ensures var r := Scan(m, order);
            && (r == "" <==> forall k :: k in order ==> WaitingReason(m[k]) == "")
            && (r == CRASH_LOOP <==> exists k :: k in order && WaitingReason(m[k]) == CRASH_LOOP)
            && (r != "" ==> exists k :: k in order && WaitingReason(m[k]) == r)
  {
    if order != [] {
      var front, last := order[..|order| - 1], order[|order| - 1];
      assert order == front + [last];
      assert forall k :: k in order <==> k in front || k == last;
      ScanReports(m, front);
    }
  }

  /** Whatever the iteration order, the summary gives a reason that may be reported. */
  lemma ScanMayReport(m: map<string, ContainerStatus>, order: seq<string>)
    requires forall k :: k in order <==> k in m
    ensures MayReport(m, Scan(m, order))
  {
    ScanReports(m, order);
    assert forall k :: k in m && WaitingReason(m[k]) != "" ==> WaitingReason(m[k]) in Reasons(m);
  }

  lemma {:induction false} FirstReasonStays(m: map<string, ContainerStatus>, first: string, order: seq<string>)
    requires first in m && forall k :: k in order ==> k in m
    requires WaitingReason(m[first]) != "" && CRASH_LOOP !in Reasons(m)
    ensures Scan(m, [first] + order) == WaitingReason(m[first])
  {
    var all := [first] + order;
    if order == [] {
      assert all[..|all| - 1] == [] && all[0] == first;
      assert Scan(m, all[..|all| - 1]) == "";
    } else {
      assert all[..|all| - 1] == [first] + order[..|order| - 1];
      assert order[|order| - 1] in order;
      FirstReasonStays(m, first, order[..|order| - 1]);
    }
  }

  /** Every reason that may be reported is reported by some iteration order. */
  lemma ReportReachable(m: map<string, ContainerStatus>, reason: string) returns (order: seq<string>)
    requires MayReport(m, reason)
    ensures forall k :: k in order <==> k in m
    ensures Scan(m, order) == reason
  {
    if CRASH_LOOP in Reasons(m) || Reasons(m) == {} {
      order := SortedKeys(m.Keys);
      ScanReports(m, order);
      assert forall k :: k in m && WaitingReason(m[k]) != "" ==> WaitingReason(m[k]) in Reasons(m);
    } else {
      var k :| k in m && WaitingReason(m[k]) != "" && WaitingReason(m[k]) == reason;
      order := [k] + SortedKeys(m.Keys - {k});
      FirstReasonStays(m, k, SortedKeys(m.Keys - {k}));
    }
  }

  /** The summary is a function of the pod exactly when a container is in CrashLoopBackOff or the containers
      wait for at most one reason; otherwise it depends on map order. */
  lemma SummaryDeterminedExactly(m: map<string, ContainerStatus>)
    ensures (forall a, b :: MayReport(m, a) && MayReport(m, b) ==> a == b) <==>
            CRASH_LOOP in Reasons(m) || |Reasons(m)| <= 1
  {
    var rs := Reasons(m);
    if CRASH_LOOP !in rs && rs != {} {
      var a :| a in rs;
      if |rs| <= 1 {
        assert rs == {a} by { assert |rs - {a}| == |rs| - 1; }
      } else {
        assert |rs - {a}| >= 1;
        var b :| b in rs - {a};
        assert MayReport(m, a) && MayReport(m, b);
      }
    }
  }

  /** The current state of a pod; the statuses come in whatever order the map yields them. */
  method PodStateOf(p: Pod) returns (s: PodState)
    ensures s == PodState(p.namespace, p.name, p.node, p.phase, s.waitingReason, s.restarts, 0)
    ensures MayReport(Statuses(p), s.waitingReason)
    ensures s.restarts == RestartTotal(Statuses(p), Statuses(p).Keys)
  {
    var m := ContainerStatuses(p);
    var restarts, waiting := 0, "";
    var rest := m.Keys;
    ghost var order := [];
    while rest != {}
      invariant rest <= m.Keys
      invariant forall k :: k in order <==> k in m.Keys - rest
      invariant waiting == Scan(m, order)
      invariant restarts + RestartTotal(m, rest) == RestartTotal(m, m.Keys)
      decreases rest
    {
      var k :| k in rest;
      RestartTotalAnyOrder(m, rest, k);
      restarts := restarts + m[k].restartCount;
      var r := WaitingReason(m[k]);
      if r != "" && (waiting == "" || r == CRASH_LOOP) {
        waiting := r;
      }
      assert (order + [k])[..|order|] == order;
      order := order + [k];
      rest := rest - {k};
    }
    ScanMayReport(m, order);
    s := PodState(p.namespace, p.name, p.node, p.phase, waiting, restarts, 0);
  }

  // --- node snapshots -----------------------------------------------------------------------

  datatype Condition = Condition(kind: string, status: string)
  datatype Address = Address(kind: string, address: string)
  datatype Taint = Taint(key: string, value: string, effect: string)
  datatype NodeInfo = NodeInfo(bootID: string, kernelVersion: string, osImage: string, runtimeVersion: string,
    kubeletVersion: string)
  datatype Node = Node(
    name: string, conditions: seq<Condition>, unschedulable: bool, info: NodeInfo,
    podCIDRs: seq<string>, podCIDR: string, addresses: seq<Address>, taints: seq<Taint>)

  const READY := "node.ready"

  /** The condition fields and the node conditions they come from. */
  const CONDITION_FIELDS := map[
    READY := "Ready",
    "node.memory_pressure" := "MemoryPressure",
    "node.disk_pressure" := "DiskPressure",
    "node.pid_pressure" := "PIDPressure",
    "node.network_unavailable" := "NetworkUnavailable"]

  function ConditionMap(cs: seq<Condition>): map<string, string> {
    if cs == [] then map[] else ConditionMap(cs[..|cs| - 1])[cs[|cs| - 1].kind := cs[|cs| - 1].status]
  }

  function ConditionField(conds: map<string, string>, kind: string): Field {
    if kind in conds then Present(JString(conds[kind])) else Absent()
  }

  function TextField(v: string): Field {
    if v == "" then Absent() else Present(JString(v))
  }

  function Join(items: seq<string>, sep: string): string {
    if items == [] then "" else if |items| == 1 then items[0]
    else Join(items[..|items| - 1], sep) + sep + items[|items| - 1]
  }

  function InternalIP(addresses: seq<Address>): string {
    if addresses == [] then ""
    else if addresses[0].kind == "InternalIP" then addresses[0].address
    else InternalIP(addresses[1..])
  }

  function TaintText(t: Taint): string { t.key + "=" + t.value + ":" + t.effect }

  function CidrsOf(n: Node): seq<string> {
    if n.podCIDRs == [] && n.podCIDR != "" then [n.podCIDR] else n.podCIDRs
  }

  function TaintTexts(ts: seq<Taint>): (r: seq<string>)
    ensures |r| == |ts|
  {
    seq(|ts|, i requires 0 <= i < |ts| => TaintText(ts[i]))
  }

  function ConditionFields(n: Node): (r: Fields)
    ensures r.Keys == CONDITION_FIELDS.Keys
    ensures PlainFields(r)
  {
    map k | k in CONDITION_FIELDS :: ConditionField(ConditionMap(n.conditions), CONDITION_FIELDS[k])
  }

  /** Adds a plain field to plain fields. */
  function Put(f: Fields, k: string, v: Field): (r: Fields)
    requires PlainFields(f) && v.Plain()
    ensures r == f[k := v]
    ensures r.Keys == f.Keys + {k}
    ensures PlainFields(r)
  {
    f[k := v]
  }

  const INFO_KEYS := {"node.boot_id", "node.kernel_version", "node.os_image", "node.container_runtime",
    "node.kubelet_version"}

  function InfoFields(f: Fields, n: NodeInfo): (r: Fields)
    requires PlainFields(f)
    ensures r.Keys == f.Keys + INFO_KEYS
    ensures PlainFields(r)
  {
    var f := Put(f, "node.boot_id", TextField(n.bootID));
    var f := Put(f, "node.kernel_version", TextField(n.kernelVersion));
    var f := Put(f, "node.os_image", TextField(n.osImage));
    var f := Put(f, "node.container_runtime", TextField(n.runtimeVersion));
    Put(f, "node.kubelet_version", TextField(n.kubeletVersion))
  }

  const SPEC_KEYS := {"node.pod_cidrs", "node.internal_ip", "node.taints"}

  function SpecFields(f: Fields, n: Node): (r: Fields)
    requires PlainFields(f)
    ensures r.Keys == f.Keys + SPEC_KEYS
    ensures PlainFields(r)
  {
    var f := Put(f, "node.pod_cidrs", TextField(Join(CidrsOf(n), ",")));
    var f := Put(f, "node.internal_ip", TextField(InternalIP(n.addresses)));
    Put(f, "node.taints", Present(JStrings(SortStrings(TaintTexts(n.taints)))))
  }

  /** The `node.*` fields of a node: always the same keys, each present with a value or absent. */
  function NodeFields(n: Node): (r: Fields)
    ensures r.Keys == CONDITION_FIELDS.Keys + {"node.unschedulable"} + INFO_KEYS + SPEC_KEYS
    ensures PlainFields(r)
  {
    SpecFields(InfoFields(Put(ConditionFields(n), "node.unschedulable", Present(JBool(n.unschedulable))), n.info), n)
  }

  function NodeSample(n: Node): Snapshot {
    Snapshot(n.name, API, "", 0, "", NodeFields(n), false)
  }

  // --- what the node's fields say ---------------------------------------------------------------

  ghost predicate LastCondition(cs: seq<Condition>, kind: string, i: int) {
    0 <= i < |cs| && cs[i].kind == kind && forall j :: i < j < |cs| ==> cs[j].kind != kind
  }

  /** The status of the last condition of this kind, or absent. */
  ghost predicate ReadsCondition(f: Field, cs: seq<Condition>, kind: string) {
    && (forall i :: LastCondition(cs, kind, i) ==> f == Present(JString(cs[i].status)))
    && ((forall i :: 0 <= i < |cs| ==> cs[i].kind != kind) ==> f == Absent())
  }

  /** The text, or absent if it is empty. */
  predicate ReadsText(f: Field, v: string) { f == if v == "" then Absent() else Present(JString(v)) }

  ghost predicate FirstInternalIP(addresses: seq<Address>, i: int) {
    && 0 <= i < |addresses| && addresses[i].kind == "InternalIP"
    && forall j :: 0 <= j < i ==> addresses[j].kind != "InternalIP"
  }

  lemma {:induction false} ConditionMapTells(cs: seq<Condition>, kind: string)
    ensures var m := ConditionMap(cs);
            && (kind in m <==> exists i :: 0 <= i < |cs| && cs[i].kind == kind)
            && (forall i :: LastCondition(cs, kind, i) ==> kind in m && m[kind] == cs[i].status)
  {
    if cs != [] {
      var front, x := cs[..|cs| - 1], cs[|cs| - 1];
      ConditionMapTells(front, kind);
      assert cs == front + [x];
      if x.kind == kind {
        assert cs[|front|].kind == kind;
        forall i | LastCondition(front + [x], kind, i) ensures i == |front| { LastIsLast(front, x, kind, i); }
      } else {
        forall i ensures LastCondition(cs, kind, i) <==> LastCondition(front, kind, i) {
          LastConditionSnoc(front, x, kind, i);
        }
      }
    }
  }

  lemma LastIsLast(cs: seq<Condition>, x: Condition, kind: string, i: int)
    requires x.kind == kind && LastCondition(cs + [x], kind, i)
    ensures i == |cs|
  {
    assert (cs + [x])[|cs|].kind == kind;
  }

  lemma LastConditionSnoc(cs: seq<Condition>, x: Condition, kind: string, i: int)
    requires x.kind != kind
    ensures LastCondition(cs + [x], kind, i) <==> LastCondition(cs, kind, i)
  {
    if LastCondition(cs + [x], kind, i) {
      forall j | i < j < |cs| ensures cs[j].kind != kind { assert (cs + [x])[j].kind != kind; }
    }
  }

  lemma ConditionTells(n: Node, k: string)
    requires k in CONDITION_FIELDS
    ensures ReadsCondition(ConditionFields(n)[k], n.conditions, CONDITION_FIELDS[k])
  {
    hide ConditionMap;
    ConditionMapTells(n.conditions, CONDITION_FIELDS[k]);
  }

  lemma {:induction false} InternalIPTells(addresses: seq<Address>)
    ensures forall i :: FirstInternalIP(addresses, i) ==> InternalIP(addresses) == addresses[i].address
    ensures (forall i :: 0 <= i < |addresses| ==> addresses[i].kind != "InternalIP") ==> InternalIP(addresses) == ""
  {
    if addresses != [] && addresses[0].kind != "InternalIP" {
      var rest := addresses[1..];
      InternalIPTells(rest);
      forall i | FirstInternalIP(addresses, i) ensures InternalIP(addresses) == addresses[i].address {
        assert rest[i - 1] == addresses[i];
        forall j | 0 <= j < i - 1 ensures rest[j].kind != "InternalIP" { assert addresses[j + 1] == rest[j]; }
        assert FirstInternalIP(rest, i - 1);
      }
      if forall i :: 0 <= i < |addresses| ==> addresses[i].kind != "InternalIP" {
        assert forall i :: 0 <= i < |rest| ==> rest[i] == addresses[i + 1];
      }
    }
  }

  lemma InfoFieldsTell(f: Fields, n: NodeInfo)
    requires PlainFields(f)
    ensures var g := InfoFields(f, n);
            && ReadsText(g["node.boot_id"], n.bootID) && ReadsText(g["node.kernel_version"], n.kernelVersion)
            && ReadsText(g["node.os_image"], n.osImage) && ReadsText(g["node.container_runtime"], n.runtimeVersion)
            && ReadsText(g["node.kubelet_version"], n.kubeletVersion)
            && forall k :: k in f && k !in INFO_KEYS ==> g[k] == f[k]
  {
    hide PlainFields;
  }

  lemma SpecFieldsTell(f: Fields, n: Node)
    requires PlainFields(f)
    ensures var g := SpecFields(f, n);
            && g["node.pod_cidrs"] == TextField(Join(CidrsOf(n), ","))
            && g["node.internal_ip"] == TextField(InternalIP(n.addresses))
            && g["node.taints"] == Present(JStrings(SortStrings(TaintTexts(n.taints))))
            && forall k :: k in f && k !in SPEC_KEYS ==> g[k] == f[k]
  {
    hide PlainFields, Join, InternalIP, SortStrings, TaintTexts, CidrsOf;
  }

  lemma KeptThrough(n: Node, k: string)
    requires k in CONDITION_FIELDS || k == "node.unschedulable" || k in INFO_KEYS
    ensures var f := Put(ConditionFields(n), "node.unschedulable", Present(JBool(n.unschedulable)));
            && (k in INFO_KEYS ==> NodeFields(n)[k] == InfoFields(f, n.info)[k])
            && (k in CONDITION_FIELDS ==> NodeFields(n)[k] == ConditionFields(n)[k])
            && (k == "node.unschedulable" ==> NodeFields(n)[k] == Present(JBool(n.unschedulable)))
  {
    hide ConditionFields, InfoFields, SpecFields, PlainFields, INFO_KEYS, SPEC_KEYS, CONDITION_FIELDS;
    var f := Put(ConditionFields(n), "node.unschedulable", Present(JBool(n.unschedulable)));
    NodeKeysApart();
    InfoFieldsTell(f, n.info);
    SpecFieldsTell(InfoFields(f, n.info), n);
    assert k in ConditionFields(n).Keys <==> k in CONDITION_FIELDS.Keys;
    assert k in InfoFields(f, n.info).Keys;
  }

  lemma NodeKeysApart()
    ensures INFO_KEYS !! SPEC_KEYS && CONDITION_FIELDS.Keys !! INFO_KEYS + SPEC_KEYS + {"node.unschedulable"}
    ensures "node.unschedulable" !in INFO_KEYS + SPEC_KEYS
  {
  }

  /** The conditions of a node, each in its field: the last one of its kind counts. */
  lemma NodeConditionsTell(n: Node)
    ensures var f := NodeFields(n);
            && ReadsCondition(f["node.ready"], n.conditions, "Ready")
            && ReadsCondition(f["node.memory_pressure"], n.conditions, "MemoryPressure")
            && ReadsCondition(f["node.disk_pressure"], n.conditions, "DiskPressure")
            && ReadsCondition(f["node.pid_pressure"], n.conditions, "PIDPressure")
            && ReadsCondition(f["node.network_unavailable"], n.conditions, "NetworkUnavailable")
  {
    hide NodeFields, ConditionFields, ReadsCondition;
    ConditionReads(n, "node.ready");
    ConditionReads(n, "node.memory_pressure");
    ConditionReads(n, "node.disk_pressure");
    ConditionReads(n, "node.pid_pressure");
    ConditionReads(n, "node.network_unavailable");
  }

  lemma ConditionReads(n: Node, k: string)
    requires k in CONDITION_FIELDS
    ensures ReadsCondition(NodeFields(n)[k], n.conditions, CONDITION_FIELDS[k])
  {
    hide NodeFields, ConditionFields, ReadsCondition;
    ConditionTells(n, k);
    KeptThrough(n, k);
  }

  /** The taints as texts, in their order. */
  ghost predicate TellsTaints(texts: seq<string>, taints: seq<Taint>) {
    && |texts| == |taints|
    && forall i :: 0 <= i < |taints| ==> texts[i] == taints[i].key + "=" + taints[i].value + ":" + taints[i].effect
  }

  /** The rest of a node's fields: schedulability, versions, pod CIDRs, the first internal address and the sorted
      taints. */
  lemma NodeDetailsTell(n: Node)
    ensures var f := NodeFields(n);
            && f["node.unschedulable"] == Present(JBool(n.unschedulable))
            && ReadsText(f["node.boot_id"], n.info.bootID)
            && ReadsText(f["node.kernel_version"], n.info.kernelVersion)
            && ReadsText(f["node.os_image"], n.info.osImage)
            && ReadsText(f["node.container_runtime"], n.info.runtimeVersion)
            && ReadsText(f["node.kubelet_version"], n.info.kubeletVersion)
            && (n.podCIDRs != [] ==> ReadsText(f["node.pod_cidrs"], Join(n.podCIDRs, ",")))
            && (n.podCIDRs == [] ==> ReadsText(f["node.pod_cidrs"], n.podCIDR))
            && (forall i :: FirstInternalIP(n.addresses, i) ==>
                  ReadsText(f["node.internal_ip"], n.addresses[i].address))
            && ((forall i :: 0 <= i < |n.addresses| ==> n.addresses[i].kind != "InternalIP") ==>
                  f["node.internal_ip"] == Absent())
            && exists l, texts :: f["node.taints"] == Present(JStrings(l)) && Sorted(l) &&
                                  multiset(l) == multiset(texts) && TellsTaints(texts, n.taints)
  {
    hide ConditionFields, InfoFields, SpecFields, Join, InternalIP, SortStrings, PlainFields, FirstInternalIP,
        INFO_KEYS, SPEC_KEYS, CONDITION_FIELDS, TaintTexts, CidrsOf;
    var f := Put(ConditionFields(n), "node.unschedulable", Present(JBool(n.unschedulable)));
    var g := InfoFields(f, n.info);
    InfoFieldsTell(f, n.info);
    SpecFieldsTell(g, n);
    InternalIPTells(n.addresses);
    OneCidr(n);
    SortStringsSorted(TaintTexts(n.taints));
    TaintsTell(n.taints);
    NodeKeysIn();
    KeptThrough(n, "node.unschedulable");
    KeptThrough(n, "node.boot_id");
    KeptThrough(n, "node.kernel_version");
    KeptThrough(n, "node.os_image");
    KeptThrough(n, "node.container_runtime");
    KeptThrough(n, "node.kubelet_version");
  }

  lemma TaintsTell(taints: seq<Taint>)
    ensures TellsTaints(TaintTexts(taints), taints)
  {
  }

  lemma NodeKeysIn()
    ensures {"node.boot_id", "node.kernel_version", "node.os_image", "node.container_runtime", "node.kubelet_version"}
            <= INFO_KEYS
  {
  }

  /** `strings.Join`. */
  lemma JoinSnoc(items: seq<string>, x: string, sep: string)
    ensures Join(items + [x], sep) == if items == [] then x else Join(items, sep) + sep + x
  {
    assert (items + [x])[..|items + [x]| - 1] == items;
  }

  lemma OneCidr(n: Node)
    ensures n.podCIDRs == [] ==> Join(CidrsOf(n), ",") == n.podCIDR
    ensures n.podCIDRs != [] ==> CidrsOf(n) == n.podCIDRs
  {
  }

  method NodeSnapshot(n: Node, now: int) returns (s: Timed<Snapshot>)
    ensures s == Timed(now, NodeSample(n))
  {
    var f: Fields := map[];
    var conds := map[];
    for i := 0 to |n.conditions|
      invariant conds == ConditionMap(n.conditions[..i])
    {
      assert n.conditions[..i + 1][..i] == n.conditions[..i];
      conds := conds[n.conditions[i].kind := n.conditions[i].status];
    }
    assert n.conditions[..|n.conditions|] == n.conditions;
    var rest := CONDITION_FIELDS.Keys;
    while rest != {}
      invariant rest <= CONDITION_FIELDS.Keys
      invariant f.Keys == CONDITION_FIELDS.Keys - rest
      invariant forall k :: k in f ==> f[k] == ConditionField(conds, CONDITION_FIELDS[k])
      decreases rest
    {
      var key :| key in rest;
      f := f[key := ConditionField(conds, CONDITION_FIELDS[key])];
      rest := rest - {key};
    }
    assert f == ConditionFields(n);
    f := f["node.unschedulable" := Present(JBool(n.unschedulable))];
    f := f["node.boot_id" := TextField(n.info.bootID)];
    f := f["node.kernel_version" := TextField(n.info.kernelVersion)];
    f := f["node.os_image" := TextField(n.info.osImage)];
    f := f["node.container_runtime" := TextField(n.info.runtimeVersion)];
    f := f["node.kubelet_version" := TextField(n.info.kubeletVersion)];
    var cidrs := n.podCIDRs;
    if cidrs == [] && n.podCIDR != "" { cidrs := [n.podCIDR]; }
    f := f["node.pod_cidrs" := TextField(Join(cidrs, ","))];
    f := f["node.internal_ip" := TextField(InternalIP(n.addresses))];
    f := f["node.taints" := Present(JStrings(SortStrings(TaintTexts(n.taints))))];
    s := Timed(now, Snapshot(n.name, API, "", 0, "", f, false));
  }
}
