/** The periodic evaluation: opening, growing and closing incidents, and marking baselines (internal/incident). */
module Incidents {
  import opened Sample
  import opened Rows
  import opened Text
  import opened Differ
  import opened Schema
  import opened Store
  import opened Convert

  const BASELINES_KEPT: nat := 4
  const RUNNING := "Running"

  /** How often the evaluator runs. */
  const PERIOD := 30_000_000_000

  /** Thresholds and windows; the windows are configured in whole minutes. */
  datatype Config = Config(podThreshold: int, nsThreshold: int, windowMinutes: int, stableMinutes: int) {
    predicate Valid() {
      podThreshold >= 1 && nsThreshold >= 1 && windowMinutes >= 1 && stableMinutes >= 1
    }

    function Window(): int { windowMinutes * MINUTE }

    function Stable(): int { stableMinutes * MINUTE }
  }

  // --- the grouping rule ----------------------------------------------------------

  function Namespaces(keys: set<string>): set<string> {
    set k | k in keys :: BeforeSlash(k)
  }

  /** Enough pods across enough namespaces. */
  predicate OpensOn(keys: set<string>, podThreshold: int, nsThreshold: int) {
    |keys| >= podThreshold && |Namespaces(keys)| >= nsThreshold
  }

  method ShouldOpen(crashing: map<string, int>, podThreshold: int, nsThreshold: int) returns (open: bool)
    ensures open == OpensOn(crashing.Keys, podThreshold, nsThreshold)
  {
    if |crashing.Keys| < podThreshold { return false; }
    var ns: set<string> := {};
    var rest := crashing.Keys;
    while rest != {}
      invariant rest <= crashing.Keys
      invariant ns == Namespaces(crashing.Keys - rest)
      decreases rest
    {
      var key :| key in rest;
      assert crashing.Keys - (rest - {key}) == (crashing.Keys - rest) + {key};
      ns := ns + {BeforeSlash(key)};
      rest := rest - {key};
    }
    assert crashing.Keys - rest == crashing.Keys;
    open := |ns| >= nsThreshold;
  }

  lemma NamespacesMonotone(a: set<string>, b: set<string>)
    requires a <= b
    ensures |Namespaces(a)| <= |Namespaces(b)|
  {
    assert Namespaces(a) <= Namespaces(b);
    SubsetSize(Namespaces(a), Namespaces(b));
  }

  lemma SubsetSize<T>(a: set<T>, b: set<T>)
    requires a <= b
    ensures |a| <= |b|
  {
    assert b == a + (b - a);
    assert |b| == |a| + |b - a|;
  }

  /** Fewer crashing pods never open what more would not. */
  lemma OpensOnMonotone(a: set<string>, b: set<string>, podThreshold: int, nsThreshold: int)
    requires a <= b && OpensOn(a, podThreshold, nsThreshold)
    ensures OpensOn(b, podThreshold, nsThreshold)
  {
    SubsetSize(a, b);
    NamespacesMonotone(a, b);
  }

  /** A pod's namespace and name; Kubernetes allows no slash in a namespace. */
  type PodName = (string, string)

  predicate SlashFree(p: PodName) { '/' !in p.0 }

  function KeysOf(pods: set<PodName>): set<string> {
    set p | p in pods :: Key(p.0, p.1)
  }

  lemma KeyTells(a: PodName, b: PodName)
    requires SlashFree(a) && SlashFree(b) && Key(a.0, a.1) == Key(b.0, b.1)
    ensures a == b
  {
    NamespaceOfKey(a.0, a.1);
    NamespaceOfKey(b.0, b.1);
    var key := Key(a.0, a.1);
    assert key[|a.0| + 1..] == a.1 && key[|b.0| + 1..] == b.1;
  }

  lemma {:induction false} AsManyKeys(pods: set<PodName>)
    requires forall p :: p in pods ==> SlashFree(p)
    ensures |KeysOf(pods)| == |pods|
    decreases pods
  {
    if pods != {} {
      var p :| p in pods;
      AsManyKeys(pods - {p});
      assert KeysOf(pods) == KeysOf(pods - {p}) + {Key(p.0, p.1)};
      if Key(p.0, p.1) in KeysOf(pods - {p}) {
        var q :| q in pods - {p} && Key(q.0, q.1) == Key(p.0, p.1);
        KeyTells(p, q);
      }
    }
  }

  /** The rule counts what it means to count: pods and their namespaces, though it sees only the joined keys. */
  lemma OpensOnPods(pods: set<PodName>, podThreshold: int, nsThreshold: int)
    requires forall p :: p in pods ==> SlashFree(p)
    ensures OpensOn(KeysOf(pods), podThreshold, nsThreshold) <==>
            |pods| >= podThreshold && |set p | p in pods :: p.0| >= nsThreshold
  {
    AsManyKeys(pods);
    forall p | p in pods ensures BeforeSlash(Key(p.0, p.1)) == p.0 { NamespaceOfKey(p.0, p.1); }
    assert Namespaces(KeysOf(pods)) == set p | p in pods :: p.0;
  }

  // --- one evaluation of the incidents ----------------------------------------------

  datatype Decision =
    | Quiet
    | Open(openedAt: int, pods: seq<string>)
    | Track(id: int, pods: seq<string>, grown: bool, closes: bool)

  /** `r` is the earliest of `now` and the crash times of `keys`. */
  ghost predicate IsEarliest(r: int, now: int, crashing: map<string, int>, keys: set<string>)
    requires keys <= crashing.Keys
  {
    && r <= now
    && (forall k :: k in keys ==> r <= FromMs(crashing[k]))
    && (r == now || exists k :: k in keys && r == FromMs(crashing[k]))
  }

  ghost function EarliestOf(now: int, crashing: map<string, int>): (r: int)
    ensures IsEarliest(r, now, crashing, crashing.Keys)
  {
    EarliestExists(now, crashing, crashing.Keys);
    var r :| IsEarliest(r, now, crashing, crashing.Keys);
    r
  }

  lemma {:induction false} EarliestExists(now: int, crashing: map<string, int>, keys: set<string>)
    requires keys <= crashing.Keys
    ensures exists r :: IsEarliest(r, now, crashing, keys)
    decreases keys
  {
    if keys == {} {
      assert IsEarliest(now, now, crashing, keys);
    } else {
      var k :| k in keys;
      EarliestExists(now, crashing, keys - {k});
      var r :| IsEarliest(r, now, crashing, keys - {k});
      assert IsEarliest(if FromMs(crashing[k]) < r then FromMs(crashing[k]) else r, now, crashing, keys);
    }
  }

  lemma EarliestUnique(a: int, b: int, now: int, crashing: map<string, int>)
    requires IsEarliest(a, now, crashing, crashing.Keys) && IsEarliest(b, now, crashing, crashing.Keys)
    ensures a == b
  {
  }

  function Members(s: seq<string>): (r: set<string>)
    ensures forall x :: x in r <==> x in s
  {
    set x | x in s
  }

  /** The affected pods once the crashing ones have joined. */
  ghost function Grown(pods: seq<string>, crashing: set<string>): seq<string> {
    var missing := crashing - Members(pods);
    if missing == {} then pods else SortStrings(pods + SortedKeys(missing))
  }

  /** Running with nothing waiting for the whole stable window, or gone. */
  predicate Settled(pods: map<string, PodState>, key: string, now: int, stable: int) {
    key in pods ==>
      pods[key].phase == RUNNING && pods[key].waitingReason == "" && now - FromMs(pods[key].since) >= stable
  }

  predicate AllSettled(pods: map<string, PodState>, keys: seq<string>, now: int, stable: int) {
    forall key :: key in keys ==> Settled(pods, key, now, stable)
  }

  lemma NoneMissing(a: set<string>, b: set<string>)
    ensures a <= b <==> a - b == {}
  {
    if a - b == {} {
      forall x | x in a ensures x in b {
        assert x in b || x in a - b;
      }
    }
  }

  /** What an evaluation reads: the incident in force, the crashes in the window, and the known pods. */
  datatype Evidence = Evidence(current: Option<Incident>, crashing: map<string, int>, known: map<string, PodState>)

  function EvidenceOf(t: Tables, cfg: Config, now: int): Evidence {
    Evidence(Current(t.incidents, now), CrashLoops(t.transitions, Ms(now - cfg.Window())), t.pods)
  }

  ghost function DecideOn(e: Evidence, cfg: Config, now: int): Decision {
    match e.current
    case None =>
      if OpensOn(e.crashing.Keys, cfg.podThreshold, cfg.nsThreshold)
      then Open(EarliestOf(now, e.crashing), SortedKeys(e.crashing.Keys))
      else Quiet
    case Some(inc) =>
      var pods := Grown(inc.pods, e.crashing.Keys);
      Track(inc.id, pods, !(e.crashing.Keys <= Members(inc.pods)), AllSettled(e.known, pods, now, cfg.Stable()))
  }

  ghost function Decide(t: Tables, cfg: Config, now: int): Decision {
    DecideOn(EvidenceOf(t, cfg, now), cfg, now)
  }

  function Apply(t: Tables, d: Decision, now: int): Tables {
    match d
    case Quiet => t
    case Open(openedAt, pods) => WithIncident(t, openedAt, pods)
    case Track(id, pods, grown, closes) =>
      var s := if grown then SetPods(t.incidents, id, pods) else t.incidents;
      t.(incidents := if closes then SetClosed(s, id, Ms(now)) else s)
  }

  ghost function IncidentPass(t: Tables, cfg: Config, now: int): Tables {
    Apply(t, Decide(t, cfg, now), now)
  }

  // --- one evaluation of the baselines ------------------------------------------------

  predicate ReportsReady(f: Fields) {
    READY in f && f[READY].Equal(Present(JString("True")))
  }

  ghost predicate NodeReady(snapshots: seq<Row<Snapshot>>, changes: seq<Row<Change>>, node: string, since: int) {
    && Latest(snapshots, node, API).Some?
    && ReportsReady(Latest(snapshots, node, API).value.val.fields)
    && Filter(changes, OnFieldSince(node, READY, since)) == []
  }

  predicate PodsCalm(pods: map<string, PodState>) {
    forall k :: k in pods.Keys ==> pods[k].waitingReason != CRASH_LOOP
  }

  predicate TransitionsCalm(transitions: seq<Row<PodTransition>>, since: int) {
    CrashLoops(transitions, since) == map[] && Filter(transitions, RestartSince(since)) == []
  }

  predicate ChangesCalm(changes: seq<Row<Change>>, since: int) {
    Filter(changes, AlertSince(since)) == []
  }

  /** The quiet-cluster guard. */
  ghost predicate QuietCluster(t: Tables, since: int) {
    && t.snapshots != []
    && PodsCalm(t.pods)
    && TransitionsCalm(t.transitions, since)
    && ChangesCalm(t.changes, since)
    && forall n :: n in Nodes(t.snapshots) ==> NodeReady(t.snapshots, t.changes, n, since)
  }

  /** Marks the latest snapshot of one source unless it is marked already. */
  function MarkSource(s: seq<Row<Snapshot>>, node: string, source: Source): seq<Row<Snapshot>> {
    match Latest(s, node, source)
    case None => s
    case Some(l) => if l.val.baseline then s else Mark(s, node, source, BASELINES_KEPT)
  }

  function MarkNodes(s: seq<Row<Snapshot>>, nodes: seq<string>): seq<Row<Snapshot>> {
    if nodes == [] then s else
      var s' := MarkNodes(s, nodes[..|nodes| - 1]);
      MarkSource(MarkSource(s', nodes[|nodes| - 1], API), nodes[|nodes| - 1], Agent)
  }

  ghost function BaselinePass(t: Tables, cfg: Config, now: int): Tables {
    if QuietCluster(t, Ms(now - cfg.Stable()))
    then t.(snapshots := MarkNodes(t.snapshots, SortedKeys(Nodes(t.snapshots))))
    else t
  }

  /** One tick: the incidents, then the baselines. */
  ghost function TickOf(t: Tables, cfg: Config, now: int): Tables {
    BaselinePass(IncidentPass(t, cfg, now), cfg, now)
  }

  // --- the evaluator ---------------------------------------------------------------------

  class Evaluator {
    const db: Db
    const cfg: Config

    constructor (db: Db, cfg: Config)
      ensures this.db == db && this.cfg == cfg
    {
      this.db, this.cfg := db, cfg;
    }

    method Tick(now: int)
      modifies db
      ensures db.View() == TickOf(old(db.View()), cfg, now)
    {
      EvaluateIncidents(now);
      EvaluateBaselines(now);
    }

    method EvaluateIncidents(now: int)
      modifies db
      ensures db.View() == IncidentPass(old(db.View()), cfg, now)
    {
      var crashing := CrashLoops(db.transitions, Ms(now - cfg.Window()));
      var open := Current(db.incidents, now);
      if open == None {
        OpenIfGrouped(now, crashing);
      } else {
        TrackIncident(open.value, now, crashing);
      }
    }

    method OpenIfGrouped(now: int, crashing: map<string, int>)
      modifies db
      ensures db.View() == if OpensOn(crashing.Keys, cfg.podThreshold, cfg.nsThreshold)
                           then WithIncident(old(db.View()), EarliestOf(now, crashing), SortedKeys(crashing.Keys))
                           else old(db.View())
    {
      var opens := ShouldOpen(crashing, cfg.podThreshold, cfg.nsThreshold);
      if !opens { return; }
      var openedAt := EarliestCrash(now, crashing);
      var pods := SortedNames(crashing.Keys);
      var _ := db.OpenIncident(openedAt, pods);
    }

    method TrackIncident(inc: Incident, now: int, crashing: map<string, int>)
      modifies db
      ensures var pods := Grown(inc.pods, crashing.Keys);
              db.View() == Apply(old(db.View()),
                                 Track(inc.id, pods, !(crashing.Keys <= Members(inc.pods)),
                                       AllSettled(old(db.pods), pods, now, cfg.Stable())),
                                 now)
    {
      ghost var before := db.View();
      var pods, added := Joined(inc.pods, crashing.Keys);
      if added {
        db.SetIncidentPods(inc.id, pods);
      }
      assert db.View() ==
        before.(incidents := if added then SetPods(before.incidents, inc.id, pods) else before.incidents);
      var settled := Recovered(pods, now);
      assert db.View().pods == before.pods;
      if settled {
        db.CloseIncident(inc.id, now);
      }
    }

    /** Whether every affected pod has been running for the stable window, or is gone. */
    method Recovered(affected: seq<string>, now: int) returns (settled: bool)
      ensures settled == AllSettled(db.pods, affected, now, cfg.Stable())
    {
      for i := 0 to |affected|
        invariant AllSettled(db.pods, affected[..i], now, cfg.Stable())
      {
        assert affected[i] in affected;
        if affected[i] in db.pods {
          var p := db.pods[affected[i]];
          if p.phase != RUNNING || p.waitingReason != "" || now - FromMs(p.since) < cfg.Stable() {
            assert !Settled(db.pods, affected[i], now, cfg.Stable());
            return false;
          }
        }
      }
      assert affected[..|affected|] == affected;
      return true;
    }

    /** The earliest crash, scanning the map in any order. */
    static method EarliestCrash(now: int, crashing: map<string, int>) returns (openedAt: int)
      ensures openedAt == EarliestOf(now, crashing)
    {
      openedAt := now;
      var rest := crashing.Keys;
      while rest != {}
        invariant rest <= crashing.Keys
        invariant IsEarliest(openedAt, now, crashing, crashing.Keys - rest)
        decreases rest
      {
        var key :| key in rest;
        if FromMs(crashing[key]) < openedAt { openedAt := FromMs(crashing[key]); }
        rest := rest - {key};
      }
      assert crashing.Keys - rest == crashing.Keys;
      EarliestUnique(openedAt, EarliestOf(now, crashing), now, crashing);
    }

    /** Adds the crashing pods an incident does not list yet, in any order, and sorts if there were any. */
    static method Joined(affected: seq<string>, crashing: set<string>) returns (pods: seq<string>, added: bool)
      ensures pods == Grown(affected, crashing)
      ensures added == !(crashing <= Members(affected))
    {
      var have := Members(affected);
      var found := Missing(have, crashing);
      assert multiset(found) == multiset(crashing - have);
      assert |found| == |multiset(found)| == |crashing - have|;
      NoneMissing(crashing, have);
      added := |found| != 0;
      if added {
        SortStringsPermutation(affected + found, affected + SortedKeys(crashing - have));
        pods := SortStrings(affected + found);
      } else {
        pods := affected;
      }
    }

    static method Missing(have: set<string>, crashing: set<string>) returns (found: seq<string>)
      ensures multiset(found) == multiset(crashing - have)
    {
      found := [];
      var rest := crashing;
      assert (crashing - rest) - have == {};
      while rest != {}
        invariant rest <= crashing
        invariant multiset(found) == multiset((crashing - rest) - have)
        decreases rest
      {
        var key :| key in rest;
        if key !in have {
          assert (crashing - (rest - {key})) - have == ((crashing - rest) - have) + {key};
          found := found + [key];
        } else {
          assert (crashing - (rest - {key})) - have == (crashing - rest) - have;
        }
        rest := rest - {key};
      }
      assert (crashing - rest) - have == crashing - have;
    }

    /** Marks the latest snapshots as healthy references if the cluster has been quiet. */
    method EvaluateBaselines(now: int)
      modifies db
      ensures db.View() == BaselinePass(old(db.View()), cfg, now)
    {
      var nodes := SortedNames(Nodes(db.snapshots));
      var quiet := IsQuiet(nodes, Ms(now - cfg.Stable()));
      if quiet { MarkAll(nodes); }
    }

    method IsQuiet(nodes: seq<string>, since: int) returns (quiet: bool)
      requires nodes == SortedKeys(Nodes(db.snapshots))
      ensures quiet == QuietCluster(db.View(), since)
    {
      assert db.snapshots != [] ==> db.snapshots[0] in db.snapshots;
      if |nodes| == 0 { return false; }
      if !PodsCalm(db.pods) { return false; }
      if !TransitionsCalm(db.transitions, since) { return false; }
      if !ChangesCalm(db.changes, since) { return false; }
      quiet := AllReady(nodes, since);
    }

    method AllReady(nodes: seq<string>, since: int) returns (ready: bool)
      ensures ready == forall n :: n in nodes ==> NodeReady(db.snapshots, db.changes, n, since)
    {
      for i := 0 to |nodes|
        invariant forall n :: n in nodes[..i] ==> NodeReady(db.snapshots, db.changes, n, since)
      {
        assert nodes[i] in nodes;
        var r := IsReady(nodes[i], since);
        if !r { return false; }
      }
      assert nodes[..|nodes|] == nodes;
      return true;
    }

    method IsReady(node: string, since: int) returns (ready: bool)
      ensures ready == NodeReady(db.snapshots, db.changes, node, since)
    {
      var latest := db.LatestSnapshot(node, API);
      if latest == None || !ReportsReady(latest.value.val.fields) { return false; }
      return Filter(db.changes, OnFieldSince(node, READY, since)) == [];
    }

    method MarkAll(nodes: seq<string>)
      modifies db
      ensures db.View() == old(db.View()).(snapshots := MarkNodes(old(db.snapshots), nodes))
    {
      for i := 0 to |nodes|
        invariant db.View() == old(db.View()).(snapshots := MarkNodes(old(db.snapshots), nodes[..i]))
      {
        MarkSourceOf(nodes[i], API);
        MarkSourceOf(nodes[i], Agent);
        assert nodes[..i + 1][..i] == nodes[..i];
      }
      assert nodes[..|nodes|] == nodes;
    }

    method MarkSourceOf(node: string, source: Source)
      modifies db
      ensures db.View() == old(db.View()).(snapshots := MarkSource(old(db.snapshots), node, source))
    {
      var latest := db.LatestSnapshot(node, source);
      if latest == None || latest.value.val.baseline { return; }
      db.MarkBaseline(node, source, BASELINES_KEPT);
    }
  }
}
