/** Which driver to use: scored detection, first come first served on ties, always a fresh object
    (internal/cni/detect.go). */
module Detection {
  import opened Sample
  import opened Drivers

  datatype CniConfig = CniConfig(file: string, pluginTypes: seq<string>)

  datatype Context = Context(configs: seq<CniConfig>, daemonSets: seq<string>, interfaces: seq<string>)

  function PluginTypes(cs: seq<CniConfig>): seq<string> {
    if cs == [] then [] else PluginTypes(cs[..|cs| - 1]) + cs[|cs| - 1].pluginTypes
  }

  /** What follows the last slash, or everything. */
  function AfterLastSlash(s: string): string {
    if '/' !in s then s else AfterLastSlash(s[1..])
  }

  function DaemonSetNames(ds: seq<string>): (r: seq<string>)
    ensures |r| == |ds|
  {
    seq(|ds|, i requires 0 <= i < |ds| => AfterLastSlash(ds[i]))
  }

  predicate HasAny(list: seq<string>, wanted: set<string>) {
    exists i :: 0 <= i < |list| && list[i] in wanted
  }

  /** How much each signal weighs. */
  const FROM_CONFIG := 70
  const FROM_DAEMON_SET := 40
  const FROM_INTERFACES := 20
  const FALLBACK := 1

  datatype Signals = Signals(config: bool, daemonSet: bool, interfaces: bool) {
    function Score(): int {
      var n := (if config then FROM_CONFIG else 0) +
               (if daemonSet then FROM_DAEMON_SET else 0) +
               (if interfaces then FROM_INTERFACES else 0);
      if n > 100 then 100 else n
    }

    function Why(name: string): string {
      var why := (if config then name + " in CNI config; " else "") +
                 (if daemonSet then name + " DaemonSet present; " else "") +
                 (if interfaces then name + " interfaces present; " else "");
      if why == "" then "no " + name + " signals" else why
    }
  }

  function SignalsOf(kind: Kind, ctx: Context): Signals {
    var types, sets := PluginTypes(ctx.configs), DaemonSetNames(ctx.daemonSets);
    match kind
    case FlannelKind =>
      Signals(HasAny(types, {"flannel"}), HasAny(sets, {"kube-flannel-ds", "kube-flannel"}),
              HasAny(ctx.interfaces, {"flannel.1"}) || HasAny(ctx.interfaces, {"cni0"}))
    case CalicoKind =>
      Signals(HasAny(types, {"calico"}), HasAny(sets, {"calico-node"}),
              HasAny(ctx.interfaces, {"vxlan.calico", "tunl0"}) && !HasAny(ctx.interfaces, {"cni0"}))
    case CiliumKind =>
      Signals(HasAny(types, {"cilium-cni"}), HasAny(sets, {"cilium"}), HasAny(ctx.interfaces, {"cilium_host"}))
    case GenericKind => Signals(false, false, false)
  }

  function Confidence(kind: Kind, ctx: Context): int {
    if kind == GenericKind then FALLBACK else SignalsOf(kind, ctx).Score()
  }

  function Reason(kind: Kind, ctx: Context): string {
    if kind == GenericKind then "fallback: no recognised CNI" else SignalsOf(kind, ctx).Why(kind.Name())
  }

  const KINDS := [FlannelKind, CalicoKind, CiliumKind, GenericKind]

  /** A detected driver as a value. */
  datatype Detected = Detected(kind: Kind, confidence: int, reason: string)

  function DetectedAs(kind: Kind, ctx: Context): Detected {
    Detected(kind, Confidence(kind, ctx), Reason(kind, ctx))
  }

  function KindNamed(name: string): Option<Kind> {
    if name == "flannel" then Some(FlannelKind)
    else if name == "calico" then Some(CalicoKind)
    else if name == "cilium" then Some(CiliumKind)
    else if name == "generic" then Some(GenericKind)
    else None
  }

  predicate IsAuto(force: string) { force == "" || force == "auto" }

  /** The best of the first `n` kinds: a later one only if it is more certain. */
  function Best(ctx: Context, n: nat): Detected
    requires 1 <= n <= |KINDS|
  {
    var d := DetectedAs(KINDS[n - 1], ctx);
    if n == 1 then d else
      var best := Best(ctx, n - 1);
      if d.confidence > best.confidence then d else best
  }

  /** No kind is more certain, and none registered earlier is as certain. */
  ghost predicate FirstOfMostCertain(ctx: Context, n: nat, i: int)
    requires n <= |KINDS|
  {
    && 0 <= i < n
    && (forall j :: 0 <= j < n ==> Confidence(KINDS[j], ctx) <= Confidence(KINDS[i], ctx))
    && (forall j :: 0 <= j < i ==> Confidence(KINDS[j], ctx) < Confidence(KINDS[i], ctx))
  }

  lemma {:induction false} BestIsFirstOfMostCertain(ctx: Context, n: nat) returns (i: int)
    requires 1 <= n <= |KINDS|
    ensures FirstOfMostCertain(ctx, n, i) && Best(ctx, n) == DetectedAs(KINDS[i], ctx)
  {
    hide Confidence, Reason;
    i := n - 1;
    if n > 1 {
      var j := BestIsFirstOfMostCertain(ctx, n - 1);
      if Confidence(KINDS[n - 1], ctx) <= Confidence(KINDS[j], ctx) { i := j; }
    }
  }

  /** What selection answers: nothing for a name nobody has, the named driver, or the best detected one. */
  function Selection(force: string, ctx: Context): Option<Detected> {
    if IsAuto(force) then Some(Best(ctx, |KINDS|)) else
      match KindNamed(force)
      case None => None
      case Some(kind) => Some(Detected(kind, 100, "forced by CNI_DRIVER=" + force))
  }

  datatype Choice = Choice(driver: Driver, confidence: int, reason: string) {
    function AsDetected(): Detected { Detected(driver.Kind(), confidence, reason) }
  }

  /** A new driver of each kind, in registration order. */
  method Registry() returns (ds: seq<Driver>)
    ensures |ds| == |KINDS|
    ensures forall i :: 0 <= i < |ds| ==> ds[i].Kind() == KINDS[i] && fresh(ds[i].Objects())
    ensures forall i :: 0 <= i < |ds| && KINDS[i] != GenericKind ==> ds[i].Value() == Pin(KINDS[i], Unset)
  {
    var flannel := new Flannel();
    var calico := new Calico();
    var cilium := new Cilium();
    ds := [FlannelDriver(flannel), CalicoDriver(calico), CiliumDriver(cilium), GenericDriver];
  }

  /** The mode of a driver no read has reached yet. */
  function Untouched(kind: Kind): Pin { Pin(kind, if kind == GenericKind then NoMode else Unset) }

  method Choose(force: string, ctx: Context) returns (choice: Option<Choice>)
    ensures Selection(force, ctx) == if choice == None then None else Some(choice.value.AsDetected())
    ensures choice.Some? ==> fresh(choice.value.driver.Objects())
    ensures choice.Some? ==> choice.value.driver.Value() == Untouched(choice.value.driver.Kind())
  {
    hide Confidence, Reason;
    var ds := Registry();
    if !IsAuto(force) {
      for i := 0 to |ds|
        invariant forall j :: 0 <= j < i ==> KINDS[j].Name() != force
      {
        if ds[i].Kind().Name() == force {
          return Some(Choice(ds[i], 100, "forced by CNI_DRIVER=" + force));
        }
      }
      assert KINDS[0].Name() != force && KINDS[1].Name() != force && KINDS[2].Name() != force &&
        KINDS[3].Name() != force;
      return None;
    }
    var best := Choice(ds[0], Confidence(KINDS[0], ctx), Reason(KINDS[0], ctx));
    ghost var at := 0;
    for i := 1 to |ds|
      invariant 0 <= at < i && best.driver == ds[at]
      invariant best.AsDetected() == Best(ctx, i)
    {
      var c, why := Confidence(ds[i].Kind(), ctx), Reason(ds[i].Kind(), ctx);
      if c > best.confidence {
        best, at := Choice(ds[i], c, why), i;
      }
    }
    return Some(best);
  }

  // --- what the signals are ---------------------------------------------------------------------

  /** Some CNI configuration file names this plugin. */
  ghost predicate Configured(ctx: Context, plugin: string) {
    exists c :: c in ctx.configs && plugin in c.pluginTypes
  }

  /** Some DaemonSet has this name, with or without a namespace before it. */
  ghost predicate Deployed(ctx: Context, name: string) {
    exists ds :: ds in ctx.daemonSets && IsNameOf(ds, name)
  }

  /** What follows the last slash. */
  ghost predicate IsNameOf(ds: string, name: string) {
    && '/' !in name && |name| <= |ds| && ds[|ds| - |name|..] == name
    && (|name| == |ds| || ds[|ds| - |name| - 1] == '/')
  }

  lemma {:induction false} PluginTypesTell(cs: seq<CniConfig>, plugin: string)
    ensures plugin in PluginTypes(cs) <==> exists c :: c in cs && plugin in c.pluginTypes
  {
    if cs != [] {
      var front, x := cs[..|cs| - 1], cs[|cs| - 1];
      PluginTypesTell(front, plugin);
      assert forall c :: c in cs <==> c in front || c == x;
    }
  }

  lemma {:induction false} AfterLastSlashTells(s: string)
    ensures IsNameOf(s, AfterLastSlash(s))
  {
    if '/' in s {
      AfterLastSlashTells(s[1..]);
      var name := AfterLastSlash(s[1..]);
      assert s[|s| - |name|..] == s[1..][|s[1..]| - |name|..];
      if |name| == |s[1..]| { NoSlashLeft(s); }
    }
  }

  lemma NoSlashLeft(s: string)
    requires '/' in s && '/' !in s[1..]
    ensures s[0] == '/'
  {
    assert s == [s[0]] + s[1..];
  }

  lemma OneName(s: string, a: string, b: string)
    requires IsNameOf(s, a) && IsNameOf(s, b)
    ensures a == b
  {
    NoSlashWithin(s, a);
    NoSlashWithin(s, b);
  }

  lemma NoSlashWithin(s: string, name: string)
    requires IsNameOf(s, name)
    ensures forall i :: |s| - |name| <= i < |s| ==> s[i] != '/'
  {
    forall i | |s| - |name| <= i < |s| ensures s[i] != '/' {
      assert s[i] == name[i - (|s| - |name|)];
    }
  }

  lemma DaemonSetsTell(ctx: Context, name: string)
    ensures name in DaemonSetNames(ctx.daemonSets) <==> Deployed(ctx, name)
  {
    hide AfterLastSlash, IsNameOf;
    var names := DaemonSetNames(ctx.daemonSets);
    if name in names {
      var i :| 0 <= i < |names| && names[i] == name;
      AfterLastSlashTells(ctx.daemonSets[i]);
      assert ctx.daemonSets[i] in ctx.daemonSets;
    }
    if ds :| ds in ctx.daemonSets && IsNameOf(ds, name) {
      var i :| 0 <= i < |ctx.daemonSets| && ctx.daemonSets[i] == ds;
      AfterLastSlashTells(ds);
      OneName(ds, name, AfterLastSlash(ds));
      assert names[i] == name;
    }
  }

  lemma HasAnyTells(list: seq<string>, wanted: set<string>)
    ensures HasAny(list, wanted) <==> exists x :: x in wanted && x in list
  {
    if x :| x in wanted && x in list {
      var i :| 0 <= i < |list| && list[i] == x;
    }
  }

  /** What points to each CNI: its plugin in a configuration file, its DaemonSet, and its interfaces. Calico's do not
      count where there is a cni0. */
  lemma SignalsTell(ctx: Context)
    ensures SignalsOf(FlannelKind, ctx) ==
            Signals(Configured(ctx, "flannel"), Deployed(ctx, "kube-flannel-ds") || Deployed(ctx, "kube-flannel"),
                    "flannel.1" in ctx.interfaces || "cni0" in ctx.interfaces)
    ensures SignalsOf(CalicoKind, ctx) ==
            Signals(Configured(ctx, "calico"), Deployed(ctx, "calico-node"),
                    ("vxlan.calico" in ctx.interfaces || "tunl0" in ctx.interfaces) && "cni0" !in ctx.interfaces)
    ensures SignalsOf(CiliumKind, ctx) ==
            Signals(Configured(ctx, "cilium-cni"), Deployed(ctx, "cilium"), "cilium_host" in ctx.interfaces)
  {
    hide HasAny, PluginTypes, DaemonSetNames, Deployed;
    var types, sets := PluginTypes(ctx.configs), DaemonSetNames(ctx.daemonSets);
    PluginTypesTell(ctx.configs, "flannel");
    PluginTypesTell(ctx.configs, "calico");
    PluginTypesTell(ctx.configs, "cilium-cni");
    OneOf(types, "flannel");
    OneOf(types, "calico");
    OneOf(types, "cilium-cni");
    DaemonSetsTell(ctx, "kube-flannel-ds");
    DaemonSetsTell(ctx, "kube-flannel");
    DaemonSetsTell(ctx, "calico-node");
    DaemonSetsTell(ctx, "cilium");
    HasAnyTells(sets, {"kube-flannel-ds", "kube-flannel"});
    OneOf(sets, "calico-node");
    OneOf(sets, "cilium");
    OneOf(ctx.interfaces, "flannel.1");
    OneOf(ctx.interfaces, "cni0");
    HasAnyTells(ctx.interfaces, {"vxlan.calico", "tunl0"});
    OneOf(ctx.interfaces, "cilium_host");
  }

  lemma OneOf(list: seq<string>, x: string)
    ensures HasAny(list, {x}) <==> x in list
  {
    HasAnyTells(list, {x});
  }

  /** How certain each combination of signals makes a driver: a configuration 70, a DaemonSet 40, interfaces 20, at
      most 100; the generic driver always 1. */
  lemma ConfidenceTells(kind: Kind, ctx: Context)
    ensures Confidence(kind, ctx) ==
            if kind == GenericKind then 1 else
              var s := SignalsOf(kind, ctx);
              match (s.config, s.daemonSet, s.interfaces)
              case (false, false, false) => 0
              case (false, false, true) => 20
              case (false, true, false) => 40
              case (false, true, true) => 60
              case (true, false, false) => 70
              case (true, false, true) => 90
              case (true, true, _) => 100
  {
    hide SignalsOf;
  }

  /** The fallback is chosen exactly when no recognised CNI shows any signal. */
  lemma GenericExactlyWithoutSignals(ctx: Context)
    ensures Best(ctx, |KINDS|).kind == GenericKind <==>
            forall kind :: kind != GenericKind ==> SignalsOf(kind, ctx) == Signals(false, false, false)
  {
    hide SignalsOf, Best;
    var i := BestIsFirstOfMostCertain(ctx, |KINDS|);
    assert KINDS[0] == FlannelKind && KINDS[1] == CalicoKind && KINDS[2] == CiliumKind && KINDS[3] == GenericKind;
  }

  /** A recognised CNI named in the node's own configuration beats every one that is not. */
  lemma ConfigIsAuthoritative(ctx: Context, kind: Kind)
    requires kind != GenericKind && SignalsOf(kind, ctx).config
    ensures var d := Best(ctx, |KINDS|);
            d.confidence >= FROM_CONFIG && d.kind != GenericKind && SignalsOf(d.kind, ctx).config
  {
    hide SignalsOf, Best;
    var i := BestIsFirstOfMostCertain(ctx, |KINDS|);
    assert KINDS[0] == FlannelKind && KINDS[1] == CalicoKind && KINDS[2] == CiliumKind;
    var j := if kind == FlannelKind then 0 else if kind == CalicoKind then 1 else 2;
    assert Confidence(KINDS[j], ctx) <= Confidence(KINDS[i], ctx);
  }
}
