/** The overlay across an agent's life: redetection keeps the pinned driver as long as it answers the same name, and
    while it does, a lost overlay is an alert in the samples the collector compares. */
module OverlayRuns {
  import opened Sample
  import opened Differ
  import opened Netlink
  import opened Cni
  import opened Drivers
  import opened Detection
  import opened CniRuns
  import opened Collector
  import opened Agents

  // --- the driver an agent keeps -------------------------------------------------------------

  /** Detection runs at this sampling and asks for a driver of another name. */
  predicate Replaces(cfg: AgentConfig, m: Memory, s: Sensing)
    requires m.chosen.Some?
  {
    var hints := HintsAfter(m.hints, s.hints);
    Due(m, s.now, cfg.redetectEvery) && Answer(cfg.driver, ContextOf(s, hints)).kind != m.chosen.value.pin.kind
  }

  predicate Holds(m: Memory, p: Pin) { m.chosen.Some? && m.chosen.value.pin == p }

  /** A sampling keeps a pinned driver exactly when detection does not ask for another name. */
  lemma PinKeptExactly(cfg: AgentConfig, m: Memory, s: Sensing, p: Pin)
    requires Holds(m, p) && IsPinned(p)
    ensures Holds(MemoryAfter(cfg, m, s), p) <==> !Replaces(cfg, m, s)
    ensures !Replaces(cfg, m, s) ==>
              MemoryAfter(cfg, m, s).chosen.value.reason == m.chosen.value.reason &&
              MemoryAfter(cfg, m, s).chosen.value.confidence == m.chosen.value.confidence
  {
    hide Answer, ContextOf, Inferred;
  }

  function MemoryThrough(cfg: AgentConfig, m: Memory, ss: seq<Sensing>): Memory {
    if ss == [] then m else MemoryAfter(cfg, MemoryThrough(cfg, m, ss[..|ss| - 1]), ss[|ss| - 1])
  }

  /** No sampling of these replaces the driver. */
  ghost predicate KeepsDriver(cfg: AgentConfig, m: Memory, ss: seq<Sensing>) {
    forall i :: 0 <= i < |ss| ==>
      MemoryThrough(cfg, m, ss[..i]).chosen.Some? && !Replaces(cfg, MemoryThrough(cfg, m, ss[..i]), ss[i])
  }

  lemma {:induction false} PinKeptThrough(cfg: AgentConfig, m: Memory, ss: seq<Sensing>, p: Pin, n: nat)
    requires Holds(m, p) && IsPinned(p) && KeepsDriver(cfg, m, ss) && n <= |ss|
    ensures Holds(MemoryThrough(cfg, m, ss[..n]), p)
  {
    hide Replaces, MemoryAfter;
    if n > 0 {
      PinKeptThrough(cfg, m, ss, p, n - 1);
      PinKeptExactly(cfg, MemoryThrough(cfg, m, ss[..n - 1]), ss[n - 1], p);
      assert ss[..n][..n - 1] == ss[..n - 1];
    }
  }

  // --- what the collector sees ------------------------------------------------------------------

  /** The sample taken at position i of a run of samplings. */
  function SampleAt(cfg: AgentConfig, m: Memory, ss: seq<Sensing>, i: int): Snapshot
    requires 0 <= i < |ss|
  {
    assert ss[..i + 1][|ss[..i + 1]| - 1] == ss[i];
    SampleOf(cfg, MemoryThrough(cfg, m, ss[..i + 1]), ss[i]).val
  }

  /** The host fields are under keys of their own. */
  predicate HostApart(s: Sensing) { s.host.Keys !! KEYS }

  lemma OverlayOfSample(cfg: AgentConfig, m: Memory, s: Sensing, p: Pin)
    requires Holds(m, p) && HostApart(s)
    ensures var f := SampleOf(cfg, m, s).val.fields;
            OVERLAY.link in f && f[OVERLAY.link] == FieldsOf(p, s.read, CidrsOf(cfg, m.hints))[OVERLAY.link]
    ensures SampleOf(cfg, m, s).val.driver == p.kind.Name()
  {
    hide FieldsOf, CidrsOf;
    assert OVERLAY.link in KEYS by { assert OVERLAY.link in OVERLAY_KEYS; }
  }

  lemma RecordedAlert(prev: Snapshot, cur: Snapshot, k: string)
    requires k in prev.fields && k in cur.fields
    ensures (exists c :: c in Between(prev, cur) && c.field == k && c.severity == Alert) <==>
            Classify(prev.fields[k], cur.fields[k]) == Some(Alert)
  {
    var change := ChangeAt(prev, cur, k);
    if change.Some? { DiffMembers(prev, cur, change.value); }
    forall c | c in Between(prev, cur) && c.field == k && c.severity == Alert
      ensures Classify(prev.fields[k], cur.fields[k]) == Some(Alert)
    {
      DiffMembers(prev, cur, c);
    }
  }

  /** While detection answers the same name, over any reads, successful or failed: the overlay field of the samples is
      never not_applicable, and the collector's comparison of any two samples alerts on it exactly when both reads
      succeeded, with the link there and then gone. */
  lemma LossIsRecordedExactly(cfg: AgentConfig, m: Memory, ss: seq<Sensing>, p: Pin, name: string, i: int, j: int)
    requires Holds(m, p) && IsPinned(p) && Overlay(p) == Some(name) && KeepsDriver(cfg, m, ss)
    requires 0 <= i < |ss| && 0 <= j < |ss| && HostApart(ss[i]) && HostApart(ss[j])
    ensures var prev, cur := SampleAt(cfg, m, ss, i), SampleAt(cfg, m, ss, j);
            && OVERLAY.link in prev.fields && prev.fields[OVERLAY.link].state != StateNotApplicable
            && OVERLAY.link in cur.fields && cur.fields[OVERLAY.link].state != StateNotApplicable
            && ((exists c :: c in Between(prev, cur) && c.field == OVERLAY.link && c.severity == Alert) <==>
                Shows(ss[i].read, name) && Lacks(ss[j].read, name))
  {
    hide Classify, FieldsOf, SampleOf, MemoryThrough, Replaces, Between, CidrsOf, Overlay, Has;
    var m0, m1 := MemoryThrough(cfg, m, ss[..i + 1]), MemoryThrough(cfg, m, ss[..j + 1]);
    PinKeptThrough(cfg, m, ss, p, i + 1);
    PinKeptThrough(cfg, m, ss, p, j + 1);
    OverlayOfSample(cfg, m0, ss[i], p);
    OverlayOfSample(cfg, m1, ss[j], p);
    var a, b := Observation(ss[i].read, CidrsOf(cfg, m0.hints)), Observation(ss[j].read, CidrsOf(cfg, m1.hints));
    OverlayField(p, a.read, a.cidrs, name);
    OverlayField(p, b.read, b.cidrs, name);
    TwoReadings(p, a, b, name);
    RecordedAlert(SampleAt(cfg, m, ss, i), SampleAt(cfg, m, ss, j), OVERLAY.link);
  }

  // --- how a pin is lost --------------------------------------------------------------------------

  lemma NoSignals(ctx: Context)
    requires PluginTypes(ctx.configs) == [] && ctx.daemonSets == [] && ctx.interfaces == []
    ensures Best(ctx, |KINDS|).kind == GenericKind
  {
    hide Best;
    GenericExactlyWithoutSignals(ctx);
    forall kind: Kind ensures SignalsOf(kind, ctx) == Signals(false, false, false) {
    }
  }

  /** A redetection that falls on a failed read sees no interfaces: a driver that was recognised by its interfaces alone
      gives way to the generic one, and its pin is gone. */
  lemma BlindRedetectionLosesPin(cfg: AgentConfig, m: Memory, s: Sensing, p: Pin)
    requires Holds(m, p) && IsPinned(p) && IsAuto(cfg.driver)
    requires Due(m, s.now, cfg.redetectEvery) && s.read.Failed?
    requires PluginTypes(s.configs) == [] && HintsAfter(m.hints, s.hints).daemonSets == []
    ensures Replaces(cfg, m, s) && Holds(MemoryAfter(cfg, m, s), Untouched(GenericKind))
  {
    hide Best;
    NoSignals(ContextOf(s, HintsAfter(m.hints, s.hints)));
  }

  /** When the interfaces can be read again and the overlay has vanished, the next redetection starts a fresh driver,
      which takes the loss for a mode without overlay: the field turns not_applicable. */
  lemma LossThenLooksLikeAMode(cfg: AgentConfig, m: Memory, s: Sensing)
    requires Holds(m, Untouched(GenericKind)) && IsAuto(cfg.driver)
    requires Due(m, s.now, cfg.redetectEvery) && s.read.Seen? && HostApart(s)
    requires Answer(cfg.driver, ContextOf(s, HintsAfter(m.hints, s.hints))).kind == FlannelKind
    requires !Has(s.read.view, "flannel.1")
    ensures var after := MemoryAfter(cfg, m, s);
            && Holds(after, Pin(FlannelKind, HostGw))
            && OVERLAY.link in SampleOf(cfg, after, s).val.fields
            && SampleOf(cfg, after, s).val.fields[OVERLAY.link].state == StateNotApplicable
  {
    hide Answer, ContextOf, FieldsOf, SampleOf;
    var after := MemoryAfter(cfg, m, s);
    OverlayOfSample(cfg, after, s, Pin(FlannelKind, HostGw));
    NoOverlayField(Pin(FlannelKind, HostGw), s.read, CidrsOf(cfg, after.hints));
  }
}
