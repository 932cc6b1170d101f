/** What one sampling of an agent says, and what one flush of its buffer does, told from what the agent read and what
    became of each post. */
module AgentSamples {
  import opened Sample
  import opened Rows
  import opened Text
  import opened Netlink
  import opened Drivers
  import opened Detection
  import opened Agents

  /** It is time to look for the driver: there is none yet, or the last look is as old as the period. */
  predicate LooksAgain(cfg: AgentConfig, m: Memory, s: Sensing) {
    m.chosen == None || s.now >= m.detectedAt + cfg.redetectEvery
  }

  /** What the agent remembers of the hints and of when it last looked for the driver. */
  lemma RemembersLatest(cfg: AgentConfig, m: Memory, s: Sensing)
    ensures var after := MemoryAfter(cfg, m, s);
            && (s.hints.Some? ==> after.hints == s.hints.value) && (s.hints == None ==> after.hints == m.hints)
            && after.detectedAt == if LooksAgain(cfg, m, s) then s.now else m.detectedAt
  {
    hide Answer, ContextOf, PinAfter;
  }

  /** The driver in use after a sampling is the one detection asked for or an older one of the same name, with the
      confidence and reason it was chosen with; only a look may bring another. */
  lemma DriverIsAskedFor(cfg: AgentConfig, m: Memory, s: Sensing)
    ensures var after, was := MemoryAfter(cfg, m, s).chosen.value, m.chosen;
            var asked := Answer(cfg.driver, ContextOf(s, MemoryAfter(cfg, m, s).hints));
            && (LooksAgain(cfg, m, s) ==> after.pin.kind == asked.kind)
            && (if LooksAgain(cfg, m, s) && (was == None || was.value.pin.kind != asked.kind)
                then after.confidence == asked.confidence && after.reason == asked.reason
                else after.confidence == was.value.confidence && after.reason == was.value.reason
                     && after.pin.kind == was.value.pin.kind)
  {
    hide Answer, ContextOf, Inferred;
  }

  /** What detection reads: the configuration files, the collector's DaemonSets, and the links of the node. */
  lemma DetectionReads(s: Sensing, hints: Hints)
    ensures var ctx := ContextOf(s, hints);
            && ctx.configs == s.configs && ctx.daemonSets == hints.daemonSets
            && (s.read.Failed? ==> ctx.interfaces == [])
            && (s.read.Seen? ==> forall name :: name in ctx.interfaces <==>
                                                exists l :: l in s.read.view.links && l.name == name)
  {
    hide SortStrings;
    if s.read.Seen? {
      var links := s.read.view.links;
      SortStringsSorted(Names(links));
      SameMembers(SortStrings(Names(links)), Names(links));
      forall name ensures name in Names(links) <==> exists l :: l in links && l.name == name {
        NamesMembers(links, name);
      }
    }
  }

  /** A configured name of a driver is taken as it is; with "auto", nothing or a name nobody has, the best signals
      decide. */
  lemma ForcedNameWins(force: string, ctx: Context, kind: Kind)
    ensures force == kind.Name() ==> Answer(force, ctx) == Detected(kind, 100, "forced by CNI_DRIVER=" + force)
    ensures force !in {"flannel", "calico", "cilium", "generic"} ==> Answer(force, ctx) == Best(ctx, |KINDS|)
  {
    hide Best;
  }

  /** Every column of the sample, and its fields: the host's, and for the other keys the network's, with the CIDRs of
      the hints, or else the configured one. */
  lemma SampleTells(cfg: AgentConfig, m: Memory, s: Sensing)
    requires m.chosen.Some?
    ensures var x, c := SampleOf(cfg, m, s), m.chosen.value;
            var own := if cfg.podCidr == "" then [] else [cfg.podCidr];
            var list := if m.hints.podCidrs != [] then m.hints.podCidrs else own;
            var net := FieldsOf(c.pin, s.read, Cidrs(list, cfg.inside));
            && x.time == s.now && x.val.node == cfg.node && x.val.source == Agent && !x.val.baseline
            && x.val.driver == c.pin.kind.Name() && x.val.confidence == c.confidence
            && (s.read.Failed? || c.pin.mode == Unset ==> x.val.driverReason == c.reason)
            && (s.read.Seen? && c.pin.mode != Unset ==> x.val.driverReason == c.reason + " mode=" + c.pin.mode.Text())
            && (forall k :: k in x.val.fields <==> k in s.host || k in net)
            && forall k :: k in x.val.fields ==> x.val.fields[k] == if k in s.host then s.host[k] else net[k]
  {
    hide FieldsOf;
  }

  /** The post succeeds: the sample is acceptable and the answer arrives. */
  predicate Succeeds(s: Timed<Snapshot>, clock: Clocks, net: Network, j: nat) {
    net(j).Acked? && Acceptable(s, clock(j))
  }

  /** A flush posts oldest first, takes out exactly the samples before the first post that fails, and one more has
      reached the collector exactly when only the answer to that post was lost. */
  lemma {:induction false} FlushStopsAtFirstFailure(buffer: seq<Timed<Snapshot>>, clock: Clocks, net: Network, i: nat)
    ensures var r := Flush(buffer, clock, net, i);
            && (forall j :: 0 <= j < r.acked ==> Succeeds(buffer[j], clock, net, i + j))
            && (r.acked < |buffer| ==> !Succeeds(buffer[r.acked], clock, net, i + r.acked))
            && (r.again <==> r.acked < |buffer| && net(i + r.acked).Unacked? &&
                             Acceptable(buffer[r.acked], clock(i + r.acked)))
  {
    hide Acceptable;
    if buffer != [] && Succeeds(buffer[0], clock, net, i) {
      FlushStopsAtFirstFailure(buffer[1..], clock, net, i + 1);
      var r, rest := Flush(buffer, clock, net, i), Flush(buffer[1..], clock, net, i + 1);
      forall j | 0 <= j < r.acked ensures Succeeds(buffer[j], clock, net, i + j) {
        if j > 0 { assert Succeeds(buffer[1..][j - 1], clock, net, i + 1 + (j - 1)); }
      }
    }
  }
}
