/** The node agent: one sample per interval, a driver kept across redetections, and a bounded buffer that is flushed
    oldest first whenever the collector answers (internal/agent/agent.go). */
module Agents {
  import opened Sample
  import opened Text
  import opened Netlink
  import opened Cni
  import opened Drivers
  import opened Detection
  import opened Schema
  import opened Api

  // --- sampling --------------------------------------------------------------------------

  /** What the collector tells an agent that cannot ask the API server itself. */
  datatype Hints = Hints(daemonSets: seq<string>, podCidrs: seq<string>)

  datatype AgentConfig = AgentConfig(
    node: string, driver: string, podCidr: string, bufferSize: nat, redetectEvery: int, inside: Inside)

  /** Everything one sampling reads: the clock, the answer to the hints request if there was one, the network, the CNI
      configuration files, and the host fields. */
  datatype Sensing = Sensing(now: int, hints: Option<Hints>, read: Read, configs: seq<CniConfig>, host: Fields)

  /** The driver in use, with the confidence and reason it was chosen with. */
  datatype Chosen = Chosen(pin: Pin, confidence: int, reason: string)

  /** What an agent carries from one sampling to the next. */
  datatype Memory = Memory(chosen: Option<Chosen>, detectedAt: int, hints: Hints)

  function HintsAfter(h: Hints, answer: Option<Hints>): Hints {
    match answer case None => h case Some(latest) => latest
  }

  function ContextOf(s: Sensing, hints: Hints): Context {
    Context(s.configs, hints.daemonSets, match s.read case Seen(v) => SortStrings(Names(v.links)) case Failed(_) => [])
  }

  /** The driver detection asks for; an unknown forced name falls back to detection. */
  function Answer(force: string, ctx: Context): Detected {
    match Selection(force, ctx)
    case Some(d) => d
    case None => Best(ctx, |KINDS|)
  }

  predicate Due(m: Memory, now: int, every: int) {
    m.chosen == None || now - m.detectedAt >= every
  }

  /** Redetection replaces the driver only by one of another name; the same name keeps the old object and its mode. */
  function Redetected(m: Memory, d: Detected, now: int): Memory {
    m.(chosen := if m.chosen == None || m.chosen.value.pin.kind != d.kind
                 then Some(Chosen(Untouched(d.kind), d.confidence, d.reason)) else m.chosen,
       detectedAt := now)
  }

  function Detecting(cfg: AgentConfig, m: Memory, s: Sensing): (r: Memory)
    ensures r.chosen.Some?
  {
    var m' := m.(hints := HintsAfter(m.hints, s.hints));
    if Due(m', s.now, cfg.redetectEvery) then Redetected(m', Answer(cfg.driver, ContextOf(s, m'.hints)), s.now) else m'
  }

  /** The collector's hint first, then the configured override; never a guess. */
  function CidrsOf(cfg: AgentConfig, h: Hints): Cidrs {
    Cidrs(if h.podCidrs != [] then h.podCidrs else if cfg.podCidr != "" then [cfg.podCidr] else [], cfg.inside)
  }

  function ReasonText(reason: string, p: Pin, r: Read): string {
    if r.Seen? && p.mode.Text() != "" then reason + " mode=" + p.mode.Text() else reason
  }

  /** The agent's memory after a sampling. */
  function MemoryAfter(cfg: AgentConfig, m: Memory, s: Sensing): (r: Memory)
    ensures r.chosen.Some?
  {
    var m' := Detecting(cfg, m, s);
    m'.(chosen := Some(m'.chosen.value.(pin := PinAfter(m'.chosen.value.pin, s.read))))
  }

  function SnapshotFrom(node: string, kind: Kind, confidence: int, reason: string, fields: Fields): Snapshot {
    Snapshot(node, Agent, kind.Name(), confidence, reason, fields, false)
  }

  /** The sample it takes, with the driver it ends up with. */
  function SampleOf(cfg: AgentConfig, m: Memory, s: Sensing): Timed<Snapshot>
    requires m.chosen.Some?
  {
    var c := m.chosen.value;
    Timed(s.now, SnapshotFrom(cfg.node, c.pin.kind, c.confidence, ReasonText(c.reason, c.pin, s.read),
                              FieldsOf(c.pin, s.read, CidrsOf(cfg, m.hints)) + s.host))
  }

  // --- the buffer --------------------------------------------------------------------------

  /** What becomes of one post: the answer arrives, the sample arrives but the answer is lost, or nothing arrives. */
  datatype Outcome = Acked | Unacked | Unreached

  /** What happens to the posts of one flush, by position. */
  type Network = nat -> Outcome

  /** The collector's clock when each post of a flush comes, by position. */
  type Clocks = nat -> int

  /** How a flush ends: so many samples acknowledged, and perhaps the next one stored without the agent knowing. */
  datatype Sent = Sent(acked: nat, again: bool)

  predicate Acceptable(s: Timed<Snapshot>, clock: int) { WellFormed(Normalised(s, clock)) }

  function Flush(buffer: seq<Timed<Snapshot>>, clock: Clocks, net: Network, i: nat): (r: Sent)
    ensures r.acked <= |buffer| && (r.again ==> r.acked < |buffer|)
  {
    if buffer == [] || net(i).Unreached? || !Acceptable(buffer[0], clock(i)) then Sent(0, false)
    else if net(i).Unacked? then Sent(0, true)
    else
      var r := Flush(buffer[1..], clock, net, i + 1);
      Sent(r.acked + 1, r.again)
  }

  /** The samples that reached the collector in a flush. */
  function Arrived(buffer: seq<Timed<Snapshot>>, s: Sent): seq<Timed<Snapshot>>
    requires s.acked <= |buffer| && (s.again ==> s.acked < |buffer|)
  {
    buffer[..s.acked + if s.again then 1 else 0]
  }

  lemma Fitting<T>(s: seq<T>, size: nat)
    ensures NewestFitting(s, size) == if |s| > size then s[|s| - size..] else s
  {
  }

  /** The newest samples that fit. */
  function NewestFitting<T>(s: seq<T>, size: nat): (r: seq<T>)
    ensures |r| == if |s| <= size then |s| else size
  {
    if |s| <= size then s else s[|s| - size..]
  }

  /** The collector's store after some posts arrived, one after the other. */
  ghost function IngestAll(t: Tables, posts: seq<Timed<Snapshot>>, clock: Clocks): Tables {
    if posts == [] then t else
      var last := |posts| - 1;
      Ingested(IngestAll(t, posts[..last], clock), posts[last], clock(last))
  }

  lemma IngestSnoc(t: Tables, posts: seq<Timed<Snapshot>>, i: nat, clock: Clocks)
    requires i < |posts|
    ensures IngestAll(t, posts[..i + 1], clock) == Ingested(IngestAll(t, posts[..i], clock), posts[i], clock(i))
  {
    hide Ingested;
    assert posts[..i + 1][..i] == posts[..i];
  }

  lemma NothingIngested(t: Tables, posts: seq<Timed<Snapshot>>, clock: Clocks)
    ensures IngestAll(t, posts[..0], clock) == t
  {
  }

  lemma RefusedChangesNothing(t: Tables, s: Timed<Snapshot>, clock: int)
    requires !Acceptable(s, clock)
    ensures Ingested(t, s, clock) == t
  {
  }

  // --- the agent as an object ------------------------------------------------------------------

  class AgentProcess {
    const cfg: AgentConfig
    var choice: Option<Choice>
    var detectedAt: int
    var hints: Hints
    var buffer: seq<Timed<Snapshot>>

    constructor (cfg: AgentConfig)
      ensures this.cfg == cfg && choice == None && hints == Hints([], []) && buffer == []
    {
      this.cfg, choice, hints, buffer := cfg, None, Hints([], []), [];
    }

    function Drivers(): set<object>
      reads this
    {
      match choice case None => {} case Some(c) => c.driver.Objects()
    }

    ghost function Remembered(): Memory
      reads this, Drivers()
    {
      Memory(match choice case None => None case Some(c) => Some(Chosen(c.driver.Value(), c.confidence, c.reason)),
                    detectedAt, hints)
    }

    /** Runs the selection, falling back to detection when the forced name is nobody's. */
    method Select(ctx: Context) returns (found: Choice)
      ensures found.AsDetected() == Answer(cfg.driver, ctx)
      ensures fresh(found.driver.Objects()) && found.driver.Value() == Untouched(found.driver.Kind())
    {
      hide Best;
      var choice := Choose(cfg.driver, ctx);
      if choice == None { choice := Choose("auto", ctx); }
      found := choice.value;
    }

    /** Looks again for the driver; one of the same name is kept as it is. */
    method Redetect(ctx: Context, now: int)
      modifies this`choice, this`detectedAt
      ensures Remembered() == Redetected(old(Remembered()), Answer(cfg.driver, ctx), now)
      ensures fresh(Drivers() - old(Drivers()))
      ensures choice.Some?
    {
      hide Answer;
      var found := Select(ctx);
      if choice == None || choice.value.driver.Kind() != found.driver.Kind() {
        choice := Some(found);
      }
      detectedAt := now;
    }

    /** Refreshes the hints, and the driver if there is none or it is time to look again. */
    method Detect(s: Sensing)
      modifies this`choice, this`detectedAt, this`hints
      ensures Remembered() == Detecting(cfg, old(Remembered()), s)
      ensures fresh(Drivers() - old(Drivers()))
      ensures choice.Some?
    {
      hide Answer, Redetected, Names, SortStrings;
      ghost var before := Remembered();
      if s.hints.Some? { hints := s.hints.value; }
      ghost var m := before.(hints := HintsAfter(before.hints, s.hints));
      assert Remembered() == m;
      if choice == None || s.now - detectedAt >= cfg.redetectEvery {
        var interfaces := [];
        if s.read.Seen? { interfaces := LinkNames(s.read.view); }
        var ctx := Context(s.configs, hints.daemonSets, interfaces);
        assert ctx == ContextOf(s, m.hints);
        Redetect(ctx, s.now);
      }
    }

    /** Reads the node once. */
    method Snapshot(s: Sensing) returns (snap: Timed<Snapshot>)
      modifies this`choice, this`detectedAt, this`hints, Drivers()
      ensures Remembered() == MemoryAfter(cfg, old(Remembered()), s)
      ensures snap == SampleOf(cfg, Remembered(), s)
      ensures fresh(Drivers() - old(Drivers()))
    {
      hide FieldsOf, PinAfter, Detecting, CidrsOf;
      Detect(s);
      var d := choice.value;
      var cidrs := CidrsOf(cfg, hints);
      var fields := d.driver.Run(s.read, cidrs);
      var reason := d.reason;
      if s.read.Seen? && d.driver.Value().mode.Text() != "" {
        reason := reason + " mode=" + d.driver.Value().mode.Text();
      }
      snap := Timed(s.now, SnapshotFrom(cfg.node, d.driver.Kind(), d.confidence, reason, fields + s.host));
    }

    /** Posts one sample; false unless the collector's success answer arrived. */
    method Post(server: Server, snap: Timed<Snapshot>, clock: int, outcome: Outcome) returns (ok: bool)
      modifies server.db
      ensures ok == (outcome.Acked? && Acceptable(snap, clock))
      ensures server.db.View() ==
              if outcome.Unreached? then old(server.db.View()) else Ingested(old(server.db.View()), snap, clock)
    {
      if outcome.Unreached? { return false; }
      var status := server.AgentSnapshot(snap, clock);
      ok := outcome.Acked? && status / 100 == 2;
    }

    /** One interval: take a sample, drop what no longer fits, post oldest first until a post fails. */
    method Tick(s: Sensing, server: Server, clock: Clocks, net: Network) returns (ghost sent: Sent)
      modifies this, Drivers(), server.db
      ensures Remembered() == MemoryAfter(cfg, old(Remembered()), s)
      ensures var kept := NewestFitting(old(buffer) + [SampleOf(cfg, Remembered(), s)], cfg.bufferSize);
              && sent == Flush(kept, clock, net, 0)
              && buffer == kept[sent.acked..]
              && server.db.View() == IngestAll(old(server.db.View()), Arrived(kept, sent), clock)
      ensures fresh(Drivers() - old(Drivers()))
    {
      hide MemoryAfter, SampleOf, Flush, IngestAll, Arrived, NewestFitting;
      var snap := Snapshot(s);
      assert server.db.View() == old(server.db.View());
      Fitting(buffer + [snap], cfg.bufferSize);
      buffer := buffer + [snap];
      if |buffer| > cfg.bufferSize {
        buffer := buffer[|buffer| - cfg.bufferSize..];
      }
      sent := Flushing(server, clock, net);
    }

    /** The flush loop: it ends because the buffer shrinks. */
    method Flushing(server: Server, clock: Clocks, net: Network) returns (ghost sent: Sent)
      modifies this`buffer, server.db
      ensures sent == Flush(old(buffer), clock, net, 0)
      ensures buffer == old(buffer)[sent.acked..]
      ensures server.db.View() == IngestAll(old(server.db.View()), Arrived(old(buffer), sent), clock)
    {
      hide IngestAll, Acceptable, Ingested;
      ghost var all, t := buffer, server.db.View();
      NothingIngested(t, all, clock);
      var i := 0;
      while |buffer| > 0
        invariant i <= |all| && buffer == all[i..]
        invariant server.db.View() == IngestAll(t, all[..i], clock)
        invariant Flush(all, clock, net, 0) == Onward(Flush(buffer, clock, net, i), i)
        decreases |buffer|
      {
        IngestSnoc(t, all, i, clock);
        var ok := Post(server, buffer[0], clock(i), net(i));
        if !ok {
          if !Acceptable(all[i], clock(i)) { RefusedChangesNothing(IngestAll(t, all[..i], clock), all[i], clock(i)); }
          sent := Flush(all, clock, net, 0);
          return;
        }
        buffer := buffer[1..];
        i := i + 1;
      }
      sent := Flush(all, clock, net, 0);
    }
  }

  /** The same end of a flush, counted from an earlier start. */
  function Onward(s: Sent, done: nat): Sent { Sent(s.acked + done, s.again) }
}
