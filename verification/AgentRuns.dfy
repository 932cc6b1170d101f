/** The agent's buffer as a channel over whole runs, and what the collector's log makes of it. */
module AgentRuns {
  import opened Sample
  import opened Cni
  import opened Drivers
  import opened CniRuns
  import opened Schema
  import opened Incidents
  import opened Collector
  import opened Retention
  import opened Api
  import opened Agents
  import opened Recorder
  import opened SampleLogs
  import opened ArrivalRuns
  import opened LogRuns

  // --- the channel --------------------------------------------------------------------------

  /** One interval: the sample taken, and for each post the collector's clock and what happens to it. */
  datatype Interval = Interval(sample: Timed<Snapshot>, clock: Clocks, net: Network)

  /** The samples waiting, and everything that reached the collector so far, in order of arrival. */
  datatype Channel = Channel(buffer: seq<Timed<Snapshot>>, received: seq<Timed<Snapshot>>)

  /** Take a sample, drop what no longer fits, flush. */
  function Passed(c: Channel, x: Interval, size: nat): Channel {
    var kept := NewestFitting(c.buffer + [x.sample], size);
    var sent := Flush(kept, x.clock, x.net, 0);
    Channel(kept[sent.acked..], c.received + Arrived(kept, sent))
  }

  function ChannelAfter(xs: seq<Interval>, size: nat): Channel {
    if xs == [] then Channel([], []) else Passed(ChannelAfter(xs[..|xs| - 1], size), xs[|xs| - 1], size)
  }

  function Taken(xs: seq<Interval>): (r: seq<Timed<Snapshot>>)
    ensures |r| == |xs|
    ensures forall i :: 0 <= i < |xs| ==> r[i] == xs[i].sample
  {
    seq(|xs|, i requires 0 <= i < |xs| => xs[i].sample)
  }

  // --- what became of every sample ---------------------------------------------------------------

  /** By number of the sample: the oldest one still buffered, which arrived and in what order, which were acknowledged
      and which dropped. */
  datatype History = History(first: nat, arrivals: seq<nat>, acked: set<nat>, dropped: set<nat>)

  function Span(a: nat, b: nat): (r: seq<nat>)
    requires a <= b
    ensures |r| == b - a
    ensures forall i :: 0 <= i < b - a ==> r[i] == a + i
  {
    seq(b - a, i requires 0 <= i < b - a => a + i)
  }

  function Numbers(a: nat, b: nat): (r: set<nat>)
    ensures forall i :: i in r <==> a <= i < b
  {
    if b <= a then {} else Numbers(a, b - 1) + {b - 1}
  }

  /** The oldest buffered sample once sample `n` has come and the buffer holds at most `size`. */
  function Oldest(first: nat, n: nat, size: nat): nat {
    if n + 1 <= first + size then first else n + 1 - size
  }

  function Later(h: History, n: nat, sent: Sent, size: nat): History {
    var first := Oldest(h.first, n, size);
    History(first + sent.acked,
            h.arrivals + Span(first, first + sent.acked + if sent.again then 1 else 0),
            h.acked + Numbers(first, first + sent.acked),
            h.dropped + Numbers(h.first, first))
  }

  function SentIn(c: Channel, x: Interval, size: nat): Sent {
    Flush(NewestFitting(c.buffer + [x.sample], size), x.clock, x.net, 0)
  }

  function HistoryOf(xs: seq<Interval>, size: nat): History {
    if xs == [] then History(0, [], {}, {}) else
      var front, x := xs[..|xs| - 1], xs[|xs| - 1];
      Later(HistoryOf(front, size), |front|, SentIn(ChannelAfter(front, size), x, size), size)
  }

  ghost predicate Nondecreasing(s: seq<nat>) {
    forall i, j :: 0 <= i < j < |s| ==> s[i] <= s[j]
  }

  ghost predicate UpTo(s: seq<nat>, max: nat) {
    forall i :: 0 <= i < |s| ==> s[i] <= max
  }

  /** The samples of these numbers, in that order. */
  ghost predicate Picks(received: seq<Timed<Snapshot>>, taken: seq<Timed<Snapshot>>, arrivals: seq<nat>) {
    |received| == |arrivals| && forall i :: 0 <= i < |arrivals| ==>
      arrivals[i] < |taken| && received[i] == taken[arrivals[i]]
  }

  /** The buffer is the newest suffix of the samples and fits. Every older sample was either acknowledged, and then it
      arrived, or dropped, and then `size` newer ones were there. First arrivals follow the order of sampling. */
  ghost predicate Accounts(h: History, taken: seq<Timed<Snapshot>>, c: Channel, size: nat) {
    && h.first <= |taken| && c.buffer == taken[h.first..] && |c.buffer| <= size
    && Picks(c.received, taken, h.arrivals) && Nondecreasing(h.arrivals) && UpTo(h.arrivals, h.first)
    && h.acked !! h.dropped && h.acked + h.dropped == Numbers(0, h.first)
    && (forall k :: k in h.acked ==> k in h.arrivals)
    && (forall k :: k in h.dropped ==> k + size < |taken|)
  }

  lemma KeptSuffix(taken: seq<Timed<Snapshot>>, first: nat, x: Timed<Snapshot>, size: nat)
    requires first <= |taken|
    ensures Oldest(first, |taken|, size) <= |taken| + 1
    ensures NewestFitting(taken[first..] + [x], size) == (taken + [x])[Oldest(first, |taken|, size)..]
  {
    assert taken[first..] + [x] == (taken + [x])[first..];
  }

  lemma ArrivalsExtend(arrivals: seq<nat>, first: nat, from: nat, to: nat, last: nat)
    requires Nondecreasing(arrivals) && UpTo(arrivals, first) && first <= from <= to <= last + 1
    ensures Nondecreasing(arrivals + Span(from, to)) && (from <= last ==> UpTo(arrivals + Span(from, to), last))
  {
  }

  lemma PicksExtend(received: seq<Timed<Snapshot>>, taken: seq<Timed<Snapshot>>, arrivals: seq<nat>,
      x: Timed<Snapshot>, from: nat, to: nat)
    requires Picks(received, taken, arrivals) && from <= to <= |taken| + 1
    ensures Picks(received + (taken + [x])[from..to], taken + [x], arrivals + Span(from, to))
  {
  }

  lemma StillAccounts(h: History, taken: seq<Timed<Snapshot>>, c: Channel, x: Interval, size: nat)
    requires Accounts(h, taken, c, size)
    ensures Accounts(Later(h, |taken|, SentIn(c, x, size), size), taken + [x.sample], Passed(c, x, size), size)
  {
    hide Flush, NewestFitting, Numbers, Nondecreasing, UpTo, Picks;
    var all, first, sent := taken + [x.sample], Oldest(h.first, |taken|, size), SentIn(c, x, size);
    KeptSuffix(taken, h.first, x.sample, size);
    var kept := all[first..];
    var to := first + sent.acked + if sent.again then 1 else 0;
    assert kept[sent.acked..] == all[first + sent.acked..];
    assert Arrived(kept, sent) == all[first..to];
    ArrivalsExtend(h.arrivals, h.first, first, to, first + sent.acked);
    PicksExtend(c.received, taken, h.arrivals, x.sample, first, to);
    AllAccountedFor(h.acked, h.dropped, h.first, first, first + sent.acked);
    forall k | k in Numbers(first, first + sent.acked) ensures k in h.arrivals + Span(first, to) {
      assert Span(first, to)[k - first] == k;
    }
  }

  lemma AllAccountedFor(acked: set<nat>, dropped: set<nat>, a: nat, b: nat, c: nat)
    requires acked !! dropped && acked + dropped == Numbers(0, a) && a <= b <= c
    ensures acked + Numbers(b, c) !! dropped + Numbers(a, b)
    ensures (acked + Numbers(b, c)) + (dropped + Numbers(a, b)) == Numbers(0, c)
  {
    forall k ensures k in (acked + Numbers(b, c)) + (dropped + Numbers(a, b)) <==> k in Numbers(0, c) {
      assert k in acked + dropped <==> k in Numbers(0, a);
    }
  }

  /** Conservation: over any intervals and any network, every sample is acknowledged, dropped or still buffered; only
      the oldest is ever dropped, and only when the buffer is full of newer ones. */
  lemma {:induction false} EverySampleAccountedFor(xs: seq<Interval>, size: nat)
    ensures Accounts(HistoryOf(xs, size), Taken(xs), ChannelAfter(xs, size), size)
  {
    hide Accounts, Later, Passed;
    if xs == [] {
      NothingTaken(size);
    } else {
      var front, x := xs[..|xs| - 1], xs[|xs| - 1];
      EverySampleAccountedFor(front, size);
      StillAccounts(HistoryOf(front, size), Taken(front), ChannelAfter(front, size), x, size);
      assert Taken(xs) == Taken(front) + [x.sample];
    }
  }

  lemma NothingTaken(size: nat)
    ensures Accounts(HistoryOf([], size), Taken([]), ChannelAfter([], size), size)
  {
    assert Numbers(0, 0) == {};
  }

  /** When every post of an interval is answered and no sample is refused, the buffer empties and everything in it
      arrives in order. */
  lemma {:induction false} FlushDrains(buffer: seq<Timed<Snapshot>>, clock: Clocks, net: Network, i: nat)
    requires forall j :: j >= i ==> net(j).Acked?
    requires forall j :: 0 <= j < |buffer| ==> Acceptable(buffer[j], clock(i + j))
    ensures Flush(buffer, clock, net, i) == Sent(|buffer|, false)
  {
    hide Acceptable;
    if buffer != [] {
      assert Acceptable(buffer[0], clock(i + 0));
      forall j | 0 <= j < |buffer| - 1 ensures Acceptable(buffer[1..][j], clock(i + 1 + j)) {
        assert Acceptable(buffer[j + 1], clock(i + (j + 1)));
      }
      FlushDrains(buffer[1..], clock, net, i + 1);
    }
  }

  // --- refused samples ---------------------------------------------------------------------------

  /** The collector accepts the sample at one of its clocks. */
  ghost predicate AcceptableAt(s: Timed<Snapshot>, clock: Clocks) {
    exists j: nat :: Acceptable(s, clock(j))
  }

  lemma {:induction false} SentAreAcceptable(buffer: seq<Timed<Snapshot>>, clock: Clocks, net: Network, i: nat)
    ensures var sent := Flush(buffer, clock, net, i);
            forall s :: s in Arrived(buffer, sent) ==> AcceptableAt(s, clock)
  {
    hide Acceptable;
    if buffer != [] && !net(i).Unreached? && Acceptable(buffer[0], clock(i)) {
      assert AcceptableAt(buffer[0], clock);
    }
    if buffer != [] && net(i).Acked? && Acceptable(buffer[0], clock(i)) {
      SentAreAcceptable(buffer[1..], clock, net, i + 1);
      var sent, rest := Flush(buffer, clock, net, i), Flush(buffer[1..], clock, net, i + 1);
      assert Arrived(buffer, sent) == [buffer[0]] + Arrived(buffer[1..], rest);
    }
  }

  /** The sample was acceptable at some clock of the collector in some interval. */
  ghost predicate EverAcceptable(xs: seq<Interval>, s: Timed<Snapshot>) {
    exists i :: 0 <= i < |xs| && AcceptableAt(s, xs[i].clock)
  }

  lemma {:induction false} ReceivedAreAcceptable(xs: seq<Interval>, size: nat)
    ensures forall s :: s in ChannelAfter(xs, size).received ==> EverAcceptable(xs, s)
  {
    hide AcceptableAt, Flush, NewestFitting, Arrived;
    if xs != [] {
      var front, x := xs[..|xs| - 1], xs[|xs| - 1];
      ReceivedAreAcceptable(front, size);
      var c := ChannelAfter(front, size);
      var kept := NewestFitting(c.buffer + [x.sample], size);
      SentAreAcceptable(kept, x.clock, x.net, 0);
      forall s | s in ChannelAfter(xs, size).received ensures EverAcceptable(xs, s) {
        if s in c.received {
          var i :| 0 <= i < |front| && AcceptableAt(s, front[i].clock);
          assert xs[i] == front[i];
        } else {
          assert AcceptableAt(s, xs[|xs| - 1].clock);
        }
      }
    }
  }

  /** A sample the collector refuses at every attempt never arrives. It leaves the buffer exactly when `size` newer
      samples have come, by being dropped; until then nothing taken after it arrives either. */
  lemma RefusedBlocksUntilDropped(xs: seq<Interval>, size: nat, k: nat)
    requires k < |xs| && !EverAcceptable(xs, xs[k].sample)
    ensures var h := HistoryOf(xs, size);
            && k !in h.arrivals && k !in h.acked
            && (k in h.dropped <==> k + size < |xs|)
            && (k >= h.first <==> k + size >= |xs|)
            && (k + size >= |xs| ==> forall j :: j in h.arrivals ==> j < k)
  {
    hide ChannelAfter, HistoryOf, EverAcceptable;
    var h, c, taken := HistoryOf(xs, size), ChannelAfter(xs, size), Taken(xs);
    EverySampleAccountedFor(xs, size);
    ReceivedAreAcceptable(xs, size);
    forall i | 0 <= i < |h.arrivals| ensures h.arrivals[i] != k {
      assert c.received[i] in c.received && c.received[i] == taken[h.arrivals[i]];
    }
    assert k in h.acked + h.dropped <==> k in Numbers(0, h.first);
    if k + size >= |xs| {
      forall j | j in h.arrivals ensures j < k {
        var i :| 0 <= i < |h.arrivals| && h.arrivals[i] == j;
      }
    }
  }

  // --- what the collector's log makes of the arrivals ------------------------------------------------

  /** Samples with the times they are stored under. */
  function StoredAs(s: seq<Timed<Snapshot>>): (r: seq<Timed<Snapshot>>)
    ensures |r| == |s|
    ensures forall i :: 0 <= i < |s| ==> r[i] == Timed(Ms(s[i].time), s[i].val)
  {
    seq(|s|, i requires 0 <= i < |s| => Timed(Ms(s[i].time), s[i].val))
  }

  ghost predicate Below(s: seq<nat>, n: nat) {
    forall i :: 0 <= i < |s| ==> s[i] < n
  }

  function Pick(taken: seq<Timed<Snapshot>>, which: seq<nat>): (r: seq<Timed<Snapshot>>)
    requires Below(which, |taken|)
    ensures |r| == |which|
    ensures forall i :: 0 <= i < |which| ==> r[i] == taken[which[i]]
  {
    seq(|which|, i requires 0 <= i < |which| => taken[which[i]])
  }

  /** Arrivals without the repetitions of redelivery. */
  function Firsts(arrivals: seq<nat>): seq<nat> {
    if arrivals == [] then [] else
      var front, x := arrivals[..|arrivals| - 1], arrivals[|arrivals| - 1];
      if front != [] && front[|front| - 1] == x then Firsts(front) else Firsts(front) + [x]
  }

  ghost predicate Increasing(s: seq<nat>) {
    forall i, j :: 0 <= i < j < |s| ==> s[i] < s[j]
  }

  /** Each sample that arrived, once, in the order of sampling. */
  lemma {:induction false} FirstsAre(arrivals: seq<nat>)
    requires Nondecreasing(arrivals)
    ensures Increasing(Firsts(arrivals)) && forall k :: k in Firsts(arrivals) <==> k in arrivals
  {
    if arrivals != [] {
      var front, x := arrivals[..|arrivals| - 1], arrivals[|arrivals| - 1];
      FirstsAre(front);
      assert arrivals == front + [x];
      var f := Firsts(front);
      forall i | 0 <= i < |f| ensures f[i] <= x && (f[i] == x ==> front[|front| - 1] == x) {
        assert f[i] in front;
        var j :| 0 <= j < |front| && front[j] == f[i];
        assert arrivals[j] <= arrivals[|front|];
        assert j < |front| - 1 ==> arrivals[j] <= arrivals[|front| - 1];
      }
    }
  }

  lemma PickSnoc(taken: seq<Timed<Snapshot>>, which: seq<nat>, x: nat)
    requires Below(which, |taken|) && x < |taken|
    ensures StoredAs(Pick(taken, which + [x])) == StoredAs(Pick(taken, which)) +
            [Timed(Ms(taken[x].time), taken[x].val)]
  {
  }

  lemma CollapseRepeated(p: seq<Timed<Snapshot>>, q: seq<Timed<Snapshot>>, y: Timed<Snapshot>)
    requires Collapse(p) == Collapse(q)
    ensures Collapse(p + [y]) == Collapse(q + [y])
    ensures p != [] && p[|p| - 1].val == y.val ==> Collapse(p + [y]) == Collapse(q)
  {
    CollapseSnoc(p, y);
    CollapseSnoc(q, y);
    if p != [] { CollapseEndsAlike(p); }
  }

  /** Redelivery collapses. */
  lemma {:induction false} RedeliveryCollapses(taken: seq<Timed<Snapshot>>, arrivals: seq<nat>)
    requires Below(arrivals, |taken|)
    ensures Below(Firsts(arrivals), |taken|)
    ensures Collapse(StoredAs(Pick(taken, arrivals))) == Collapse(StoredAs(Pick(taken, Firsts(arrivals))))
  {
    hide Collapse, StoredAs, Pick;
    if arrivals != [] {
      var front, x := arrivals[..|arrivals| - 1], arrivals[|arrivals| - 1];
      RedeliveryCollapses(taken, front);
      assert arrivals == front + [x];
      PickSnoc(taken, front, x);
      PickSnoc(taken, Firsts(front), x);
      CollapseRepeated(StoredAs(Pick(taken, front)), StoredAs(Pick(taken, Firsts(front))),
        Timed(Ms(taken[x].time), taken[x].val));
    }
  }

  lemma ReceivedArePicked(h: History, taken: seq<Timed<Snapshot>>, c: Channel, size: nat)
    requires Accounts(h, taken, c, size)
    ensures Below(h.arrivals, |taken|) && c.received == Pick(taken, h.arrivals)
  {
  }

  // --- the posts as steps of the recorder -----------------------------------------------------------------

  function PostSteps(posts: seq<Timed<Snapshot>>, clock: Clocks): (r: seq<Step>)
    ensures |r| == |posts|
    ensures forall i :: 0 <= i < |posts| ==> r[i] == Step(clock(i), SamplePosted(posts[i]))
  {
    seq(|posts|, i requires 0 <= i < |posts| => Step(clock(i), SamplePosted(posts[i])))
  }

  lemma PostIsStep(t: Tables, setup: Setup, x: Timed<Snapshot>, now: int)
    ensures Next(t, setup, Step(now, SamplePosted(x))) == Ingested(t, x, now)
  {
    hide PodSeen, PodGone, WithEvent, NodeSeen, Ingested, TickOf, Pruned, Capped;
  }

  /** What a flush does to the store is what the recorder's ingest steps do. */
  lemma {:induction false} FlushIsRun(t: Tables, setup: Setup, posts: seq<Timed<Snapshot>>, clock: Clocks)
    ensures IngestAll(t, posts, clock) == RunFrom(t, setup, PostSteps(posts, clock))
  {
    hide Ingested, Next;
    if posts != [] {
      var front, x := posts[..|posts| - 1], posts[|posts| - 1];
      FlushIsRun(t, setup, front, clock);
      var s := Step(clock(|front|), SamplePosted(x));
      assert PostSteps(posts, clock) == PostSteps(front, clock) + [s];
      RunSnoc(t, setup, PostSteps(front, clock), s);
      PostIsStep(IngestAll(t, front, clock), setup, x, clock(|front|));
    }
  }

  /** A sample of this node's agent that the collector accepts as it is. */
  ghost predicate Clean(s: Timed<Snapshot>, node: string) {
    WellFormed(s) && s.val.node == node && s.val.source == Agent && !s.val.baseline
  }

  ghost predicate AllClean(s: seq<Timed<Snapshot>>, node: string) {
    forall x :: x in s ==> Clean(x, node)
  }

  lemma UnionValid(a: Fields, b: Fields)
    requires AllValid(a) && AllValid(b)
    ensures AllValid(a + b)
    ensures forall k :: k in a + b ==> (a + b)[k].Validate() == None
  {
  }

  /** Everything an agent samples is accepted: its fields are complete and well formed by construction. */
  lemma SamplesAreClean(cfg: AgentConfig, m: Memory, s: Sensing)
    requires cfg.node != "" && s.now != ZERO_TIME && m.chosen.Some? && AllValid(s.host)
    ensures Clean(SampleOf(cfg, m, s), cfg.node)
  {
    hide FieldsOf, CidrsOf, ReasonText, AllValid;
    var c := m.chosen.value;
    var fields := FieldsOf(c.pin, s.read, CidrsOf(cfg, m.hints)) + s.host;
    FieldsComplete(c.pin, s.read, CidrsOf(cfg, m.hints));
    UnionValid(FieldsOf(c.pin, s.read, CidrsOf(cfg, m.hints)), s.host);
    assert INTERFACES in KEYS;
    assert INTERFACES in fields;
  }

  lemma CleanIsNormal(s: Timed<Snapshot>, node: string, clock: int)
    requires Clean(s, node)
    ensures Normalised(s, clock) == s && Acceptable(s, clock) && Accepted(s, clock, node)
    ensures Brings(Step(clock, SamplePosted(s)), node, Agent) == Some(AsStored(s))
  {
  }

  lemma {:induction false} PostedByFlush(steps: seq<Step>, posts: seq<Timed<Snapshot>>, clock: Clocks, node: string)
    requires AllClean(posts, node)
    ensures Posted(steps + PostSteps(posts, clock), node) == Posted(steps, node) + StoredAs(posts)
  {
    hide Brings, Arrivals, Clean;
    if posts == [] {
      assert steps + PostSteps(posts, clock) == steps;
    } else {
      var front, x := posts[..|posts| - 1], posts[|posts| - 1];
      assert posts == front + [x];
      PostedByFlush(steps, front, clock, node);
      var s := Step(clock(|front|), SamplePosted(x));
      assert steps + PostSteps(posts, clock) == (steps + PostSteps(front, clock)) + [s];
      ArrivalsSnoc(steps + PostSteps(front, clock), s, node, Agent);
      CleanIsNormal(x, node, clock(|front|));
    }
  }

  /** The ingest steps of all intervals. */
  function AllPosts(xs: seq<Interval>, size: nat): seq<Step> {
    if xs == [] then [] else
      var front, x := xs[..|xs| - 1], xs[|xs| - 1];
      var c := ChannelAfter(front, size);
      AllPosts(front, size) + PostSteps(Arrived(NewestFitting(c.buffer + [x.sample], size), SentIn(c, x, size)),
        x.clock)
  }

  lemma BufferClean(xs: seq<Interval>, size: nat, node: string)
    requires AllClean(Taken(xs), node)
    ensures AllClean(ChannelAfter(xs, size).buffer, node)
  {
    hide Clean, ChannelAfter, HistoryOf, Taken;
    EverySampleAccountedFor(xs, size);
    SuffixClean(Taken(xs), HistoryOf(xs, size).first, node);
  }

  lemma SuffixClean(s: seq<Timed<Snapshot>>, n: nat, node: string)
    requires n <= |s| && AllClean(s, node)
    ensures AllClean(s[n..], node)
  {
    hide Clean;
    forall x | x in s[n..] ensures x in s { }
  }

  lemma ArrivedClean(buffer: seq<Timed<Snapshot>>, x: Timed<Snapshot>, size: nat, sent: Sent, node: string)
    requires AllClean(buffer, node) && Clean(x, node)
    requires var kept := NewestFitting(buffer + [x], size); sent.acked <= |kept| && (sent.again ==> sent.acked < |kept|)
    ensures AllClean(Arrived(NewestFitting(buffer + [x], size), sent), node)
  {
    hide Clean;
    var kept := NewestFitting(buffer + [x], size);
    forall y | y in Arrived(kept, sent) ensures Clean(y, node) {
      assert y in kept;
      assert y in buffer + [x];
    }
  }

  lemma StoredConcat(a: seq<Timed<Snapshot>>, b: seq<Timed<Snapshot>>)
    ensures StoredAs(a + b) == StoredAs(a) + StoredAs(b)
  {
  }

  /** The steps of a run that post a sample for this node. */
  ghost function PostsFor(steps: seq<Step>, node: string): seq<Step> {
    if steps == [] then [] else
      var rest, s := PostsFor(steps[..|steps| - 1], node), steps[|steps| - 1];
      if s.action.SamplePosted? && s.action.sample.val.node == node then rest + [s] else rest
  }

  /** Other steps have no say in what is posted for a node. */
  lemma {:induction false} OnlyItsPosts(steps: seq<Step>, node: string)
    ensures Posted(PostsFor(steps, node), node) == Posted(steps, node)
  {
    hide WellFormed, Normalised;
    if steps != [] {
      var front, s := steps[..|steps| - 1], steps[|steps| - 1];
      assert front + [s] == steps;
      OnlyItsPosts(front, node);
      ArrivalsSnoc(PostsFor(front, node), s, node, Agent);
      ArrivalsSnoc(front, s, node, Agent);
    }
  }

  /** In any run whose posts for a node are its agent's, what the recorder ingests for the node is what the agent's
      channel delivered. */
  lemma PostedIsReceived(xs: seq<Interval>, size: nat, steps: seq<Step>, node: string)
    requires AllClean(Taken(xs), node) && PostsFor(steps, node) == AllPosts(xs, size)
    ensures Posted(steps, node) == StoredAs(ChannelAfter(xs, size).received)
  {
    hide Posted, AllClean, AllPosts, PostsFor, ChannelAfter;
    OnlyItsPosts(steps, node);
    AllPostsAreReceived(xs, size, node);
  }

  lemma {:induction false} AllPostsAreReceived(xs: seq<Interval>, size: nat, node: string)
    requires AllClean(Taken(xs), node)
    ensures Posted(AllPosts(xs, size), node) == StoredAs(ChannelAfter(xs, size).received)
  {
    hide Clean, Flush, Posted, StoredAs, NewestFitting, Arrived, PostSteps;
    if xs == [] {
      NothingPosted(node);
    } else {
      var front, x := xs[..|xs| - 1], xs[|xs| - 1];
      TakenSnoc(front, x, node);
      assert front + [x] == xs;
      AllPostsAreReceived(front, size, node);
      BufferClean(front, size, node);
      var c := ChannelAfter(front, size);
      var arrived := Arrived(NewestFitting(c.buffer + [x.sample], size), SentIn(c, x, size));
      ArrivedClean(c.buffer, x.sample, size, SentIn(c, x, size), node);
      PostedByFlush(AllPosts(front, size), arrived, x.clock, node);
      StoredConcat(c.received, arrived);
    }
  }

  lemma NothingPosted(node: string)
    ensures Posted([], node) == StoredAs([])
  {
  }

  lemma TakenSnoc(xs: seq<Interval>, x: Interval, node: string)
    requires AllClean(Taken(xs + [x]), node)
    ensures AllClean(Taken(xs), node) && Clean(x.sample, node)
  {
    hide Clean;
    assert Taken(xs + [x]) == Taken(xs) + [x.sample];
  }

  ghost predicate SamplingInOrder(xs: seq<Interval>) {
    forall i, j :: 0 <= i < j < |xs| ==> xs[i].sample.time <= xs[j].sample.time
  }

  /** With a clock that does not run backwards on the node, its samples arrive in time order. */
  lemma ReceivedInOrder(xs: seq<Interval>, size: nat)
    requires SamplingInOrder(xs)
    ensures InTimeOrder(StoredAs(ChannelAfter(xs, size).received))
  {
    hide ChannelAfter, HistoryOf;
    var c, h := ChannelAfter(xs, size), HistoryOf(xs, size);
    EverySampleAccountedFor(xs, size);
    forall i, j | 0 <= i < j < |c.received| ensures Ms(c.received[i].time) <= Ms(c.received[j].time) {
      assert h.arrivals[i] <= h.arrivals[j];
      MsMonotone(c.received[i].time, c.received[j].time);
    }
  }

  /** End to end, in any recorder run - other steps in between, pruned and capped however often - whose posts for a
      node are the ones its agent's intervals make, over any pattern of lost posts and lost answers. All along it, the
      node's agent log as far back as changes are kept is the pairwise comparison of the posts, if and only if each is
      compared with the latest sample stored as with the post before it; and then that is the comparison, driver
      changes included, of the samples that arrived, each counted once, in the order they were taken. Every
      acknowledged sample is one of them. Sparing the latest sample is enough if the node's clock does not run
      backwards. */
  lemma LogCountsEachSampleOnce(xs: seq<Interval>, size: nat, setup: Setup, start: int, steps: seq<Step>, end: int,
      node: string)
    requires LegalBetween(start, steps, end)
    requires PostsFor(steps, node) == AllPosts(xs, size) && AllClean(Taken(xs), node)
    ensures var h, cut := HistoryOf(xs, size), Ms(end - setup.keep.changes);
            var once := Firsts(h.arrivals);
            && Below(once, |xs|) && Increasing(once) && (forall k :: k in h.acked ==> k in once)
            && (AgreesThroughout(setup, steps, node, Agent, cut) <==> AllComparedAlike(setup, steps, node, Agent, cut))
            && (AllComparedAlike(setup, steps, node, Agent, cut) ==>
                  From(Log(Run(setup, steps).changes, node, Agent), cut) ==
                  From(PairLog(StoredAs(Pick(Taken(xs), once))), cut))
    ensures SamplingInOrder(xs) && KeepsLatest(setup, steps, node, Agent) ==>
              AllComparedAlike(setup, steps, node, Agent, Ms(end - setup.keep.changes))
    ensures var once := Firsts(HistoryOf(xs, size).arrivals);
            SamplingInOrder(xs) && KeepsLatest(setup, steps, node, Agent) && KeepsLog(setup, steps, node, Agent) ==>
              && Below(once, |xs|)
              && Log(Run(setup, steps).changes, node, Agent) == PairLog(StoredAs(Pick(Taken(xs), once)))
  {
    hide RunFrom, Log, PairLog, Collapse, Arrivals, ChannelAfter, HistoryOf, Firsts, KeepsLatest, KeepsLog, From,
        AllPosts, PostsFor, AllClean, AgreesThroughout, AllComparedAlike, Pick, StoredAs, InTimeOrder;
    var h, taken := HistoryOf(xs, size), Taken(xs);
    EverySampleAccountedFor(xs, size);
    ReceivedArePicked(h, taken, ChannelAfter(xs, size), size);
    PostedIsReceived(xs, size, steps, node);
    if SamplingInOrder(xs) { ReceivedInOrder(xs, size); }
    RedeliveryIsInvisible(setup, start, steps, end, node);
    RedeliveryCollapses(taken, h.arrivals);
    CollapseKeepsLog(StoredAs(Pick(taken, Firsts(h.arrivals))));
    FirstsAre(h.arrivals);
  }
}
