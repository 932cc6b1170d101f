/** Snapshots and change records of one node and source: what one stored snapshot adds to the log. */
module SampleLogs {
  import opened Sample
  import opened Rows
  import opened Text
  import opened Differ
  import opened Schema
  import opened Retention
  import opened Incidents
  import opened Collector

  // --- the stored samples and the log of one group -----------------------------------

  /** A stored snapshot as it was sampled, without its baseline flag. */
  function Content(s: Snapshot): Snapshot { s.(baseline := false) }

  function Contents(rows: seq<Row<Snapshot>>): (r: seq<Timed<Snapshot>>)
    ensures |r| == |rows|
    ensures forall i :: 0 <= i < |rows| ==> r[i] == Timed(rows[i].ts, Content(rows[i].val))
  {
    seq(|rows|, i requires 0 <= i < |rows| => Timed(rows[i].ts, Content(rows[i].val)))
  }

  /** The stored samples of a node and source, with their stored times. */
  function Samples(s: seq<Row<Snapshot>>, node: string, source: Source): seq<Timed<Snapshot>> {
    Contents(Filter(s, Of(node, source)))
  }

  function Concerns(node: string, source: Source): Row<Change> -> bool {
    (r: Row<Change>) => r.val.node == node && r.val.source == source
  }

  function Entries(rows: seq<Row<Change>>): (r: seq<Timed<Change>>)
    ensures |r| == |rows|
    ensures forall i :: 0 <= i < |rows| ==> r[i] == Timed(rows[i].ts, rows[i].val)
  {
    seq(|rows|, i requires 0 <= i < |rows| => Timed(rows[i].ts, rows[i].val))
  }

  /** The change log of a node and source, with stored times. */
  function Log(s: seq<Row<Change>>, node: string, source: Source): seq<Timed<Change>> {
    Entries(Filter(s, Concerns(node, source)))
  }

  /** The log obtained by comparing every sample with the one before it. */
  ghost function PairLog(s: seq<Timed<Snapshot>>): seq<Timed<Change>> {
    if |s| <= 1 then [] else
      PairLog(s[..|s| - 1]) + Stamp(s[|s| - 1].time, Between(s[|s| - 2].val, s[|s| - 1].val))
  }

  ghost predicate InTimeOrder(s: seq<Timed<Snapshot>>) {
    forall i, j :: 0 <= i < j < |s| ==> s[i].time <= s[j].time
  }

  lemma PairLogSnoc(s: seq<Timed<Snapshot>>, x: Timed<Snapshot>)
    ensures PairLog(s + [x]) == PairLog(s) + if s == [] then [] else Stamp(x.time, Between(s[|s| - 1].val, x.val))
  {
    assert (s + [x])[..|s + [x]| - 1] == s;
  }

  /** The latest of some samples: of those with the greatest time, the one stored last. */
  function NewestSample(s: seq<Timed<Snapshot>>): Option<Timed<Snapshot>> {
    if s == [] then None else
      var best, x := NewestSample(s[..|s| - 1]), s[|s| - 1];
      if best == None || best.value.time <= x.time then Some(x) else best
  }

  lemma NewestSampleSnoc(s: seq<Timed<Snapshot>>, x: Timed<Snapshot>)
    ensures NewestSample(s + [x]) ==
            if NewestSample(s) == None || NewestSample(s).value.time <= x.time then Some(x) else NewestSample(s)
  {
    assert (s + [x])[..|s + [x]| - 1] == s;
  }

  lemma {:induction false} NewestOfContents(rows: seq<Row<Snapshot>>)
    ensures NewestSample(Contents(rows)) ==
            match Newest(rows) case None => None case Some(l) => Some(Timed(l.ts, Content(l.val)))
  {
    if rows != [] {
      NewestOfContents(rows[..|rows| - 1]);
      assert Contents(rows)[..|rows| - 1] == Contents(rows[..|rows| - 1]);
    }
  }

  /** The latest row of a group is its newest sample. */
  lemma LatestIsNewestSample(s: seq<Row<Snapshot>>, node: string, source: Source)
    ensures NewestSample(Samples(s, node, source)) ==
            match Latest(s, node, source) case None => None case Some(l) => Some(Timed(l.ts, Content(l.val)))
  {
    NewestOfContents(Filter(s, Of(node, source)));
  }

  // --- the part of a log from some time on -------------------------------------------------

  function NotBefore(cut: int): Timed<Change> -> bool { (x: Timed<Change>) => cut <= x.time }

  /** The entries from `cut` on, in order and as often as they occur. */
  function From(log: seq<Timed<Change>>, cut: int): seq<Timed<Change>> { Filter(log, NotBefore(cut)) }

  lemma FromConcat(a: seq<Timed<Change>>, b: seq<Timed<Change>>, cut: int)
    ensures From(a + b, cut) == From(a, cut) + From(b, cut)
  {
    FilterConcat(a, b, NotBefore(cut));
  }

  lemma FromFrom(log: seq<Timed<Change>>, a: int, b: int)
    requires a <= b
    ensures From(From(log, a), b) == From(log, b)
  {
    FilterFilter(log, NotBefore(b), NotBefore(a));
  }

  lemma FromStamp(t: int, cs: seq<Change>, cut: int)
    ensures From(Stamp(t, cs), cut) == if cut <= t then Stamp(t, cs) else []
  {
    if cut <= t { FilterAll(Stamp(t, cs), NotBefore(cut)); } else { FilterNone(Stamp(t, cs), NotBefore(cut)); }
  }

  lemma {:induction false} FromEntries(rows: seq<Row<Change>>, cut: int)
    ensures Entries(Filter(rows, Since(cut))) == From(Entries(rows), cut)
  {
    if rows != [] {
      var front, x := rows[..|rows| - 1], rows[|rows| - 1];
      FromEntries(front, cut);
      assert Entries(rows)[..|rows| - 1] == Entries(front);
    }
  }

  /** Deleting the changes before `cut` leaves the part of every log from `cut` on. */
  lemma PrunedLog(s: seq<Row<Change>>, node: string, source: Source, cut: int)
    ensures Log(Filter(s, Since(cut)), node, source) == From(Log(s, node, source), cut)
  {
    FilterCommutes(s, Since(cut), Concerns(node, source));
    FromEntries(Filter(s, Concerns(node, source)), cut);
  }

  lemma StampMembers(t: int, cs: seq<Change>, x: Timed<Change>)
    ensures x in Stamp(t, cs) <==> x.time == t && x.val in cs
  {
    if x.time == t && x.val in cs {
      var i :| 0 <= i < |cs| && cs[i] == x.val;
      assert Stamp(t, cs)[i] == x;
    }
  }

  /** Sample i, compared with the one before it. */
  ghost function StepChanges(samples: seq<Timed<Snapshot>>, i: int): seq<Change>
    requires 0 < i < |samples|
  {
    Between(samples[i - 1].val, samples[i].val)
  }

  ghost predicate IsStepChange(samples: seq<Timed<Snapshot>>, i: int, x: Timed<Change>) {
    0 < i < |samples| && x.time == samples[i].time && x.val in StepChanges(samples, i)
  }

  /** The entries of a pairwise log are the changes between consecutive samples, under the later one's time. */
  lemma {:induction false} PairLogMembers(s: seq<Timed<Snapshot>>, x: Timed<Change>)
    ensures x in PairLog(s) <==> exists i :: IsStepChange(s, i, x)
  {
    hide Between;
    if |s| > 1 {
      var front := s[..|s| - 1];
      PairLogMembers(front, x);
      StampMembers(s[|s| - 1].time, Between(s[|s| - 2].val, s[|s| - 1].val), x);
      forall i ensures IsStepChange(s, i, x) <==> IsStepChange(front, i, x) || (i == |s| - 1 && IsStepChange(s, i, x)) {
        if 0 < i < |front| { assert StepChanges(s, i) == StepChanges(front, i); }
      }
      assert IsStepChange(s, |s| - 1, x) <==> x in Stamp(s[|s| - 1].time, Between(s[|s| - 2].val, s[|s| - 1].val));
    }
  }

  // --- one stored snapshot ----------------------------------------------------------------

  lemma SamplesSnoc(s: seq<Row<Snapshot>>, r: Row<Snapshot>, node: string, source: Source)
    ensures Samples(s + [r], node, source) ==
            Samples(s, node, source) + if Of(node, source)(r) then [Timed(r.ts, Content(r.val))] else []
  {
    FilterSnoc(s, r, Of(node, source));
  }

  lemma DiffConcerns(prev: Snapshot, cur: Snapshot, c: Change)
    requires c in Between(prev, cur)
    ensures c.node == cur.node && c.source == cur.source
  {
    if c in Diff(prev, cur) { DiffMembers(prev, cur, c); }
  }

  lemma LogConcat(s: seq<Row<Change>>, rows: seq<Row<Change>>, node: string, source: Source)
    ensures Log(s + rows, node, source) == Log(s, node, source) + Log(rows, node, source)
  {
    FilterConcat(s, rows, Concerns(node, source));
  }

  function RowsFor(next: int, t: int, cs: seq<Change>): (r: seq<Row<Change>>)
    ensures |r| == |cs|
    ensures forall i :: 0 <= i < |cs| ==> r[i] == Row(next + i, Ms(t), cs[i])
  {
    seq(|cs|, i requires 0 <= i < |cs| => Row(next + i, Ms(t), cs[i]))
  }

  lemma StoredRows(t: Tables, s: Timed<Snapshot>, cs: seq<Change>)
    ensures Stored(t, s, cs).changes == t.changes + RowsFor(t.next.change, s.time, cs)
    ensures Stored(t, s, cs).snapshots == t.snapshots + [Row(t.next.snapshot, Ms(s.time), s.val)]
  {
    assert Stored(t, s, cs).changes == InsertChanges(t.changes, t.next.change, Stamp(s.time, cs));
  }

  lemma LogOfRows(next: int, t: int, cs: seq<Change>, node: string, source: Source)
    requires forall c :: c in cs ==> c.node == node && c.source == source
    ensures Log(RowsFor(next, t, cs), node, source) == Stamp(Ms(t), cs)
  {
    var rows := RowsFor(next, t, cs);
    forall r | r in rows ensures Concerns(node, source)(r) {
      var i :| 0 <= i < |rows| && rows[i] == r;
      assert cs[i] in cs;
    }
    FilterAll(rows, Concerns(node, source));
  }

  lemma LogOfOtherRows(next: int, t: int, cs: seq<Change>, node: string, source: Source)
    requires forall c :: c in cs ==> !(c.node == node && c.source == source)
    ensures Log(RowsFor(next, t, cs), node, source) == []
  {
    var rows := RowsFor(next, t, cs);
    forall r | r in rows ensures !Concerns(node, source)(r) {
      var i :| 0 <= i < |rows| && rows[i] == r;
      assert cs[i] in cs;
    }
    FilterNone(rows, Concerns(node, source));
  }

  ghost predicate AllConcern(cs: seq<Change>, node: string, source: Source) {
    forall c :: c in cs ==> c.node == node && c.source == source
  }

  /** A stored sample extends its own group by itself and the changes it is stored with. */
  lemma StoredOwn(t: Tables, s: Timed<Snapshot>, cs: seq<Change>)
    requires AllConcern(cs, s.val.node, s.val.source)
    ensures var u := Stored(t, s, cs);
            Samples(u.snapshots, s.val.node, s.val.source) ==
              Samples(t.snapshots, s.val.node, s.val.source) + [Timed(Ms(s.time), Content(s.val))]
            && Log(u.changes, s.val.node, s.val.source) ==
                 Log(t.changes, s.val.node, s.val.source) + Stamp(Ms(s.time), cs)
  {
    StoredRows(t, s, cs);
    SamplesSnoc(t.snapshots, Row(t.next.snapshot, Ms(s.time), s.val), s.val.node, s.val.source);
    LogConcat(t.changes, RowsFor(t.next.change, s.time, cs), s.val.node, s.val.source);
    LogOfRows(t.next.change, s.time, cs, s.val.node, s.val.source);
  }

  /** Whatever changes of its own group a sample is stored with, other groups keep their samples and log. */
  lemma StoredElsewhere(t: Tables, s: Timed<Snapshot>, cs: seq<Change>, node: string, source: Source)
    requires AllConcern(cs, s.val.node, s.val.source) && !(s.val.node == node && s.val.source == source)
    ensures var u := Stored(t, s, cs);
            Samples(u.snapshots, node, source) == Samples(t.snapshots, node, source)
            && Log(u.changes, node, source) == Log(t.changes, node, source)
  {
    StoredRows(t, s, cs);
    SamplesSnoc(t.snapshots, Row(t.next.snapshot, Ms(s.time), s.val), node, source);
    LogConcat(t.changes, RowsFor(t.next.change, s.time, cs), node, source);
    LogOfOtherRows(t.next.change, s.time, cs, node, source);
  }

  lemma BetweenConcerns(prev: Snapshot, cur: Snapshot)
    ensures AllConcern(Between(prev, cur), cur.node, cur.source)
  {
    forall c | c in Between(prev, cur) ensures c.node == cur.node && c.source == cur.source {
      DiffConcerns(prev, cur, c);
    }
  }

  // --- what a comparison records ------------------------------------------------------------

  /** The field under a key, or unknown if the snapshot has none. */
  predicate ReadAs(r: Field, f: Fields, k: string) {
    if k in f then r == f[k] else r == Unknown("not sampled")
  }

  /** Every record between two snapshots of a group: the two readings of a key of either, where the transition table
      gives them a severity; and one for the driver if and only if its name changed, with both names. */
  lemma BetweenTells(prev: Snapshot, cur: Snapshot, c: Change)
    ensures c in Between(prev, cur) <==>
            && c.node == cur.node && c.source == cur.source
            && (|| (prev.driver != cur.driver && c.field == "driver" && c.severity == Info
                    && c.before == Present(JString(prev.driver)) && c.after == Present(JString(cur.driver)))
                || ((c.field in prev.fields || c.field in cur.fields)
                    && ReadAs(c.before, prev.fields, c.field) && ReadAs(c.after, cur.fields, c.field)
                    && Classify(c.before, c.after) == Some(c.severity)))
  {
    hide Classify, Diff;
    DiffMembers(prev, cur, c);
  }

  /** Each of them once: the fields in the order of their names, then the driver. */
  lemma BetweenOnce(prev: Snapshot, cur: Snapshot)
    ensures var cs := Between(prev, cur);
            var n := |cs| - if prev.driver == cur.driver then 0 else 1;
            && n >= 0 && (n < |cs| ==> cs[n].field == "driver" && cs[n].before == Present(JString(prev.driver)))
            && forall i, j :: 0 <= i < j < n ==> Less(cs[i].field, cs[j].field)
  {
    hide Diff;
    DiffSorted(prev, cur);
    assert Between(prev, cur)[..|Diff(prev, cur)|] == Diff(prev, cur);
  }

  // --- the flags do not matter --------------------------------------------------------------

  lemma {:induction false} DiffOverIgnoresFlag(p: Snapshot, c: Snapshot, keys: seq<string>)
    ensures DiffOver(p, c, keys) == DiffOver(Content(p), c, keys)
  {
    if keys != [] { DiffOverIgnoresFlag(p, c, keys[..|keys| - 1]); }
  }

  lemma BetweenIgnoresFlag(p: Snapshot, c: Snapshot)
    ensures Between(p, c) == Between(Content(p), c)
    ensures Diff(p, c) == Diff(Content(p), c)
  {
    DiffOverIgnoresFlag(p, c, SortedKeys(p.fields.Keys + c.fields.Keys));
  }

  lemma FlagSnoc(s: seq<Row<Snapshot>>, x: Row<Snapshot>, p: Row<Snapshot> -> bool, b: bool)
    ensures Flag(s + [x], p, b) == Flag(s, p, b) + [if p(x) then x.(val := x.val.(baseline := b)) else x]
  {
  }

  lemma {:induction false} FlagKeepsSamples(s: seq<Row<Snapshot>>, p: Row<Snapshot> -> bool, b: bool, node: string,
      source: Source)
    ensures Samples(Flag(s, p, b), node, source) == Samples(s, node, source)
  {
    if s != [] {
      var s', x := s[..|s| - 1], s[|s| - 1];
      assert s == s' + [x];
      FlagKeepsSamples(s', p, b, node, source);
      FlagSnoc(s', x, p, b);
      SamplesSnoc(s', x, node, source);
      SamplesSnoc(Flag(s', p, b), if p(x) then x.(val := x.val.(baseline := b)) else x, node, source);
    }
  }

  lemma MarkKeepsSamples(s: seq<Row<Snapshot>>, marked: string, from: Source, keep: nat, node: string, source: Source)
    ensures Samples(Mark(s, marked, from, keep), node, source) == Samples(s, node, source)
  {
    var flagged := FlagLatest(s, marked, from);
    match Latest(s, marked, from)
    case None => FlagKeepsSamples(s, Surplus(s, marked, from, keep), false, node, source);
    case Some(l) =>
      FlagKeepsSamples(s, HasId({l.id}), true, node, source);
      FlagKeepsSamples(flagged, Surplus(flagged, marked, from, keep), false, node, source);
  }

  lemma MarkSourceKeepsSamples(s: seq<Row<Snapshot>>, marked: string, from: Source, node: string, source: Source)
    ensures Samples(MarkSource(s, marked, from), node, source) == Samples(s, node, source)
  {
    MarkKeepsSamples(s, marked, from, BASELINES_KEPT, node, source);
  }

  lemma {:induction false} MarkNodesKeepsSamples(s: seq<Row<Snapshot>>, nodes: seq<string>, node: string,
      source: Source)
    ensures Samples(MarkNodes(s, nodes), node, source) == Samples(s, node, source)
  {
    if nodes != [] {
      var s', n := MarkNodes(s, nodes[..|nodes| - 1]), nodes[|nodes| - 1];
      MarkNodesKeepsSamples(s, nodes[..|nodes| - 1], node, source);
      MarkSourceKeepsSamples(s', n, API, node, source);
      MarkSourceKeepsSamples(MarkSource(s', n, API), n, Agent, node, source);
    }
  }

  // --- repeated samples ------------------------------------------------------------------------

  /** Drops every sample that says the same as the one before it. */
  function Collapse(s: seq<Timed<Snapshot>>): seq<Timed<Snapshot>> {
    if s == [] then [] else
      var r, x := Collapse(s[..|s| - 1]), s[|s| - 1];
      if r != [] && r[|r| - 1].val == x.val then r else r + [x]
  }

  lemma CollapseSnoc(s: seq<Timed<Snapshot>>, x: Timed<Snapshot>)
    ensures var r := Collapse(s);
            Collapse(s + [x]) == if r != [] && r[|r| - 1].val == x.val then r else r + [x]
  {
    assert (s + [x])[..|s + [x]| - 1] == s;
  }

  lemma {:induction false} CollapseEndsAlike(s: seq<Timed<Snapshot>>)
    requires s != []
    ensures Collapse(s) != [] && Collapse(s)[|Collapse(s)| - 1].val == s[|s| - 1].val
  {
  }

  lemma NothingBetweenEqual(s: Snapshot)
    ensures Between(s, s) == []
  {
    FieldsEqualIsEquivalence(s.fields, s.fields, s.fields);
    EqualSnapshotsEmitNothing(s, s);
  }

  type Comparison = (Snapshot, Snapshot) -> seq<Change>

  /** PairLog for any way of comparing two samples. */
  ghost function PairLogBy(s: seq<Timed<Snapshot>>, f: Comparison): seq<Timed<Change>> {
    if |s| <= 1 then [] else
      PairLogBy(s[..|s| - 1], f) + Stamp(s[|s| - 1].time, f(s[|s| - 2].val, s[|s| - 1].val))
  }

  lemma PairLogBySnoc(s: seq<Timed<Snapshot>>, x: Timed<Snapshot>, f: Comparison)
    ensures PairLogBy(s + [x], f) == PairLogBy(s, f) + if s == [] then [] else Stamp(x.time, f(s[|s| - 1].val, x.val))
  {
    assert (s + [x])[..|s + [x]| - 1] == s;
  }

  lemma {:induction false} CollapseKeepsLogBy(s: seq<Timed<Snapshot>>, f: Comparison)
    requires forall x :: f(x, x) == []
    ensures PairLogBy(Collapse(s), f) == PairLogBy(s, f)
  {
    if s != [] {
      var front, x := s[..|s| - 1], s[|s| - 1];
      assert s == front + [x];
      CollapseKeepsLogBy(front, f);
      CollapseSnoc(front, x);
      PairLogBySnoc(front, x, f);
      PairLogBySnoc(Collapse(front), x, f);
      if front != [] { CollapseEndsAlike(front); }
    }
  }

  lemma {:induction false} PairLogIsBy(s: seq<Timed<Snapshot>>, f: Comparison)
    requires forall p, c :: f(p, c) == Between(p, c)
    ensures PairLogBy(s, f) == PairLog(s)
  {
    if s != [] { PairLogIsBy(s[..|s| - 1], f); }
  }

  /** Repeating a sample adds nothing to the log. */
  lemma CollapseKeepsLog(s: seq<Timed<Snapshot>>)
    ensures PairLog(Collapse(s)) == PairLog(s)
  {
    var f: Comparison := (p, c) => Between(p, c);
    forall x ensures f(x, x) == [] { NothingBetweenEqual(x); }
    CollapseKeepsLogBy(s, f);
    PairLogIsBy(s, f);
    PairLogIsBy(Collapse(s), f);
  }

  // --- replaying the log --------------------------------------------------------------------------

  function Values(log: seq<Timed<Change>>): (r: seq<Change>)
    ensures |r| == |log|
    ensures forall i :: 0 <= i < |log| ==> r[i] == log[i].val
  {
    seq(|log|, i requires 0 <= i < |log| => log[i].val)
  }

  /** Samples of the collector's own making: plain fields under the same keys, no driver. */
  ghost predicate Uniform(s: seq<Timed<Snapshot>>, keys: set<string>) {
    forall i :: 0 <= i < |s| ==> PlainFields(s[i].val.fields) && s[i].val.fields.Keys == keys && s[i].val.driver == ""
  }

  lemma ValuesOfStamped(log: seq<Timed<Change>>, t: int, cs: seq<Change>)
    ensures Values(log + Stamp(t, cs)) == Values(log) + cs
  {
  }

  lemma ReplayOneMore(f: Fields, cs: seq<Change>, p: Snapshot, c: Snapshot)
    requires Replay(f, cs) == p.fields && p.driver == c.driver
    requires PlainFields(p.fields) && PlainFields(c.fields) && p.fields.Keys == c.fields.Keys
    ensures Replay(f, cs + Between(p, c)) == c.fields
  {
    assert Between(p, c) == Diff(p, c);
    ReplayConcat(f, cs, Diff(p, c));
    ReplayPlain(p, c);
  }

  /** Replaying the whole log over the first sample's fields gives the last sample's. */
  lemma {:induction false} ReplayWholeLog(s: seq<Timed<Snapshot>>, keys: set<string>)
    requires s != [] && Uniform(s, keys)
    ensures Replay(s[0].val.fields, Values(PairLog(s))) == s[|s| - 1].val.fields
  {
    if |s| > 1 {
      var front, x := s[..|s| - 1], s[|s| - 1];
      assert s == front + [x];
      ReplayWholeLog(front, keys);
      PairLogSnoc(front, x);
      ValuesOfStamped(PairLog(front), x.time, Between(front[|front| - 1].val, x.val));
      ReplayOneMore(s[0].val.fields, Values(PairLog(front)), front[|front| - 1].val, x.val);
    }
  }
}
