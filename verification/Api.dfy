/** The ingest of agent samples and the comparison with the baseline (internal/api/server.go). */
module Api {
  import opened Sample
  import opened Rows
  import opened Text
  import opened Differ
  import opened Schema
  import opened Store
  import opened Collector

  const ACCEPTED := 202
  const BAD_REQUEST := 400

  /** What the server makes of a posted sample before validating it. */
  function Normalised(s: Timed<Snapshot>, now: int): Timed<Snapshot> {
    Timed(if s.time == ZERO_TIME then now else s.time, s.val.(source := Agent, baseline := false))
  }

  /** Ingest: a malformed sample changes nothing, any other is stored with its changes. */
  ghost function Ingested(t: Tables, s: Timed<Snapshot>, now: int): Tables {
    var n := Normalised(s, now);
    if WellFormed(n) then Recorded(t, n) else t
  }

  /** One source of a node: its latest snapshot against its newest baseline. */
  datatype SourceDiff = SourceDiff(baselineTime: Option<int>, currentTime: int, driver: string, note: string,
    fields: seq<FieldDiff>)

  const NO_BASELINE := "no healthy baseline recorded yet for this node/source"

  ghost function DiffOf(s: seq<Row<Snapshot>>, node: string, source: Source): Option<SourceDiff> {
    match Latest(s, node, source)
    case None => None
    case Some(cur) =>
      match LatestBaseline(s, node, source)
      case None => Some(SourceDiff(None, FromMs(cur.ts), cur.val.driver, NO_BASELINE, RowsOf(None, cur.val.fields)))
      case Some(b) =>
        var rows := RowsOf(Some(b.val.fields), cur.val.fields);
        Some(SourceDiff(Some(FromMs(b.ts)), FromMs(cur.ts), cur.val.driver, "", rows))
  }

  datatype DiffResponse = BadAgainst | NoSnapshots | Sources(sources: map<Source, SourceDiff>)

  ghost function Compared(s: seq<Row<Snapshot>>, node: string, sources: seq<Source>): map<Source, SourceDiff> {
    if sources == [] then map[] else
      var front, source := Compared(s, node, sources[..|sources| - 1]), sources[|sources| - 1];
      match DiffOf(s, node, source) case None => front case Some(d) => front[source := d]
  }

  ghost function Answered(s: seq<Row<Snapshot>>, against: string, node: string): DiffResponse {
    if against != "" && against != "baseline" then BadAgainst
    else if Compared(s, node, [API, Agent]) == map[] then NoSnapshots
    else Sources(Compared(s, node, [API, Agent]))
  }

  class Server {
    const db: Db

    constructor (db: Db)
      ensures this.db == db
    {
      this.db := db;
    }

    method AgentSnapshot(posted: Timed<Snapshot>, now: int) returns (status: int)
      modifies db
      ensures db.View() == Ingested(old(db.View()), posted, now)
      ensures status == if WellFormed(Normalised(posted, now)) then 202 else 400
    {
      var snap := Timed(posted.time, posted.val.(source := Agent, baseline := false));
      if snap.time == ZERO_TIME { snap := Timed(now, snap.val); }
      var err := Validate(snap);
      if err != None { return BAD_REQUEST; }
      RecordSample(snap);
      return ACCEPTED;
    }

    method RecordSample(snap: Timed<Snapshot>)
      requires snap.val.source == Agent
      modifies db
      ensures db.View() == Recorded(old(db.View()), snap)
    {
      var prev := db.LatestSnapshot(snap.val.node, Agent);
      var _ := db.PutSnapshot(snap);
      var changes := ChangesSince(match prev case None => None case Some(r) => Some(r.val), snap);
      assert changes == Stamp(snap.time, ChangesFrom(prev, snap.val));
      db.PutChanges(changes);
    }

    /** The latest snapshot of one source against its newest baseline; nothing without a snapshot. */
    method DiffSource(node: string, source: Source) returns (d: Option<SourceDiff>)
      ensures d == DiffOf(db.snapshots, node, source)
    {
      hide RowsOf;
      var cur := db.LatestSnapshot(node, source);
      if cur == None { return None; }
      var base := LatestBaseline(db.snapshots, node, source);
      var time, note, fields := None, "", None;
      if base == None {
        note := NO_BASELINE;
      } else {
        time, fields := Some(FromMs(base.value.ts)), Some(base.value.val.fields);
      }
      var rows := CompareFields(fields, cur.value.val.fields);
      d := Some(SourceDiff(time, FromMs(cur.value.ts), cur.value.val.driver, note, rows));
    }

    /** Both sources of a node against their baselines; not found when it has no snapshot at all. */
    method Diff(against: string, node: string) returns (r: DiffResponse)
      ensures r == Answered(db.snapshots, against, node)
    {
      hide DiffOf;
      if against != "" && against != "baseline" { return BadAgainst; }
      var out: map<Source, SourceDiff> := map[];
      var sources := [API, Agent];
      for i := 0 to |sources|
        invariant out == Compared(db.snapshots, node, sources[..i])
      {
        var d := DiffSource(node, sources[i]);
        assert sources[..i + 1][..i] == sources[..i];
        if d.Some? { out := out[sources[i] := d.value]; }
      }
      assert sources[..|sources|] == sources;
      return if out == map[] then NoSnapshots else Sources(out);
    }
  }

  /** The change records of an agent sample, a changed driver included. */
  method ChangesSince(prev: Option<Snapshot>, snap: Timed<Snapshot>) returns (changes: seq<Timed<Change>>)
    ensures changes == Stamp(snap.time, match prev case None => [] case Some(p) => Between(p, snap.val))
  {
    changes := Snapshots(prev, snap);
    if prev.Some? && prev.value.driver != snap.val.driver {
      var c := Change(snap.val.node, snap.val.source, "driver",
                      Present(JString(prev.value.driver)), Present(JString(snap.val.driver)), Info);
      StampSnoc(snap.time, Diff(prev.value, snap.val), c);
      changes := changes + [Timed(snap.time, c)];
      assert DriverChange(prev.value, snap.val) == [c];
    } else if prev.Some? {
      assert Between(prev.value, snap.val) == Diff(prev.value, snap.val);
    }
  }

  // --- the rows of the comparison -----------------------------------------------------

  datatype FieldDiff = FieldDiff(field: string, baseline: Option<Field>, current: Option<Field>, changed: bool)

  function Lookup(f: Fields, k: string): Option<Field> {
    if k in f then Some(f[k]) else None
  }

  function RowOf(base: Option<Fields>, cur: Fields, k: string): FieldDiff {
    var b := match base case None => None case Some(f) => Lookup(f, k);
    var c := Lookup(cur, k);
    FieldDiff(k, b, c, base.Some? && (b == None || c == None || !b.value.Equal(c.value)))
  }

  function KeysOf(base: Option<Fields>, cur: Fields): set<string> {
    match base case None => cur.Keys case Some(f) => f.Keys + cur.Keys
  }

  function RowsOver(base: Option<Fields>, cur: Fields, keys: seq<string>): (r: seq<FieldDiff>)
    ensures |r| == |keys|
    ensures forall i :: 0 <= i < |keys| ==> r[i] == RowOf(base, cur, keys[i])
  {
    seq(|keys|, i requires 0 <= i < |keys| => RowOf(base, cur, keys[i]))
  }

  /** One row per key of either side, in key order. */
  ghost function RowsOf(base: Option<Fields>, cur: Fields): seq<FieldDiff> {
    RowsOver(base, cur, SortedKeys(KeysOf(base, cur)))
  }

  ghost predicate InOrder(s: seq<FieldDiff>) {
    forall i, j :: 0 <= i < j < |s| ==> Leq(s[i].field, s[j].field)
  }

  method Swap(f: array<FieldDiff>, i: nat, j: nat)
    requires i < f.Length && j < f.Length
    modifies f
    ensures f[..] == old(f[..])[i := old(f[j])][j := old(f[i])]
    ensures multiset(f[..]) == multiset(old(f[..]))
  {
    f[i], f[j] := f[j], f[i];
  }

  /** Insertion sort in place, by field name. */
  method SortFields(f: array<FieldDiff>)
    modifies f
    ensures InOrder(f[..])
    ensures multiset(f[..]) == multiset(old(f[..]))
  {
    var i := 1;
    while i < f.Length
      invariant 1 <= i
      invariant OrderedTo(f, if i < f.Length then i else f.Length)
      invariant multiset(f[..]) == multiset(old(f[..]))
    {
      Sink(f, i);
      i := i + 1;
    }
  }

  ghost predicate OrderedTo(f: array<FieldDiff>, n: int)
    requires n <= f.Length
    reads f
  {
    forall a, b :: 0 <= a < b < n ==> Leq(f[a].field, f[b].field)
  }

  /** The inner loop: the row at `i` moves left past the rows with a greater name. */
  method Sink(f: array<FieldDiff>, i: nat)
    requires i < f.Length && OrderedTo(f, i)
    modifies f
    ensures OrderedTo(f, i + 1)
    ensures multiset(f[..]) == multiset(old(f[..]))
  {
    var j := i;
    while j > 0 && Less(f[j].field, f[j - 1].field)
      invariant 0 <= j <= i
      invariant forall a, b :: 0 <= a < b <= i && a != j && b != j ==> Leq(f[a].field, f[b].field)
      invariant forall b :: j < b <= i ==> Leq(f[j].field, f[b].field)
      invariant multiset(f[..]) == multiset(old(f[..]))
    {
      Swap(f, j - 1, j);
      j := j - 1;
    }
    if j > 0 { LessTotal(f[j].field, f[j - 1].field); }
    forall a | 0 <= a < j ensures Leq(f[a].field, f[j].field) {
      if a < j - 1 { LeqTransitive(f[a].field, f[j - 1].field, f[j].field); }
    }
  }

  function RowName(): FieldDiff -> string { (r: FieldDiff) => r.field }

  lemma RowsOverMembers(base: Option<Fields>, cur: Fields, keys: seq<string>, r: FieldDiff)
    ensures r in RowsOver(base, cur, keys) <==> r.field in keys && r == RowOf(base, cur, r.field)
  {
    var rows := RowsOver(base, cur, keys);
    if r in rows {
      var i :| 0 <= i < |rows| && rows[i] == r;
      assert keys[i] in keys;
    }
    if r.field in keys && r == RowOf(base, cur, r.field) {
      var i :| 0 <= i < |keys| && keys[i] == r.field;
      assert rows[i] == r;
    }
  }

  lemma RowsOverSorted(base: Option<Fields>, cur: Fields, keys: seq<string>)
    requires StrictlySorted(keys)
    ensures StrictlyBy(RowsOver(base, cur, keys), RowName())
  {
  }

  lemma RowsOfMembers(base: Option<Fields>, cur: Fields, r: FieldDiff)
    ensures r in RowsOf(base, cur) <==> r.field in KeysOf(base, cur) && r == RowOf(base, cur, r.field)
  {
    RowsOverMembers(base, cur, SortedKeys(KeysOf(base, cur)), r);
  }

  /** The rows of distinct keys, put in order, are the rows in key order. */
  lemma OrderedRows(base: Option<Fields>, cur: Fields, rows: seq<FieldDiff>)
    requires InOrder(rows)
    requires forall i, j :: 0 <= i < j < |rows| ==> rows[i].field != rows[j].field
    requires forall r :: r in rows <==> r.field in KeysOf(base, cur) && r == RowOf(base, cur, r.field)
    ensures rows == RowsOf(base, cur)
  {
    RowsOverSorted(base, cur, SortedKeys(KeysOf(base, cur)));
    forall r ensures r in rows <==> r in RowsOf(base, cur) { RowsOfMembers(base, cur, r); }
    assert StrictlyBy(rows, RowName());
    StrictlyByUnique(rows, RowsOf(base, cur), RowName());
  }

  lemma StillDistinct(a: seq<FieldDiff>, b: seq<FieldDiff>)
    requires multiset(a) == multiset(b)
    requires forall i, j :: 0 <= i < j < |a| ==> a[i].field != a[j].field
    ensures forall i, j :: 0 <= i < j < |b| ==> b[i].field != b[j].field
    ensures forall r :: r in b <==> r in a
  {
    SameMembers(a, b);
    forall x ensures multiset(a)[x] <= 1 { DistinctCountsOnce(a, x); }
    forall i, j | 0 <= i < j < |b| ensures b[i].field != b[j].field {
      NoDuplicates(b, i, j);
      assert b[i] in a && b[j] in a;
    }
  }

  lemma {:induction false} DistinctCountsOnce(a: seq<FieldDiff>, x: FieldDiff)
    requires forall i, j :: 0 <= i < j < |a| ==> a[i].field != a[j].field
    ensures multiset(a)[x] <= 1
  {
    if a != [] {
      var a', y := a[..|a| - 1], a[|a| - 1];
      assert a == a' + [y];
      DistinctCountsOnce(a', x);
      if x == y { assert x !in a'; }
    }
  }

  /** Builds the rows in map order and sorts them in place. */
  method CompareFields(base: Option<Fields>, cur: Fields) returns (rows: seq<FieldDiff>)
    ensures rows == RowsOf(base, cur)
  {
    var found := CollectRows(base, cur);
    var f := new FieldDiff[|found|](i requires 0 <= i < |found| => found[i]);
    assert f[..] == found;
    SortFields(f);
    rows := f[..];
    StillDistinct(found, rows);
    OrderedRows(base, cur, rows);
  }

  method CollectRows(base: Option<Fields>, cur: Fields) returns (found: seq<FieldDiff>)
    ensures forall i, j :: 0 <= i < j < |found| ==> found[i].field != found[j].field
    ensures forall r :: r in found <==> r.field in KeysOf(base, cur) && r == RowOf(base, cur, r.field)
  {
    var keys := KeysOf(base, cur);
    var rest := keys;
    found := [];
    while rest != {}
      invariant rest <= keys
      invariant forall i, j :: 0 <= i < j < |found| ==> found[i].field != found[j].field
      invariant forall r :: r in found <==> r.field in keys - rest && r == RowOf(base, cur, r.field)
      decreases rest
    {
      var k :| k in rest;
      assert forall i :: 0 <= i < |found| ==> found[i] in found;
      found := found + [RowOf(base, cur, k)];
      rest := rest - {k};
    }
  }

  // --- what the answer says ----------------------------------------------------------------

  lemma ComparedSnoc(s: seq<Row<Snapshot>>, node: string, sources: seq<Source>, source: Source)
    ensures Compared(s, node, sources + [source]) ==
            match DiffOf(s, node, source)
            case None => Compared(s, node, sources)
            case Some(d) => Compared(s, node, sources)[source := d]
  {
    hide DiffOf;
    assert (sources + [source])[..|sources + [source]| - 1] == sources;
  }

  /** The comparison covers exactly the sources with a snapshot, and is not found exactly when there is none. */
  lemma AnswerCovers(s: seq<Row<Snapshot>>, node: string, source: Source)
    ensures var r := Answered(s, "baseline", node);
            && (r == NoSnapshots <==> Latest(s, node, API) == None && Latest(s, node, Agent) == None)
            && (r.Sources? ==>
                  (source in r.sources <==> (source == API || source == Agent) && Latest(s, node, source).Some?))
            && (r.Sources? && source in r.sources ==> DiffOf(s, node, source) == Some(r.sources[source]))
  {
    hide RowsOf, Latest, LatestBaseline;
    ComparedSnoc(s, node, [], API);
    ComparedSnoc(s, node, [API], Agent);
    assert [] + [API] == [API] && [API] + [Agent] == [API, Agent];
    var m := Compared(s, node, [API, Agent]);
    assert API in m <==> Latest(s, node, API).Some?;
    assert Agent in m <==> Latest(s, node, Agent).Some?;
  }

  /** The newest of the rows that satisfy `p`, by time and then by rowid. */
  ghost predicate IsNewest(s: seq<Row<Snapshot>>, p: Row<Snapshot> -> bool, r: Row<Snapshot>) {
    r in s && p(r) && forall x :: x in s && p(x) ==> x == r || Older(x, r)
  }

  /** One row of the answer for a key: its field in the baseline, if any, and in the latest snapshot, if any; flagged
      when there is a baseline and the two differ or one is missing. */
  ghost predicate FieldTells(row: FieldDiff, base: Option<Snapshot>, cur: Snapshot) {
    var k := row.field;
    && row.baseline == (if base.Some? && k in base.value.fields then Some(base.value.fields[k]) else None)
    && row.current == (if k in cur.fields then Some(cur.fields[k]) else None)
    && (row.changed <==>
          base.Some? && !(k in base.value.fields && k in cur.fields && base.value.fields[k].Equal(cur.fields[k])))
  }

  /** One source of the answer: times, driver, and a note exactly when there is no baseline; one row for every key of
      either snapshot, in order of the keys. */
  ghost predicate Tells(d: SourceDiff, base: Option<Row<Snapshot>>, cur: Row<Snapshot>) {
    && d.currentTime == FromMs(cur.ts) && d.driver == cur.val.driver
    && d.baselineTime == (match base case None => None case Some(b) => Some(FromMs(b.ts)))
    && d.note == (if base == None then "no healthy baseline recorded yet for this node/source" else "")
    && (forall row :: row in d.fields ==> FieldTells(row, if base == None then None else Some(base.value.val), cur.val))
    && (forall k :: (exists row :: row in d.fields && row.field == k) <==>
                    k in cur.val.fields || (base.Some? && k in base.value.val.fields))
    && forall i, j :: 0 <= i < j < |d.fields| ==> Less(d.fields[i].field, d.fields[j].field)
  }

  lemma RowOfTells(base: Option<Snapshot>, cur: Snapshot, k: string)
    ensures FieldTells(RowOf(if base == None then None else Some(base.value.fields), cur.fields, k), base, cur)
  {
  }

  lemma NewestIs(s: seq<Row<Snapshot>>, next: int, p: Row<Snapshot> -> bool)
    requires Ordered(s, next)
    ensures var r := Newest(Filter(s, p));
            match r case None => forall x :: x in s ==> !p(x) case Some(l) => IsNewest(s, p, l)
  {
    hide Newest, Filter, Ordered;
    FilterOrdered(s, p, next);
    if Filter(s, p) != [] { NewestIsLast(Filter(s, p), next); }
  }

  lemma RowOfKey(base: Option<Fields>, cur: Fields, k: string)
    ensures (exists row :: row in RowsOf(base, cur) && row.field == k) <==> k in KeysOf(base, cur)
  {
    hide RowOf, RowsOf;
    NameOfRow(base, cur, k);
    RowsOfMembers(base, cur, RowOf(base, cur, k));
    forall row | row in RowsOf(base, cur) && row.field == k ensures k in KeysOf(base, cur) {
      RowsOfMembers(base, cur, row);
    }
  }

  lemma FieldsTell(base: Option<Snapshot>, cur: Snapshot)
    ensures var rows := RowsOf(if base == None then None else Some(base.value.fields), cur.fields);
            && (forall row :: row in rows ==> FieldTells(row, base, cur))
            && (forall k :: (exists row :: row in rows && row.field == k) <==>
                            k in cur.fields || (base.Some? && k in base.value.fields))
            && forall i, j :: 0 <= i < j < |rows| ==> Less(rows[i].field, rows[j].field)
  {
    hide RowsOf, FieldTells, KeysOf;
    var f := if base == None then None else Some(base.value.fields);
    forall row | row in RowsOf(f, cur.fields) ensures FieldTells(row, base, cur) {
      RowsOfMembers(f, cur.fields, row);
      RowOfTells(base, cur, row.field);
    }
    forall k ensures (exists row :: row in RowsOf(f, cur.fields) && row.field == k) <==>
                     k in cur.fields || (base.Some? && k in base.value.fields) {
      RowOfKey(f, cur.fields, k);
      KeyOfEither(base, cur, k);
    }
    RowsOfSorted(f, cur.fields);
  }

  lemma KeyOfEither(base: Option<Snapshot>, cur: Snapshot, k: string)
    ensures k in KeysOf(if base == None then None else Some(base.value.fields), cur.fields) <==>
            k in cur.fields || (base.Some? && k in base.value.fields)
  {
  }

  lemma RowsOfSorted(base: Option<Fields>, cur: Fields)
    ensures var rows := RowsOf(base, cur);
            forall i, j :: 0 <= i < j < |rows| ==> Less(rows[i].field, rows[j].field)
  {
    RowsOverSorted(base, cur, SortedKeys(KeysOf(base, cur)));
  }

  lemma NameOfRow(base: Option<Fields>, cur: Fields, k: string)
    ensures RowOf(base, cur, k).field == k
  {
  }

  lemma DiffTells(s: seq<Row<Snapshot>>, node: string, source: Source, base: Option<Row<Snapshot>>, cur: Row<Snapshot>)
    requires Latest(s, node, source) == Some(cur) && LatestBaseline(s, node, source) == base
    ensures DiffOf(s, node, source).Some? && Tells(DiffOf(s, node, source).value, base, cur)
  {
    hide RowsOf, Latest, LatestBaseline, FieldTells;
    FieldsTell(if base == None then None else Some(base.value.val), cur.val);
  }

  /** What the comparison of a node answers, on any store with its rowids in order: refused for anything but the
      baseline; not found exactly when the node has no snapshot of either source; and otherwise, for exactly the
      sources that have one, the latest snapshot against the newest one marked as a baseline. */
  lemma AnswerTells(s: seq<Row<Snapshot>>, next: int, against: string, node: string, source: Source)
    requires Ordered(s, next)
    ensures var r := Answered(s, against, node);
            var mine := (x: Row<Snapshot>) => x.val.node == node && x.val.source == source;
            var marked := (x: Row<Snapshot>) => x.val.node == node && x.val.source == source && x.val.baseline;
            && (r == BadAgainst <==> against != "" && against != "baseline")
            && (r == NoSnapshots <==>
                  (against == "" || against == "baseline") &&
                  forall x :: x in s ==> !(x.val.node == node && (x.val.source == API || x.val.source == Agent)))
            && (r.Sources? && (source == API || source == Agent) ==>
                  (source in r.sources <==> exists x :: x in s && mine(x)))
            && (r.Sources? && source in r.sources ==>
                  exists cur: Row<Snapshot>, base: Option<Row<Snapshot>> ::
                    IsNewest(s, mine, cur) && Tells(r.sources[source], base, cur) &&
                    match base case None => (forall x :: x in s ==> !marked(x)) case Some(b) => IsNewest(s, marked, b))
  {
    hide DiffOf, Newest, Filter, IsNewest, Tells, Ordered;
    var r := Answered(s, against, node);
    AnswerCovers(s, node, source);
    NewestIs(s, next, Of(node, API));
    NewestIs(s, next, Of(node, Agent));
    NewestIs(s, next, Of(node, source));
    NewestIs(s, next, BaselineOf(node, source));
    if r.Sources? && source in r.sources {
      var cur, base := Latest(s, node, source).value, LatestBaseline(s, node, source);
      DiffTells(s, node, source, base, cur);
    }
  }

  // --- what the flags mean -----------------------------------------------------------------

  /** No row is flagged exactly when the latest snapshot has the baseline's fields. */
  lemma NothingFlaggedExactlyWhenEqual(base: Fields, cur: Fields)
    ensures (forall r :: r in RowsOf(Some(base), cur) ==> !r.changed) <==> FieldsEqual(base, cur)
  {
    hide FieldsEqual, RowsOf;
    FieldsEqualSameKeys(base, cur);
    if FieldsEqual(base, cur) {
      forall r | r in RowsOf(Some(base), cur) ensures !r.changed { RowsOfMembers(Some(base), cur, r); }
    } else {
      var k :| k in base.Keys + cur.Keys && !(k in base && k in cur && base[k].Equal(cur[k]));
      RowsOfMembers(Some(base), cur, RowOf(Some(base), cur, k));
    }
  }

  /** The flags against the change records of the same two snapshots: every recorded field is flagged, and the
      other flagged rows are the changes the transition table suppresses and the keys only one side sampled. */
  lemma FlaggedAgainstRecorded(base: Snapshot, cur: Snapshot, k: string)
    requires k in base.fields || k in cur.fields
    ensures var row := RowOf(Some(base.fields), cur.fields, k);
            var recorded := exists c :: c in Diff(base, cur) && c.field == k;
            && (recorded ==> row.changed)
            && (row.changed && !recorded <==>
                if k in base.fields && k in cur.fields then Suppressed(base.fields[k], cur.fields[k])
                else
                  k in cur.fields || base.fields[k].state == StateUnknown
                  || base.fields[k].state == StateNotApplicable)
  {
    var change := ChangeAt(base, cur, k);
    if change.Some? { DiffMembers(base, cur, change.value); }
    forall c | c in Diff(base, cur) && c.field == k ensures change.Some? { DiffMembers(base, cur, c); }
  }
}
