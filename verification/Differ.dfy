/** The transition table, and the per-key comparison of two snapshots (internal/diff). */
module Differ {
  import opened Sample
  import opened Text

  datatype Severity = Alert | Info | Recovery | Degraded

  datatype Change = Change(node: string, source: Source, field: string, before: Field, after: Field, severity: Severity)

  /** The severity of a transition, or nothing when it emits no change record. */
  function Classify(before: Field, after: Field): (r: Option<Severity>)
    ensures r == Some(Alert) <==> before.state == StatePresent && after.state == StateAbsent
    ensures r == Some(Recovery) <==> before.state == StateAbsent && after.state == StatePresent
    ensures r == Some(Info) <==>
            before.state == StatePresent && after.state == StatePresent && before.value != after.value
    ensures r == Some(Degraded) <==>
              after.state == StateUnknown && before.state != StateUnknown && before.state != StateNotApplicable
  {
    if before.state == StateNotApplicable || after.state == StateNotApplicable then None
    else if before.state == StateUnknown then None
    else if after.state == StateUnknown then Some(Degraded)
    else if before.state == StatePresent && after.state == StateAbsent then Some(Alert)
    else if before.state == StateAbsent && after.state == StatePresent then Some(Recovery)
    else if before.state == StatePresent && after.state == StatePresent && !before.Equal(after) then Some(Info)
    else None
  }

  /** The table sees fields only up to `Equal`, and equal readings emit nothing. */
  lemma ClassifyRespectsEqual(a: Field, a': Field, b: Field, b': Field)
    requires a.Equal(a') && b.Equal(b')
    ensures Classify(a, b) == Classify(a', b')
    ensures Classify(a, a') == None
  {
  }

  /** A key missing from a snapshot reads as unknown. */
  function Reading(f: Fields, k: string): Field {
    if k in f then f[k] else Unknown("not sampled")
  }

  function ChangeAt(prev: Snapshot, cur: Snapshot, k: string): Option<Change> {
    var o, n := Reading(prev.fields, k), Reading(cur.fields, k);
    match Classify(o, n)
    case None => None
    case Some(sev) => Some(Change(cur.node, cur.source, k, o, n, sev))
  }

  /** The change records for the given keys, in that order. */
  function DiffOver(prev: Snapshot, cur: Snapshot, keys: seq<string>): seq<Change> {
    if keys == [] then [] else
      DiffOver(prev, cur, keys[..|keys| - 1]) +
      match ChangeAt(prev, cur, keys[|keys| - 1])
      case None => []
      case Some(c) => [c]
  }

  /** What the comparison of two snapshots means: one record per emitting key, in key order. */
  ghost function Diff(prev: Snapshot, cur: Snapshot): seq<Change> {
    DiffOver(prev, cur, SortedKeys(prev.fields.Keys + cur.fields.Keys))
  }

  /** Change records as the source carries them, all stamped with the later snapshot's time. */
  function Stamp(t: int, cs: seq<Change>): (r: seq<Timed<Change>>)
    ensures |r| == |cs|
    ensures forall i :: 0 <= i < |cs| ==> r[i] == Timed(t, cs[i])
  {
    seq(|cs|, i requires 0 <= i < |cs| => Timed(t, cs[i]))
  }

  lemma StampSnoc(t: int, cs: seq<Change>, c: Change)
    ensures Stamp(t, cs + [c]) == Stamp(t, cs) + [Timed(t, c)]
  {
  }

  function FieldName(): Change -> string { (c: Change) => c.field }

  ghost predicate ByField(s: seq<Change>) {
    StrictlyBy(s, FieldName())
  }

  lemma {:induction false} DiffOverMembers(prev: Snapshot, cur: Snapshot, keys: seq<string>, c: Change)
    ensures c in DiffOver(prev, cur, keys) <==> c.field in keys && ChangeAt(prev, cur, c.field) == Some(c)
  {
    if keys != [] {
      var k := keys[|keys| - 1];
      assert keys == keys[..|keys| - 1] + [k];
      DiffOverMembers(prev, cur, keys[..|keys| - 1], c);
    }
  }

  /** A record is emitted exactly for the keys of either side whose readings the table reports. */
  lemma DiffMembers(prev: Snapshot, cur: Snapshot, c: Change)
    ensures c in Diff(prev, cur) <==>
            (c.field in prev.fields || c.field in cur.fields) && ChangeAt(prev, cur, c.field) == Some(c)
  {
    DiffOverMembers(prev, cur, SortedKeys(prev.fields.Keys + cur.fields.Keys), c);
  }

  lemma {:induction false} DiffOverSorted(prev: Snapshot, cur: Snapshot, keys: seq<string>)
    requires StrictlySorted(keys)
    ensures ByField(DiffOver(prev, cur, keys))
  {
    if keys != [] {
      var front, k := keys[..|keys| - 1], keys[|keys| - 1];
      DiffOverSorted(prev, cur, front);
      forall i | 0 <= i < |DiffOver(prev, cur, front)| ensures Less(DiffOver(prev, cur, front)[i].field, k) {
        DiffOverMembers(prev, cur, front, DiffOver(prev, cur, front)[i]);
      }
    }
  }

  lemma DiffSorted(prev: Snapshot, cur: Snapshot)
    ensures ByField(Diff(prev, cur))
  {
    DiffOverSorted(prev, cur, SortedKeys(prev.fields.Keys + cur.fields.Keys));
  }

  // --- the comparison as the source computes it ---------------------------------------

  /** `sort.Slice` by field name. */
  function SortByField(s: seq<Change>): (r: seq<Change>)
    ensures forall c :: c in r <==> c in s
  {
    if s == [] then [] else
      assert s == s[..|s| - 1] + [s[|s| - 1]];
      InsertByField(SortByField(s[..|s| - 1]), s[|s| - 1])
  }

  function InsertByField(s: seq<Change>, x: Change): (r: seq<Change>)
    ensures forall c :: c in r <==> c in s || c == x
  {
    if s == [] || Less(s[|s| - 1].field, x.field) then s + [x] else
      assert s == s[..|s| - 1] + [s[|s| - 1]];
      InsertByField(s[..|s| - 1], x) + [s[|s| - 1]]
  }

  lemma {:induction false} InsertByFieldSorted(s: seq<Change>, x: Change)
    requires ByField(s)
    requires forall c :: c in s ==> c.field != x.field
    ensures ByField(InsertByField(s, x))
  {
    if s != [] {
      var s', y := s[..|s| - 1], s[|s| - 1];
      if Less(y.field, x.field) {
        forall i | 0 <= i < |s| ensures Less(s[i].field, x.field) {
          if i < |s| - 1 { LessTransitive(s[i].field, y.field, x.field); }
        }
      } else {
        InsertByFieldSorted(s', x);
        LessTotal(y.field, x.field);
        assert y in s;
        var r := InsertByField(s', x);
        forall i | 0 <= i < |r| ensures Less(r[i].field, y.field) {
          assert r[i] in r;
        }
      }
    }
  }

  lemma {:induction false} SortByFieldSorted(s: seq<Change>)
    requires forall i, j :: 0 <= i < j < |s| ==> s[i].field != s[j].field
    ensures ByField(SortByField(s))
  {
    if s != [] {
      SortByFieldSorted(s[..|s| - 1]);
      InsertByFieldSorted(SortByField(s[..|s| - 1]), s[|s| - 1]);
    }
  }

  /** Compares cur against prev; the keys come in whatever order the map yields them. */
  method Snapshots(prev: Option<Snapshot>, cur: Timed<Snapshot>) returns (out: seq<Timed<Change>>)
    ensures out == match prev case None => [] case Some(p) => Stamp(cur.time, Diff(p, cur.val))
  {
    if prev == None { return []; }
    var p, c := prev.value, cur.val;
    var keys := p.fields.Keys + c.fields.Keys;
    var rest := keys;
    var found: seq<Change> := [];
    while rest != {}
      invariant rest <= keys
      invariant forall x :: x in found <==> x.field in keys - rest && ChangeAt(p, c, x.field) == Some(x)
      invariant forall i, j :: 0 <= i < j < |found| ==> found[i].field != found[j].field
      decreases rest
    {
      var k :| k in rest;
      var o := if k in p.fields then p.fields[k] else Unknown("not sampled");
      var n := if k in c.fields then c.fields[k] else Unknown("not sampled");
      var sev := Classify(o, n);
      if sev != None {
        assert forall i :: 0 <= i < |found| ==> found[i] in found;
        found := found + [Change(c.node, c.source, k, o, n, sev.value)];
      }
      rest := rest - {k};
    }
    var sorted := SortByField(found);
    assert sorted == Diff(p, c) by {
      SortByFieldSorted(found);
      DiffSorted(p, c);
      forall x ensures x in sorted <==> x in Diff(p, c) { DiffMembers(p, c, x); }
      StrictlyByUnique(sorted, Diff(p, c), FieldName());
    }
    out := Stamp(cur.time, sorted);
  }

  // --- what the log of changes says --------------------------------------------------------

  /** Comparing a snapshot with one whose fields are equal to it emits nothing. */
  lemma EqualSnapshotsEmitNothing(prev: Snapshot, cur: Snapshot)
    requires FieldsEqual(prev.fields, cur.fields)
    ensures Diff(prev, cur) == []
  {
    FieldsEqualSameKeys(prev.fields, cur.fields);
    if Diff(prev, cur) != [] {
      var c := Diff(prev, cur)[0];
      DiffMembers(prev, cur, c);
      ClassifyRespectsEqual(prev.fields[c.field], cur.fields[c.field], cur.fields[c.field], cur.fields[c.field]);
    }
  }

  /** Same record up to the reasons kept with the two readings. */
  predicate SameChange(a: Change, b: Change) {
    && a.node == b.node && a.source == b.source && a.field == b.field && a.severity == b.severity
    && a.before.Equal(b.before) && a.after.Equal(b.after)
  }

  predicate SameChanges(a: seq<Change>, b: seq<Change>) {
    |a| == |b| && forall i :: 0 <= i < |a| ==> SameChange(a[i], b[i])
  }

  lemma {:induction false} DiffOverRespectsEqual(p: Snapshot, p': Snapshot, c: Snapshot, c': Snapshot,
      keys: seq<string>)
    requires FieldsEqual(p.fields, p'.fields) && FieldsEqual(c.fields, c'.fields)
    requires c.node == c'.node && c.source == c'.source
    ensures SameChanges(DiffOver(p, c, keys), DiffOver(p', c', keys))
  {
    if keys != [] {
      var k := keys[|keys| - 1];
      DiffOverRespectsEqual(p, p', c, c', keys[..|keys| - 1]);
      FieldsEqualSameKeys(p.fields, p'.fields);
      FieldsEqualSameKeys(c.fields, c'.fields);
      ClassifyRespectsEqual(Reading(p.fields, k), Reading(p'.fields, k), Reading(c.fields, k), Reading(c'.fields, k));
    }
  }

  /** Replacing snapshots by equal ones does not change what their comparison reports. */
  lemma DiffRespectsEqual(p: Snapshot, p': Snapshot, c: Snapshot, c': Snapshot)
    requires FieldsEqual(p.fields, p'.fields) && FieldsEqual(c.fields, c'.fields)
    requires c.node == c'.node && c.source == c'.source
    ensures SameChanges(Diff(p, c), Diff(p', c'))
  {
    FieldsEqualSameKeys(p.fields, p'.fields);
    FieldsEqualSameKeys(c.fields, c'.fields);
    DiffOverRespectsEqual(p, p', c, c', SortedKeys(p.fields.Keys + c.fields.Keys));
  }

  /** Applying change records in order. */
  function Replay(f: Fields, cs: seq<Change>): Fields {
    if cs == [] then f else Replay(f, cs[..|cs| - 1])[cs[|cs| - 1].field := cs[|cs| - 1].after]
  }

  lemma {:induction false} ReplayConcat(f: Fields, a: seq<Change>, b: seq<Change>)
    ensures Replay(f, a + b) == Replay(Replay(f, a), b)
  {
    if b == [] {
      assert a + b == a;
    } else {
      assert (a + b)[..|a + b| - 1] == a + b[..|b| - 1];
      ReplayConcat(f, a, b[..|b| - 1]);
    }
  }

  lemma ReplaySnoc(f: Fields, cs: seq<Change>, x: Change)
    ensures Replay(f, cs + [x]) == Replay(f, cs)[x.field := x.after]
  {
    assert (cs + [x])[..|cs + [x]| - 1] == cs;
  }

  /** The records between two snapshots, applied to any fields. */
  lemma {:induction false} ReplayOver(f: Fields, p: Snapshot, c: Snapshot, keys: seq<string>, k: string)
    ensures var r := Replay(f, DiffOver(p, c, keys));
            if k in keys && ChangeAt(p, c, k).Some? then k in r && r[k] == Reading(c.fields, k)
            else (k in r <==> k in f) && (k in r ==> r[k] == f[k])
  {
    hide Replay, Classify;
    if keys == [] {
      NothingReplayed(f);
    } else {
      var front, last := keys[..|keys| - 1], keys[|keys| - 1];
      assert keys == front + [last];
      ReplayOver(f, p, c, front, k);
      match ChangeAt(p, c, last)
      case None => assert DiffOver(p, c, keys) == DiffOver(p, c, front);
      case Some(x) => ReplaySnoc(f, DiffOver(p, c, front), x);
    }
  }

  lemma NothingReplayed(f: Fields)
    ensures Replay(f, []) == f
  {
  }

  /** A reading the table loses: it changed, but nothing is emitted for it. */
  predicate Suppressed(before: Field, after: Field) {
    && !before.Equal(after)
    && Classify(before, after) == None
  }

  /** One key of a replayed comparison: the later reading where a record was emitted, the earlier one elsewhere. */
  lemma ReplayKey(p: Snapshot, c: Snapshot, k: string)
    ensures var r := Replay(p.fields, Diff(p, c));
            && (k in r <==> k in p.fields)
            && (k in r ==> r[k] == if ChangeAt(p, c, k).Some? then Reading(c.fields, k) else p.fields[k])
  {
    ReplayOver(p.fields, p, c, SortedKeys(p.fields.Keys + c.fields.Keys), k);
  }

  predicate Reproducible(p: Fields, c: Fields) {
    p.Keys == c.Keys && forall k :: k in p.Keys ==> !Suppressed(p[k], c[k])
  }

  /** Replaying one comparison over the earlier snapshot gives the later one exactly when both have the same
      keys and no reading went through not_applicable or out of unknown. */
  lemma ReplayOneDiff(p: Snapshot, c: Snapshot)
    ensures FieldsEqual(Replay(p.fields, Diff(p, c)), c.fields) <==> Reproducible(p.fields, c.fields)
  {
    var r := Replay(p.fields, Diff(p, c));
    FieldsEqualSameKeys(r, c.fields);
    assert r.Keys == p.fields.Keys by {
      forall k ensures k in r <==> k in p.fields { ReplayKey(p, c, k); }
    }
    forall k | k in p.fields.Keys && k in c.fields.Keys
      ensures r[k].Equal(c.fields[k]) <==> !Suppressed(p.fields[k], c.fields[k])
    {
      ReplayKey(p, c, k);
      EqualIsEquivalence(c.fields[k], c.fields[k], c.fields[k]);
    }
  }

  /** What a suppressed transition looks like: through not_applicable, or out of unknown. */
  lemma SuppressedExactly(before: Field, after: Field)
    requires before.Validate() == None && after.Validate() == None
    ensures Suppressed(before, after) <==>
            before.state != after.state &&
            (before.state == StateNotApplicable || after.state == StateNotApplicable || before.state == StateUnknown)
  {
  }

  lemma ReplayPlainKey(p: Snapshot, c: Snapshot, k: string)
    requires PlainFields(p.fields) && PlainFields(c.fields) && p.fields.Keys == c.fields.Keys
    ensures var r := Replay(p.fields, Diff(p, c));
            (k in r <==> k in c.fields) && (k in c.fields ==> r[k] == c.fields[k])
  {
    ReplayKey(p, c, k);
    assert k in p.fields <==> k in c.fields.Keys;
    if k in c.fields {
      assert p.fields[k].Plain() && c.fields[k].Plain();
      EqualIsEquivalence(p.fields[k], c.fields[k], c.fields[k]);
    }
  }

  lemma SameMap(a: Fields, b: Fields)
    requires forall k :: (k in a <==> k in b) && (k in b ==> a[k] == b[k])
    ensures a == b
  {
    assert a.Keys == b.Keys;
  }

  /** Plain fields lose nothing: replay over plain snapshots with the same keys is exact. */
  lemma ReplayPlain(p: Snapshot, c: Snapshot)
    requires PlainFields(p.fields) && PlainFields(c.fields) && p.fields.Keys == c.fields.Keys
    ensures Replay(p.fields, Diff(p, c)) == c.fields
  {
    var r := Replay(p.fields, Diff(p, c));
    forall k ensures (k in r <==> k in c.fields) && (k in c.fields ==> r[k] == c.fields[k]) {
      ReplayPlainKey(p, c, k);
    }
    SameMap(r, c.fields);
  }

  // --- alerts and recoveries over a whole sequence of readings -----------------------------

  predicate ValidReadings(f: seq<Field>) {
    forall i :: 0 <= i < |f| ==> f[i].Validate() == None
  }

  /** The record emitted on arrival of reading i. */
  function Emitted(f: seq<Field>, i: int): Option<Severity>
    requires 0 < i < |f|
  {
    Classify(f[i - 1], f[i])
  }

  lemma {:induction false} FirstLeaving(f: seq<Field>, s: FieldState, i: int, j: int) returns (m: int)
    requires 0 <= i < j < |f|
    requires f[i].state == s && f[j].state != s
    ensures i < m <= j && f[m].state != s
    ensures forall x :: i <= x < m ==> f[x].state == s
    decreases j - i
  {
    if f[i + 1].state != s { m := i + 1; } else { m := FirstLeaving(f, s, i + 1, j); }
  }

  /** Between two alerts on a field lies a recovery, a degraded record, or a not_applicable reading. */
  lemma BetweenAlerts(f: seq<Field>, i: int, j: int) returns (m: int)
    requires ValidReadings(f)
    requires 0 < i < j < |f|
    requires Emitted(f, i) == Some(Alert) && Emitted(f, j) == Some(Alert)
    ensures i < m < j
    ensures Emitted(f, m) == Some(Recovery) || Emitted(f, m) == Some(Degraded) || f[m].state == StateNotApplicable
  {
    m := FirstLeaving(f, StateAbsent, i, j - 1);
  }

  /** Where every read succeeds and applies, alerts and recoveries strictly alternate. */
  lemma AlertsAndRecoveriesAlternate(f: seq<Field>, i: int, j: int) returns (m: int)
    requires ValidReadings(f)
    requires forall x :: 0 <= x < |f| ==> f[x].state == StatePresent || f[x].state == StateAbsent
    requires 0 < i < j < |f|
    requires Emitted(f, i) == Emitted(f, j)
    requires Emitted(f, i) == Some(Alert) || Emitted(f, i) == Some(Recovery)
    ensures i < m < j
    ensures Emitted(f, m) == if Emitted(f, i) == Some(Alert) then Some(Recovery) else Some(Alert)
  {
    m := FirstLeaving(f, f[i].state, i, j - 1);
  }
}
