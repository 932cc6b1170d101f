/** Fields with four explicit states, and snapshots of fields (internal/sample). */
module Sample {

  datatype Option<+T> = None | Some(value: T)

  // --- time ---------------------------------------------------------------------

  /** Instants are integer nanoseconds, as Go's time.Time. */
  const MILLI := 1_000_000
  const MINUTE := 60_000_000_000

  /** The stored column: whole milliseconds, rounded down. */
  function Ms(t: int): int { t / MILLI }

  /** The instant read back from a stored column. */
  function FromMs(v: int): int { v * MILLI }

  lemma MsMonotone(a: int, b: int)
    requires a <= b
    ensures Ms(a) <= Ms(b)
  {
  }

  /** Storage truncates: what is read back is at most one millisecond early, and stable from then on. */
  lemma MsRoundTrip(t: int, v: int)
    ensures FromMs(Ms(t)) <= t < FromMs(Ms(t)) + 1_000_000
    ensures Ms(FromMs(v)) == v
  {
  }

  /** Something observed at an instant, before it is stored. */
  datatype Timed<+T> = Timed(time: int, val: T)

  // --- fields ---------------------------------------------------------------------

  /** A JSON value. Structural equality stands for equality of the canonical encoding. */
  datatype Json = JString(s: string) | JBool(b: bool) | JNumber(n: int) | JStrings(items: seq<string>)

  /** The field states; `Invalid` is any other string a client may send. */
  datatype FieldState = StatePresent | StateAbsent | StateNotApplicable | StateUnknown | Invalid(name: string)

  datatype FieldError = NoValue | CarriesValue | InvalidState

  datatype Field = Field(state: FieldState, value: Option<Json>, reason: string) {

    /** Nothing when the field is well formed. */
    function Validate(): (err: Option<FieldError>)
      ensures err == None <==>
                (state == StatePresent && value.Some?) ||
                (state in {StateAbsent, StateNotApplicable, StateUnknown} && value == None)
    {
      match state
      case StatePresent => if value == None then Some(NoValue) else None
      case StateAbsent | StateNotApplicable | StateUnknown => if value != None then Some(CarriesValue) else None
      case Invalid(_) => Some(InvalidState)
    }

    /** Same state and, for present fields, same value; the reason is ignored. */
    predicate Equal(o: Field) {
      if state != o.state then false
      else if state != StatePresent then true
      else value == o.value
    }

    /** No reason, and a value exactly when present: what the API server's fields look like. */
    predicate Plain() {
      reason == "" && ((state == StatePresent && value.Some?) || (state == StateAbsent && value == None))
    }
  }

  function Present(v: Json): Field { Field(StatePresent, Some(v), "") }
  function Absent(): Field { Field(StateAbsent, None, "") }
  function NotApplicable(reason: string): Field { Field(StateNotApplicable, None, reason) }
  function Unknown(reason: string): Field { Field(StateUnknown, None, reason) }

  type Fields = map<string, Field>

  /** `Equal` is an equivalence, and on plain fields it is equality. */
  lemma EqualIsEquivalence(a: Field, b: Field, c: Field)
    ensures a.Equal(a)
    ensures a.Equal(b) ==> b.Equal(a)
    ensures a.Equal(b) && b.Equal(c) ==> a.Equal(c)
    ensures a.Plain() && b.Plain() ==> (a.Equal(b) <==> a == b)
  {
  }

  /** Key by key comparison of two field maps, as the source does it: equal sizes, then one map's keys. */
  predicate FieldsEqual(a: Fields, b: Fields) {
    |a| == |b| && forall k :: k in a ==> k in b && a[k].Equal(b[k])
  }

  /** Equal sizes and one-sided containment make the key sets equal. */
  lemma FieldsEqualSameKeys(a: Fields, b: Fields)
    ensures FieldsEqual(a, b) <==> a.Keys == b.Keys && forall k :: k in a.Keys ==> a[k].Equal(b[k])
  {
    assert |a| == |a.Keys| && |b| == |b.Keys|;
    if FieldsEqual(a, b) {
      assert a.Keys <= b.Keys;
      SubsetOfSameSize(a.Keys, b.Keys);
    }
  }

  lemma SubsetOfSameSize<T>(a: set<T>, b: set<T>)
    requires a <= b && |a| == |b|
    ensures a == b
  {
    assert b == a + (b - a);
    assert |b| == |a| + |b - a|;
  }

  lemma FieldsEqualIsEquivalence(a: Fields, b: Fields, c: Fields)
    ensures FieldsEqual(a, a)
    ensures FieldsEqual(a, b) ==> FieldsEqual(b, a)
    ensures FieldsEqual(a, b) && FieldsEqual(b, c) ==> FieldsEqual(a, c)
  {
    FieldsEqualSameKeys(a, b);
    FieldsEqualSameKeys(b, a);
  }

  predicate PlainFields(f: Fields) {
    forall k :: k in f ==> f[k].Plain()
  }

  lemma PlainFieldsEqual(a: Fields, b: Fields)
    requires PlainFields(a) && PlainFields(b)
    ensures FieldsEqual(a, b) <==> a == b
  {
    FieldsEqualSameKeys(a, b);
  }

  // --- snapshots ---------------------------------------------------------------------

  datatype Source = API | Agent | OtherSource(name: string)

  datatype Snapshot = Snapshot(
    node: string, source: Source,
    driver: string, confidence: int, driverReason: string,
    fields: Fields, baseline: bool)

  datatype SnapshotError = NoNode | BadSource | NoTime | NoFields | BadField(key: string, err: FieldError)

  /** The zero instant of Go's time.Time, which is what a missing time decodes to. */
  const ZERO_TIME := -62_135_596_800_000_000_000

  /** The errors `Snapshot.Validate` may answer; which bad field it names depends on map order. */
  predicate MayReject(s: Timed<Snapshot>, err: SnapshotError) {
    if s.val.node == "" then err == NoNode
    else if s.val.source != API && s.val.source != Agent then err == BadSource
    else if s.time == ZERO_TIME then err == NoTime
    else if |s.val.fields| == 0 then err == NoFields
    else err.BadField? && err.key in s.val.fields && s.val.fields[err.key].Validate() == Some(err.err)
  }

  predicate WellFormed(s: Timed<Snapshot>) {
    && s.val.node != ""
    && (s.val.source == API || s.val.source == Agent)
    && s.time != ZERO_TIME
    && |s.val.fields| != 0
    && forall k :: k in s.val.fields ==> s.val.fields[k].Validate() == None
  }

  /** Validation: scans the fields in whatever order the map yields them. */
  method Validate(s: Timed<Snapshot>) returns (err: Option<SnapshotError>)
    ensures err == None <==> WellFormed(s)
    ensures err.Some? ==> MayReject(s, err.value)
  {
    if s.val.node == "" { return Some(NoNode); }
    if s.val.source != API && s.val.source != Agent { return Some(BadSource); }
    if s.time == ZERO_TIME { return Some(NoTime); }
    if |s.val.fields| == 0 { return Some(NoFields); }
    var rest := s.val.fields.Keys;
    while rest != {}
      invariant rest <= s.val.fields.Keys
      invariant forall k :: k in s.val.fields.Keys - rest ==> s.val.fields[k].Validate() == None
      decreases rest
    {
      var k :| k in rest;
      var e := s.val.fields[k].Validate();
      if e != None { return Some(BadField(k, e.value)); }
      rest := rest - {k};
    }
    return None;
  }

  /** Every rejected snapshot has a reason, and an accepted one has none. */
  lemma RejectedExactlyWhenMalformed(s: Timed<Snapshot>)
    ensures (exists err :: MayReject(s, err)) <==> !WellFormed(s)
  {
    if !WellFormed(s) {
      if s.val.node == "" { assert MayReject(s, NoNode); }
      else if s.val.source != API && s.val.source != Agent { assert MayReject(s, BadSource); }
      else if s.time == ZERO_TIME { assert MayReject(s, NoTime); }
      else if |s.val.fields| == 0 { assert MayReject(s, NoFields); }
      else {
        var k :| k in s.val.fields && s.val.fields[k].Validate() != None;
        assert MayReject(s, BadField(k, s.val.fields[k].Validate().value));
      }
    }
  }
}
