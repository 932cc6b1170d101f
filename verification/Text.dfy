/** Go's ordering of strings, and the sorted key lists that make results independent of map iteration. */
module Text {

  /** Go's `<` on strings. */
  predicate Less(a: string, b: string) {
    b != [] && (a == [] || a[0] < b[0] || (a[0] == b[0] && Less(a[1..], b[1..])))
  }

  predicate Leq(a: string, b: string) {
    a == b || Less(a, b)
  }

  lemma {:induction false} LessIrreflexive(a: string)
    ensures !Less(a, a)
  {
    if a != [] { LessIrreflexive(a[1..]); }
  }

  lemma {:induction false} LessTransitive(a: string, b: string, c: string)
    requires Less(a, b) && Less(b, c)
    ensures Less(a, c)
  {
    if a != [] && a[0] == b[0] && b[0] == c[0] {
      LessTransitive(a[1..], b[1..], c[1..]);
    }
  }

  lemma {:induction false} LessTotal(a: string, b: string)
    ensures a == b || Less(a, b) || Less(b, a)
  {
    if a != [] && b != [] && a[0] == b[0] {
      LessTotal(a[1..], b[1..]);
      assert a == [a[0]] + a[1..] && b == [b[0]] + b[1..];
    }
  }

  lemma LeqTransitive(a: string, b: string, c: string)
    requires Leq(a, b) && Leq(b, c)
    ensures Leq(a, c)
  {
    if a != b && b != c { LessTransitive(a, b, c); }
  }

  lemma LessAsymmetric(a: string, b: string)
    requires Less(a, b)
    ensures !Leq(b, a)
  {
    LessIrreflexive(a);
    if Less(b, a) { LessTransitive(a, b, a); }
  }

  ghost predicate Sorted(s: seq<string>) {
    forall i, j :: 0 <= i < j < |s| ==> Leq(s[i], s[j])
  }

  /** Sorted with no duplicates. */
  ghost predicate StrictlySorted(s: seq<string>) {
    forall i, j :: 0 <= i < j < |s| ==> Less(s[i], s[j])
  }

  /** `sort.Strings`. */
  function SortStrings(s: seq<string>): (r: seq<string>)
    ensures multiset(r) == multiset(s)
  {
    if s == [] then [] else
      assert s == s[..|s| - 1] + [s[|s| - 1]];
      InsertString(SortStrings(s[..|s| - 1]), s[|s| - 1])
  }

  function InsertString(s: seq<string>, x: string): (r: seq<string>)
    ensures multiset(r) == multiset(s) + multiset{x}
  {
    if s == [] || Leq(s[|s| - 1], x) then s + [x] else
      assert s == s[..|s| - 1] + [s[|s| - 1]];
      InsertString(s[..|s| - 1], x) + [s[|s| - 1]]
  }

  lemma {:induction false} InsertStringSorted(s: seq<string>, x: string)
    requires Sorted(s)
    ensures Sorted(InsertString(s, x))
  {
    if s == [] {
    } else if Leq(s[|s| - 1], x) {
      forall i | 0 <= i < |s| ensures Leq(s[i], x) {
        assert i == |s| - 1 || Leq(s[i], s[|s| - 1]);
        LeqTransitive(s[i], s[|s| - 1], x);
      }
    } else {
      var s', y := s[..|s| - 1], s[|s| - 1];
      InsertStringSorted(s', x);
      LessTotal(y, x);
      var r := InsertString(s', x);
      forall i | 0 <= i < |r| ensures Leq(r[i], y) {
        assert r[i] in multiset(s') + multiset{x};
        if r[i] != x { assert r[i] in s'; }
      }
    }
  }

  lemma {:induction false} SortStringsSorted(s: seq<string>)
    ensures Sorted(SortStrings(s))
  {
    if s != [] {
      SortStringsSorted(s[..|s| - 1]);
      InsertStringSorted(SortStrings(s[..|s| - 1]), s[|s| - 1]);
    }
  }

  lemma SameGreatest(a: seq<string>, b: seq<string>)
    requires Sorted(a) && Sorted(b) && a != [] && b != []
    requires a[|a| - 1] in b && b[|b| - 1] in a
    ensures a[|a| - 1] == b[|b| - 1]
  {
    var x, y := a[|a| - 1], b[|b| - 1];
    assert Leq(x, y) && Leq(y, x);
    if x != y { LessAsymmetric(x, y); }
  }

  lemma SortedPrefix(a: seq<string>)
    requires Sorted(a) && a != []
    ensures Sorted(a[..|a| - 1])
  {
  }

  lemma SameWithoutLast(a: seq<string>, b: seq<string>)
    requires a != [] && b != [] && a[|a| - 1] == b[|b| - 1] && multiset(a) == multiset(b)
    ensures multiset(a[..|a| - 1]) == multiset(b[..|b| - 1])
  {
    assert a == a[..|a| - 1] + [a[|a| - 1]] && b == b[..|b| - 1] + [b[|b| - 1]];
    assert multiset(a[..|a| - 1]) == multiset(a) - multiset{a[|a| - 1]};
    assert multiset(b[..|b| - 1]) == multiset(b) - multiset{b[|b| - 1]};
  }

  lemma SameEnds(a: seq<string>, b: seq<string>)
    requires Sorted(a) && Sorted(b) && a != [] && multiset(a) == multiset(b)
    ensures b != [] && a[|a| - 1] == b[|b| - 1]
  {
    assert |a| == |multiset(a)| == |multiset(b)| == |b|;
    assert a[|a| - 1] in multiset(a) && b[|b| - 1] in multiset(b);
    SameGreatest(a, b);
  }

  /** Sorting erases the order the elements arrived in. */
  lemma {:induction false} SortedPermutationUnique(a: seq<string>, b: seq<string>)
    requires Sorted(a) && Sorted(b) && multiset(a) == multiset(b)
    ensures a == b
  {
    if a == [] {
      assert |multiset(b)| == |b|;
    } else {
      SameEnds(a, b);
      SameWithoutLast(a, b);
      SortedPrefix(a);
      SortedPrefix(b);
      SortedPermutationUnique(a[..|a| - 1], b[..|b| - 1]);
      assert a == a[..|a| - 1] + [a[|a| - 1]] && b == b[..|b| - 1] + [b[|b| - 1]];
    }
  }

  lemma SortStringsPermutation(a: seq<string>, b: seq<string>)
    requires multiset(a) == multiset(b)
    ensures SortStrings(a) == SortStrings(b)
  {
    SortStringsSorted(a);
    SortStringsSorted(b);
    SortedPermutationUnique(SortStrings(a), SortStrings(b));
  }

  // --- records sorted by a name ----------------------------------------------------

  /** Sorted by name, no name twice. */
  ghost predicate StrictlyBy<T(!new)>(s: seq<T>, name: T -> string) {
    forall i, j :: 0 <= i < j < |s| ==> Less(name(s[i]), name(s[j]))
  }

  lemma SameLastName<T(!new)>(a: seq<T>, b: seq<T>, name: T -> string)
    requires StrictlyBy(a, name) && StrictlyBy(b, name) && a != [] && b != []
    requires a[|a| - 1] in b && b[|b| - 1] in a
    ensures a[|a| - 1] == b[|b| - 1]
  {
    var x, y := a[|a| - 1], b[|b| - 1];
    if x != y {
      assert Less(name(x), name(y)) && Less(name(y), name(x));
      LessAsymmetric(name(x), name(y));
    }
  }

  lemma WithoutLast<T(!new)>(a: seq<T>, name: T -> string)
    requires StrictlyBy(a, name) && a != []
    ensures StrictlyBy(a[..|a| - 1], name)
    ensures forall z :: z in a[..|a| - 1] <==> z in a && z != a[|a| - 1]
  {
    var front, x := a[..|a| - 1], a[|a| - 1];
    assert a == front + [x];
    LessIrreflexive(name(x));
  }

  /** Records sorted by distinct names are determined by which records there are. */
  lemma {:induction false} StrictlyByUnique<T(!new)>(a: seq<T>, b: seq<T>, name: T -> string)
    requires StrictlyBy(a, name) && StrictlyBy(b, name)
    requires forall c :: c in a <==> c in b
    ensures a == b
  {
    assert b == [] || b[0] in b;
    if a != [] {
      assert a[|a| - 1] in a;
      assert b != [] && b[|b| - 1] in b;
      SameLastName(a, b, name);
      WithoutLast(a, name);
      WithoutLast(b, name);
      var a', b' := a[..|a| - 1], b[..|b| - 1];
      forall z ensures z in a' <==> z in b' {
        assert z in a' <==> z in a && z != a[|a| - 1];
        assert z in b' <==> z in b && z != b[|b| - 1];
      }
      StrictlyByUnique(a', b', name);
      assert a == a' + [a[|a| - 1]] && b == b' + [b[|b| - 1]];
    }
  }

  function Itself(): string -> string { (s: string) => s }

  lemma StrictlySortedUnique(a: seq<string>, b: seq<string>)
    requires StrictlySorted(a) && StrictlySorted(b)
    requires forall x :: x in a <==> x in b
    ensures a == b
  {
    assert StrictlyBy(a, Itself()) && StrictlyBy(b, Itself());
    StrictlyByUnique(a, b, Itself());
  }

  /** The elements of a set in some fixed order. */
  ghost function Listing(s: set<string>): (r: seq<string>)
    ensures multiset(r) == multiset(s)
    ensures |r| == |s|
  {
    if s == {} then [] else
      var x :| x in s;
      assert s == (s - {x}) + {x};
      Listing(s - {x}) + [x]
  }

  /** Collecting a map's keys and sorting them. */
  ghost function SortedKeys(s: set<string>): (r: seq<string>)
    ensures StrictlySorted(r)
    ensures forall x :: x in r <==> x in s
    ensures multiset(r) == multiset(s)
    ensures |r| == |s|
  {
    var r := SortStrings(Listing(s));
    SortedKeysStrict(s);
    r
  }

  lemma NoDuplicates<T(!new)>(r: seq<T>, i: nat, j: nat)
    requires i < j < |r|
    requires forall x :: multiset(r)[x] <= 1
    ensures r[i] != r[j]
  {
    var a, b := r[..j], r[j..];
    assert r == a + b;
    assert r[i] in multiset(a) by { assert a[i] == r[i]; }
    assert r[j] in multiset(b) by { assert b[0] == r[j]; }
    assert multiset(r)[r[i]] == multiset(a)[r[i]] + multiset(b)[r[i]];
  }

  lemma SortedKeysStrict(s: set<string>)
    ensures var r := SortStrings(Listing(s));
            && StrictlySorted(r)
            && (forall x :: x in r <==> x in s)
            && |r| == |s|
  {
    var r := SortStrings(Listing(s));
    SortStringsSorted(Listing(s));
    assert multiset(r) == multiset(s);
    forall x ensures x in r <==> x in s {
      assert x in r <==> x in multiset(r);
    }
    forall i, j | 0 <= i < j < |r| ensures Less(r[i], r[j]) {
      NoDuplicates(r, i, j);
      assert Leq(r[i], r[j]);
    }
    assert |multiset(r)| == |r|;
  }

  /** However a set's elements were collected, sorting them gives the same list. */
  lemma SortedOnceCollected(collected: seq<string>, s: set<string>)
    requires multiset(collected) == multiset(s)
    ensures SortStrings(collected) == SortedKeys(s)
  {
    SortStringsSorted(collected);
    var r := SortedKeys(s);
    assert Sorted(r);
    SortedPermutationUnique(SortStrings(collected), r);
  }

  /** Collects names in map order, then sorts them. */
  method SortedNames(s: set<string>) returns (names: seq<string>)
    ensures names == SortedKeys(s)
  {
    var rest := s;
    names := [];
    while rest != {}
      invariant rest <= s
      invariant multiset(names) == multiset(s - rest)
      decreases rest
    {
      var k :| k in rest;
      assert s - (rest - {k}) == (s - rest) + {k};
      names := names + [k];
      rest := rest - {k};
    }
    assert s - rest == s;
    SortedOnceCollected(names, s);
    names := SortStrings(names);
  }

  // --- strings.SplitN(key, "/", 2)[0] ------------------------------------------

  /** The part of a key before its first slash. */
  function BeforeSlash(key: string): (r: string)
    ensures '/' !in r
    ensures r == key || (|r| < |key| && key[..|r|] == r && key[|r|] == '/')
  {
    if key == [] || key[0] == '/' then [] else [key[0]] + BeforeSlash(key[1..])
  }

  /** The namespace read back from a key is the one it was built from, when it holds no slash. */
  lemma {:induction false} NamespaceOfKey(ns: string, name: string)
    requires '/' !in ns
    ensures BeforeSlash(ns + "/" + name) == ns
  {
    var key := ns + "/" + name;
    if ns == [] {
      assert key[0] == '/';
    } else {
      assert key[0] == ns[0] && key[1..] == ns[1..] + "/" + name;
      NamespaceOfKey(ns[1..], name);
    }
  }

  /** `fmt.Sprint` of an integer. */
  function Decimal(n: int): string
    decreases n < 0, if n < 0 then -n else n
  {
    if n < 0 then "-" + Decimal(-n)
    else if n < 10 then ["0123456789"[n]]
    else Decimal(n / 10) + ["0123456789"[n % 10]]
  }
}
