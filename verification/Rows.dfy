/** Table rows, and the theory of the queries run on them: selection, `ORDER BY ts`, stable merging.
    A table is a sequence in rowid order, so `ORDER BY ts, id` is a stable sort by `ts`. */
module Rows {

  /** A stored row: rowid, the integer millisecond column, and the other columns. */
  datatype Row<+T> = Row(id: int, ts: int, val: T)

  /** Rowids are handed out in increasing order and never reused (AUTOINCREMENT). */
  ghost predicate Ordered<T(!new)>(s: seq<Row<T>>, next: int) {
    && (forall i, j :: 0 <= i < j < |s| ==> s[i].id < s[j].id)
    && (forall i :: 0 <= i < |s| ==> s[i].id < next)
  }

  /** SQL's `WHERE p`, keeping table order. */
  function Filter<T(!new)>(s: seq<T>, p: T -> bool): (r: seq<T>)
    ensures forall x :: x in r ==> x in s && p(x)
    ensures forall x :: x in s && p(x) ==> x in r
    ensures |r| <= |s|
  {
    if s == [] then [] else
      var rest := Filter(s[..|s| - 1], p);
      var x := s[|s| - 1];
      assert s == s[..|s| - 1] + [x];
      if p(x) then rest + [x] else rest
  }

  lemma {:induction false} FilterConcat<T(!new)>(a: seq<T>, b: seq<T>, p: T -> bool)
    ensures Filter(a + b, p) == Filter(a, p) + Filter(b, p)
  {
    if b == [] {
      assert a + b == a;
    } else {
      var b' := b[..|b| - 1];
      assert (a + b)[..|a + b| - 1] == a + b';
      FilterConcat(a, b', p);
    }
  }

  /** Appending one row to a table appends it to the selections that want it, and to no other. */
  lemma FilterSnoc<T(!new)>(s: seq<T>, x: T, p: T -> bool)
    ensures Filter(s + [x], p) == Filter(s, p) + if p(x) then [x] else []
  {
    assert (s + [x])[..|s + [x]| - 1] == s;
  }

  lemma {:induction false} FilterAgree<T(!new)>(s: seq<T>, p: T -> bool, q: T -> bool)
    requires forall x :: x in s ==> p(x) == q(x)
    ensures Filter(s, p) == Filter(s, q)
  {
    if s != [] {
      assert s[|s| - 1] in s;
      FilterAgree(s[..|s| - 1], p, q);
    }
  }

  /** Deleting rows that a later selection would not have returned changes nothing for it. */
  lemma {:induction false} FilterFilter<T(!new)>(s: seq<T>, p: T -> bool, q: T -> bool)
    requires forall x :: x in s && p(x) ==> q(x)
    ensures Filter(Filter(s, q), p) == Filter(s, p)
  {
    if s != [] {
      var s' := s[..|s| - 1];
      var x := s[|s| - 1];
      assert x in s;
      FilterFilter(s', p, q);
      if q(x) { FilterSnoc(Filter(s', q), x, p); }
    }
  }

  lemma {:induction false} FilterAll<T(!new)>(s: seq<T>, p: T -> bool)
    requires forall x :: x in s ==> p(x)
    ensures Filter(s, p) == s
  {
    if s != [] {
      assert s[|s| - 1] in s;
      FilterAll(s[..|s| - 1], p);
      assert s == s[..|s| - 1] + [s[|s| - 1]];
    }
  }

  lemma {:induction false} FilterNone<T(!new)>(s: seq<T>, p: T -> bool)
    requires forall x :: x in s ==> !p(x)
    ensures Filter(s, p) == []
  {
    if s != [] {
      assert s[|s| - 1] in s;
      FilterNone(s[..|s| - 1], p);
    }
  }

  lemma {:induction false} FilterOrdered<T(!new)>(s: seq<Row<T>>, p: Row<T> -> bool, next: int)
    requires Ordered(s, next)
    ensures Ordered(Filter(s, p), next)
  {
    if s != [] {
      var s' := s[..|s| - 1];
      FilterOrdered(s', p, next);
      forall x | x in Filter(s', p) ensures x.id < s[|s| - 1].id {
        assert x in s';
      }
    }
  }

  // --- ORDER BY an integer column ----------------------------------------------

  ghost predicate SortedBy<T(!new)>(s: seq<T>, key: T -> int) {
    forall i, j :: 0 <= i < j < |s| ==> key(s[i]) <= key(s[j])
  }

  /** Selects the rows whose key is `t`. */
  function At<T(!new)>(key: T -> int, t: int): T -> bool {
    x => key(x) == t
  }

  /** Inserts after the rows with an equal key: the step of a stable sort. */
  function Insert<T(!new)>(s: seq<T>, x: T, key: T -> int): (r: seq<T>)
    ensures multiset(r) == multiset(s) + multiset{x}
    ensures |r| == |s| + 1
  {
    if s == [] || key(s[|s| - 1]) <= key(x) then s + [x] else
      assert s == s[..|s| - 1] + [s[|s| - 1]];
      Insert(s[..|s| - 1], x, key) + [s[|s| - 1]]
  }

  /** The stable sort that `ORDER BY` and `sort.SliceStable` compute. */
  function StableSort<T(!new)>(s: seq<T>, key: T -> int): (r: seq<T>)
    ensures multiset(r) == multiset(s)
    ensures |r| == |s|
  {
    if s == [] then [] else
      assert s == s[..|s| - 1] + [s[|s| - 1]];
      Insert(StableSort(s[..|s| - 1], key), s[|s| - 1], key)
  }

  lemma SameMembers<T(!new)>(a: seq<T>, b: seq<T>)
    requires multiset(a) == multiset(b)
    ensures forall x :: x in a <==> x in b
  {
    forall x ensures x in a <==> x in b {
      assert x in a <==> x in multiset(a);
      assert x in b <==> x in multiset(b);
    }
  }

  lemma {:induction false} InsertSorted<T(!new)>(s: seq<T>, x: T, key: T -> int)
    requires SortedBy(s, key)
    ensures SortedBy(Insert(s, x, key), key)
  {
    if s != [] && key(s[|s| - 1]) > key(x) {
      var s' := s[..|s| - 1];
      InsertSorted(s', x, key);
      var r := Insert(s', x, key);
      forall i | 0 <= i < |r| ensures key(r[i]) <= key(s[|s| - 1]) {
        assert r[i] in multiset(s') + multiset{x};
        if r[i] != x {
          assert r[i] in s';
        }
      }
    }
  }

  lemma {:induction false} StableSortSorted<T(!new)>(s: seq<T>, key: T -> int)
    ensures SortedBy(StableSort(s, key), key)
  {
    if s != [] {
      StableSortSorted(s[..|s| - 1], key);
      InsertSorted(StableSort(s[..|s| - 1], key), s[|s| - 1], key);
    }
  }

  lemma {:induction false} InsertStable<T(!new)>(s: seq<T>, x: T, key: T -> int, t: int)
    requires SortedBy(s, key)
    ensures Filter(Insert(s, x, key), At(key, t)) == Filter(s + [x], At(key, t))
  {
    if s != [] && key(s[|s| - 1]) > key(x) {
      var s' := s[..|s| - 1];
      var y := s[|s| - 1];
      assert s == s' + [y];
      InsertStable(s', x, key, t);
      FilterSnoc(Insert(s', x, key), y, At(key, t));
      FilterSnoc(s', x, At(key, t));
      FilterSnoc(s', y, At(key, t));
      FilterSnoc(s, x, At(key, t));
    }
  }

  /** Stability: rows with equal keys keep their order. */
  lemma {:induction false} StableSortStable<T(!new)>(s: seq<T>, key: T -> int, t: int)
    ensures Filter(StableSort(s, key), At(key, t)) == Filter(s, At(key, t))
  {
    if s != [] {
      var s' := s[..|s| - 1];
      var x := s[|s| - 1];
      assert s == s' + [x];
      StableSortStable(s', key, t);
      StableSortSorted(s', key);
      InsertStable(StableSort(s', key), x, key, t);
      FilterSnoc(StableSort(s', key), x, At(key, t));
      FilterSnoc(s', x, At(key, t));
    }
  }

  /** Two sorted sequences with the same classes of equal keys end in the same element. */
  lemma SameLast<T(!new)>(a: seq<T>, b: seq<T>, key: T -> int)
    requires SortedBy(a, key) && SortedBy(b, key) && a != []
    requires forall t :: Filter(a, At(key, t)) == Filter(b, At(key, t))
    ensures b != [] && a[|a| - 1] == b[|b| - 1]
  {
    var x := a[|a| - 1];
    assert x in Filter(a, At(key, key(x)));
    assert x in Filter(b, At(key, key(x)));
    assert x in b;
    var y := b[|b| - 1];
    assert key(x) <= key(y);
    assert y in Filter(b, At(key, key(y)));
    assert y in Filter(a, At(key, key(y)));
    assert y in a;
    assert key(x) == key(y);
    var f, g := Filter(a[..|a| - 1], At(key, key(x))), Filter(b[..|b| - 1], At(key, key(x)));
    assert f + [x] == g + [y];
    assert (f + [x])[|f + [x]| - 1] == (g + [y])[|g + [y]| - 1];
  }

  /** A sorted sequence is determined by its classes of equal keys. */
  lemma {:induction false} SortedUnique<T(!new)>(a: seq<T>, b: seq<T>, key: T -> int)
    requires SortedBy(a, key) && SortedBy(b, key)
    requires forall t :: Filter(a, At(key, t)) == Filter(b, At(key, t))
    ensures a == b
    decreases |a|
  {
    hide Filter;
    if a == [] {
      if b != [] {
        SameLast(b, a, key);
      }
    } else {
      SameLast(a, b, key);
      var x, a', b' := a[|a| - 1], a[..|a| - 1], b[..|b| - 1];
      assert a == a' + [x] && b == b' + [x];
      forall u ensures Filter(a', At(key, u)) == Filter(b', At(key, u)) {
        SameTail(a', b', x, At(key, u));
      }
      SortedUnique(a', b', key);
    }
  }

  lemma SameTail<T(!new)>(a: seq<T>, b: seq<T>, x: T, p: T -> bool)
    requires Filter(a + [x], p) == Filter(b + [x], p)
    ensures Filter(a, p) == Filter(b, p)
  {
    FilterSnoc(a, x, p);
    FilterSnoc(b, x, p);
    if p(x) {
      assert (Filter(a, p) + [x])[..|Filter(a, p)|] == Filter(a, p);
      assert (Filter(b, p) + [x])[..|Filter(b, p)|] == Filter(b, p);
    }
  }

  /** The sort key of `ORDER BY ts`. */
  function ByTs<T(!new)>(): Row<T> -> int { (r: Row<T>) => r.ts }

  /** Strictly before in `ORDER BY ts, id`. */
  predicate Older<T>(a: Row<T>, b: Row<T>) {
    a.ts < b.ts || (a.ts == b.ts && a.id < b.id)
  }

  ghost predicate OldestFirst<T(!new)>(s: seq<Row<T>>) {
    forall i, j :: 0 <= i < j < |s| ==> Older(s[i], s[j])
  }

  lemma {:induction false} InsertLexicographic<T(!new)>(s: seq<Row<T>>, x: Row<T>)
    requires OldestFirst(s)
    requires forall y :: y in s ==> y.id < x.id
    ensures OldestFirst(Insert(s, x, ByTs()))
  {
    if s == [] || s[|s| - 1].ts <= x.ts {
      forall i | 0 <= i < |s| ensures Older(s[i], x) {
        assert s[i] in s;
        assert i == |s| - 1 || Older(s[i], s[|s| - 1]);
      }
    } else {
      var s' := s[..|s| - 1];
      InsertLexicographic(s', x);
      var r := Insert(s', x, ByTs());
      forall i | 0 <= i < |r| ensures Older(r[i], s[|s| - 1]) {
        assert r[i] in multiset(s') + multiset{x};
        if r[i] != x {
          assert r[i] in s';
        }
      }
    }
  }

  /** With increasing rowids, sorting by `ts` is `ORDER BY ts, id`. */
  lemma {:induction false} SortByTsIsLexicographic<T(!new)>(s: seq<Row<T>>, next: int)
    requires Ordered(s, next)
    ensures OldestFirst(StableSort(s, ByTs()))
  {
    if s != [] {
      var s', x := s[..|s| - 1], s[|s| - 1];
      SortByTsIsLexicographic(s', next);
      SameMembers(StableSort(s', ByTs()), s');
      InsertLexicographic(StableSort(s', ByTs()), x);
    }
  }

  // --- merging sorted sequences -------------------------------------------------

  /** The left-biased merge of two sorted sequences: on equal keys the left one comes first. */
  function Merge<T>(a: seq<T>, b: seq<T>, key: T -> int): (r: seq<T>)
    ensures |r| == |a| + |b|
    decreases |a| + |b|
  {
    if b == [] then a
    else if a == [] then b
    else if key(a[|a| - 1]) <= key(b[|b| - 1]) then Merge(a, b[..|b| - 1], key) + [b[|b| - 1]]
    else Merge(a[..|a| - 1], b, key) + [a[|a| - 1]]
  }

  lemma MergeWithNone<T(!new)>(a: seq<T>, b: seq<T>, key: T -> int, t: int)
    requires a == [] || b == []
    ensures Filter(Merge(a, b, key), At(key, t)) == Filter(a, At(key, t)) + Filter(b, At(key, t))
  {
  }

  lemma MergeStep<T>(a: seq<T>, b: seq<T>, key: T -> int)
    requires a != [] && b != []
    ensures Merge(a, b, key) ==
            if key(a[|a| - 1]) <= key(b[|b| - 1]) then Merge(a, b[..|b| - 1], key) + [b[|b| - 1]]
            else Merge(a[..|a| - 1], b, key) + [a[|a| - 1]]
  {
  }

  lemma {:induction false} MergeMembers<T(!new)>(a: seq<T>, b: seq<T>, key: T -> int)
    ensures forall x :: x in Merge(a, b, key) <==> x in a || x in b
    decreases |a| + |b|
  {
    if a != [] && b != [] {
      MergeStep(a, b, key);
      if key(a[|a| - 1]) <= key(b[|b| - 1]) {
        MergeMembers(a, b[..|b| - 1], key);
        assert b == b[..|b| - 1] + [b[|b| - 1]];
      } else {
        MergeMembers(a[..|a| - 1], b, key);
        assert a == a[..|a| - 1] + [a[|a| - 1]];
      }
    }
  }

  lemma AppendGreatest<T(!new)>(s: seq<T>, x: T, key: T -> int)
    requires SortedBy(s, key)
    requires forall y :: y in s ==> key(y) <= key(x)
    ensures SortedBy(s + [x], key)
  {
  }

  lemma {:induction false} MergeSorted<T(!new)>(a: seq<T>, b: seq<T>, key: T -> int)
    requires SortedBy(a, key) && SortedBy(b, key)
    ensures SortedBy(Merge(a, b, key), key)
    decreases |a| + |b|, 0
  {
    if a != [] && b != [] {
      if key(a[|a| - 1]) <= key(b[|b| - 1]) {
        MergeSortedStep(a, b[..|b| - 1], b[|b| - 1], key);
      } else {
        MergeSortedStep(a[..|a| - 1], b, a[|a| - 1], key);
      }
    }
  }

  lemma {:induction false} MergeSortedStep<T(!new)>(a: seq<T>, b: seq<T>, x: T, key: T -> int)
    requires SortedBy(a, key) && SortedBy(b, key)
    requires forall y :: y in a || y in b ==> key(y) <= key(x)
    ensures SortedBy(Merge(a, b, key) + [x], key)
    decreases |a| + |b|, 1
  {
    MergeSorted(a, b, key);
    MergeMembers(a, b, key);
    AppendGreatest(Merge(a, b, key), x, key);
  }

  lemma {:induction false} MergeStable<T(!new)>(a: seq<T>, b: seq<T>, key: T -> int, t: int)
    requires SortedBy(a, key) && SortedBy(b, key)
    ensures Filter(Merge(a, b, key), At(key, t)) == Filter(a, At(key, t)) + Filter(b, At(key, t))
    decreases |a| + |b|, 0
  {
    hide Merge, Filter;
    if a == [] || b == [] {
      MergeWithNone(a, b, key, t);
    } else {
      MergeStep(a, b, key);
      if key(a[|a| - 1]) <= key(b[|b| - 1]) {
        assert b == b[..|b| - 1] + [b[|b| - 1]];
        MergeStableRight(a, b[..|b| - 1], b[|b| - 1], key, t);
      } else {
        assert a == a[..|a| - 1] + [a[|a| - 1]];
        MergeStableLeft(a[..|a| - 1], b, a[|a| - 1], key, t);
      }
    }
  }

  lemma {:induction false} MergeStableRight<T(!new)>(a: seq<T>, b: seq<T>, x: T, key: T -> int, t: int)
    requires SortedBy(a, key) && SortedBy(b, key)
    ensures Filter(Merge(a, b, key) + [x], At(key, t)) == Filter(a, At(key, t)) + Filter(b + [x], At(key, t))
    decreases |a| + |b|, 1
  {
    MergeStable(a, b, key, t);
    MergeStepFilter(Merge(a, b, key), Filter(a, At(key, t)), b, x, At(key, t));
  }

  lemma {:induction false} MergeStableLeft<T(!new)>(a: seq<T>, b: seq<T>, x: T, key: T -> int, t: int)
    requires SortedBy(a, key) && SortedBy(b, key)
    requires forall y :: y in b ==> key(y) < key(x)
    ensures Filter(Merge(a, b, key) + [x], At(key, t)) == Filter(a + [x], At(key, t)) + Filter(b, At(key, t))
    decreases |a| + |b|, 1
  {
    hide Merge, Filter;
    MergeStable(a, b, key, t);
    FilterSnoc(Merge(a, b, key), x, At(key, t));
    FilterSnoc(a, x, At(key, t));
    if key(x) == t { FilterNone(b, At(key, t)); }
  }

  lemma MergeStepFilter<T(!new)>(m: seq<T>, front: seq<T>, s: seq<T>, x: T, p: T -> bool)
    requires Filter(m, p) == front + Filter(s, p)
    ensures Filter(m + [x], p) == front + Filter(s + [x], p)
  {
    FilterSnoc(m, x, p);
    FilterSnoc(s, x, p);
  }

  /** Stably sorting the concatenation of sorted sequences is merging them. */
  lemma SortIsMerge<T(!new)>(a: seq<T>, b: seq<T>, c: seq<T>, key: T -> int)
    requires SortedBy(a, key) && SortedBy(b, key) && SortedBy(c, key)
    ensures StableSort(a + b + c, key) == Merge(Merge(a, b, key), c, key)
  {
    var s, m := StableSort(a + b + c, key), Merge(Merge(a, b, key), c, key);
    StableSortSorted(a + b + c, key);
    MergeSorted(a, b, key);
    MergeSorted(Merge(a, b, key), c, key);
    forall t ensures Filter(s, At(key, t)) == Filter(m, At(key, t)) {
      StableSortStable(a + b + c, key, t);
      FilterConcat(a + b, c, At(key, t));
      FilterConcat(a, b, At(key, t));
      MergeStable(a, b, key, t);
      MergeStable(Merge(a, b, key), c, key, t);
    }
    SortedUnique(s, m, key);
  }
}
