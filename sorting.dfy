/**
  * JavaScript's `Array.prototype.sort` with a comparator. Since ES2019 that sort is
  * stable, and for a consistent comparator a stable sort has exactly one result; it is
  * modelled here as insertion sort. `before(a, b)` means "the comparator puts a
  * strictly before b" (`cmp(a, b) < 0`): an element moves left past every element it
  * goes strictly before, and stops at the first one it does not.
  */
module Sorting {

  /** The elements of `s` that satisfy `p`, in order (JavaScript's `filter`). */
  function Filter<T>(s: seq<T>, p: T -> bool): (r: seq<T>)
    ensures |r| <= |s|
    ensures forall i :: 0 <= i < |r| ==> r[i] in s && p(r[i])
    ensures forall i :: 0 <= i < |s| && p(s[i]) ==> s[i] in r
    decreases |s|
  {
    if s == [] then []
    else Filter(s[..|s| - 1], p) + (if p(s[|s| - 1]) then [s[|s| - 1]] else [])
  }

  lemma {:induction false} FilterAppend<T>(a: seq<T>, b: seq<T>, p: T -> bool)
    ensures Filter(a + b, p) == Filter(a, p) + Filter(b, p)
    decreases |b|
  {
    if b == [] {
      assert a + b == a;
    } else {
      assert (a + b)[..|a + b| - 1] == a + b[..|b| - 1];
      FilterAppend(a, b[..|b| - 1], p);
    }
  }

  /** Nothing is kept when no element satisfies the predicate. */
  lemma FilterNone<T>(s: seq<T>, p: T -> bool)
    requires forall k :: 0 <= k < |s| ==> !p(s[k])
    ensures Filter(s, p) == []
  {
  }

  /** Keeping the elements that satisfy `p` keeps each one's count and drops the others. */
  lemma {:induction false} FilterCount<T>(s: seq<T>, p: T -> bool, x: T)
    ensures multiset(Filter(s, p))[x] == if p(x) then multiset(s)[x] else 0
  {
    if s != [] {
      assert s == [s[0]] + s[1..];
      FilterAppend([s[0]], s[1..], p);
      FilterCount(s[1..], p, x);
    }
  }

  /** Filtering two permutations of each other gives permutations of each other. */
  lemma FilterPermutes<T>(s: seq<T>, t: seq<T>, p: T -> bool)
    requires multiset(s) == multiset(t)
    ensures multiset(Filter(s, p)) == multiset(Filter(t, p))
  {
    forall x ensures multiset(Filter(s, p))[x] == multiset(Filter(t, p))[x] {
      FilterCount(s, p, x);
      FilterCount(t, p, x);
    }
  }

  /** Keeping some elements of a sorted sequence leaves it sorted. */
  lemma {:induction false} FilterSorted<T>(s: seq<T>, p: T -> bool, before: (T, T) -> bool)
    requires Sorted(s, before)
    ensures Sorted(Filter(s, p), before)
  {
    if s != [] {
      assert s == [s[0]] + s[1..];
      FilterAppend([s[0]], s[1..], p);
      FilterSorted(s[1..], p, before);
      var rest := Filter(s[1..], p);
      assert forall k :: 0 <= k < |rest| ==> rest[k] in s[1..];
    }
  }

  /** A comparator consistent enough for sorting: asymmetric, and "not before" transitive. */
  ghost predicate WeakOrder<T(!new)>(before: (T, T) -> bool) {
    && (forall a, b :: before(a, b) ==> !before(b, a))
    && (forall a, b, c :: before(a, c) ==> before(a, b) || before(b, c))
  }

  /** The comparator `(a, b) => key(b) - key(a)`: larger keys first. */
  function ByKeyDesc<T>(key: T -> int): (T, T) -> bool {
    (a: T, b: T) => key(a) > key(b)
  }

  /** The comparator `(a, b) => key(a) - key(b)`: smaller keys first. */
  function ByKeyAsc<T>(key: T -> int): (T, T) -> bool {
    (a: T, b: T) => key(a) < key(b)
  }

  lemma ByKeyDescWeakOrder<T(!new)>(key: T -> int)
    ensures WeakOrder(ByKeyDesc(key))
  {
  }

  lemma ByKeyAscWeakOrder<T(!new)>(key: T -> int)
    ensures WeakOrder(ByKeyAsc(key))
  {
  }

  /** Neither goes before the other: the comparator returns 0. */
  predicate Tied<T>(before: (T, T) -> bool, a: T, b: T) {
    !before(a, b) && !before(b, a)
  }

  ghost predicate Sorted<T>(s: seq<T>, before: (T, T) -> bool) {
    forall i, j :: 0 <= i < j < |s| ==> !before(s[j], s[i])
  }

  /** Insert `x` at the end of `s`, then move it left past every element it goes before. */
  function Insert<T>(s: seq<T>, x: T, before: (T, T) -> bool): (r: seq<T>)
    ensures |r| == |s| + 1
    decreases |s|
  {
    if s == [] || !before(x, s[|s| - 1]) then s + [x]
    else Insert(s[..|s| - 1], x, before) + [s[|s| - 1]]
  }

  lemma {:induction false} InsertPermutes<T>(s: seq<T>, x: T, before: (T, T) -> bool)
    ensures multiset(Insert(s, x, before)) == multiset(s) + multiset{x}
    decreases |s|
  {
    if s != [] && before(x, s[|s| - 1]) {
      InsertPermutes(s[..|s| - 1], x, before);
      assert s == s[..|s| - 1] + [s[|s| - 1]];
    }
  }

  /** The stable sort of `s`: each element in turn is inserted into the sorted prefix. */
  function SortBy<T>(s: seq<T>, before: (T, T) -> bool): (r: seq<T>)
    ensures |r| == |s|
    decreases |s|
  {
    if s == [] then []
    else Insert(SortBy(s[..|s| - 1], before), s[|s| - 1], before)
  }

  /** The sort's result is a permutation of its input. */
  lemma {:induction false} SortByPermutes<T>(s: seq<T>, before: (T, T) -> bool)
    ensures multiset(SortBy(s, before)) == multiset(s)
    decreases |s|
  {
    if s != [] {
      SortByPermutes(s[..|s| - 1], before);
      InsertPermutes(SortBy(s[..|s| - 1], before), s[|s| - 1], before);
      assert s == s[..|s| - 1] + [s[|s| - 1]];
    }
  }

  lemma {:induction false} InsertSorted<T(!new)>(s: seq<T>, x: T, before: (T, T) -> bool)
    requires WeakOrder(before) && Sorted(s, before)
    ensures Sorted(Insert(s, x, before), before)
    decreases |s|
  {
    if s == [] {
    } else if !before(x, s[|s| - 1]) {
      var r := s + [x];
      forall i, j | 0 <= i < j < |r| ensures !before(r[j], r[i]) {
        if j == |s| && i < |s| - 1 {
          assert !before(s[|s| - 1], s[i]);
        }
      }
    } else {
      var last := s[|s| - 1];
      var init := s[..|s| - 1];
      InsertSorted(init, x, before);
      var left := Insert(init, x, before);
      var r := left + [last];
      InsertPermutes(init, x, before);
      forall i, j | 0 <= i < j < |r| ensures !before(r[j], r[i]) {
        if j == |left| {
          assert r[i] in multiset(left);
          assert r[i] in init || r[i] == x;
        }
      }
    }
  }

  /** The sort's result is ordered by the comparator. */
  lemma {:induction false} SortBySorted<T(!new)>(s: seq<T>, before: (T, T) -> bool)
    requires WeakOrder(before)
    ensures Sorted(SortBy(s, before), before)
    decreases |s|
  {
    if s != [] {
      SortBySorted(s[..|s| - 1], before);
      InsertSorted(SortBy(s[..|s| - 1], before), s[|s| - 1], before);
    }
  }

  lemma {:induction false} InsertKeepsTies<T(!new)>(s: seq<T>, x: T, before: (T, T) -> bool, v: T)
    requires WeakOrder(before)
    ensures Filter(Insert(s, x, before), y => Tied(before, y, v))
         == Filter(s, y => Tied(before, y, v)) + Filter([x], y => Tied(before, y, v))
    decreases |s|
  {
    var p := y => Tied(before, y, v);
    if s == [] || !before(x, s[|s| - 1]) {
      FilterAppend(s, [x], p);
    } else {
      var last := s[|s| - 1];
      var init := s[..|s| - 1];
      InsertKeepsTies(init, x, before, v);
      FilterAppend(Insert(init, x, before), [last], p);
      FilterAppend(init, [last], p);
      assert init + [last] == s;
      assert !(p(x) && p(last));
    }
  }

  /**
    * Stability: the elements tied with any `v` come out in the order they went in.
    */
  lemma {:induction false} SortByStable<T(!new)>(s: seq<T>, before: (T, T) -> bool, v: T)
    requires WeakOrder(before)
    ensures Filter(SortBy(s, before), y => Tied(before, y, v)) == Filter(s, y => Tied(before, y, v))
    decreases |s|
  {
    if s != [] {
      var p := y => Tied(before, y, v);
      var init := s[..|s| - 1];
      SortByStable(init, before, v);
      InsertKeepsTies(SortBy(init, before), s[|s| - 1], before, v);
      FilterAppend(init, [s[|s| - 1]], p);
      assert init + [s[|s| - 1]] == s;
    }
  }

  /** A sequence that is already in order is left as it is. */
  lemma {:induction false} SortBySortedIdentity<T(!new)>(s: seq<T>, before: (T, T) -> bool)
    requires Sorted(s, before)
    ensures SortBy(s, before) == s
    decreases |s|
  {
    if s != [] {
      var init := s[..|s| - 1];
      assert Sorted(init, before);
      SortBySortedIdentity(init, before);
      assert s == init + [s[|s| - 1]];
    }
  }

  /** The in-place sort: `a` ends holding `SortBy` of what it held. */
  method SortInPlace<T>(a: array<T>, before: (T, T) -> bool)
    modifies a
    ensures a[..] == SortBy(old(a[..]), before)
  {
    ghost var input := a[..];
    var i := 0;
    while i < a.Length
      invariant 0 <= i <= a.Length
      invariant a[..i] == SortBy(input[..i], before)
      invariant a[i..] == input[i..]
    {
      SortByStep(input, i, before);
      assert a[i] == input[i];
      ghost var rest := a[i + 1..];
      assert rest == input[i + 1..];
      InsertInPlace(a, i, before);
      i := i + 1;
    }
    assert input[..a.Length] == input;
    assert a[..a.Length] == a[..];
  }

  /** One step of the in-place sort: `a[i]` is inserted into the ordered prefix `a[..i]`. */
  method InsertInPlace<T>(a: array<T>, i: nat, before: (T, T) -> bool)
    requires i < a.Length
    modifies a
    ensures a[..i + 1] == Insert(old(a[..i]), old(a[i]), before)
    ensures a[i + 1..] == old(a[i + 1..])
  {
    ghost var sorted := a[..i];
    var x := a[i];
    var j := i;
    assert sorted[..j] == sorted && sorted[j..] == [];
    while j > 0 && before(x, a[j - 1])
      invariant 0 <= j <= i
      invariant a[..j] == sorted[..j]
      invariant a[j + 1..i + 1] == sorted[j..]
      invariant a[i + 1..] == old(a[i + 1..])
      invariant Insert(sorted, x, before) == Insert(sorted[..j], x, before) + sorted[j..]
    {
      InsertStep(sorted, j, x, before);
      a[j] := a[j - 1];
      j := j - 1;
    }
    a[j] := x;
    InsertStop(sorted, j, x, before);
    assert a[..i + 1] == sorted[..j] + [x] + sorted[j..];
  }

  /** Where the moving element stops, the rest of the run is left as it was. */
  lemma InsertStop<T>(sorted: seq<T>, j: nat, x: T, before: (T, T) -> bool)
    requires j <= |sorted| && (j == 0 || !before(x, sorted[j - 1]))
    ensures Insert(sorted[..j], x, before) == sorted[..j] + [x]
  {
  }

  lemma SortByStep<T>(s: seq<T>, i: nat, before: (T, T) -> bool)
    requires i < |s|
    ensures SortBy(s[..i + 1], before) == Insert(SortBy(s[..i], before), s[i], before)
  {
    assert s[..i + 1][..i] == s[..i];
  }

  lemma InsertStep<T>(sorted: seq<T>, j: nat, x: T, before: (T, T) -> bool)
    requires 0 < j <= |sorted| && before(x, sorted[j - 1])
    ensures Insert(sorted[..j], x, before) + sorted[j..]
         == Insert(sorted[..j - 1], x, before) + sorted[j - 1..]
  {
    assert sorted[..j][..j - 1] == sorted[..j - 1];
    assert sorted[j - 1..] == [sorted[j - 1]] + sorted[j..];
  }
}
