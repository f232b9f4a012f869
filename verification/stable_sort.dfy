/** Stable sorting by a comparator, as `Array.prototype.sort(compare)` performs it.
    `before(a, b)` stands for `compare(a, b) <= 0`: `a` may stay ahead of `b`. The engine's
    algorithm is not visible; the model is insertion sort, and `StableSortIsUnique` shows that
    every stable sort by a total preorder yields the same sequence, so nothing depends on
    that choice. */
module StableSort {

  /** `before` is total and transitive: a consistent comparator. */
  ghost predicate TotalPreorder<T(!new)>(before: (T, T) -> bool) {
    && (forall a, b :: before(a, b) || before(b, a))
    && (forall a, b, c :: before(a, b) && before(b, c) ==> before(a, c))
  }

  /** Neither element has to precede the other: the comparator returns 0. */
  predicate Tied<T>(before: (T, T) -> bool, a: T, b: T) {
    before(a, b) && before(b, a)
  }

  predicate Sorted<T>(s: seq<T>, before: (T, T) -> bool) {
    forall i, j :: 0 <= i < j < |s| ==> before(s[i], s[j])
  }

  /** Inserts `x` after the last element of `s` that may precede it, scanning from the end. */
  function Insert<T>(s: seq<T>, x: T, before: (T, T) -> bool): (r: seq<T>)
    ensures |r| == |s| + 1
  {
    if s == [] then [x]
    else if before(s[|s| - 1], x) then s + [x]
    else Insert(s[..|s| - 1], x, before) + [s[|s| - 1]]
  }

  /** Insertion sort: each element in turn is inserted into the sorted prefix before it. */
  function InsertionSort<T>(s: seq<T>, before: (T, T) -> bool): (r: seq<T>)
    ensures |r| == |s|
  {
    if s == [] then []
    else Insert(InsertionSort(s[..|s| - 1], before), s[|s| - 1], before)
  }

  lemma {:induction false} InsertPermutes<T>(s: seq<T>, x: T, before: (T, T) -> bool)
    ensures multiset(Insert(s, x, before)) == multiset(s) + multiset{x}
  {
    if s != [] && !before(s[|s| - 1], x) {
      InsertPermutes(s[..|s| - 1], x, before);
      assert s == s[..|s| - 1] + [s[|s| - 1]];
    }
  }

  /** The result is a permutation of the input. */
  lemma {:induction false} InsertionSortPermutes<T>(s: seq<T>, before: (T, T) -> bool)
    ensures multiset(InsertionSort(s, before)) == multiset(s)
  {
    if s != [] {
      InsertionSortPermutes(s[..|s| - 1], before);
      InsertPermutes(InsertionSort(s[..|s| - 1], before), s[|s| - 1], before);
      assert s == s[..|s| - 1] + [s[|s| - 1]];
    }
  }

  lemma {:induction false} InsertSorted<T(!new)>(s: seq<T>, x: T, before: (T, T) -> bool)
    requires TotalPreorder(before) && Sorted(s, before)
    ensures Sorted(Insert(s, x, before), before)
  {
    if s == [] {
    } else if before(s[|s| - 1], x) {
      var r := s + [x];
      forall i, j | 0 <= i < j < |r| ensures before(r[i], r[j]) {
        if j == |s| && i < |s| - 1 {
          assert before(s[i], s[|s| - 1]);
        }
      }
    } else {
      var init, last := s[..|s| - 1], s[|s| - 1];
      InsertSorted(init, x, before);
      InsertPermutes(init, x, before);
      var front := Insert(init, x, before);
      var r := front + [last];
      assert r == Insert(s, x, before);
      forall i, j | 0 <= i < j < |r| ensures before(r[i], r[j]) {
        if j == |front| {
          var y := r[i];
          assert y in multiset(front);
          if y != x {
            assert y in multiset(init);
            var k :| 0 <= k < |init| && init[k] == y;
            assert before(s[k], s[|s| - 1]);
          }
        }
      }
    }
  }

  /** The result is sorted by `before`. */
  lemma {:induction false} InsertionSortSorted<T(!new)>(s: seq<T>, before: (T, T) -> bool)
    requires TotalPreorder(before)
    ensures Sorted(InsertionSort(s, before), before)
  {
    if s != [] {
      InsertionSortSorted(s[..|s| - 1], before);
      InsertSorted(InsertionSort(s[..|s| - 1], before), s[|s| - 1], before);
    }
  }

  /** The elements of `s` that satisfy `p`, in their order in `s`. */
  function Filter<T>(s: seq<T>, p: T -> bool): seq<T> {
    if s == [] then []
    else Filter(s[..|s| - 1], p) + (if p(s[|s| - 1]) then [s[|s| - 1]] else [])
  }

  /** Every two elements satisfying `p` may stand in either order: `p` picks tied elements. */
  ghost predicate AllTied<T(!new)>(p: T -> bool, before: (T, T) -> bool) {
    forall a, b :: p(a) && p(b) ==> before(a, b)
  }

  /** The elements tied with `e`. */
  function Rank<T>(before: (T, T) -> bool, e: T): T -> bool {
    (y: T) => Tied(before, y, e)
  }

  lemma RankIsTied<T(!new)>(before: (T, T) -> bool, e: T)
    requires TotalPreorder(before)
    ensures AllTied(Rank(before, e), before)
  {
    forall a, b | Rank(before, e)(a) && Rank(before, e)(b) ensures before(a, b) {
      assert before(a, e) && before(e, b);
    }
  }

  lemma FilterSnoc<T>(s: seq<T>, y: T, p: T -> bool)
    ensures Filter(s + [y], p) == Filter(s, p) + (if p(y) then [y] else [])
  {
    assert (s + [y])[..|s|] == s;
  }

  lemma FilterMembers<T>(s: seq<T>, p: T -> bool, y: T)
    requires y in Filter(s, p)
    ensures y in s && p(y)
  {
    if s != [] {
      var init := s[..|s| - 1];
      if y in Filter(init, p) {
        FilterMembers(init, p, y);
        assert y in s by { assert forall k :: 0 <= k < |init| ==> init[k] == s[k]; }
      }
    }
  }

  /** Inserting `x` adds it after the elements already picked by `p`: `x` never passes an
      element it is tied with. */
  lemma {:induction false} InsertFilter<T(!new)>(s: seq<T>, x: T, p: T -> bool, before: (T, T) -> bool)
    requires AllTied(p, before)
    ensures Filter(Insert(s, x, before), p) == Filter(s, p) + (if p(x) then [x] else [])
  {
    var tx := if p(x) then [x] else [];
    if s == [] {
      calc {
        Filter(Insert(s, x, before), p);
        Filter([] + [x], p);
        { FilterSnoc([], x, p); }
        Filter([], p) + tx;
      }
    } else if before(s[|s| - 1], x) {
      FilterSnoc(s, x, p);
    } else {
      var init, last := s[..|s| - 1], s[|s| - 1];
      var tl := if p(last) then [last] else [];
      var front := Insert(init, x, before);
      assert !(p(x) && p(last));
      assert tx + tl == tl + tx;
      calc {
        Filter(Insert(s, x, before), p);
        Filter(front + [last], p);
        { FilterSnoc(front, last, p); }
        Filter(front, p) + tl;
        { InsertFilter(init, x, p, before); }
        Filter(init, p) + tx + tl;
        Filter(init, p) + (tx + tl);
        Filter(init, p) + (tl + tx);
        Filter(init, p) + tl + tx;
        { FilterSnoc(init, last, p); assert s == init + [last]; }
        Filter(s, p) + tx;
      }
    }
  }

  /** Stability: elements that are tied with one another keep their input order. */
  lemma {:induction false} InsertionSortStable<T(!new)>(s: seq<T>, p: T -> bool, before: (T, T) -> bool)
    requires AllTied(p, before)
    ensures Filter(InsertionSort(s, before), p) == Filter(s, p)
  {
    if s != [] {
      var init, last := s[..|s| - 1], s[|s| - 1];
      InsertionSortStable(init, p, before);
      InsertFilter(InsertionSort(init, before), last, p, before);
      FilterSnoc(init, last, p);
      assert s == init + [last];
    }
  }

  lemma RankHasLast<T(!new)>(s: seq<T>, before: (T, T) -> bool)
    requires TotalPreorder(before) && s != []
    ensures Filter(s, Rank(before, s[|s| - 1])) != []
  {
    assert before(s[|s| - 1], s[|s| - 1]);
  }

  /** Two sequences sorted by the same total preorder in which every rank lists the same
      elements in the same order are equal. */
  lemma {:induction false} StableSortIsUnique<T(!new)>(r1: seq<T>, r2: seq<T>, before: (T, T) -> bool)
    requires TotalPreorder(before)
    requires Sorted(r1, before) && Sorted(r2, before)
    requires forall e :: Filter(r1, Rank(before, e)) == Filter(r2, Rank(before, e))
    ensures r1 == r2
    decreases |r1|
  {
    if r1 == [] && r2 == [] {
      return;
    }
    var r := if r1 != [] then r1 else r2;
    var last := r[|r| - 1];
    RankHasLast(r, before);
    assert Filter(r1, Rank(before, last)) != [] && Filter(r2, Rank(before, last)) != [];
    var init1, a := r1[..|r1| - 1], r1[|r1| - 1];
    var init2, b := r2[..|r2| - 1], r2[|r2| - 1];
    assert before(b, a) by {
      assert b in Filter(r2, Rank(before, b));
      FilterMembers(r1, Rank(before, b), b);
      var k :| 0 <= k < |r1| && r1[k] == b;
      if k < |r1| - 1 { assert before(r1[k], r1[|r1| - 1]); }
    }
    assert before(a, b) by {
      assert a in Filter(r1, Rank(before, a));
      FilterMembers(r2, Rank(before, a), a);
      var k :| 0 <= k < |r2| && r2[k] == a;
      if k < |r2| - 1 { assert before(r2[k], r2[|r2| - 1]); }
    }
    assert a == b by {
      var l1 := Filter(r1, Rank(before, a));
      var l2 := Filter(r2, Rank(before, a));
      assert l1 == Filter(init1, Rank(before, a)) + [a];
      assert l2 == Filter(init2, Rank(before, a)) + [b];
      assert l1 == l2;
      assert l1[|l1| - 1] == a && l2[|l2| - 1] == b;
    }
    forall e ensures Filter(init1, Rank(before, e)) == Filter(init2, Rank(before, e)) {
      var p := Rank(before, e);
      var s1, s2, t := Filter(init1, p), Filter(init2, p), if p(a) then [a] else [];
      assert Filter(r1, p) == s1 + t;
      assert Filter(r2, p) == s2 + t;
      assert (s1 + t)[..|s1|] == s1;
      assert (s2 + t)[..|s2|] == s2;
    }
    StableSortIsUnique(init1, init2, before);
    assert r1 == init1 + [a] && r2 == init2 + [b];
  }

  /** Whatever stable algorithm the engine uses, its result is the insertion sort of the input:
      a sorted sequence that keeps the order within every rank is unique. */
  lemma StableSortsAgree<T(!new)>(s: seq<T>, r: seq<T>, before: (T, T) -> bool)
    requires TotalPreorder(before)
    requires Sorted(r, before)
    requires forall e :: Filter(r, Rank(before, e)) == Filter(s, Rank(before, e))
    ensures r == InsertionSort(s, before)
  {
    InsertionSortSorted(s, before);
    forall e ensures Filter(r, Rank(before, e)) == Filter(InsertionSort(s, before), Rank(before, e)) {
      RankIsTied(before, e);
      InsertionSortStable(s, Rank(before, e), before);
    }
    StableSortIsUnique(r, InsertionSort(s, before), before);
  }

  /** One step of the scan: `x` does not go right after `s[j - 1]`, so it goes further left. */
  lemma InsertStep<T>(s: seq<T>, j: int, x: T, before: (T, T) -> bool)
    requires 0 < j <= |s| && !before(s[j - 1], x)
    ensures Insert(s[..j], x, before) + s[j..] == Insert(s[..j - 1], x, before) + s[j - 1..]
  {
    assert s[..j][..j - 1] == s[..j - 1];
    assert s[j - 1..] == [s[j - 1]] + s[j..];
  }

  /** The scan stops: at the front, or after an element that may precede `x`. */
  lemma InsertStop<T>(s: seq<T>, j: int, x: T, before: (T, T) -> bool)
    requires 0 <= j <= |s| && (j == 0 || before(s[j - 1], x))
    ensures Insert(s[..j], x, before) == s[..j] + [x]
  {
  }

  /** Inserts `a[i]` into the sorted prefix `a[..i]`, shifting the elements that must follow it
      one place right; `a[i + 1..]` is untouched. */
  method InsertAt<T>(a: array<T>, i: int, before: (T, T) -> bool)
    requires 0 <= i < a.Length
    modifies a
    ensures a[..] == Insert(old(a[..i]), old(a[i]), before) + old(a[i + 1..])
  {
    var x := a[i];
    ghost var sorted, rest := a[..i], a[i + 1..];
    ghost var cur := a[..];
    var j := i;
    assert sorted[..j] == sorted && sorted[j..] == [];
    while j > 0 && !before(a[j - 1], x)
      invariant 0 <= j <= i && a[..] == cur && |cur| == a.Length
      invariant Shifted(cur, j, sorted, rest)
      invariant Insert(sorted, x, before) == Insert(sorted[..j], x, before) + sorted[j..]
    {
      InsertStep(sorted, j, x, before);
      ShiftRight(cur, j, sorted, rest);
      a[j] := a[j - 1];
      cur := cur[j := cur[j - 1]];
      j := j - 1;
    }
    InsertStop(sorted, j, x, before);
    Place(cur, j, x, sorted, rest);
    a[j] := x;
  }

  /** The state of the scan in `InsertAt`: `sorted[..j]` in front, `sorted[j..]` moved one place
      right, then the untouched rest; position `j` is free. */
  ghost predicate Shifted<T>(cur: seq<T>, j: int, sorted: seq<T>, rest: seq<T>) {
    && 0 <= j <= |sorted| && |cur| == |sorted| + 1 + |rest|
    && cur[..j] == sorted[..j] && cur[j + 1..] == sorted[j..] + rest
  }

  /** Copying `cur[j - 1]` into `cur[j]` moves the free position one place left. */
  lemma ShiftRight<T>(cur: seq<T>, j: int, sorted: seq<T>, rest: seq<T>)
    requires Shifted(cur, j, sorted, rest) && 0 < j
    ensures Shifted(cur[j := cur[j - 1]], j - 1, sorted, rest)
  {
    var next := cur[j := cur[j - 1]];
    assert sorted[j - 1..] == [sorted[j - 1]] + sorted[j..];
    assert cur[j - 1] == cur[..j][j - 1] == sorted[j - 1];
    assert next[j..] == [cur[j - 1]] + cur[j + 1..];
    assert next[..j - 1] == cur[..j][..j - 1] == sorted[..j][..j - 1];
  }

  /** Writing `x` into the free position completes the insertion. */
  lemma Place<T>(cur: seq<T>, j: int, x: T, sorted: seq<T>, rest: seq<T>)
    requires Shifted(cur, j, sorted, rest)
    ensures cur[j := x] == sorted[..j] + [x] + sorted[j..] + rest
  {
    var next := cur[j := x];
    assert next == next[..j] + [x] + next[j + 1..];
    assert next[..j] == cur[..j];
    assert next[j + 1..] == cur[j + 1..];
  }

  /** The array before step `i` of the sort: the sorted first `i` elements, then the rest. */
  lemma SortStep<T>(input: seq<T>, i: int, cur: seq<T>, before: (T, T) -> bool)
    requires 0 <= i < |input| && cur == InsertionSort(input[..i], before) + input[i..]
    ensures cur[..i] == InsertionSort(input[..i], before) && cur[i] == input[i]
    ensures cur[i + 1..] == input[i + 1..]
    ensures InsertionSort(input[..i + 1], before) == Insert(InsertionSort(input[..i], before), input[i], before)
  {
    assert input[..i + 1][..i] == input[..i];
  }

  /** Sorts `a` in place by `before`, stably: the array ends up holding the insertion sort of
      its old contents. */
  method SortInPlace<T>(a: array<T>, before: (T, T) -> bool)
    modifies a
    ensures a[..] == InsertionSort(old(a[..]), before)
  {
    ghost var input := a[..];
    var i := 0;
    assert input[..0] == [] && input[0..] == input;
    while i < a.Length
      invariant 0 <= i <= a.Length && |input| == a.Length
      invariant a[..] == InsertionSort(input[..i], before) + input[i..]
    {
      SortStep(input, i, a[..], before);
      InsertAt(a, i, before);
      i := i + 1;
    }
    assert input[..a.Length] == input;
  }
}
