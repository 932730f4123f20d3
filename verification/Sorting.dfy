/** Stable insertion sort under a given strict order, and the lexicographic order of texts. */
module Sorting {
  import opened Sums

  /** `before` compares like a strict weak order. */
  ghost predicate WeakOrder<T(!new)>(before: (T, T) -> bool) {
    && (forall a, b :: before(a, b) ==> !before(b, a))
    && (forall a, b, c :: !before(b, a) && !before(c, b) ==> !before(c, a))
  }

  /** Rows that compare equal keep their order. */
  function Insert<T>(x: T, sorted: seq<T>, before: (T, T) -> bool): seq<T> {
    if sorted == [] || !before(sorted[0], x) then [x] + sorted
    else [sorted[0]] + Insert(x, sorted[1..], before)
  }

  function Sort<T>(xs: seq<T>, before: (T, T) -> bool): seq<T> {
    if xs == [] then [] else Insert(xs[0], Sort(xs[1..], before), before)
  }

  ghost predicate Sorted<T>(xs: seq<T>, before: (T, T) -> bool) {
    forall i, j :: 0 <= i < j < |xs| ==> !before(xs[j], xs[i])
  }

  lemma {:induction false} InsertKeepsRows<T>(x: T, sorted: seq<T>, before: (T, T) -> bool)
    ensures multiset(Insert(x, sorted, before)) == multiset{x} + multiset(sorted)
  {
    if sorted != [] && before(sorted[0], x) {
      InsertKeepsRows(x, sorted[1..], before);
      assert sorted == [sorted[0]] + sorted[1..];
    }
  }

  lemma {:induction false} SortedTail<T>(xs: seq<T>, before: (T, T) -> bool)
    requires xs != [] && Sorted(xs, before)
    ensures Sorted(xs[1..], before)
  {
    assert forall i :: 0 <= i < |xs[1..]| ==> xs[1..][i] == xs[i + 1];
  }

  lemma {:induction false} SortedCons<T>(x: T, xs: seq<T>, before: (T, T) -> bool)
    requires Sorted(xs, before)
    requires forall j :: 0 <= j < |xs| ==> !before(xs[j], x)
    ensures Sorted([x] + xs, before)
  {
    var r := [x] + xs;
    forall i, j | 0 <= i < j < |r| ensures !before(r[j], r[i]) {
      assert r[j] == xs[j - 1];
    }
  }

  lemma {:induction false} InsertKeepsOrder<T(!new)>(x: T, sorted: seq<T>, before: (T, T) -> bool)
    requires WeakOrder(before) && Sorted(sorted, before)
    ensures Sorted(Insert(x, sorted, before), before)
  {
    if sorted == [] {
    } else if !before(sorted[0], x) {
      SortedCons(x, sorted, before);
    } else {
      var rest := sorted[1..];
      var tail := Insert(x, rest, before);
      SortedTail(sorted, before);
      InsertKeepsOrder(x, rest, before);
      InsertKeepsRows(x, rest, before);
      forall j | 0 <= j < |tail| ensures !before(tail[j], sorted[0]) {
        assert tail[j] in multiset(tail);
        if tail[j] != x {
          assert tail[j] in rest;
          var k :| 0 <= k < |rest| && rest[k] == tail[j];
          assert sorted[k + 1] == rest[k];
        }
      }
      SortedCons(sorted[0], tail, before);
    }
  }

  lemma {:induction false} SameElements<T>(xs: seq<T>, ys: seq<T>)
    requires multiset(xs) == multiset(ys)
    ensures |xs| == |ys|
    ensures forall x :: x in xs <==> x in ys
  {
    assert |multiset(xs)| == |xs| && |multiset(ys)| == |ys|;
    forall x ensures x in xs <==> x in ys {
      assert x in xs <==> x in multiset(xs);
      assert x in ys <==> x in multiset(ys);
    }
  }

  /** Sorting neither adds, drops nor repeats a row, and puts the rows in order. */
  lemma {:induction false} SortKeeps<T(!new)>(xs: seq<T>, before: (T, T) -> bool)
    requires WeakOrder(before)
    ensures multiset(Sort(xs, before)) == multiset(xs) && Sorted(Sort(xs, before), before)
    ensures |Sort(xs, before)| == |xs|
    ensures forall x :: x in Sort(xs, before) <==> x in xs
    ensures Distinct(xs) ==> Distinct(Sort(xs, before))
  {
    SortKeepsRows(xs, before);
    var r := Sort(xs, before);
    SameElements(r, xs);
    if Distinct(xs) { DistinctByCount(xs, r); }
  }

  lemma {:induction false} SortKeepsRows<T(!new)>(xs: seq<T>, before: (T, T) -> bool)
    requires WeakOrder(before)
    ensures multiset(Sort(xs, before)) == multiset(xs) && Sorted(Sort(xs, before), before)
  {
    if xs != [] {
      SortKeepsRows(xs[1..], before);
      InsertKeepsRows(xs[0], Sort(xs[1..], before), before);
      InsertKeepsOrder(xs[0], Sort(xs[1..], before), before);
      assert xs == [xs[0]] + xs[1..];
    }
  }

  // ----- the order of the input does not matter -----

  /** Different rows of the list never compare equal. */
  ghost predicate Separates<T>(xs: seq<T>, before: (T, T) -> bool) {
    forall a, b :: a in xs && b in xs && a != b ==> before(a, b) || before(b, a)
  }

  lemma {:induction false} SortedIsUnique<T>(xs: seq<T>, ys: seq<T>, before: (T, T) -> bool)
    requires Sorted(xs, before) && Sorted(ys, before) && multiset(xs) == multiset(ys) && Separates(xs, before)
    ensures xs == ys
  {
    SameElements(xs, ys);
    if xs != [] {
      FirstIsLeast(xs, ys[0], before);
      FirstIsLeast(ys, xs[0], before);
      assert xs[0] == ys[0];
      assert xs == [xs[0]] + xs[1..] && ys == [ys[0]] + ys[1..];
      assert multiset(xs[1..]) == multiset(xs) - multiset{xs[0]};
      assert multiset(ys[1..]) == multiset(ys) - multiset{ys[0]};
      SortedTail(xs, before);
      SortedTail(ys, before);
      SortedIsUnique(xs[1..], ys[1..], before);
    }
  }

  lemma {:induction false} FirstIsLeast<T>(xs: seq<T>, x: T, before: (T, T) -> bool)
    requires Sorted(xs, before) && x in xs
    ensures x == xs[0] || !before(x, xs[0])
  {
    var k :| 0 <= k < |xs| && xs[k] == x;
  }

  /** Two orders of the same rows are sorted into the same list. */
  lemma {:induction false} SortIgnoresOrder<T(!new)>(xs: seq<T>, ys: seq<T>, before: (T, T) -> bool)
    requires WeakOrder(before) && multiset(xs) == multiset(ys) && Separates(xs, before)
    ensures Sort(xs, before) == Sort(ys, before)
  {
    SortKeeps(xs, before);
    SortKeeps(ys, before);
    SortedIsUnique(Sort(xs, before), Sort(ys, before), before);
  }

  // ----- lists without repetition -----

  lemma {:induction false} DistinctCounts<T>(xs: seq<T>, x: T)
    requires Distinct(xs)
    ensures multiset(xs)[x] <= 1
  {
    if xs != [] {
      assert xs == [xs[0]] + xs[1..];
      assert forall i :: 0 <= i < |xs[1..]| ==> xs[1..][i] == xs[i + 1];
      DistinctCounts(xs[1..], x);
      if x == xs[0] { assert x !in xs[1..]; }
    }
  }

  lemma {:induction false} RepeatCounts<T>(xs: seq<T>, i: nat, j: nat)
    requires i < j < |xs| && xs[i] == xs[j]
    ensures multiset(xs)[xs[i]] >= 2
  {
    assert xs == xs[..j] + [xs[j]] + xs[j + 1..];
    assert xs[..j][i] == xs[i];
  }

  lemma {:induction false} CountsDistinct<T>(xs: seq<T>)
    requires forall x :: multiset(xs)[x] <= 1
    ensures Distinct(xs)
  {
    forall i, j | 0 <= i < j < |xs| && xs[i] == xs[j] ensures false {
      RepeatCounts(xs, i, j);
    }
  }

  lemma {:induction false} DistinctByCount<T>(xs: seq<T>, ys: seq<T>)
    requires Distinct(xs) && multiset(xs) == multiset(ys)
    ensures Distinct(ys)
  {
    forall x ensures multiset(ys)[x] <= 1 { DistinctCounts(xs, x); }
    CountsDistinct(ys);
  }

  // ----- lexicographic order -----

  predicate LexBefore(a: seq<int>, b: seq<int>) {
    b != [] && (a == [] || a[0] < b[0] || (a[0] == b[0] && LexBefore(a[1..], b[1..])))
  }

  lemma {:induction false} LexAsymmetric(a: seq<int>, b: seq<int>)
    requires LexBefore(a, b)
    ensures !LexBefore(b, a)
  {
    if a != [] && a[0] == b[0] { LexAsymmetric(a[1..], b[1..]); }
  }

  lemma {:induction false} LexTotal(a: seq<int>, b: seq<int>)
    requires a != b
    ensures LexBefore(a, b) || LexBefore(b, a)
  {
    if a != [] && b != [] && a[0] == b[0] {
      assert a == [a[0]] + a[1..] && b == [b[0]] + b[1..];
      LexTotal(a[1..], b[1..]);
    }
  }

  lemma {:induction false} LexTransitive(a: seq<int>, b: seq<int>, c: seq<int>)
    requires !LexBefore(b, a) && !LexBefore(c, b)
    ensures !LexBefore(c, a)
  {
    if a != [] && b != [] && c != [] && a[0] == b[0] == c[0] {
      LexTransitive(a[1..], b[1..], c[1..]);
    }
  }

  /** Compare rows by the lexicographic order of a key. */
  function ByText<T>(key: T -> seq<int>): (T, T) -> bool {
    (a, b) => LexBefore(key(a), key(b))
  }

  lemma {:induction false} ByTextIsWeakOrder<T(!new)>(key: T -> seq<int>)
    ensures WeakOrder(ByText(key))
  {
    var before := ByText(key);
    forall a, b | before(a, b) ensures !before(b, a) { LexAsymmetric(key(a), key(b)); }
    forall a, b, c | !before(b, a) && !before(c, b) ensures !before(c, a) { LexTransitive(key(a), key(b), key(c)); }
  }

  /** Rows with different keys are separated. */
  lemma {:induction false} ByTextSeparates<T>(xs: seq<T>, key: T -> seq<int>)
    requires forall a, b :: a in xs && b in xs && a != b ==> key(a) != key(b)
    ensures Separates(xs, ByText(key))
  {
    forall a, b | a in xs && b in xs && a != b ensures ByText(key)(a, b) || ByText(key)(b, a) {
      LexTotal(key(a), key(b));
    }
  }
}
