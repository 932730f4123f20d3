/** Finite sums over row positions. A table is a sequence of rows; every total in the
    models is a sum, over the positions of one table, of a weight read from the row. */
module Sums {

  /** f(0) + ... + f(n-1). */
  function Sum(n: nat, f: nat -> int): int {
    if n == 0 then 0 else Sum(n - 1, f) + f(n - 1)
  }

  lemma {:induction false} SumSame(n: nat, f: nat -> int, g: nat -> int)
    requires forall i: nat :: i < n ==> f(i) == g(i)
    ensures Sum(n, f) == Sum(n, g)
  {
    if n > 0 { SumSame(n - 1, f, g); }
  }

  lemma {:induction false} SumZero(n: nat, f: nat -> int)
    requires forall i: nat :: i < n ==> f(i) == 0
    ensures Sum(n, f) == 0
  {
    if n > 0 { SumZero(n - 1, f); }
  }

  /** Two weights that agree except at one position. */
  lemma {:induction false} SumSwitch(n: nat, f: nat -> int, g: nat -> int, at: nat)
    requires at < n
    requires forall i: nat :: i < n && i != at ==> f(i) == g(i)
    ensures Sum(n, g) == Sum(n, f) - f(at) + g(at)
  {
    if at == n - 1 {
      SumSame(n - 1, f, g);
    } else {
      SumSwitch(n - 1, f, g, at);
    }
  }

  lemma {:induction false} SumAdds(n: nat, f: nat -> int, g: nat -> int, h: nat -> int)
    requires forall i: nat :: i < n ==> h(i) == f(i) + g(i)
    ensures Sum(n, h) == Sum(n, f) + Sum(n, g)
  {
    if n > 0 { SumAdds(n - 1, f, g, h); }
  }

  lemma {:induction false} SumAtMost(n: nat, f: nat -> int, g: nat -> int)
    requires forall i: nat :: i < n ==> f(i) <= g(i)
    ensures Sum(n, f) <= Sum(n, g)
  {
    if n > 0 { SumAtMost(n - 1, f, g); }
  }

  lemma {:induction false} SumNonNegative(n: nat, f: nat -> int)
    requires forall i: nat :: i < n ==> 0 <= f(i)
    ensures 0 <= Sum(n, f)
  {
    if n > 0 { SumNonNegative(n - 1, f); }
  }

  /** One non-negative term never exceeds the whole sum. */
  lemma {:induction false} TermAtMostSum(n: nat, f: nat -> int, at: nat)
    requires at < n
    requires forall i: nat :: i < n ==> 0 <= f(i)
    ensures f(at) <= Sum(n, f)
  {
    if at == n - 1 {
      SumNonNegative(n - 1, f);
    } else {
      TermAtMostSum(n - 1, f, at);
    }
  }

  /** A sum of non-negative terms vanishes exactly when every term does. */
  lemma {:induction false} SumVanishes(n: nat, f: nat -> int)
    requires forall i: nat :: i < n ==> 0 <= f(i)
    ensures Sum(n, f) == 0 <==> forall i: nat :: i < n ==> f(i) == 0
  {
    if Sum(n, f) == 0 {
      forall i: nat | i < n ensures f(i) == 0 { TermAtMostSum(n, f, i); }
    } else if forall i: nat :: i < n ==> f(i) == 0 {
      SumZero(n, f);
    }
  }

  /** The part of `weight` that falls into bucket `b` under the classification `cls`. */
  function InBucket(cls: nat -> int, weight: nat -> int, b: int): nat -> int {
    (j: nat) => if cls(j) == b then weight(j) else 0
  }

  function BucketTotal(m: nat, cls: nat -> int, weight: nat -> int): nat -> int {
    (b: nat) => Sum(m, InBucket(cls, weight, b))
  }

  /** Splitting m items into n buckets neither loses nor repeats any weight. */
  lemma {:induction false} BucketsPartition(n: nat, m: nat, cls: nat -> int, weight: nat -> int)
    requires forall j: nat :: j < m ==> 0 <= cls(j) < n || weight(j) == 0
    ensures Sum(n, BucketTotal(m, cls, weight)) == Sum(m, weight)
  {
    var total := BucketTotal(m, cls, weight);
    if m == 0 {
      SumZero(n, total);
    } else {
      var before := BucketTotal(m - 1, cls, weight);
      BucketsPartition(n, m - 1, cls, weight);
      var c := cls(m - 1);
      if 0 <= c < n {
        SumSwitch(n, before, total, c);
      } else {
        SumSame(n, before, total);
      }
    }
  }

  // ----- sums along a list of positions -----

  /** The weights met when a list of positions is walked. */
  function SumAlong(order: seq<nat>, f: nat -> int): int {
    if order == [] then 0 else f(order[0]) + SumAlong(order[1..], f)
  }

  lemma {:induction false} SumAlongSame(order: seq<nat>, f: nat -> int, g: nat -> int)
    requires forall i :: 0 <= i < |order| ==> f(order[i]) == g(order[i])
    ensures SumAlong(order, f) == SumAlong(order, g)
  {
    if order != [] {
      assert forall i :: 0 <= i < |order[1..]| ==> order[1..][i] == order[i + 1];
      SumAlongSame(order[1..], f, g);
    }
  }

  lemma {:induction false} SumAlongConcat(a: seq<nat>, b: seq<nat>, f: nat -> int)
    ensures SumAlong(a + b, f) == SumAlong(a, f) + SumAlong(b, f)
  {
    if a == [] {
      assert a + b == b;
    } else {
      assert (a + b)[1..] == a[1..] + b;
      SumAlongConcat(a[1..], b, f);
    }
  }

  predicate Distinct<T(==)>(s: seq<T>) {
    forall i, j :: 0 <= i < j < |s| ==> s[i] != s[j]
  }

  function Only(order: seq<nat>, f: nat -> int): nat -> int {
    (i: nat) => if i in order then f(i) else 0
  }

  /** Walking distinct positions below n sums exactly the weights of those positions. */
  lemma {:induction false} SumAlongIsSum(n: nat, order: seq<nat>, f: nat -> int)
    requires Distinct(order)
    requires forall i :: 0 <= i < |order| ==> order[i] < n
    ensures SumAlong(order, f) == Sum(n, Only(order, f))
  {
    if order == [] {
      SumZero(n, Only(order, f));
    } else {
      var rest := order[1..];
      assert forall i :: 0 <= i < |rest| ==> rest[i] == order[i + 1];
      SumAlongIsSum(n, rest, f);
      assert order[0] !in rest;
      assert forall i: nat :: i != order[0] ==> (i in order <==> i in rest);
      SumSwitch(n, Only(rest, f), Only(order, f), order[0]);
    }
  }

  // ----- sums over the entries of a log -----

  function SumSeq<T>(rows: seq<T>, f: T -> int): int {
    if rows == [] then 0 else SumSeq(rows[..|rows| - 1], f) + f(rows[|rows| - 1])
  }

  lemma {:induction false} SumSeqPush<T>(rows: seq<T>, x: T, f: T -> int)
    ensures SumSeq(rows + [x], f) == SumSeq(rows, f) + f(x)
  {
    assert (rows + [x])[..|rows|] == rows;
  }

  lemma {:induction false} SumSeqSame<T>(rows: seq<T>, f: T -> int, g: T -> int)
    requires forall k :: 0 <= k < |rows| ==> f(rows[k]) == g(rows[k])
    ensures SumSeq(rows, f) == SumSeq(rows, g)
  {
    if rows != [] { SumSeqSame(rows[..|rows| - 1], f, g); }
  }

  lemma {:induction false} SumSeqConcat<T>(a: seq<T>, b: seq<T>, f: T -> int)
    ensures SumSeq(a + b, f) == SumSeq(a, f) + SumSeq(b, f)
  {
    if b == [] {
      assert a + b == a;
    } else {
      var n := |b| - 1;
      assert (a + b)[..|a + b| - 1] == a + b[..n];
      SumSeqConcat(a, b[..n], f);
    }
  }

  lemma {:induction false} SumSeqMove<T>(before: seq<T>, x: T, after: seq<T>, f: T -> int)
    ensures SumSeq(before + ([x] + after), f) == SumSeq(before + after, f) + f(x)
  {
    SumSeqConcat(before, after, f);
    SumSeqConcat(before, [x] + after, f);
    SumSeqConcat([x], after, f);
    SumSeqPush([], x, f);
    assert [] + [x] == [x];
  }

  lemma {:induction false} TakeOut<T>(b: seq<T>, x: T) returns (k: nat)
    requires x in multiset(b)
    ensures k < |b| && b == b[..k] + ([x] + b[k + 1..])
    ensures multiset(b[..k] + b[k + 1..]) == multiset(b) - multiset{x}
  {
    k :| 0 <= k < |b| && b[k] == x;
    assert b == b[..k] + ([x] + b[k + 1..]);
  }

  /** A total over a log does not depend on the order of its entries. */
  lemma {:induction false} SumSeqIgnoresOrder<T>(a: seq<T>, b: seq<T>, f: T -> int)
    requires multiset(a) == multiset(b)
    ensures SumSeq(a, f) == SumSeq(b, f)
    decreases |a|
  {
    assert |multiset(a)| == |a| && |multiset(b)| == |b|;
    if a != [] {
      var n, x := |a| - 1, a[|a| - 1];
      assert a == a[..n] + [x];
      assert x in multiset(a);
      var k := TakeOut(b, x);
      SumSeqIgnoresOrder(a[..n], b[..k] + b[k + 1..], f);
      SumSeqMove(b[..k], x, b[k + 1..], f);
    }
  }

  lemma {:induction false} SumSeqIsSum<T>(rows: seq<T>, f: T -> int, g: nat -> int)
    requires forall i: nat :: i < |rows| ==> g(i) == f(rows[i])
    ensures SumSeq(rows, f) == Sum(|rows|, g)
  {
    if rows != [] { SumSeqIsSum(rows[..|rows| - 1], f, g); }
  }
}
