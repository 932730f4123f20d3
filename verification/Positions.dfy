/** Row positions of a table that satisfy a condition: the WHERE clause of a query. */
module Positions {
  import opened Outcomes
  import opened Sums

  /** Positions below n that satisfy p, in table order. */
  function Where(n: nat, p: nat -> bool): (r: seq<nat>)
    ensures forall x: nat :: x in r <==> x < n && p(x)
    ensures forall k :: 0 <= k < |r| ==> r[k] < n && p(r[k])
    ensures Distinct(r)
  {
    if n == 0 then []
    else if p(n - 1) then Where(n - 1, p) + [n - 1]
    else Where(n - 1, p)
  }

  /** The first position below n that satisfies p. */
  function First(n: nat, p: nat -> bool): (r: Option<nat>)
    ensures r.Some? ==> r.value < n && p(r.value) && forall i: nat :: i < r.value ==> !p(i)
    ensures r.None? ==> forall i: nat :: i < n ==> !p(i)
  {
    if n == 0 then None
    else
      match First(n - 1, p)
      case Some(i) => Some(i)
      case None => if p(n - 1) then Some(n - 1) else None
  }

  /** A condition that holds at one position only. */
  lemma {:induction false} WhereOnly(n: nat, p: nat -> bool, i: nat)
    requires i < n && p(i) && forall k: nat :: k < n && k != i ==> !p(k)
    ensures Where(n, p) == [i]
  {
    if i == n - 1 {
      WhereNone(n - 1, p);
    } else {
      WhereOnly(n - 1, p, i);
    }
  }

  lemma {:induction false} WhereNone(n: nat, p: nat -> bool)
    requires forall k: nat :: k < n ==> !p(k)
    ensures Where(n, p) == []
  {
    if n > 0 { WhereNone(n - 1, p); }
  }

  // ----- the rows themselves -----

  /** The rows that satisfy p, in table order. */
  function Filter<T>(rows: seq<T>, p: T -> bool): seq<T> {
    if rows == [] then []
    else Filter(rows[..|rows| - 1], p) + if p(rows[|rows| - 1]) then [rows[|rows| - 1]] else []
  }

  lemma {:induction false} FilterConcat<T>(a: seq<T>, b: seq<T>, p: T -> bool)
    ensures Filter(a + b, p) == Filter(a, p) + Filter(b, p)
  {
    if b == [] {
      assert a + b == a;
    } else {
      var init, last := b[..|b| - 1], b[|b| - 1];
      FilterConcat(a, init, p);
      assert (a + b)[..|a + b| - 1] == a + init;
    }
  }

  lemma {:induction false} FilterAll<T>(rows: seq<T>, p: T -> bool)
    requires forall i :: 0 <= i < |rows| ==> p(rows[i])
    ensures Filter(rows, p) == rows
  {
    if rows != [] {
      FilterAll(rows[..|rows| - 1], p);
      assert rows == rows[..|rows| - 1] + [rows[|rows| - 1]];
    }
  }

  lemma {:induction false} FilterNone<T>(rows: seq<T>, p: T -> bool)
    requires forall i :: 0 <= i < |rows| ==> !p(rows[i])
    ensures Filter(rows, p) == []
  {
    if rows != [] { FilterNone(rows[..|rows| - 1], p); }
  }

  lemma {:induction false} FilterMember<T>(rows: seq<T>, p: T -> bool, x: T)
    ensures x in Filter(rows, p) <==> x in rows && p(x)
  {
    if rows != [] {
      FilterMember(rows[..|rows| - 1], p, x);
      assert rows == rows[..|rows| - 1] + [rows[|rows| - 1]];
    }
  }

  /** A list without repetition in which at most one row satisfies p. */
  lemma {:induction false} FilterAtMostOne<T>(rows: seq<T>, p: T -> bool)
    requires forall i, j :: 0 <= i < j < |rows| ==> !(p(rows[i]) && p(rows[j]))
    ensures |Filter(rows, p)| <= 1
  {
    if rows != [] {
      var init, last := rows[..|rows| - 1], rows[|rows| - 1];
      if p(last) {
        forall i | 0 <= i < |init| ensures !p(init[i]) { assert init[i] == rows[i]; }
        FilterNone(init, p);
      } else {
        FilterAtMostOne(init, p);
      }
    }
  }

  /** A filter keeps two rows or more exactly if two positions satisfy p. */
  lemma {:induction false} FilterTwo<T>(rows: seq<T>, p: T -> bool)
    ensures |Filter(rows, p)| >= 2 <==> exists i, j :: 0 <= i < j < |rows| && p(rows[i]) && p(rows[j])
  {
    if exists i, j :: 0 <= i < j < |rows| && p(rows[i]) && p(rows[j]) {
      var i, j :| 0 <= i < j < |rows| && p(rows[i]) && p(rows[j]);
      var low, high := rows[..j], rows[j..];
      assert rows == low + high;
      FilterConcat(low, high, p);
      FilterMember(low, p, low[i]);
      FilterMember(high, p, high[0]);
    } else {
      FilterAtMostOne(rows, p);
    }
  }
}
