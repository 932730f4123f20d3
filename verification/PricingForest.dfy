/** The inclusion graph of a pricing profile: the walk accepts exactly the forests, and in a
    forest subtracting what is included neither counts anything twice nor loses anything. */
module PricingForest {
  import opened Outcomes
  import opened Sums
  import opened MeteringPricing

  // ----- parents, grandparents and so on -----

  /** The bucket i inclusions above k. */
  function Climb(buckets: map<string, Bucket>, k: string, i: nat): Option<string> {
    if i == 0 then Some(k)
    else
      match Climb(buckets, k, i - 1)
      case None => None
      case Some(p) => if p in buckets then buckets[p].includedIn else None
  }

  /** Every parent exists and has the unit of its child. */
  ghost predicate Linked(buckets: map<string, Bucket>) {
    forall k :: k in buckets && buckets[k].includedIn.Some? ==>
      buckets[k].includedIn.value in buckets && buckets[buckets[k].includedIn.value].unit == buckets[k].unit
  }

  /** No bucket is above itself. */
  ghost predicate Acyclic(buckets: map<string, Bucket>) {
    forall k, i: nat :: k in buckets && 0 < i ==> Climb(buckets, k, i) != Some(k)
  }

  ghost predicate Forest(buckets: map<string, Bucket>) {
    Linked(buckets) && Acyclic(buckets)
  }

  /** `buckets` holds exactly the rows, each under its key, and no key twice. */
  ghost predicate IsProfile(buckets: map<string, Bucket>, rows: seq<Bucket>) {
    && (forall i :: 0 <= i < |rows| ==> rows[i].key in buckets && buckets[rows[i].key] == rows[i])
    && (forall k :: k in buckets ==> exists i :: 0 <= i < |rows| && rows[i].key == k)
    && (forall i, j :: 0 <= i < j < |rows| ==> rows[i].key != rows[j].key)
  }

  lemma {:induction false} ClimbOn(buckets: map<string, Bucket>, k: string, i: nat, n: nat)
    requires Climb(buckets, k, i).Some?
    ensures Climb(buckets, k, i + n) == Climb(buckets, Climb(buckets, k, i).value, n)
  {
    if n > 0 { ClimbOn(buckets, k, i, n - 1); }
  }

  lemma {:induction false} ClimbFromParent(buckets: map<string, Bucket>, k: string, i: nat)
    requires k in buckets
    ensures Climb(buckets, k, i + 1)
         == if buckets[k].includedIn.Some? then Climb(buckets, buckets[k].includedIn.value, i) else None
  {
    if i > 0 { ClimbFromParent(buckets, k, i - 1); }
  }

  /** An accepted walk never comes back to a key it has seen. */
  lemma {:induction false} WalkAvoidsSeen(buckets: map<string, Bucket>, unit: string, seen: set<string>, p: string,
                                          i: nat)
    requires Climbs(buckets, unit, seen, Some(p))
    ensures Climb(buckets, p, i).Some? ==> Climb(buckets, p, i).value !in seen
    decreases i
  {
    if i > 0 {
      ClimbFromParent(buckets, p, i - 1);
      if buckets[p].includedIn.Some? {
        WalkAvoidsSeen(buckets, unit, seen + {p}, buckets[p].includedIn.value, i - 1);
      }
    }
  }

  ghost predicate OnPath(buckets: map<string, Bucket>, k: string, j: nat, x: string) {
    exists i: nat :: i <= j && Climb(buckets, k, i) == Some(x)
  }

  lemma {:induction false} NoReturn(buckets: map<string, Bucket>, k: string, j: nat, p: string)
    requires Acyclic(buckets) && p in buckets && Climb(buckets, k, j + 1) == Some(p)
    ensures !OnPath(buckets, k, j, p)
  {
    forall i: nat | i <= j ensures Climb(buckets, k, i) != Some(p) {
      if Climb(buckets, k, i).Some? { ClimbOn(buckets, k, i, j + 1 - i); }
    }
  }

  /** In a forest the walk from k, after j steps, always goes on to accept. */
  lemma {:induction false} ForestWalks(buckets: map<string, Bucket>, k: string, j: nat, seen: set<string>)
    requires Forest(buckets) && k in buckets
    requires Climb(buckets, k, j).Some? && Climb(buckets, k, j).value in buckets
    requires buckets[Climb(buckets, k, j).value].unit == buckets[k].unit
    requires forall x :: x in seen ==> OnPath(buckets, k, j, x)
    ensures Climbs(buckets, buckets[k].unit, seen, buckets[Climb(buckets, k, j).value].includedIn)
    decreases buckets.Keys - seen
  {
    var parent := buckets[Climb(buckets, k, j).value].includedIn;
    if parent.Some? {
      var p := parent.value;
      NoReturn(buckets, k, j, p);
      assert p in buckets.Keys - seen && p !in buckets.Keys - (seen + {p});
      forall x | x in seen + {p} ensures OnPath(buckets, k, j + 1, x) {
        assert Climb(buckets, k, j + 1) == Some(p);
        if x != p { assert OnPath(buckets, k, j, x); }
      }
      ForestWalks(buckets, k, j + 1, seen + {p});
    }
  }

  lemma {:induction false} WalkAcyclic(buckets: map<string, Bucket>, k: string, i: nat)
    requires k in buckets && 0 < i && Climbs(buckets, buckets[k].unit, {k}, buckets[k].includedIn)
    ensures Climb(buckets, k, i) != Some(k)
  {
    ClimbFromParent(buckets, k, i - 1);
    if buckets[k].includedIn.Some? {
      WalkAvoidsSeen(buckets, buckets[k].unit, {k}, buckets[k].includedIn.value, i - 1);
    }
  }

  /** The inclusion walks accept exactly the forests. */
  lemma {:induction false} WalksAcceptForests(buckets: map<string, Bucket>, rows: seq<Bucket>)
    requires IsProfile(buckets, rows)
    ensures AllInclusionsOk(buckets, rows) <==> Forest(buckets)
  {
    if AllInclusionsOk(buckets, rows) {
      forall k | k in buckets ensures Climbs(buckets, buckets[k].unit, {k}, buckets[k].includedIn) {
        var i :| 0 <= i < |rows| && rows[i].key == k;
        assert InclusionOk(buckets, rows[i]);
      }
      forall k, i: nat | k in buckets && 0 < i ensures Climb(buckets, k, i) != Some(k) { WalkAcyclic(buckets, k, i); }
    }
    if Forest(buckets) {
      forall i | 0 <= i < |rows| ensures InclusionOk(buckets, rows[i]) {
        var k := rows[i].key;
        assert Climb(buckets, k, 0) == Some(k);
        ForestWalks(buckets, k, 0, {k});
      }
    }
  }

  // ----- net quantities -----

  /** What row j adds to the total included in `key`. */
  function IncludedWeight(rows: seq<Bucket>, quantities: map<string, int>, key: string): nat -> int {
    (j: nat) => if j < |rows| && rows[j].includedIn == Some(key) then QuantityIn(quantities, rows[j].key) else 0
  }

  function IncludedIn(rows: seq<Bucket>, quantities: map<string, int>, key: string): int {
    Sum(|rows|, IncludedWeight(rows, quantities, key))
  }

  lemma {:induction false} TotalsAreSums(rows: seq<Bucket>, quantities: map<string, int>, key: string)
    ensures QuantityIn(IncludedTotals(rows, quantities), key) == IncludedIn(rows, quantities, key)
  {
    if rows != [] {
      var n := |rows| - 1;
      TotalsAreSums(rows[..n], quantities, key);
      SumSame(n, IncludedWeight(rows[..n], quantities, key), IncludedWeight(rows, quantities, key));
    }
  }

  function Reported(rows: seq<Bucket>, quantities: map<string, int>): nat -> int {
    (j: nat) => if j < |rows| then QuantityIn(quantities, rows[j].key) else 0
  }

  function Net(rows: seq<Bucket>, quantities: map<string, int>): nat -> int {
    (j: nat) =>
      if j < |rows| then QuantityIn(quantities, rows[j].key) - IncludedIn(rows, quantities, rows[j].key) else 0
  }

  function Part(set_: nat -> bool, f: nat -> int): nat -> int {
    (j: nat) => if set_(j) then f(j) else 0
  }

  /** The position of the bucket that includes row j. */
  ghost function ParentAt(rows: seq<Bucket>): nat -> int {
    (j: nat) =>
      if j < |rows| && (exists b: nat :: b < |rows| && rows[j].includedIn == Some(rows[b].key))
      then (var b: nat :| b < |rows| && rows[j].includedIn == Some(rows[b].key); b)
      else -1
  }

  /** Rows whose parent is in the set. */
  ghost function ChildOf(rows: seq<Bucket>, set_: nat -> bool): nat -> bool {
    (j: nat) => ParentAt(rows)(j) >= 0 && set_(ParentAt(rows)(j))
  }

  lemma {:induction false} ParentIs(buckets: map<string, Bucket>, rows: seq<Bucket>, j: nat, b: nat)
    requires IsProfile(buckets, rows) && j < |rows| && b < |rows|
    ensures rows[j].includedIn == Some(rows[b].key) <==> ParentAt(rows)(j) == b
  {
    if rows[j].includedIn == Some(rows[b].key) {
      var c := ParentAt(rows)(j);
      assert 0 <= c < |rows| && rows[c].key == rows[b].key;
      assert c == b by { if c < b { assert false; } else if b < c { assert false; } }
    }
  }

  /** Over any set of rows, the net quantities sum to what the set reports less what its
      children report. */
  lemma {:induction false} NetOverSet(buckets: map<string, Bucket>, rows: seq<Bucket>, quantities: map<string, int>,
                                      set_: nat -> bool)
    requires IsProfile(buckets, rows)
    ensures Sum(|rows|, Part(set_, Net(rows, quantities)))
         == Sum(|rows|, Part(set_, Reported(rows, quantities)))
            - Sum(|rows|, Part(ChildOf(rows, set_), Reported(rows, quantities)))
  {
    var n, q := |rows|, Reported(rows, quantities);
    var weight := Part(ChildOf(rows, set_), q);
    var buckets_ := BucketTotal(n, ParentAt(rows), weight);
    BucketsPartition(n, n, ParentAt(rows), weight);
    forall b: nat | b < n
      ensures buckets_(b) == if set_(b) then IncludedIn(rows, quantities, rows[b].key) else 0
    {
      var inBucket := InBucket(ParentAt(rows), weight, b);
      forall j: nat | j < n
        ensures inBucket(j) == if set_(b) then IncludedWeight(rows, quantities, rows[b].key)(j) else 0
      {
        ParentIs(buckets, rows, j, b);
      }
      if set_(b) {
        SumSame(n, inBucket, IncludedWeight(rows, quantities, rows[b].key));
      } else {
        SumZero(n, inBucket);
      }
    }
    SumAdds(n, Part(set_, Net(rows, quantities)), buckets_, Part(set_, q));
  }

  predicate IsRoot(rows: seq<Bucket>, j: nat) {
    j < |rows| && rows[j].includedIn.None?
  }

  function Everything(): nat -> bool { (j: nat) => true }
  function Roots(rows: seq<Bucket>): nat -> bool { (j: nat) => IsRoot(rows, j) }

  /** Row j lies below row r, or is r. */
  ghost function Below(buckets: map<string, Bucket>, rows: seq<Bucket>, r: nat): nat -> bool {
    (j: nat) => j < |rows| && r < |rows| && exists i: nat :: Climb(buckets, rows[j].key, i) == Some(rows[r].key)
  }

  lemma {:induction false} ParentExists(buckets: map<string, Bucket>, rows: seq<Bucket>, j: nat)
    requires IsProfile(buckets, rows) && Forest(buckets) && j < |rows|
    ensures ParentAt(rows)(j) >= 0 <==> !IsRoot(rows, j)
  {
    if !IsRoot(rows, j) {
      var p := rows[j].includedIn.value;
      assert buckets[rows[j].key] == rows[j] && p in buckets;
      var b :| 0 <= b < |rows| && rows[b].key == p;
      ParentIs(buckets, rows, j, b);
    }
  }

  /** The whole profile: all net quantities together are what the roots report. */
  lemma {:induction false} NetOfProfile(buckets: map<string, Bucket>, rows: seq<Bucket>, quantities: map<string, int>)
    requires IsProfile(buckets, rows) && Forest(buckets)
    ensures Sum(|rows|, Net(rows, quantities)) == Sum(|rows|, Part(Roots(rows), Reported(rows, quantities)))
  {
    var n, q := |rows|, Reported(rows, quantities);
    NetOverSet(buckets, rows, quantities, Everything());
    SumSame(n, Part(Everything(), Net(rows, quantities)), Net(rows, quantities));
    forall j: nat | j < n
      ensures Part(Everything(), q)(j) == Part(Roots(rows), q)(j) + Part(ChildOf(rows, Everything()), q)(j)
    {
      ParentExists(buckets, rows, j);
    }
    SumAdds(n, Part(Roots(rows), q), Part(ChildOf(rows, Everything()), q), Part(Everything(), q));
  }

  lemma {:induction false} BelowByParent(buckets: map<string, Bucket>, rows: seq<Bucket>, r: nat, j: nat)
    requires IsProfile(buckets, rows) && Forest(buckets) && r < |rows| && j < |rows|
    ensures Below(buckets, rows, r)(j) <==> j == r || ChildOf(rows, Below(buckets, rows, r))(j)
    ensures !ChildOf(rows, Below(buckets, rows, r))(r)
  {
    BelowOfParent(buckets, rows, r, j);
    BelowOfParent(buckets, rows, r, r);
    assert buckets[rows[r].key] == rows[r];
    if j == r {
      assert Climb(buckets, rows[r].key, 0) == Some(rows[r].key);
    } else {
      assert rows[j].key != rows[r].key by { if j < r {} else {} }
      if Below(buckets, rows, r)(j) {
        var i: nat :| Climb(buckets, rows[j].key, i) == Some(rows[r].key);
        assert 0 < i && Climb(buckets, rows[j].key, i) == Some(rows[r].key);
        assert ChildOf(rows, Below(buckets, rows, r))(j);
      }
      if ChildOf(rows, Below(buckets, rows, r))(j) {
        var i: nat :| 0 < i && Climb(buckets, rows[j].key, i) == Some(rows[r].key);
        assert Below(buckets, rows, r)(j);
      }
    }
  }

  /** Row j is properly below r exactly when its parent is below r. */
  lemma {:induction false} BelowOfParent(buckets: map<string, Bucket>, rows: seq<Bucket>, r: nat, j: nat)
    requires IsProfile(buckets, rows) && Forest(buckets) && r < |rows| && j < |rows|
    ensures ChildOf(rows, Below(buckets, rows, r))(j)
       <==> exists i: nat :: 0 < i && Climb(buckets, rows[j].key, i) == Some(rows[r].key)
  {
    var p := ParentAt(rows)(j);
    ParentExists(buckets, rows, j);
    assert rows[j].key in buckets && buckets[rows[j].key] == rows[j];
    if p >= 0 { assert rows[j].includedIn == Some(rows[p].key); }
    if ChildOf(rows, Below(buckets, rows, r))(j) {
      var i: nat :| Climb(buckets, rows[p].key, i) == Some(rows[r].key);
      ClimbFromParent(buckets, rows[j].key, i);
      assert 0 < i + 1;
    }
    if exists i: nat :: 0 < i && Climb(buckets, rows[j].key, i) == Some(rows[r].key) {
      var i: nat :| 0 < i && Climb(buckets, rows[j].key, i) == Some(rows[r].key);
      ClimbFromParent(buckets, rows[j].key, i - 1);
    }
  }

  /** Any subtree: the net quantities of a bucket and everything below it are what it reports. */
  lemma {:induction false} NetOfSubtree(buckets: map<string, Bucket>, rows: seq<Bucket>, quantities: map<string, int>,
                                        r: nat)
    requires IsProfile(buckets, rows) && Forest(buckets) && r < |rows|
    ensures Sum(|rows|, Part(Below(buckets, rows, r), Net(rows, quantities))) == Reported(rows, quantities)(r)
  {
    var n, q, below := |rows|, Reported(rows, quantities), Below(buckets, rows, r);
    NetOverSet(buckets, rows, quantities, below);
    forall j: nat | j < n
      ensures Part(below, q)(j) == Part(ChildOf(rows, below), q)(j) + (if j == r then q(r) else 0)
    {
      BelowByParent(buckets, rows, r, j);
    }
    SumSwitch(n, Part(ChildOf(rows, below), q), Part(below, q), r);
  }
}
