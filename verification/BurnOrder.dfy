/** The order in which grants are consumed: earliest expiry first and open-ended grants
    last, then burn priority, then issue time, then the random row id. */
module BurnOrder {
  import opened Outcomes
  import opened Sums
  import opened Sorting

  datatype BurnKey = BurnKey(expiresAt: Option<int>, burnPriority: int, issuedAt: int, uuid: nat)

  predicate ExpiryBefore(a: Option<int>, b: Option<int>) {
    a.Some? && (b.None? || a.value < b.value)
  }

  predicate Before(a: BurnKey, b: BurnKey) {
    if a.expiresAt != b.expiresAt then ExpiryBefore(a.expiresAt, b.expiresAt)
    else if a.burnPriority != b.burnPriority then a.burnPriority < b.burnPriority
    else if a.issuedAt != b.issuedAt then a.issuedAt < b.issuedAt
    else a.uuid < b.uuid
  }

  /** ORDER BY id alone. */
  function IdKey(uuid: nat): BurnKey {
    BurnKey(None, 0, 0, uuid)
  }

  function ByKey(key: nat -> BurnKey): (nat, nat) -> bool {
    (x: nat, y: nat) => Before(key(x), key(y))
  }

  lemma {:induction false} ByKeyIsWeakOrder(key: nat -> BurnKey)
    ensures WeakOrder(ByKey(key))
  {
  }

  function SortBy(xs: seq<nat>, key: nat -> BurnKey): seq<nat> {
    Sort(xs, ByKey(key))
  }

  /** Sorting neither adds, drops nor repeats a row, and the result is in burn order. */
  lemma {:induction false} SortByKeeps(xs: seq<nat>, key: nat -> BurnKey)
    ensures multiset(SortBy(xs, key)) == multiset(xs)
    ensures Sorted(SortBy(xs, key), ByKey(key))
    ensures |SortBy(xs, key)| == |xs|
    ensures forall x :: x in SortBy(xs, key) <==> x in xs
    ensures Distinct(xs) ==> Distinct(SortBy(xs, key))
  {
    ByKeyIsWeakOrder(key);
    SortKeeps(xs, ByKey(key));
  }

  /** An earlier expiry comes first and an open end last; then the lower priority, the earlier issue
      and the smaller id. */
  lemma {:induction false} NotAfter(p: BurnKey, q: BurnKey)
    requires !Before(q, p)
    ensures q.expiresAt.None? || (p.expiresAt.Some? && p.expiresAt.value <= q.expiresAt.value)
    ensures p.expiresAt == q.expiresAt ==> p.burnPriority <= q.burnPriority
    ensures p.expiresAt == q.expiresAt && p.burnPriority == q.burnPriority ==> p.issuedAt <= q.issuedAt
    ensures p.expiresAt == q.expiresAt && p.burnPriority == q.burnPriority && p.issuedAt == q.issuedAt ==>
              p.uuid <= q.uuid
  {
  }

  /** The order of a sorted list, in the columns of its rows. */
  lemma {:induction false} SortByOrders(xs: seq<nat>, key: nat -> BurnKey, i: nat, j: nat)
    requires i < j < |SortBy(xs, key)|
    ensures var p, q := key(SortBy(xs, key)[i]), key(SortBy(xs, key)[j]);
            && (q.expiresAt.None? || (p.expiresAt.Some? && p.expiresAt.value <= q.expiresAt.value))
            && (p.expiresAt == q.expiresAt ==> p.burnPriority <= q.burnPriority)
            && (p.expiresAt == q.expiresAt && p.burnPriority == q.burnPriority ==> p.issuedAt <= q.issuedAt)
            && (p.expiresAt == q.expiresAt && p.burnPriority == q.burnPriority && p.issuedAt == q.issuedAt ==>
                  p.uuid <= q.uuid)
  {
    SortByKeeps(xs, key);
    var x, y := SortBy(xs, key)[i], SortBy(xs, key)[j];
    assert !ByKey(key)(y, x);
    NotAfter(key(x), key(y));
  }
}
