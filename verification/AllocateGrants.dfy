/** The stand-alone allocation of a request over a list of grants: the simple form of the loop
    that reserving runs against the tables. */
module AllocateGrants {
  import opened Outcomes
  import opened Sums
  import opened Sorting
  import opened Positions
  import opened BurnOrder
  import opened LedgerModel
  import opened LedgerInvariant
  import opened LedgerReserveProof
  import opened LedgerBurnOrder

  const MAX_SAFE_INTEGER: int := 9_007_199_254_740_991

  datatype AllocationError = BadRequest | InsufficientCredit(requested: int, available: int)

  /** The grants that have something to give, in the order of the list. */
  function Positive(grants: seq<nat>, available: nat -> int): (r: seq<nat>)
    ensures AllPositive(r, available)
  {
    if grants == [] then []
    else (if available(grants[0]) > 0 then [grants[0]] else []) + Positive(grants[1..], available)
  }

  predicate AllPositive(grants: seq<nat>, available: nat -> int) {
    forall i :: 0 <= i < |grants| ==> 0 < available(grants[i])
  }

  function Ordered(grants: seq<nat>, available: nat -> int, key: nat -> BurnKey): seq<nat> {
    SortBy(Positive(grants, available), key)
  }

  /** Filter, sort, check the sum, then take greedily. A grant is named by a number; what it
      can give and its sort key are functions of the name. */
  method AllocateCreditGrants(grants: seq<nat>, available: nat -> int, key: nat -> BurnKey, requested: int)
    returns (answer: Result<seq<Piece>, AllocationError>)
    ensures !(0 < requested <= MAX_SAFE_INTEGER) ==> answer == Err(BadRequest)
    ensures 0 < requested <= MAX_SAFE_INTEGER ==>
              var ordered := Ordered(grants, available, key);
              var total := SumAlong(ordered, available);
              if total < requested then answer == Err(InsufficientCredit(requested, total))
              else answer.Ok? && PieceTotal(answer.value) == requested
                   && GreedyPrefix(ordered, available, answer.value)
                   && answer.value == Burn(ordered, available, requested).0
    ensures answer.Ok? ==>
              forall i: nat, x: nat ::
                i < |answer.value| && x in grants && AmountFor(answer.value, x) < available(x) ==>
                  var p, q := key(answer.value[i].grant), key(x);
                  && (q.expiresAt.None? || (p.expiresAt.Some? && p.expiresAt.value <= q.expiresAt.value))
                  && (p.expiresAt == q.expiresAt ==> p.burnPriority <= q.burnPriority)
                  && (p.expiresAt == q.expiresAt && p.burnPriority == q.burnPriority ==> p.issuedAt <= q.issuedAt)
                  && (p.expiresAt == q.expiresAt && p.burnPriority == q.burnPriority && p.issuedAt == q.issuedAt ==>
                        p.uuid <= q.uuid)
  {
    if requested <= 0 || requested > MAX_SAFE_INTEGER { return Err(BadRequest); }
    var ordered := Ordered(grants, available, key);
    OrderedPositive(grants, available, key);
    var total := SumAlong(ordered, available);
    if total < requested { return Err(InsufficientCredit(requested, total)); }
    BurnIsGreedy(ordered, available, requested);
    var pieces := TakeInOrder(ordered, available, requested);
    forall i: nat, x: nat | i < |pieces| && x in grants && AmountFor(pieces, x) < available(x)
      ensures !Before(key(x), key(pieces[i].grant))
    {
      GivesFirst(grants, available, key, pieces, i, x);
    }
    answer := Ok(pieces);
  }

  /** A grant that still has something to give does not come before a grant that gave. */
  lemma {:induction false} GivesFirst(grants: seq<nat>, available: nat -> int, key: nat -> BurnKey, pieces: seq<Piece>,
                                      i: nat, x: nat)
    requires GreedyPrefix(Ordered(grants, available, key), available, pieces)
    requires i < |pieces| && x in grants && AmountFor(pieces, x) < available(x)
    ensures !Before(key(x), key(pieces[i].grant))
  {
    var kept := Positive(grants, available);
    SortByKeeps(kept, key);
    PositiveIsPart(grants, available);
    AmountPositive(pieces, x);
    GivesInOrder(Ordered(grants, available, key), available, ByKey(key), pieces, i, x);
  }

  /** The allocation loop over the ordered grants. */
  method TakeInOrder(ordered: seq<nat>, available: nat -> int, requested: int) returns (pieces: seq<Piece>)
    requires 0 < requested && AllPositive(ordered, available)
    ensures pieces == Burn(ordered, available, requested).0
  {
    var remaining, k := requested, 0;
    pieces := [];
    BurnEnds(pieces, ordered, available, requested);
    while k < |ordered|
      invariant 0 <= k <= |ordered| && 0 <= remaining
      invariant AfterTaking(pieces, ordered, k, available, remaining) == Burn(ordered, available, requested).0
    {
      if remaining == 0 { break; }
      var amount := if remaining < available(ordered[k]) then remaining else available(ordered[k]);
      assert 0 < available(ordered[k]);
      BurnStep(pieces, ordered, k, available, remaining);
      pieces := pieces + [Piece(ordered[k], amount)];
      remaining := remaining - amount;
      k := k + 1;
    }
    BurnEnds(pieces, ordered, available, remaining);
  }

  /** The pieces taken so far and those the loop will still take from position k on. */
  function AfterTaking(pieces: seq<Piece>, ordered: seq<nat>, k: nat, available: nat -> int, left: int): seq<Piece>
    requires k <= |ordered|
  {
    if left == 0 then pieces else pieces + Burn(ordered[k..], available, left).0
  }

  lemma {:induction false} BurnEnds(pieces: seq<Piece>, ordered: seq<nat>, available: nat -> int, left: int)
    ensures AfterTaking(pieces, ordered, |ordered|, available, left) == pieces
    ensures left != 0 ==> AfterTaking([], ordered, 0, available, left) == Burn(ordered, available, left).0
  {
    assert ordered[0..] == ordered;
  }

  lemma {:induction false} BurnStep(pieces: seq<Piece>, ordered: seq<nat>, k: nat, available: nat -> int, left: int)
    requires k < |ordered| && 0 < left && 0 < available(ordered[k])
    ensures var amount := if left < available(ordered[k]) then left else available(ordered[k]);
            AfterTaking(pieces, ordered, k, available, left)
            == AfterTaking(pieces + [Piece(ordered[k], amount)], ordered, k + 1, available, left - amount)
  {
    var tail := ordered[k..];
    assert tail[0] == ordered[k] && tail[1..] == ordered[k + 1..];
    BurnHead(tail, available, left);
    var amount := if left < available(ordered[k]) then left else available(ordered[k]);
    if left != amount {
      ConcatAssociates(pieces, [Piece(ordered[k], amount)], Burn(ordered[k + 1..], available, left - amount).0);
    }
  }

  lemma {:induction false} BurnHead(order: seq<nat>, available: nat -> int, left: int)
    requires order != [] && 0 < left && 0 < available(order[0])
    ensures var amount := if left < available(order[0]) then left else available(order[0]);
            Burn(order, available, left).0
            == if left == amount then [Piece(order[0], amount)]
               else [Piece(order[0], amount)] + Burn(order[1..], available, left - amount).0
  {
  }

  lemma {:induction false} ConcatAssociates<T>(a: seq<T>, b: seq<T>, c: seq<T>)
    ensures a + (b + c) == a + b + c
  {
  }

  lemma {:induction false} PositiveIsPart(grants: seq<nat>, available: nat -> int)
    ensures forall g :: g in Positive(grants, available) <==> g in grants && available(g) > 0
  {
    if grants != [] {
      assert grants == [grants[0]] + grants[1..];
      PositiveIsPart(grants[1..], available);
    }
  }

  lemma {:induction false} OrderedPositive(grants: seq<nat>, available: nat -> int, key: nat -> BurnKey)
    ensures AllPositive(Ordered(grants, available, key), available)
  {
    var ordered, kept := Ordered(grants, available, key), Positive(grants, available);
    SortByKeeps(kept, key);
    PositiveIsPart(grants, available);
    forall i | 0 <= i < |ordered| ensures 0 < available(ordered[i]) { assert ordered[i] in kept; }
  }

  // ----- sorting commutes with dropping the empty grants -----

  lemma {:induction false} GivingCons(g: nat, rest: seq<nat>, available: nat -> int)
    ensures Giving([g] + rest, available) == if available(g) > 0 then [g] + Giving(rest, available) else Giving(rest, available)
  {
    assert ([g] + rest)[1..] == rest;
    assert [] + Giving(rest, available) == Giving(rest, available);
  }

  lemma {:induction false} GivingOfInsert(x: nat, sorted: seq<nat>, available: nat -> int, before: (nat, nat) -> bool)
    requires WeakOrder(before) && Sorted(sorted, before)
    ensures Giving(Insert(x, sorted, before), available)
         == if available(x) > 0 then Insert(x, Giving(sorted, available), before) else Giving(sorted, available)
  {
    if sorted == [] {
    } else if !before(sorted[0], x) {
      GivingCons(x, sorted, available);
      if Giving(sorted, available) != [] { GivingFirst(sorted, available, before); }
    } else {
      var rest := sorted[1..];
      SortedTail(sorted, before);
      GivingOfInsert(x, rest, available, before);
      GivingCons(sorted[0], rest, available);
      GivingCons(sorted[0], Insert(x, rest, before), available);
      assert sorted == [sorted[0]] + rest;
      if available(sorted[0]) > 0 {
        assert ([sorted[0]] + Giving(rest, available))[1..] == Giving(rest, available);
      }
    }
  }

  /** The first giving grant of a sorted list is not before the first grant of the list. */
  lemma {:induction false} GivingFirst(sorted: seq<nat>, available: nat -> int, before: (nat, nat) -> bool)
    requires WeakOrder(before) && Sorted(sorted, before) && sorted != [] && Giving(sorted, available) != []
    ensures !before(Giving(sorted, available)[0], sorted[0])
  {
    GivingIsPart(sorted, available);
    var g := Giving(sorted, available)[0];
    assert g in sorted;
    var k :| 0 <= k < |sorted| && sorted[k] == g;
    if k > 0 { assert !before(sorted[k], sorted[0]); }
  }

  lemma {:induction false} SortThenDrop(grants: seq<nat>, available: nat -> int, before: (nat, nat) -> bool)
    requires WeakOrder(before)
    ensures Sort(Positive(grants, available), before) == Giving(Sort(grants, before), available)
  {
    if grants != [] {
      var rest := grants[1..];
      SortThenDrop(rest, available, before);
      SortKeeps(rest, before);
      GivingOfInsert(grants[0], Sort(rest, before), available, before);
      var kept := Positive(rest, available);
      if available(grants[0]) > 0 {
        assert Positive(grants, available) == [grants[0]] + kept;
        assert ([grants[0]] + kept)[1..] == kept;
      } else {
        assert Positive(grants, available) == [] + kept == kept;
      }
    }
  }

  predicate NoneNegative(grants: seq<nat>, available: nat -> int) {
    forall i :: 0 <= i < |grants| ==> 0 <= available(grants[i])
  }

  lemma {:induction false} NoneNegativeTail(order: seq<nat>, available: nat -> int)
    requires order != [] && NoneNegative(order, available)
    ensures 0 <= available(order[0]) && NoneNegative(order[1..], available)
  {
    assert forall i :: 0 <= i < |order[1..]| ==> order[1..][i] == order[i + 1];
  }

  lemma {:induction false} BurnEmpty(order: seq<nat>, available: nat -> int, left: int)
    requires order != [] && 0 < left && available(order[0]) == 0
    ensures Burn(order, available, left) == Burn(order[1..], available, left)
  {
    assert [] + Burn(order[1..], available, left).0 == Burn(order[1..], available, left).0;
  }

  lemma {:induction false} BurnGiving(g: nat, rest: seq<nat>, more: seq<nat>, available: nat -> int, left: int)
    requires 0 < left && 0 < available(g)
    requires available(g) < left ==> Burn(rest, available, left - available(g)) == Burn(more, available, left - available(g))
    ensures Burn([g] + rest, available, left) == Burn([g] + more, available, left)
  {
    assert ([g] + rest)[1..] == rest && ([g] + more)[1..] == more;
  }

  lemma {:induction false} BurnSkipsEmpty(order: seq<nat>, available: nat -> int, left: int)
    requires 0 < left && NoneNegative(order, available)
    ensures Burn(Giving(order, available), available, left) == Burn(order, available, left)
    decreases |order|
  {
    if order != [] {
      var g, rest := order[0], order[1..];
      NoneNegativeTail(order, available);
      assert order == [g] + rest;
      GivingCons(g, rest, available);
      if available(g) > 0 {
        if available(g) < left { BurnSkipsEmpty(rest, available, left - available(g)); }
        BurnGiving(g, Giving(rest, available), rest, available, left);
      } else {
        BurnSkipsEmpty(rest, available, left);
        BurnEmpty(order, available, left);
      }
    }
  }

  lemma {:induction false} GivingSum(order: seq<nat>, available: nat -> int)
    requires NoneNegative(order, available)
    ensures SumAlong(Giving(order, available), available) == SumAlong(order, available)
    decreases |order|
  {
    if order != [] {
      var g, rest := order[0], order[1..];
      NoneNegativeTail(order, available);
      assert order == [g] + rest;
      GivingCons(g, rest, available);
      GivingSum(rest, available);
      if available(g) > 0 { assert ([g] + Giving(rest, available))[1..] == Giving(rest, available); }
    }
  }

  /** Reserving allocates exactly what the simple form allocates on the account's eligible
      grants, and runs out of credit in exactly the same cases. */
  lemma {:induction false} ReserveIsAllocate(s: Ledger, a: nat, now: int, requested: int)
    requires TablesOk(s) && 0 < requested
    ensures var eligible := Where(|s.grants|, Eligible(s.grants, a, now));
            var ordered := Ordered(eligible, AllocatableIn(s), BurnKeyOf(s.grants));
            var (pieces, left) := Burn(EligibleOrder(s, a, now), AllocatableIn(s), requested);
            && pieces == Burn(ordered, AllocatableIn(s), requested).0
            && (left == 0 <==> requested <= SumAlong(ordered, AllocatableIn(s)))
  {
    EligibleOrderFacts(s, a, now);
    BurnEligible(s, a, now, requested);
    ByKeyIsWeakOrder(BurnKeyOf(s.grants));
    SortThenDrop(Where(|s.grants|, Eligible(s.grants, a, now)), AllocatableIn(s), ByKey(BurnKeyOf(s.grants)));
    assert NoneNegative(EligibleOrder(s, a, now), AllocatableIn(s));
    BurnSkipsEmpty(EligibleOrder(s, a, now), AllocatableIn(s), requested);
    GivingSum(EligibleOrder(s, a, now), AllocatableIn(s));
  }
}
