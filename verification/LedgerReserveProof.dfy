/** Reserving credit: the greedy walk over eligible grants, and the hold it creates. */
module LedgerReserveProof {
  import opened Outcomes
  import opened Sums
  import opened Sorting
  import opened Positions
  import opened BurnOrder
  import opened LedgerModel
  import opened LedgerInvariant
  import opened LedgerRefreshProof

  // ----- the greedy walk -----

  function PieceTotal(pieces: seq<Piece>): int {
    if pieces == [] then 0 else pieces[0].amount + PieceTotal(pieces[1..])
  }

  /** The grants of a list that still have something to give, in the same order. */
  function Giving(order: seq<nat>, allocatable: nat -> int): seq<nat> {
    if order == [] then []
    else (if allocatable(order[0]) > 0 then [order[0]] else []) + Giving(order[1..], allocatable)
  }

  function GrantsOf(pieces: seq<Piece>): seq<nat> {
    seq(|pieces|, i requires 0 <= i < |pieces| => pieces[i].grant)
  }

  /** A greedy allocation of `wanted` along `order`: it takes from a prefix of the grants that
      have something to give, skips none, drains all but the last, and never overdraws. */
  ghost predicate GreedyPrefix(order: seq<nat>, allocatable: nat -> int, pieces: seq<Piece>) {
    && GrantsOf(pieces) <= Giving(order, allocatable)
    && (forall i :: 0 <= i < |pieces| ==> 0 < pieces[i].amount <= allocatable(pieces[i].grant))
    && (forall i :: 0 <= i < |pieces| - 1 ==> pieces[i].amount == allocatable(pieces[i].grant))
  }

  /** Every piece drains its grant. */
  ghost predicate AllDrained(order: seq<nat>, allocatable: nat -> int, pieces: seq<Piece>) {
    && |pieces| == |Giving(order, allocatable)|
    && forall i :: 0 <= i < |pieces| ==> pieces[i].amount == allocatable(pieces[i].grant)
  }

  lemma {:induction false} GreedyCons(order: seq<nat>, allocatable: nat -> int, more: seq<Piece>, pieces: seq<Piece>)
    requires order != [] && GreedyPrefix(order[1..], allocatable, more)
    requires pieces == (if allocatable(order[0]) > 0 then [Piece(order[0], allocatable(order[0]))] else []) + more
    ensures GreedyPrefix(order, allocatable, pieces)
    ensures AllDrained(order[1..], allocatable, more) ==> AllDrained(order, allocatable, pieces)
    ensures PieceTotal(pieces) == allocatable(order[0]) + PieceTotal(more) || allocatable(order[0]) <= 0
    ensures allocatable(order[0]) <= 0 ==> pieces == more
  {
    if allocatable(order[0]) > 0 {
      assert pieces[1..] == more;
      assert GrantsOf(pieces) == [order[0]] + GrantsOf(more);
    } else {
      assert pieces == more;
    }
  }

  lemma {:induction false} BurnIsGreedy(order: seq<nat>, allocatable: nat -> int, left: int)
    requires 0 < left
    requires forall i :: 0 <= i < |order| ==> 0 <= allocatable(order[i])
    ensures var (pieces, end) := Burn(order, allocatable, left);
            && GreedyPrefix(order, allocatable, pieces)
            && PieceTotal(pieces) + end == left && 0 <= end
            && (end == 0 <==> left <= SumAlong(order, allocatable))
            && (end > 0 ==> AllDrained(order, allocatable, pieces))
    decreases |order|
  {
    var (pieces, end) := Burn(order, allocatable, left);
    if order != [] {
      var g, rest := order[0], order[1..];
      assert forall i :: 0 <= i < |rest| ==> rest[i] == order[i + 1];
      if left <= allocatable(g) {
        TotalNonNegative(rest, allocatable);
        assert pieces == [Piece(g, left)] && pieces[1..] == [];
        assert GrantsOf(pieces) == [g];
      } else {
        BurnIsGreedy(rest, allocatable, left - allocatable(g));
        GreedyCons(order, allocatable, Burn(rest, allocatable, left - allocatable(g)).0, pieces);
      }
    }
  }

  lemma {:induction false} TotalNonNegative(order: seq<nat>, f: nat -> int)
    requires forall i :: 0 <= i < |order| ==> 0 <= f(order[i])
    ensures 0 <= SumAlong(order, f)
  {
    if order != [] {
      assert forall i :: 0 <= i < |order[1..]| ==> order[1..][i] == order[i + 1];
      TotalNonNegative(order[1..], f);
    }
  }

  lemma {:induction false} GivingIsPart(order: seq<nat>, allocatable: nat -> int)
    ensures forall g :: g in Giving(order, allocatable) <==> g in order && allocatable(g) > 0
    ensures Distinct(order) ==> Distinct(Giving(order, allocatable))
  {
    if order != [] {
      var rest := order[1..];
      assert order == [order[0]] + rest;
      GivingIsPart(rest, allocatable);
      if Distinct(order) {
        assert forall i :: 0 <= i < |rest| ==> rest[i] == order[i + 1];
        assert order[0] !in Giving(rest, allocatable);
      }
    }
  }

  // ----- eligible credit -----

  /** What the grants eligible at `now` can still give. */
  function EligibleCredit(s: Ledger, a: nat, now: int): int {
    SumAlong(Where(|s.grants|, Eligible(s.grants, a, now)), AllocatableIn(s))
  }

  lemma {:induction false} EligibleOrderFacts(s: Ledger, a: nat, now: int)
    requires TablesOk(s)
    ensures var order := EligibleOrder(s, a, now);
            && Distinct(order) && Sorted(order, ByKey(BurnKeyOf(s.grants)))
            && (forall g: nat :: g in order <==> Eligible(s.grants, a, now)(g))
            && (forall i :: 0 <= i < |order| ==> Eligible(s.grants, a, now)(order[i]) && 0 <= AllocatableIn(s)(order[i]))
            && SumAlong(order, AllocatableIn(s)) == EligibleCredit(s, a, now)
  {
    var order := EligibleOrder(s, a, now);
    var p := Eligible(s.grants, a, now);
    var rows := Where(|s.grants|, p);
    SortByKeeps(rows, BurnKeyOf(s.grants));
    forall i | 0 <= i < |order| ensures p(order[i]) && 0 <= AllocatableIn(s)(order[i]) {
      assert order[i] in rows;
      assert GrantOk(s, order[i]);
    }
    SumAlongIsSum(|s.grants|, order, AllocatableIn(s));
    SumAlongIsSum(|s.grants|, rows, AllocatableIn(s));
    SumSame(|s.grants|, Only(order, AllocatableIn(s)), Only(rows, AllocatableIn(s)));
  }

  /** What grant i keeps unreserved although it is not eligible. */
  function StrandedOf(s: Ledger, a: nat, now: int): nat -> int {
    (i: nat) => if Eligible(s.grants, a, now)(i) then 0 else FreeOf(s, a)(i)
  }

  function StrandedCredit(s: Ledger, a: nat, now: int): int {
    Sum(|s.grants|, StrandedOf(s, a, now))
  }

  /** The available balance is what a reserve can spend plus what is stranded on other grants. */
  lemma {:induction false} AvailableSplits(s: Ledger, a: nat, now: int)
    requires Inv(s) && a < |s.accounts|
    ensures s.accounts[a].available == EligibleCredit(s, a, now) + StrandedCredit(s, a, now)
    ensures forall i: nat :: i < |s.grants| ==> 0 <= StrandedOf(s, a, now)(i)
  {
    var n, rows := |s.grants|, Where(|s.grants|, Eligible(s.grants, a, now));
    assert Balanced(s, a, 0, 0);
    AvailableIsFree(s, a, 0, 0);
    SumAlongIsSum(n, rows, AllocatableIn(s));
    forall i: nat | i < n
      ensures FreeOf(s, a)(i) == Only(rows, AllocatableIn(s))(i) + StrandedOf(s, a, now)(i)
      ensures 0 <= StrandedOf(s, a, now)(i)
    {
      assert GrantOk(s, i);
    }
    SumAdds(n, Only(rows, AllocatableIn(s)), StrandedOf(s, a, now), FreeOf(s, a));
  }

  /** The available balance can be spent to the last unit if and only if every grant with an
      unreserved remainder is eligible. Otherwise it exceeds what a reserve can take. */
  lemma {:induction false} AvailableIsSpendable(s: Ledger, a: nat, now: int)
    requires Inv(s) && a < |s.accounts|
    ensures EligibleCredit(s, a, now) <= s.accounts[a].available
    ensures s.accounts[a].available == EligibleCredit(s, a, now) <==>
              forall g: nat :: g < |s.grants| && FreeOf(s, a)(g) > 0 ==> Eligible(s.grants, a, now)(g)
  {
    AvailableSplits(s, a, now);
    SumNonNegative(|s.grants|, StrandedOf(s, a, now));
    SumVanishes(|s.grants|, StrandedOf(s, a, now));
    forall g: nat | g < |s.grants|
      ensures StrandedOf(s, a, now)(g) == 0 <==> (FreeOf(s, a)(g) > 0 ==> Eligible(s.grants, a, now)(g))
    {
      assert GrantOk(s, g);
    }
  }

  /** After a refresh at the same instant: if and only if no expired grant of the account keeps an
      unreserved remainder (and none that is active still lies in the future of a clock set back). */
  lemma {:induction false} SpendableAfterRefresh(s: Ledger, a: nat, now: int)
    requires Inv(s) && a < |s.accounts| && RefreshStep(s, a, now).Done?
    ensures var t := RefreshStep(s, a, now).after;
            a < |t.accounts| &&
            (t.accounts[a].available == EligibleCredit(t, a, now) <==>
              forall g: nat :: g < |t.grants| && FreeOf(t, a)(g) > 0 ==>
                !t.grants[g].status.Expired? && t.grants[g].effectiveAt <= now)
  {
    var t := RefreshStep(s, a, now).after;
    RefreshKeeps(s, a, now);
    RefreshSettles(s, a, now);
    AvailableIsSpendable(t, a, now);
    forall g: nat | g < |t.grants| && FreeOf(t, a)(g) > 0
      ensures Eligible(t.grants, a, now)(g) <==> !t.grants[g].status.Expired? && t.grants[g].effectiveAt <= now
    {
      assert RowUpToDate(t.grants[g], now);
    }
  }

  // ----- the new rows -----

  function AmountFor(pieces: seq<Piece>, g: nat): int {
    if pieces == [] then 0
    else
      var last := pieces[|pieces| - 1];
      AmountFor(pieces[..|pieces| - 1], g) + if last.grant == g then last.amount else 0
  }

  lemma {:induction false} AppendedReserved(holds: seq<Hold>, old_: seq<Allocation>, h: nat, pieces: seq<Piece>, g: nat)
    requires IsOpen(holds, h)
    ensures Reserved(holds, old_ + NewAllocations(h, pieces), g) == Reserved(holds, old_, g) + AmountFor(pieces, g)
  {
    var rows := old_ + NewAllocations(h, pieces);
    if pieces == [] {
      assert rows == old_;
    } else {
      var front := pieces[..|pieces| - 1];
      var before := old_ + NewAllocations(h, front);
      AppendedReserved(holds, old_, h, front, g);
      assert |rows| == |before| + 1 && rows[..|before|] == before;
      SumSame(|before|, KeptOf(holds, before, g), KeptOf(holds, rows, g));
    }
  }

  lemma {:induction false} AppendedHeld(old_: seq<Allocation>, h: nat, pieces: seq<Piece>, k: nat)
    ensures var rows := old_ + NewAllocations(h, pieces);
            && Sum(|rows|, HeldIn(rows, k)) == Sum(|old_|, HeldIn(old_, k)) + (if k == h then PieceTotal(pieces) else 0)
            && Sum(|rows|, CapturedIn(rows, k)) == Sum(|old_|, CapturedIn(old_, k))
            && Sum(|rows|, ReleasedIn(rows, k)) == Sum(|old_|, ReleasedIn(old_, k))
  {
    var rows := old_ + NewAllocations(h, pieces);
    if pieces == [] {
      assert rows == old_;
    } else {
      var front := pieces[..|pieces| - 1];
      var before := old_ + NewAllocations(h, front);
      AppendedHeld(old_, h, front, k);
      assert |rows| == |before| + 1 && rows[..|before|] == before;
      SumSame(|before|, HeldIn(before, k), HeldIn(rows, k));
      SumSame(|before|, CapturedIn(before, k), CapturedIn(rows, k));
      SumSame(|before|, ReleasedIn(before, k), ReleasedIn(rows, k));
      PieceTotalSnoc(pieces);
    }
  }

  lemma {:induction false} PieceTotalSnoc(pieces: seq<Piece>)
    requires pieces != []
    ensures PieceTotal(pieces) == PieceTotal(pieces[..|pieces| - 1]) + pieces[|pieces| - 1].amount
  {
    if |pieces| > 1 {
      PieceTotalSnoc(pieces[1..]);
      assert pieces[1..][..|pieces| - 2] == pieces[..|pieces| - 1][1..];
    }
  }

  lemma {:induction false} AmountBounded(pieces: seq<Piece>, g: nat, most: int)
    requires Distinct(GrantsOf(pieces)) && 0 <= most
    requires forall i :: 0 <= i < |pieces| ==> 0 < pieces[i].amount && (pieces[i].grant == g ==> pieces[i].amount <= most)
    ensures 0 <= AmountFor(pieces, g) <= most
    ensures g !in GrantsOf(pieces) ==> AmountFor(pieces, g) == 0
  {
    if pieces != [] {
      var n := |pieces| - 1;
      var front := pieces[..n];
      assert GrantsOf(front) == GrantsOf(pieces)[..n];
      AmountBounded(front, g, most);
      assert GrantsOf(pieces)[n] == pieces[n].grant;
      if pieces[n].grant == g {
        assert g !in GrantsOf(front);
      }
    }
  }

  /** The state after placing a hold with the given greedy pieces. */
  ghost predicate IsPlacement(s: Ledger, t: Ledger, input: ReserveInput, pieces: seq<Piece>) {
    var a := input.account;
    && a < |s.accounts| && 0 < input.requested
    && First(|s.holds|, HasKey(s.holds, input.key)).None?
    && Project(s.accounts[a], -input.requested, input.requested).Ok?
    && PieceTotal(pieces) == input.requested
    && Distinct(GrantsOf(pieces))
    && (forall i :: 0 <= i < |pieces| ==>
          && pieces[i].grant < |s.grants|
          && s.grants[pieces[i].grant].account == a && s.grants[pieces[i].grant].status.Active?
          && 0 < pieces[i].amount <= AllocatableIn(s)(pieces[i].grant))
    && t == s.(accounts := s.accounts[a := Project(s.accounts[a], -input.requested, input.requested).value],
               holds := s.holds + [NewHold(input)],
               allocations := s.allocations + NewAllocations(|s.holds|, pieces))
  }

  lemma {:induction false} PlacementGrants(s: Ledger, t: Ledger, input: ReserveInput, pieces: seq<Piece>)
    requires TablesOk(s) && IsPlacement(s, t, input, pieces)
    ensures GrantsOk(t)
  {
    forall g: nat | g < |t.grants| ensures GrantOk(t, g) {
      assert GrantOk(s, g);
      AppendedReserved(t.holds, s.allocations, |s.holds|, pieces, g);
      forall j: nat | j < |s.allocations|
        ensures KeptOf(t.holds, s.allocations, g)(j) == KeptOf(s.holds, s.allocations, g)(j)
      {
        assert RowOk(s, j);
      }
      SumSame(|s.allocations|, KeptOf(t.holds, s.allocations, g), KeptOf(s.holds, s.allocations, g));
      AmountBounded(pieces, g, AllocatableIn(s)(g));
      if !s.grants[g].status.Active? {
        forall i | 0 <= i < |pieces| ensures GrantsOf(pieces)[i] != g { assert GrantsOf(pieces)[i] == pieces[i].grant; }
      }
    }
  }

  lemma {:induction false} PlacementRows(s: Ledger, t: Ledger, input: ReserveInput, pieces: seq<Piece>)
    requires TablesOk(s) && IsPlacement(s, t, input, pieces)
    ensures HoldsOk(t) && RowsOk(t)
  {
    var n := |s.allocations|;
    forall j: nat | j < |t.allocations| ensures RowOk(t, j) {
      if j < n { assert RowOk(s, j) && t.allocations[j] == s.allocations[j]; }
    }
    forall i, j | 0 <= i < j < |t.allocations|
      ensures t.allocations[i].hold != t.allocations[j].hold || t.allocations[i].grant != t.allocations[j].grant
    {
      if i < n { assert RowOk(s, i) && t.allocations[i] == s.allocations[i]; }
      if j < n { assert t.allocations[j] == s.allocations[j]; }
      if i >= n { assert GrantsOf(pieces)[i - n] != GrantsOf(pieces)[j - n]; }
    }
    forall h: nat | h < |t.holds| ensures HoldOk(t, h) {
      AppendedHeld(s.allocations, |s.holds|, pieces, h);
      if h < |s.holds| {
        assert HoldOk(s, h);
      } else {
        forall j: nat | j < n
          ensures HeldIn(s.allocations, h)(j) == CapturedIn(s.allocations, h)(j) == ReleasedIn(s.allocations, h)(j) == 0
        {
          assert RowOk(s, j);
        }
        SumZero(n, HeldIn(s.allocations, h));
        SumZero(n, CapturedIn(s.allocations, h));
        SumZero(n, ReleasedIn(s.allocations, h));
      }
    }
  }

  lemma {:induction false} PlacementBooks(s: Ledger, t: Ledger, input: ReserveInput, pieces: seq<Piece>)
    requires AllBalanced(s, 0, 0) && JournalOk(s) && IsPlacement(s, t, input, pieces)
    ensures AllBalanced(t, 0, 0) && JournalOk(t)
  {
    forall b: nat | b < |t.accounts| ensures Balanced(t, b, 0, 0) {
      assert Balanced(s, b, 0, 0);
      SumSame(|s.holds|, OpenOf(s.holds, b), OpenOf(t.holds, b));
    }
    forall b: nat ensures JournalTotal(t, b) == Booked(t, b) { assert JournalTotal(s, b) == Booked(s, b); }
  }

  lemma {:induction false} PlacementNames(s: Ledger, t: Ledger, input: ReserveInput, pieces: seq<Piece>)
    requires NamesOk(s) && IsPlacement(s, t, input, pieces)
    ensures NamesOk(t)
  {
    forall i, j | 0 <= i < j < |t.holds| ensures t.holds[i].key != t.holds[j].key {
      if j == |s.holds| { assert !HasKey(s.holds, input.key)(i); }
    }
    forall i: nat | i < |t.journal| ensures EntryOwned(t, i) {
      assert EntryOwned(s, i);
      if s.journal[i].kind.Debit? {
        var h: nat :| CapturedUnder(s.holds, s.journal[i].kind.usageRef)(h) && s.holds[h].captured > 0;
        assert CapturedUnder(t.holds, s.journal[i].kind.usageRef)(h);
      }
    }
    forall g: nat | g < |t.grants| ensures IssueRecorded(t, g) { assert IssueRecorded(s, g); }
    forall h: nat | h < |t.holds| ensures CaptureRecorded(t, h) {
      if h < |s.holds| { assert CaptureRecorded(s, h) && t.holds[h] == s.holds[h]; }
    }
  }

  lemma {:induction false} PlacementKeeps(s: Ledger, t: Ledger, input: ReserveInput, pieces: seq<Piece>)
    requires Inv(s) && IsPlacement(s, t, input, pieces)
    ensures Inv(t)
  {
    PlacementGrants(s, t, input, pieces);
    PlacementRows(s, t, input, pieces);
    PlacementBooks(s, t, input, pieces);
    PlacementNames(s, t, input, pieces);
  }

  /** Placing a hold succeeds exactly when the eligible grants cover the request (and the held
      column stays within BIGINT); the allocation is greedy in burn order. */
  lemma {:induction false} PlaceHoldExactly(s: Ledger, input: ReserveInput, now: int)
    requires Inv(s) && input.account < |s.accounts| && 0 < input.requested
    requires First(|s.holds|, HasKey(s.holds, input.key)).None?
    ensures PlaceHold(s, input, now).Done? <==>
              && input.requested <= EligibleCredit(s, input.account, now)
              && s.accounts[input.account].held + input.requested <= INT64_MAX
    ensures PlaceHold(s, input, now).Done? ==>
              var t := PlaceHold(s, input, now).after;
              var (pieces, left) := Burn(EligibleOrder(s, input.account, now), AllocatableIn(s), input.requested);
              && Inv(t)
              && t.allocations == s.allocations + NewAllocations(|s.holds|, pieces)
              && GreedyPrefix(EligibleOrder(s, input.account, now), AllocatableIn(s), pieces)
              && PieceTotal(pieces) == input.requested
  {
    var a := input.account;
    var order := EligibleOrder(s, a, now);
    var (pieces, left) := Burn(order, AllocatableIn(s), input.requested);
    BurnEligible(s, a, now, input.requested);
    AvailableIsSpendable(s, a, now);
    assert 0 <= s.accounts[a].available <= INT64_MAX && 0 <= s.accounts[a].held;
    if PlaceHold(s, input, now).Done? {
      PiecesAreEligible(s, a, now, pieces);
      assert IsPlacement(s, PlaceHold(s, input, now).after, input, pieces);
      PlacementKeeps(s, PlaceHold(s, input, now).after, input, pieces);
    }
  }

  /** The walk over the eligible grants. */
  lemma {:induction false} BurnEligible(s: Ledger, a: nat, now: int, wanted: int)
    requires TablesOk(s) && 0 < wanted
    ensures var (pieces, left) := Burn(EligibleOrder(s, a, now), AllocatableIn(s), wanted);
            && GreedyPrefix(EligibleOrder(s, a, now), AllocatableIn(s), pieces)
            && PieceTotal(pieces) + left == wanted && 0 <= left
            && (left == 0 <==> wanted <= EligibleCredit(s, a, now))
  {
    EligibleOrderFacts(s, a, now);
    BurnIsGreedy(EligibleOrder(s, a, now), AllocatableIn(s), wanted);
  }

  lemma {:induction false} PiecesAreEligible(s: Ledger, a: nat, now: int, pieces: seq<Piece>)
    requires TablesOk(s) && GreedyPrefix(EligibleOrder(s, a, now), AllocatableIn(s), pieces)
    ensures Distinct(GrantsOf(pieces))
    ensures forall i :: 0 <= i < |pieces| ==>
              && pieces[i].grant < |s.grants| && s.grants[pieces[i].grant].account == a
              && s.grants[pieces[i].grant].status.Active?
  {
    var order := EligibleOrder(s, a, now);
    EligibleOrderFacts(s, a, now);
    GivingIsPart(order, AllocatableIn(s));
    var giving := Giving(order, AllocatableIn(s));
    forall i | 0 <= i < |pieces| ensures Eligible(s.grants, a, now)(pieces[i].grant) {
      assert GrantsOf(pieces)[i] == giving[i];
      assert giving[i] in giving;
    }
    forall i, j | 0 <= i < j < |pieces| ensures GrantsOf(pieces)[i] != GrantsOf(pieces)[j] {
      assert giving[i] != giving[j];
    }
  }

  /** A reserve whose key is taken: it is a replay if and only if the recorded hold is for the same
      account, amount and feature; then nothing changes. Anything else is a conflict. */
  lemma {:induction false} ReserveReplayExactly(s: Ledger, input: ReserveInput, refreshClock: int, selectClock: int, h: nat)
    requires KeysUnique(s.holds) && 0 < input.requested && h < |s.holds| && s.holds[h].key == input.key
    ensures ReserveStep(s, input, refreshClock, selectClock) ==
            if s.holds[h].account == input.account && s.holds[h].requested == input.requested
               && s.holds[h].feature == input.feature
            then Done(s, ReserveResult(h, input.requested))
            else Failed(IdempotencyConflict)
  {
    assert HasKey(s.holds, input.key)(h);
    assert First(|s.holds|, HasKey(s.holds, input.key)) == Some(h);
  }

  /** Every successful reserve keeps the invariant. */
  lemma {:induction false} ReserveKeeps(s: Ledger, input: ReserveInput, refreshClock: int, selectClock: int)
    requires Inv(s) && ReserveStep(s, input, refreshClock, selectClock).Done?
    ensures Inv(ReserveStep(s, input, refreshClock, selectClock).after)
  {
    if First(|s.holds|, HasKey(s.holds, input.key)).None? {
      RefreshKeeps(s, input.account, refreshClock);
      PlaceHoldExactly(RefreshStep(s, input.account, refreshClock).after, input, selectClock);
    }
  }
}
