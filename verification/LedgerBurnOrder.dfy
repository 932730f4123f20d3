/** Which grants are used first, in the columns of the grants: by a reserve, by the simple
    allocation, and by the capture of a hold. */
module LedgerBurnOrder {
  import opened Sums
  import opened Sorting
  import opened Positions
  import opened BurnOrder
  import opened LedgerModel
  import opened LedgerInvariant
  import opened LedgerRefreshProof
  import opened LedgerReserveProof
  import opened LedgerFinishProof
  import opened LedgerRuns

  /** Grant p is used up no later than grant q: it expires earlier, or as early with a lower
      priority number, or as low and issued earlier, or at the same instant with a smaller id. */
  predicate NoLater(p: Grant, q: Grant) {
    && (q.expiresAt.None? || (p.expiresAt.Some? && p.expiresAt.value <= q.expiresAt.value))
    && (p.expiresAt == q.expiresAt ==> p.burnPriority <= q.burnPriority)
    && (p.expiresAt == q.expiresAt && p.burnPriority == q.burnPriority ==> p.issuedAt <= q.issuedAt)
    && (p.expiresAt == q.expiresAt && p.burnPriority == q.burnPriority && p.issuedAt == q.issuedAt ==> p.uuid <= q.uuid)
  }

  // ----- the greedy walk -----

  lemma {:induction false} GivingIsSorted(order: seq<nat>, allocatable: nat -> int, before: (nat, nat) -> bool)
    requires Sorted(order, before)
    ensures Sorted(Giving(order, allocatable), before)
  {
    if order != [] {
      var rest := order[1..];
      SortedTail(order, before);
      GivingIsSorted(rest, allocatable, before);
      GivingIsPart(rest, allocatable);
      if allocatable(order[0]) > 0 {
        forall j | 0 <= j < |Giving(rest, allocatable)| ensures !before(Giving(rest, allocatable)[j], order[0]) {
          var g := Giving(rest, allocatable)[j];
          assert g in rest;
          var k :| 0 <= k < |rest| && rest[k] == g;
          assert order[k + 1] == g;
        }
        SortedCons(order[0], Giving(rest, allocatable), before);
      } else {
        assert [] + Giving(rest, allocatable) == Giving(rest, allocatable);
      }
    }
  }

  /** What the pieces take from a grant covers each of them. */
  lemma {:induction false} AmountCovers(pieces: seq<Piece>, g: nat, i: nat)
    requires forall k :: 0 <= k < |pieces| ==> 0 < pieces[k].amount
    requires i < |pieces| && pieces[i].grant == g
    ensures pieces[i].amount <= AmountFor(pieces, g)
  {
    var n := |pieces| - 1;
    AmountPositive(pieces[..n], g);
    if i < n {
      assert pieces[..n][i] == pieces[i];
      AmountCovers(pieces[..n], g, i);
    }
  }

  lemma {:induction false} AmountPositive(pieces: seq<Piece>, g: nat)
    requires forall k :: 0 <= k < |pieces| ==> 0 < pieces[k].amount
    ensures 0 <= AmountFor(pieces, g)
  {
    if pieces != [] { AmountPositive(pieces[..|pieces| - 1], g); }
  }

  /** A greedy walk gives from grant p only after every grant before p has nothing left. */
  lemma {:induction false} GivesInOrder(order: seq<nat>, allocatable: nat -> int, before: (nat, nat) -> bool,
                                        pieces: seq<Piece>, i: nat, q: nat)
    requires Sorted(order, before) && GreedyPrefix(order, allocatable, pieces)
    requires i < |pieces| && q in order && AmountFor(pieces, q) < allocatable(q)
    ensures q == pieces[i].grant || !before(q, pieces[i].grant)
  {
    var giving := Giving(order, allocatable);
    GivingIsPart(order, allocatable);
    GivingIsSorted(order, allocatable, before);
    AmountPositive(pieces, q);
    assert q in giving;
    var j :| 0 <= j < |giving| && giving[j] == q;
    assert GrantsOf(pieces)[i] == pieces[i].grant == giving[i];
    if j < i {
      assert GrantsOf(pieces)[j] == pieces[j].grant == giving[j];
      AmountCovers(pieces, q, j);
    }
  }

  // ----- reserve -----

  lemma {:induction false} PlacedRow(s: Ledger, input: ReserveInput, now: int, j: nat)
    requires TablesOk(s) && 0 < input.requested
    requires PlaceHold(s, input, now).Done?
    requires |s.allocations| <= j < |PlaceHold(s, input, now).after.allocations|
    ensures var t := PlaceHold(s, input, now).after;
            var order, allocatable := EligibleOrder(s, input.account, now), AllocatableIn(s);
            var (pieces, left) := Burn(order, allocatable, input.requested);
            && t.grants == s.grants && t.holds == s.holds + [NewHold(input)]
            && t.allocations == s.allocations + NewAllocations(|s.holds|, pieces)
            && GreedyPrefix(order, allocatable, pieces) && j - |s.allocations| < |pieces|
            && t.allocations[j] == Allocation(|s.holds|, pieces[j - |s.allocations|].grant,
                                              pieces[j - |s.allocations|].amount, 0, 0)
  {
    BurnEligible(s, input.account, now, input.requested);
  }

  lemma {:induction false} PlacedInOrder(s: Ledger, input: ReserveInput, now: int, j: nat, q: nat)
    requires Inv(s) && input.account < |s.accounts| && 0 < input.requested
    requires First(|s.holds|, HasKey(s.holds, input.key)).None?
    requires PlaceHold(s, input, now).Done?
    requires |s.allocations| <= j < |PlaceHold(s, input, now).after.allocations| && q < |s.grants|
    ensures var t := PlaceHold(s, input, now).after;
            var row := t.allocations[j];
            && t.grants == s.grants && row.hold == |s.holds| && 0 < row.held && row.captured == row.released == 0
            && row.grant < |s.grants| && Eligible(s.grants, input.account, now)(row.grant)
            && (Eligible(s.grants, input.account, now)(q) && Reserved(t.holds, t.allocations, q) < s.grants[q].remaining ==>
                  NoLater(s.grants[row.grant], s.grants[q]))
  {
    var order, allocatable := EligibleOrder(s, input.account, now), AllocatableIn(s);
    var (pieces, left) := Burn(order, allocatable, input.requested);
    var t, i := PlaceHold(s, input, now).after, j - |s.allocations|;
    PlacedRow(s, input, now, j);
    PieceIsEligible(s, input.account, now, pieces, i);
    if Eligible(s.grants, input.account, now)(q) && Reserved(t.holds, t.allocations, q) < s.grants[q].remaining {
      LeftOver(s, t, input, pieces, q);
      PieceInOrder(s, input.account, now, pieces, i, q);
    }
  }

  lemma {:induction false} PieceInOrder(s: Ledger, a: nat, now: int, pieces: seq<Piece>, i: nat, q: nat)
    requires TablesOk(s) && GreedyPrefix(EligibleOrder(s, a, now), AllocatableIn(s), pieces)
    requires i < |pieces| && pieces[i].grant < |s.grants| && q < |s.grants| && Eligible(s.grants, a, now)(q)
    requires AmountFor(pieces, q) < AllocatableIn(s)(q)
    ensures NoLater(s.grants[pieces[i].grant], s.grants[q])
  {
    EligibleOrderFacts(s, a, now);
    GivesInOrder(EligibleOrder(s, a, now), AllocatableIn(s), ByKey(BurnKeyOf(s.grants)), pieces, i, q);
    if q != pieces[i].grant { NotAfter(BurnKeyOf(s.grants)(pieces[i].grant), BurnKeyOf(s.grants)(q)); }
  }

  lemma {:induction false} PieceIsEligible(s: Ledger, a: nat, now: int, pieces: seq<Piece>, i: nat)
    requires TablesOk(s) && GreedyPrefix(EligibleOrder(s, a, now), AllocatableIn(s), pieces) && i < |pieces|
    ensures pieces[i].grant < |s.grants| && Eligible(s.grants, a, now)(pieces[i].grant)
  {
    var order := EligibleOrder(s, a, now);
    EligibleOrderFacts(s, a, now);
    GivingIsPart(order, AllocatableIn(s));
    assert GrantsOf(pieces)[i] == Giving(order, AllocatableIn(s))[i];
    assert Giving(order, AllocatableIn(s))[i] in Giving(order, AllocatableIn(s));
  }

  /** What grant q has left after the new rows. */
  lemma {:induction false} LeftOver(s: Ledger, t: Ledger, input: ReserveInput, pieces: seq<Piece>, q: nat)
    requires RowsOk(s) && q < |s.grants|
    requires t.holds == s.holds + [NewHold(input)]
    requires t.allocations == s.allocations + NewAllocations(|s.holds|, pieces)
    ensures s.grants[q].remaining - Reserved(t.holds, t.allocations, q) == AllocatableIn(s)(q) - AmountFor(pieces, q)
  {
    AppendedReserved(t.holds, s.allocations, |s.holds|, pieces, q);
    forall j: nat | j < |s.allocations| ensures KeptOf(t.holds, s.allocations, q)(j) == KeptOf(s.holds, s.allocations, q)(j) {
      assert RowOk(s, j);
    }
    SumSame(|s.allocations|, KeptOf(t.holds, s.allocations, q), KeptOf(s.holds, s.allocations, q));
  }

  /** A new hold takes only from grants of its account that are active and inside their window at
      the selecting instant; and from none of them while another such grant that comes before it,
      by expiry, then priority, then issue time, then id, still has unreserved credit. */
  lemma {:induction false} ReserveBurnsInOrder(s: Ledger, input: ReserveInput, refreshClock: int, selectClock: int,
                                               j: nat, q: nat)
    requires Inv(s) && First(|s.holds|, HasKey(s.holds, input.key)).None?
    requires ReserveStep(s, input, refreshClock, selectClock).Done?
    requires |s.allocations| <= j < |ReserveStep(s, input, refreshClock, selectClock).after.allocations|
    requires q < |s.grants|
    ensures var t := ReserveStep(s, input, refreshClock, selectClock).after;
            var row := t.allocations[j];
            && |t.grants| == |s.grants| && row.grant < |t.grants|
            && row.hold == |s.holds| && 0 < row.held && row.captured == row.released == 0
            && var p, g := t.grants[row.grant], t.grants[q];
            && p.account == input.account && p.status.Active? && p.effectiveAt <= selectClock
            && (p.expiresAt.Some? ==> selectClock < p.expiresAt.value)
            && (&& g.account == input.account && g.status.Active? && g.effectiveAt <= selectClock
                && (g.expiresAt.Some? ==> selectClock < g.expiresAt.value)
                && Reserved(t.holds, t.allocations, q) < g.remaining
                ==> NoLater(p, g))
  {
    RefreshKeeps(s, input.account, refreshClock);
    PlacedInOrder(RefreshStep(s, input.account, refreshClock).after, input, selectClock, j, q);
  }

  // ----- capture -----

  lemma {:induction false} FinishIsClose(s: Ledger, h: nat, actual: int, source: string, terminal: HoldStatus)
    requires h < |s.holds| && s.holds[h].status.Open? && FinishStep(s, h, actual, source, terminal).Done?
    ensures s.holds[h].account < |s.accounts|
    ensures 0 <= actual <= s.holds[h].requested && ValidSource(source)
    ensures terminal.Captured? ==> First(|s.holds|, CapturedUnder(s.holds, source)).None?
    ensures FinishStep(s, h, actual, source, terminal) == CloseHold(s, h, actual, source, terminal)
  {
  }

  lemma {:induction false} ClosingSplits(s: Ledger, t: Ledger, h: nat, actual: int, source: string, terminal: HoldStatus,
                                         j: nat)
    requires IsClosing(s, t, h, actual, source, terminal) && j < |s.allocations| && j in HoldOrder(s, h)
    ensures |t.allocations| == |s.allocations| && Split(s.allocations[j], t.allocations[j])
  {
  }

  lemma {:induction false} AllocationColumns(s: Ledger, j: nat)
    requires j < |s.allocations| && s.allocations[j].grant < |s.grants|
    ensures var grant := s.grants[s.allocations[j].grant];
            AllocationKey(s)(j) == BurnKey(grant.expiresAt, grant.burnPriority, grant.issuedAt, grant.uuid)
  {
    var key := BurnKeyOf(s.grants);
    assert AllocationKey(s)(j) == key(s.allocations[j].grant);
  }

  lemma {:induction false} ChargedInOrder(s: Ledger, rows: seq<Allocation>, h: nat, i: nat, j: nat)
    requires PrefixCharged(HoldOrder(s, h), rows) && |rows| == |s.allocations|
    requires i in HoldOrder(s, h) && j in HoldOrder(s, h) && i < |rows| && j < |rows|
    requires s.allocations[i].grant < |s.grants| && s.allocations[j].grant < |s.grants|
    requires 0 < rows[i].captured && 0 < rows[j].released
    ensures NoLater(s.grants[s.allocations[i].grant], s.grants[s.allocations[j].grant])
  {
    var order := HoldOrder(s, h);
    HoldOrderFacts(s, h);
    var x :| 0 <= x < |order| && order[x] == i;
    var y :| 0 <= y < |order| && order[y] == j;
    if x != y {
      assert x < y;
      assert !ByKey(AllocationKey(s))(j, i);
      AllocationColumns(s, i);
      AllocationColumns(s, j);
      NotAfter(AllocationKey(s)(i), AllocationKey(s)(j));
    }
  }

  /** A finished hold was charged in the same order: a row that something was captured from comes no
      later than any row of the hold that something was released of. */
  lemma {:induction false} CaptureBurnsInOrder(s: Ledger, h: nat, actual: int, source: string, terminal: HoldStatus,
                                               i: nat, j: nat)
    requires Inv(s) && (terminal.Captured? || (terminal.Released? && actual == 0))
    requires h < |s.holds| && s.holds[h].status.Open? && FinishStep(s, h, actual, source, terminal).Done?
    requires i < |s.allocations| && j < |s.allocations| && s.allocations[i].hold == h == s.allocations[j].hold
    ensures var t := FinishStep(s, h, actual, source, terminal).after;
            && |t.allocations| == |s.allocations|
            && s.allocations[i].grant < |s.grants| && s.allocations[j].grant < |s.grants|
            && (0 < t.allocations[i].captured && t.allocations[j].captured < t.allocations[j].held ==>
                  NoLater(s.grants[s.allocations[i].grant], s.grants[s.allocations[j].grant]))
  {
    FinishIsClose(s, h, actual, source, terminal);
    ClosedInOrder(s, CloseHold(s, h, actual, source, terminal), h, actual, source, terminal, i, j);
  }

  lemma {:induction false} ClosedInOrder(s: Ledger, o: Outcome<TerminalResult>, h: nat, actual: int, source: string,
                                         terminal: HoldStatus, i: nat, j: nat)
    requires Inv(s) && h < |s.holds| && s.holds[h].status.Open? && s.holds[h].account < |s.accounts|
    requires 0 <= actual <= s.holds[h].requested && ValidSource(source)
    requires terminal.Captured? || (terminal.Released? && actual == 0)
    requires terminal.Captured? ==> First(|s.holds|, CapturedUnder(s.holds, source)).None?
    requires o == CloseHold(s, h, actual, source, terminal) && o.Done?
    requires i < |s.allocations| && j < |s.allocations| && s.allocations[i].hold == h == s.allocations[j].hold
    ensures var t := o.after;
            && |t.allocations| == |s.allocations|
            && s.allocations[i].grant < |s.grants| && s.allocations[j].grant < |s.grants|
            && (0 < t.allocations[i].captured && t.allocations[j].captured < t.allocations[j].held ==>
                  NoLater(s.grants[s.allocations[i].grant], s.grants[s.allocations[j].grant]))
  {
    CloseHoldExactly(s, h, actual, source, terminal);
    HoldOrderFacts(s, h);
    assert RowOk(s, i) && RowOk(s, j);
    ClosingSplits(s, o.after, h, actual, source, terminal, i);
    ClosingSplits(s, o.after, h, actual, source, terminal, j);
    if 0 < o.after.allocations[i].captured && o.after.allocations[j].captured < o.after.allocations[j].held {
      ChargedInOrder(s, o.after.allocations, h, i, j);
    }
  }
}
