/** Capturing or releasing a hold: no corruption branch is reachable, and the books close. */
module LedgerFinishProof {
  import opened Sums
  import opened Sorting
  import opened Positions
  import opened BurnOrder
  import opened LedgerModel
  import opened LedgerInvariant
  import opened LedgerRefreshProof

  // ----- the charging walk -----

  function HeldAt(allocations: seq<Allocation>): nat -> int {
    (j: nat) => if j < |allocations| then allocations[j].held else 0
  }

  function CapturedAt(allocations: seq<Allocation>): nat -> int {
    (j: nat) => if j < |allocations| then allocations[j].captured else 0
  }

  /** The rows of `order` are untouched, belong to distinct grants of account a, and are covered. */
  ghost predicate Chargeable(s: Ledger, a: nat, order: seq<nat>) {
    && Distinct(order)
    && (forall i :: 0 <= i < |order| ==> order[i] < |s.allocations|)
    && (forall i :: 0 <= i < |order| ==>
          var row := s.allocations[order[i]];
          && row.captured == 0 && row.released == 0 && 0 < row.held
          && row.grant < |s.grants| && s.grants[row.grant].account == a
          && !s.grants[row.grant].status.Pending? && row.held <= s.grants[row.grant].remaining)
    && (forall i, j :: 0 <= i < j < |order| ==> s.allocations[order[i]].grant != s.allocations[order[j]].grant)
  }

  /** Row j after the walk: what was captured and what was released add up to what it held. */
  ghost predicate Split(before: Allocation, after: Allocation) {
    && 0 <= after.captured <= before.held
    && after == before.(captured := after.captured, released := before.held - after.captured)
  }

  /** What the rows of an allocation table captured from grant g. */
  function TakenFrom(rows: seq<Allocation>, g: nat): nat -> int {
    (j: nat) => if j < |rows| && rows[j].grant == g then rows[j].captured else 0
  }

  /** The walk changes the rows of `order` and takes what they captured from their grants. */
  ghost predicate Charged(s: Ledger, t: Ledger, order: seq<nat>) {
    && t == s.(grants := t.grants, allocations := t.allocations)
    && |t.grants| == |s.grants| && |t.allocations| == |s.allocations|
    && (forall j: nat :: j < |s.allocations| ==>
          if j in order then Split(s.allocations[j], t.allocations[j]) else t.allocations[j] == s.allocations[j])
    && (forall g: nat :: g < |s.grants| ==> TakenExactly(s, t, order, g))
  }

  ghost predicate TakenExactly(s: Ledger, t: Ledger, order: seq<nat>, g: nat)
    requires g < |s.grants| && g < |t.grants|
  {
    t.grants[g] == s.grants[g].(remaining := s.grants[g].remaining - SumAlong(order, TakenFrom(t.allocations, g)))
  }

  /** A row is charged only after every earlier row is charged in full. */
  ghost predicate PrefixCharged(order: seq<nat>, rows: seq<Allocation>) {
    && (forall i :: 0 <= i < |order| ==> order[i] < |rows|)
    && (forall i, j :: 0 <= i < j < |order| && 0 < rows[order[j]].captured ==> rows[order[i]].released == 0)
  }

  ghost predicate ChargeFacts(order: seq<nat>, left: int, before: seq<Allocation>, after: seq<Allocation>, end: int) {
    && 0 <= end
    && (end == 0 <==> left <= SumAlong(order, HeldAt(before)))
    && SumAlong(order, CapturedAt(after)) == left - end
    && PrefixCharged(order, after)
    && (left == 0 ==> forall i :: 0 <= i < |order| ==> after[order[i]].captured == 0)
  }

  lemma {:induction false} ChargeOne(s: Ledger, a: nat, order: seq<nat>, left: int)
    requires 0 <= left && order != [] && Chargeable(s, a, order)
    ensures var r := ChargeRow(s, a, order[0], left);
            var row := s.allocations[order[0]];
            var c := if left <= row.held then left else row.held;
            && r.Some?
            && r.value.0 == s.(allocations := s.allocations[order[0] := row.(captured := c, released := row.held - c)],
                               grants := s.grants[row.grant := s.grants[row.grant].(remaining := s.grants[row.grant].remaining - c)])
            && r.value.1 == left - c
            && Chargeable(r.value.0, a, order[1..])
  {
    var (t, left1) := ChargeRow(s, a, order[0], left).value;
    var rest := order[1..];
    assert forall i :: 0 <= i < |rest| ==> rest[i] == order[i + 1];
    var g := s.allocations[order[0]].grant;
    assert t.grants == s.grants[g := t.grants[g]];
  }

  lemma {:induction false} ChargeRowsChange(s: Ledger, a: nat, order: seq<nat>, left: int)
    requires 0 <= left && Chargeable(s, a, order)
    ensures var r := ChargeRows(s, a, order, left); r.Some? && Charged(s, r.value.0, order)
    decreases |order|
  {
    if order == [] {
      forall g: nat | g < |s.grants| ensures TakenExactly(s, s, order, g) {}
    } else {
      ChargeOne(s, a, order, left);
      var (s1, left1) := ChargeRow(s, a, order[0], left).value;
      ChargeRowsChange(s1, a, order[1..], left1);
      ChargedJoin(s, a, order, left, ChargeRows(s1, a, order[1..], left1).value.0);
    }
  }

  /** Charging the first row and then the rest charges the whole list. */
  lemma {:induction false} ChargedJoin(s: Ledger, a: nat, order: seq<nat>, left: int, t: Ledger)
    requires 0 <= left && order != [] && Chargeable(s, a, order)
    requires ChargeRow(s, a, order[0], left).Some?
    requires Charged(ChargeRow(s, a, order[0], left).value.0, t, order[1..])
    ensures Charged(s, t, order)
  {
    ChargeOne(s, a, order, left);
    var s1 := ChargeRow(s, a, order[0], left).value.0;
    var x, rest := order[0], order[1..];
    assert order == [x] + rest;
    assert x !in rest by { assert forall i :: 0 <= i < |rest| ==> rest[i] == order[i + 1]; }
    assert t.allocations[x] == s1.allocations[x];
    forall g: nat | g < |s.grants| ensures TakenExactly(s, t, order, g) {
      assert TakenExactly(s1, t, rest, g);
    }
  }

  lemma {:induction false} ChargeRowsAmounts(s: Ledger, a: nat, order: seq<nat>, left: int)
    requires 0 <= left && Chargeable(s, a, order)
    ensures var r := ChargeRows(s, a, order, left);
            r.Some? && ChargeFacts(order, left, s.allocations, r.value.0.allocations, r.value.1)
    decreases |order|
  {
    if order != [] {
      ChargeOne(s, a, order, left);
      var (s1, left1) := ChargeRow(s, a, order[0], left).value;
      var x, rest := order[0], order[1..];
      ChargeRowsAmounts(s1, a, rest, left1);
      ChargeRowsChange(s1, a, rest, left1);
      var (t, end) := ChargeRows(s1, a, rest, left1).value;
      assert order == [x] + rest;
      assert forall i :: 0 <= i < |rest| ==> rest[i] == order[i + 1];
      assert x !in rest;
      assert t.allocations[x] == s1.allocations[x];
      SumAlongSame(rest, HeldAt(s.allocations), HeldAt(s1.allocations));
      HeldNonNegative(s, a, order);
      forall i, j | 0 <= i < j < |order| && 0 < t.allocations[order[j]].captured
        ensures t.allocations[order[i]].released == 0
      {
        assert order[j] == rest[j - 1];
        if i > 0 { assert order[i] == rest[i - 1]; }
      }
    }
  }

  lemma {:induction false} HeldNonNegative(s: Ledger, a: nat, order: seq<nat>)
    requires order != [] && Chargeable(s, a, order)
    ensures 0 <= SumAlong(order[1..], HeldAt(s.allocations))
  {
    var rest := order[1..];
    forall i | 0 <= i < |rest| ensures 0 <= HeldAt(s.allocations)(rest[i]) { assert rest[i] == order[i + 1]; }
    WalkNonNegative(rest, HeldAt(s.allocations));
  }

  lemma {:induction false} WalkNonNegative(order: seq<nat>, f: nat -> int)
    requires forall i :: 0 <= i < |order| ==> 0 <= f(order[i])
    ensures 0 <= SumAlong(order, f)
  {
    if order != [] {
      assert forall i :: 0 <= i < |order[1..]| ==> order[1..][i] == order[i + 1];
      WalkNonNegative(order[1..], f);
    }
  }

  // ----- facts about an open hold -----

  lemma {:induction false} ReservedCoversRow(s: Ledger, j: nat)
    requires TablesOk(s) && j < |s.allocations| && IsOpen(s.holds, s.allocations[j].hold)
    ensures var row := s.allocations[j];
            && row.grant < |s.grants| && row.held <= s.grants[row.grant].remaining
            && !s.grants[row.grant].status.Pending? && !s.grants[row.grant].lapsed
            && row.held <= Reserved(s.holds, s.allocations, row.grant)
  {
    assert RowOk(s, j);
    var g := s.allocations[j].grant;
    KeptNonNegative(s, g);
    TermAtMostSum(|s.allocations|, KeptOf(s.holds, s.allocations, g), j);
    assert GrantOk(s, g);
  }

  lemma {:induction false} HoldOrderFacts(s: Ledger, h: nat)
    ensures var order := HoldOrder(s, h);
            && Distinct(order)
            && (forall j: nat :: j in order <==> j < |s.allocations| && s.allocations[j].hold == h)
            && (forall i :: 0 <= i < |order| ==> order[i] < |s.allocations| && s.allocations[order[i]].hold == h)
            && Sorted(order, ByKey(AllocationKey(s)))
  {
    var order := HoldOrder(s, h);
    var rows := Where(|s.allocations|, OfHold(s.allocations, h));
    SortByKeeps(rows, AllocationKey(s));
    forall i | 0 <= i < |order| ensures order[i] < |s.allocations| && s.allocations[order[i]].hold == h {
      assert order[i] in rows;
    }
  }

  /** A total over the rows of one hold may be taken along any list of exactly those rows. */
  lemma {:induction false} HoldTotal(allocations: seq<Allocation>, h: nat, order: seq<nat>, f: nat -> int,
                                     whole: nat -> int)
    requires Distinct(order)
    requires forall j: nat :: j in order <==> j < |allocations| && allocations[j].hold == h
    requires forall j: nat :: j < |allocations| ==> whole(j) == if allocations[j].hold == h then f(j) else 0
    ensures SumAlong(order, f) == Sum(|allocations|, whole)
  {
    forall i | 0 <= i < |order| ensures order[i] < |allocations| { assert order[i] in order; }
    SumAlongIsSum(|allocations|, order, f);
    SumSame(|allocations|, Only(order, f), whole);
  }

  lemma {:induction false} OpenHoldChargeable(s: Ledger, h: nat)
    requires TablesOk(s) && h < |s.holds| && s.holds[h].status.Open?
    ensures Chargeable(s, s.holds[h].account, HoldOrder(s, h))
  {
    var order := HoldOrder(s, h);
    HoldOrderFacts(s, h);
    forall i | 0 <= i < |order|
      ensures var row := s.allocations[order[i]];
              && row.captured == 0 && row.released == 0 && 0 < row.held
              && row.grant < |s.grants| && s.grants[row.grant].account == s.holds[h].account
              && !s.grants[row.grant].status.Pending? && row.held <= s.grants[row.grant].remaining
    {
      assert RowOk(s, order[i]);
      ReservedCoversRow(s, order[i]);
    }
    forall i, j | 0 <= i < j < |order| ensures s.allocations[order[i]].grant != s.allocations[order[j]].grant {
      var x, y := order[i], order[j];
      assert x != y;
      assert if x < y then s.allocations[x].grant != s.allocations[y].grant
             else s.allocations[y].grant != s.allocations[x].grant;
    }
  }

  lemma {:induction false} HoldOrderCovers(s: Ledger, h: nat)
    requires HoldsOk(s) && h < |s.holds|
    ensures SumAlong(HoldOrder(s, h), HeldAt(s.allocations)) == s.holds[h].requested
  {
    HoldOrderFacts(s, h);
    HoldTotal(s.allocations, h, HoldOrder(s, h), HeldAt(s.allocations), HeldIn(s.allocations, h));
    assert HoldOk(s, h);
  }

  // ----- the state after closing -----

  ghost predicate IsClosing(s: Ledger, t: Ledger, h: nat, actual: int, source: string, terminal: HoldStatus) {
    && h < |s.holds| && s.holds[h].status.Open? && s.holds[h].account < |s.accounts|
    && 0 <= actual <= s.holds[h].requested && ValidSource(source)
    && (terminal.Captured? || (terminal.Released? && actual == 0))
    && (terminal.Captured? ==> First(|s.holds|, CapturedUnder(s.holds, source)).None?)
    && t.holds == s.holds[h := Terminated(s.holds[h], actual, source, terminal)]
    && Charged(s.(holds := t.holds), t.(accounts := s.accounts, journal := s.journal), HoldOrder(s, h))
    && SumAlong(HoldOrder(s, h), CapturedAt(t.allocations)) == actual
    && Project(s.accounts[s.holds[h].account], s.holds[h].requested - actual, -s.holds[h].requested).Ok?
    && t.accounts == s.accounts[s.holds[h].account :=
         Project(s.accounts[s.holds[h].account], s.holds[h].requested - actual, -s.holds[h].requested).value]
    && t.journal == s.journal + ClosingEntry(s, h, actual, source)
  }

  function ClosingEntry(s: Ledger, h: nat, actual: int, source: string): seq<Entry>
    requires h < |s.holds|
  {
    var a := s.holds[h].account;
    if actual > 0 then [Entry(a, MaxSequence(s.journal, a) + 1, Debit(source), -actual)] else []
  }

  /** What hold h held on grant g, and what the closing captured from it. */
  function HeldOn(rows: seq<Allocation>, h: nat, g: nat): nat -> int {
    (j: nat) => if j < |rows| && rows[j].hold == h && rows[j].grant == g then rows[j].held else 0
  }

  function CapturedOn(rows: seq<Allocation>, h: nat, g: nat): nat -> int {
    (j: nat) => if j < |rows| && rows[j].hold == h && rows[j].grant == g then rows[j].captured else 0
  }

  /** Each allocation row and each grant row after closing. */
  ghost predicate Closed(s: Ledger, t: Ledger, h: nat) {
    && |t.allocations| == |s.allocations| && |t.grants| == |s.grants|
    && (forall j: nat :: j < |s.allocations| ==>
          if s.allocations[j].hold == h then Split(s.allocations[j], t.allocations[j])
          else t.allocations[j] == s.allocations[j])
    && (forall g: nat :: g < |s.grants| ==> ClosedGrant(s, t, h, g))
  }

  ghost predicate ClosedGrant(s: Ledger, t: Ledger, h: nat, g: nat)
    requires g < |s.grants| && g < |t.grants|
  {
    t.grants[g] == s.grants[g].(remaining := s.grants[g].remaining - Sum(|t.allocations|, CapturedOn(t.allocations, h, g)))
  }

  lemma {:induction false} ClosedRows(s: Ledger, t: Ledger, h: nat, actual: int, source: string, terminal: HoldStatus)
    requires IsClosing(s, t, h, actual, source, terminal)
    ensures Closed(s, t, h)
  {
    var order := HoldOrder(s, h);
    var s0, t0 := s.(holds := t.holds), t.(accounts := s.accounts, journal := s.journal);
    HoldOrderFacts(s, h);
    forall g: nat | g < |s.grants| ensures ClosedGrant(s, t, h, g) {
      assert TakenExactly(s0, t0, order, g);
      HoldTotal(t.allocations, h, order, TakenFrom(t.allocations, g), CapturedOn(t.allocations, h, g));
    }
  }

  /** What the closing frees on grant g is what the hold held there, and covers what it took. */
  lemma {:induction false} ReservedAfterClosing(s: Ledger, t: Ledger, h: nat, g: nat)
    requires TablesOk(s) && h < |s.holds| && s.holds[h].status.Open?
    requires |t.holds| == |s.holds| && !t.holds[h].status.Open?
    requires forall k :: 0 <= k < |s.holds| && k != h ==> t.holds[k] == s.holds[k]
    requires Closed(s, t, h) && g < |s.grants|
    ensures Reserved(t.holds, t.allocations, g)
            == Reserved(s.holds, s.allocations, g) - Sum(|s.allocations|, HeldOn(s.allocations, h, g))
    ensures 0 <= Sum(|t.allocations|, CapturedOn(t.allocations, h, g)) <= Sum(|s.allocations|, HeldOn(s.allocations, h, g))
  {
    var n := |s.allocations|;
    var before, after, freed := KeptOf(s.holds, s.allocations, g), KeptOf(t.holds, t.allocations, g), HeldOn(s.allocations, h, g);
    forall j: nat | j < n ensures before(j) == after(j) + freed(j) { assert RowOk(s, j); }
    SumAdds(n, after, freed, before);
    SumAtMost(n, CapturedOn(t.allocations, h, g), freed);
    SumNonNegative(n, CapturedOn(t.allocations, h, g));
  }

  /** A grant without reservations is left alone. */
  lemma {:induction false} UnreservedUntouched(s: Ledger, t: Ledger, h: nat, g: nat)
    requires TablesOk(s) && h < |s.holds| && s.holds[h].status.Open?
    requires |t.holds| == |s.holds| && !t.holds[h].status.Open?
    requires forall k :: 0 <= k < |s.holds| && k != h ==> t.holds[k] == s.holds[k]
    requires Closed(s, t, h) && g < |s.grants| && RowsOk(t)
    requires Reserved(s.holds, s.allocations, g) == 0
    ensures t.grants[g] == s.grants[g] && Reserved(t.holds, t.allocations, g) == 0
  {
    ReservedAfterClosing(s, t, h, g);
    ReservedNonNegative(t, g);
    assert ClosedGrant(s, t, h, g);
  }

  lemma {:induction false} ClosingRows(s: Ledger, t: Ledger, h: nat, actual: int, source: string, terminal: HoldStatus)
    requires TablesOk(s) && IsClosing(s, t, h, actual, source, terminal)
    ensures RowsOk(t)
  {
    ClosedRows(s, t, h, actual, source, terminal);
    forall j: nat | j < |t.allocations| ensures RowOk(t, j) {
      assert RowOk(s, j);
      assert ClosedGrant(s, t, h, s.allocations[j].grant);
    }
    forall i, j | 0 <= i < j < |t.allocations|
      ensures t.allocations[i].hold != t.allocations[j].hold || t.allocations[i].grant != t.allocations[j].grant
    {
      assert s.allocations[i].hold != s.allocations[j].hold || s.allocations[i].grant != s.allocations[j].grant;
    }
  }

  lemma {:induction false} ClosingGrants(s: Ledger, t: Ledger, h: nat, actual: int, source: string,
                                         terminal: HoldStatus)
    requires TablesOk(s) && IsClosing(s, t, h, actual, source, terminal)
    ensures GrantsOk(t)
  {
    ClosedRows(s, t, h, actual, source, terminal);
    ClosingRows(s, t, h, actual, source, terminal);
    forall g: nat | g < |t.grants| ensures GrantOk(t, g) {
      assert GrantOk(s, g) && ClosedGrant(s, t, h, g);
      ReservedAfterClosing(s, t, h, g);
      ReservedNonNegative(t, g);
      if Reserved(s.holds, s.allocations, g) == 0 { UnreservedUntouched(s, t, h, g); }
    }
  }

  lemma {:induction false} ClosingHolds(s: Ledger, t: Ledger, h: nat, actual: int, source: string, terminal: HoldStatus)
    requires TablesOk(s) && IsClosing(s, t, h, actual, source, terminal)
    ensures HoldsOk(t)
  {
    ClosedRows(s, t, h, actual, source, terminal);
    var n := |s.allocations|;
    forall k: nat | k < |t.holds| ensures HoldOk(t, k) {
      assert HoldOk(s, k);
      SumSame(n, HeldIn(s.allocations, k), HeldIn(t.allocations, k));
      if k == h {
        ClosedHoldTotals(s, t, h, actual, source, terminal);
      } else {
        SumSame(n, CapturedIn(s.allocations, k), CapturedIn(t.allocations, k));
        SumSame(n, ReleasedIn(s.allocations, k), ReleasedIn(t.allocations, k));
      }
    }
  }

  lemma {:induction false} ClosedHoldTotals(s: Ledger, t: Ledger, h: nat, actual: int, source: string,
                                            terminal: HoldStatus)
    requires TablesOk(s) && IsClosing(s, t, h, actual, source, terminal)
    ensures |t.allocations| == |s.allocations|
    ensures Sum(|s.allocations|, CapturedIn(t.allocations, h)) == actual
    ensures Sum(|s.allocations|, ReleasedIn(t.allocations, h)) == s.holds[h].requested - actual
  {
    var n := |s.allocations|;
    ClosedRows(s, t, h, actual, source, terminal);
    HoldOrderFacts(s, h);
    assert HoldOk(s, h);
    HoldTotal(t.allocations, h, HoldOrder(s, h), CapturedAt(t.allocations), CapturedIn(t.allocations, h));
    SumAdds(n, CapturedIn(t.allocations, h), ReleasedIn(t.allocations, h), HeldIn(s.allocations, h));
  }

  // ----- books -----

  function TakenOf(t: Ledger, h: nat): nat -> int {
    (g: nat) => Sum(|t.allocations|, CapturedOn(t.allocations, h, g))
  }

  /** Grant by grant, the closing takes the captured amount and nothing else. */
  lemma {:induction false} ClosingTakes(s: Ledger, t: Ledger, h: nat, actual: int, source: string, terminal: HoldStatus)
    requires TablesOk(s) && IsClosing(s, t, h, actual, source, terminal)
    ensures Sum(|s.grants|, TakenOf(t, h)) == actual
  {
    ClosedRows(s, t, h, actual, source, terminal);
    ClosingRows(s, t, h, actual, source, terminal);
    ClosedHoldTotals(s, t, h, actual, source, terminal);
    var n := |t.allocations|;
    forall j: nat | j < n ensures 0 <= GrantColumn(t)(j) < |s.grants| { assert RowOk(t, j); }
    BucketsPartition(|s.grants|, n, GrantColumn(t), CapturedIn(t.allocations, h));
    forall g: nat | g < |s.grants|
      ensures TakenOf(t, h)(g) == BucketTotal(n, GrantColumn(t), CapturedIn(t.allocations, h))(g)
    {
      SumSame(n, CapturedOn(t.allocations, h, g), InBucket(GrantColumn(t), CapturedIn(t.allocations, h), g));
    }
    SumSame(|s.grants|, TakenOf(t, h), BucketTotal(n, GrantColumn(t), CapturedIn(t.allocations, h)));
  }

  /** Only grants of the hold's own account are charged, and never a pending one. */
  lemma {:induction false} TakenFromOwnAccount(s: Ledger, t: Ledger, h: nat, actual: int, source: string,
                                               terminal: HoldStatus, g: nat)
    requires TablesOk(s) && IsClosing(s, t, h, actual, source, terminal) && g < |s.grants|
    ensures s.grants[g].account != s.holds[h].account ==> TakenOf(t, h)(g) == 0
    ensures s.grants[g].status.Pending? ==> TakenOf(t, h)(g) == 0
  {
    ClosedRows(s, t, h, actual, source, terminal);
    ClosingRows(s, t, h, actual, source, terminal);
    assert GrantOk(s, g);
    if s.grants[g].account != s.holds[h].account {
      forall j: nat | j < |s.allocations| ensures CapturedOn(t.allocations, h, g)(j) == 0 { assert RowOk(s, j); }
      SumZero(|s.allocations|, CapturedOn(t.allocations, h, g));
    } else if s.grants[g].status.Pending? {
      UnreservedUntouched(s, t, h, g);
      assert ClosedGrant(s, t, h, g);
    }
  }

  lemma {:induction false} ClosingTotals(s: Ledger, t: Ledger, h: nat, actual: int, source: string,
                                         terminal: HoldStatus, b: nat)
    requires TablesOk(s) && IsClosing(s, t, h, actual, source, terminal)
    ensures Remaining(t, b) == Remaining(s, b) - (if b == s.holds[h].account then actual else 0)
    ensures Booked(t, b) == Booked(s, b) - (if b == s.holds[h].account then actual else 0)
  {
    var n := |s.grants|;
    var own := (g: nat) => if b == s.holds[h].account then TakenOf(t, h)(g) else 0;
    ClosingTakes(s, t, h, actual, source, terminal);
    ClosedRows(s, t, h, actual, source, terminal);
    forall g: nat | g < n
      ensures RemainingOf(s.grants, b)(g) == RemainingOf(t.grants, b)(g) + own(g)
      ensures PendingOf(s.grants, b)(g) == PendingOf(t.grants, b)(g)
      ensures LapsedOf(s.grants, b)(g) == LapsedOf(t.grants, b)(g)
    {
      assert ClosedGrant(s, t, h, g);
      TakenFromOwnAccount(s, t, h, actual, source, terminal, g);
    }
    SumAdds(n, RemainingOf(t.grants, b), own, RemainingOf(s.grants, b));
    SumSame(n, PendingOf(s.grants, b), PendingOf(t.grants, b));
    SumSame(n, LapsedOf(s.grants, b), LapsedOf(t.grants, b));
    if b == s.holds[h].account { SumSame(n, own, TakenOf(t, h)); } else { SumZero(n, own); }
  }

  lemma {:induction false} ClosingBooks(s: Ledger, t: Ledger, h: nat, actual: int, source: string, terminal: HoldStatus)
    requires TablesOk(s) && AllBalanced(s, 0, 0) && IsClosing(s, t, h, actual, source, terminal)
    ensures AllBalanced(t, 0, 0)
  {
    forall b: nat | b < |t.accounts| ensures Balanced(t, b, 0, 0) {
      assert Balanced(s, b, 0, 0);
      ClosingTotals(s, t, h, actual, source, terminal, b);
      SumSwitch(|s.holds|, OpenOf(s.holds, b), OpenOf(t.holds, b), h);
    }
  }

  lemma {:induction false} ClosingJournal(s: Ledger, t: Ledger, h: nat, actual: int, source: string,
                                          terminal: HoldStatus)
    requires TablesOk(s) && JournalOk(s) && IsClosing(s, t, h, actual, source, terminal)
    ensures JournalOk(t)
  {
    var a := s.holds[h].account;
    ClosingGrants(s, t, h, actual, source, terminal);
    BookedNonNegative(t, a);
    ClosingTotals(s, t, h, actual, source, terminal, a);
    assert JournalTotal(s, a) == Booked(s, a);
    if actual > 0 {
      PushEntry(s.journal, ClosingEntry(s, h, actual, source)[0]);
    } else {
      assert t.journal == s.journal;
    }
    forall b: nat ensures JournalTotal(t, b) == Booked(t, b) {
      ClosingTotals(s, t, h, actual, source, terminal, b);
      assert JournalTotal(s, b) == Booked(s, b);
    }
  }

  // ----- names -----

  lemma {:induction false} ClosingNames(s: Ledger, t: Ledger, h: nat, actual: int, source: string, terminal: HoldStatus)
    requires TablesOk(s) && NamesOk(s) && IsClosing(s, t, h, actual, source, terminal)
    ensures NamesOk(t)
  {
    ClosedRows(s, t, h, actual, source, terminal);
    forall g: nat | g < |s.grants| ensures t.grants[g] == s.grants[g].(remaining := t.grants[g].remaining) {
      assert ClosedGrant(s, t, h, g);
    }
    ClosingEntries(s, t, h, actual, source, terminal);
    ClosingOwners(s, t, h, actual, source, terminal);
    forall i, j | 0 <= i < j < |t.holds| && t.holds[i].status.Captured? && t.holds[j].status.Captured?
      ensures t.holds[i].terminalSource != t.holds[j].terminalSource
    {
      if i == h { assert !CapturedUnder(s.holds, source)(j); }
      if j == h { assert !CapturedUnder(s.holds, source)(i); }
    }
  }

  lemma {:induction false} ClosingEntries(s: Ledger, t: Ledger, h: nat, actual: int, source: string,
                                          terminal: HoldStatus)
    requires NamesOk(s) && IsClosing(s, t, h, actual, source, terminal)
    requires |t.grants| == |s.grants|
    requires forall g: nat :: g < |s.grants| ==> t.grants[g] == s.grants[g].(remaining := t.grants[g].remaining)
    ensures KindsUnique(t.journal) && forall i: nat :: i < |t.journal| ==> EntryOwned(t, i)
  {
    var n := |s.journal|;
    forall i: nat | i < |t.journal| ensures EntryOwned(t, i) {
      if i < n {
        assert t.journal[i] == s.journal[i] && EntryOwned(s, i);
        match s.journal[i].kind
        case Issued(kind, ref) =>
          var g: nat :| HasSource(s.grants, kind, ref)(g);
          assert HasSource(t.grants, kind, ref)(g);
        case Debit(ref) =>
          var k: nat :| CapturedUnder(s.holds, ref)(k) && s.holds[k].captured > 0;
          assert CapturedUnder(t.holds, ref)(k);
        case Expiry(_) =>
      } else {
        assert CapturedUnder(t.holds, source)(h);
      }
    }
    if actual > 0 { NoDebitYet(s, source); }
    forall i, j | 0 <= i < j < |t.journal| ensures t.journal[i].kind != t.journal[j].kind {
      if j == n { assert !HasKind(s.journal, Debit(source))(i); }
    }
  }

  lemma {:induction false} ClosingOwners(s: Ledger, t: Ledger, h: nat, actual: int, source: string,
                                         terminal: HoldStatus)
    requires NamesOk(s) && IsClosing(s, t, h, actual, source, terminal)
    requires |t.grants| == |s.grants|
    requires forall g: nat :: g < |s.grants| ==> t.grants[g] == s.grants[g].(remaining := t.grants[g].remaining)
    ensures forall g: nat :: g < |t.grants| ==> IssueRecorded(t, g)
    ensures forall k: nat :: k < |t.holds| ==> CaptureRecorded(t, k)
  {
    var n := |s.journal|;
    forall g: nat | g < |t.grants| ensures IssueRecorded(t, g) {
      var kind := Issued(s.grants[g].sourceKind, s.grants[g].sourceRef);
      assert IssueRecorded(s, g);
      var i: nat :| HasKind(s.journal, kind)(i)
                    && s.journal[i].account == s.grants[g].account && s.journal[i].amount == s.grants[g].original;
      assert HasKind(t.journal, kind)(i);
    }
    forall k: nat | k < |t.holds| ensures CaptureRecorded(t, k) {
      if k == h {
        if actual > 0 { assert HasKind(t.journal, Debit(source))(n); }
      } else {
        assert CaptureRecorded(s, k);
        var hold := s.holds[k];
        if hold.status.Captured? && hold.captured > 0 && hold.terminalSource.Some? {
          var i: nat :| HasKind(s.journal, Debit(hold.terminalSource.value))(i)
                        && s.journal[i].account == hold.account && s.journal[i].amount == -hold.captured;
          assert HasKind(t.journal, Debit(hold.terminalSource.value))(i);
        }
      }
    }
  }

  /** A source that no captured hold uses owns no debit. */
  lemma {:induction false} NoDebitYet(s: Ledger, source: string)
    requires NamesOk(s) && First(|s.holds|, CapturedUnder(s.holds, source)).None?
    ensures First(|s.journal|, HasKind(s.journal, Debit(source))).None?
  {
    forall i: nat | i < |s.journal| ensures !HasKind(s.journal, Debit(source))(i) {
      assert EntryOwned(s, i);
    }
  }

  lemma {:induction false} ClosingKeeps(s: Ledger, t: Ledger, h: nat, actual: int, source: string, terminal: HoldStatus)
    requires Inv(s) && IsClosing(s, t, h, actual, source, terminal)
    ensures Inv(t)
  {
    ClosingRows(s, t, h, actual, source, terminal);
    ClosingGrants(s, t, h, actual, source, terminal);
    ClosingHolds(s, t, h, actual, source, terminal);
    ClosingBooks(s, t, h, actual, source, terminal);
    ClosingJournal(s, t, h, actual, source, terminal);
    ClosingNames(s, t, h, actual, source, terminal);
  }
}
