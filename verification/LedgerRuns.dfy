/** Every run of ledger steps: the invariant, and what it means for accounts, holds and the
    journal. Clock readings are arbitrary; only the two readings of one grant must agree. */
module LedgerRuns {
  import opened Outcomes
  import opened Sums
  import opened Sorting
  import opened Positions
  import opened BurnOrder
  import opened LedgerModel
  import opened LedgerInvariant
  import opened LedgerRefreshProof
  import opened LedgerGrantProof
  import opened LedgerReserveProof
  import opened LedgerFinishProof

  // ----- closing a hold -----

  /** CloseHold on a sound ledger: it fails only by overflowing the available column, and
      otherwise charges the rows as a greedy prefix in burn order. */
  lemma {:induction false} CloseHoldExactly(s: Ledger, h: nat, actual: int, source: string, terminal: HoldStatus)
    requires Inv(s) && h < |s.holds| && s.holds[h].status.Open?
    requires 0 <= actual <= s.holds[h].requested && ValidSource(source)
    requires terminal.Captured? || (terminal.Released? && actual == 0)
    requires terminal.Captured? ==> First(|s.holds|, CapturedUnder(s.holds, source)).None?
    ensures s.holds[h].account < |s.accounts|
    ensures var o := CloseHold(s, h, actual, source, terminal);
            var released := s.holds[h].requested - actual;
            if s.accounts[s.holds[h].account].available + released > INT64_MAX then o == Failed(CheckViolation)
            else
              && o.Done? && IsClosing(s, o.after, h, actual, source, terminal)
              && o.value == TerminalResult(h, s.holds[h].account, actual, released, true)
              && PrefixCharged(HoldOrder(s, h), o.after.allocations)
              && Sorted(HoldOrder(s, h), ByKey(AllocationKey(s)))
  {
    HeldCovers(s, h);
    HoldOrderFacts(s, h);
    ChargeSucceeds(s, h, actual, source, terminal);
    assert 0 <= s.accounts[s.holds[h].account].available;
    if actual > 0 { NoDebitYet(s, source); }
    CloseAfterCharging(s, h, actual, source, terminal);
  }

  /** The closing succeeds, short of overflow of the available column, and charges a prefix. */
  ghost predicate ClosesAs(s: Ledger, h: nat, actual: int, source: string, terminal: HoldStatus,
                           o: Outcome<TerminalResult>)
  {
    && h < |s.holds| && s.holds[h].account < |s.accounts|
    && var released := s.holds[h].requested - actual;
       if s.accounts[s.holds[h].account].available + released > INT64_MAX then o == Failed(CheckViolation)
       else
         && o.Done? && IsClosing(s, o.after, h, actual, source, terminal)
         && o.value == TerminalResult(h, s.holds[h].account, actual, released, true)
         && PrefixCharged(HoldOrder(s, h), o.after.allocations)
  }

  /** The closing once the charging walk is known to succeed. */
  lemma {:induction false} CloseAfterCharging(s: Ledger, h: nat, actual: int, source: string, terminal: HoldStatus)
    requires h < |s.holds| && s.holds[h].status.Open? && s.holds[h].account < |s.accounts|
    requires 0 <= actual <= s.holds[h].requested && ValidSource(source)
    requires terminal.Captured? || (terminal.Released? && actual == 0)
    requires terminal.Captured? ==> First(|s.holds|, CapturedUnder(s.holds, source)).None?
    requires actual > 0 ==> First(|s.journal|, HasKind(s.journal, Debit(source))).None?
    requires 0 <= s.accounts[s.holds[h].account].available
    requires s.holds[h].requested <= s.accounts[s.holds[h].account].held <= INT64_MAX
    requires var s0 := s.(holds := s.holds[h := Terminated(s.holds[h], actual, source, terminal)]);
             var r := ChargeRows(s0, s.holds[h].account, HoldOrder(s, h), actual);
             && r.Some? && r.value.1 == 0 && Charged(s0, r.value.0, HoldOrder(s, h))
             && SumAlong(HoldOrder(s, h), CapturedAt(r.value.0.allocations)) == actual
             && PrefixCharged(HoldOrder(s, h), r.value.0.allocations)
    ensures ClosesAs(s, h, actual, source, terminal, CloseHold(s, h, actual, source, terminal))
  {
    var hold := s.holds[h];
    var s0 := s.(holds := s.holds[h := Terminated(hold, actual, source, terminal)]);
    var s1 := ChargeRows(s0, hold.account, HoldOrder(s, h), actual).value.0;
    CloseIsSettle(s, s1, h, actual, source, terminal);
    SettleAfterCharging(s, s1, h, actual, source, terminal);
  }

  /** The outcome is a settlement of the charged tables. */
  ghost predicate SettledFrom(s1: Ledger, account: Account, entries: seq<Entry>, value: TerminalResult,
                              o: Outcome<TerminalResult>)
    requires value.account < |s1.accounts|
  {
    && o.Done? && o.value == value
    && o.after == s1.(accounts := s1.accounts[value.account := account], journal := s1.journal + entries)
  }

  lemma {:induction false} SettleExactly(s: Ledger, s1: Ledger, h: nat, actual: int, source: string)
    requires h < |s.holds| && s.holds[h].account < |s.accounts|
    requires s1.accounts == s.accounts && s1.journal == s.journal
    requires 0 <= s.accounts[s.holds[h].account].available && 0 <= actual <= s.holds[h].requested
    requires s.holds[h].requested <= s.accounts[s.holds[h].account].held <= INT64_MAX
    requires actual > 0 ==> First(|s.journal|, HasKind(s.journal, Debit(source))).None?
    ensures var o := Settle(s1, h, s.holds[h], actual, source);
            var account, released := s.accounts[s.holds[h].account], s.holds[h].requested - actual;
            var row := Project(account, released, -s.holds[h].requested);
            if account.available + released > INT64_MAX then o == Failed(CheckViolation)
            else row.Ok? && SettledFrom(s1, row.value, ClosingEntry(s, h, actual, source),
                                        TerminalResult(h, s.holds[h].account, actual, released, true), o)
  {
  }

  lemma {:induction false} SettlementCloses(s: Ledger, s1: Ledger, h: nat, actual: int, source: string,
                                            terminal: HoldStatus, o: Outcome<TerminalResult>)
    requires h < |s.holds| && s.holds[h].status.Open? && s.holds[h].account < |s.accounts|
    requires 0 <= actual <= s.holds[h].requested && ValidSource(source)
    requires terminal.Captured? || (terminal.Released? && actual == 0)
    requires terminal.Captured? ==> First(|s.holds|, CapturedUnder(s.holds, source)).None?
    requires Charged(s.(holds := s.holds[h := Terminated(s.holds[h], actual, source, terminal)]), s1, HoldOrder(s, h))
    requires SumAlong(HoldOrder(s, h), CapturedAt(s1.allocations)) == actual
    requires s1.accounts == s.accounts && s1.journal == s.journal
    requires var row := Project(s.accounts[s.holds[h].account], s.holds[h].requested - actual, -s.holds[h].requested);
             var value := TerminalResult(h, s.holds[h].account, actual, s.holds[h].requested - actual, true);
             row.Ok? && SettledFrom(s1, row.value, ClosingEntry(s, h, actual, source), value, o)
    ensures IsClosing(s, o.after, h, actual, source, terminal) && o.after.allocations == s1.allocations
  {
    SettledIsClosing(s, s1, o.after, h, actual, source, terminal);
  }

  lemma {:induction false} SettleAfterCharging(s: Ledger, s1: Ledger, h: nat, actual: int, source: string,
                                               terminal: HoldStatus)
    requires h < |s.holds| && s.holds[h].status.Open? && s.holds[h].account < |s.accounts|
    requires 0 <= actual <= s.holds[h].requested && ValidSource(source)
    requires terminal.Captured? || (terminal.Released? && actual == 0)
    requires terminal.Captured? ==> First(|s.holds|, CapturedUnder(s.holds, source)).None?
    requires actual > 0 ==> First(|s.journal|, HasKind(s.journal, Debit(source))).None?
    requires 0 <= s.accounts[s.holds[h].account].available
    requires s.holds[h].requested <= s.accounts[s.holds[h].account].held <= INT64_MAX
    requires Charged(s.(holds := s.holds[h := Terminated(s.holds[h], actual, source, terminal)]), s1, HoldOrder(s, h))
    requires SumAlong(HoldOrder(s, h), CapturedAt(s1.allocations)) == actual
    requires PrefixCharged(HoldOrder(s, h), s1.allocations)
    ensures s1.accounts == s.accounts
    ensures ClosesAs(s, h, actual, source, terminal, Settle(s1, h, s.holds[h], actual, source))
  {
    var hold := s.holds[h];
    var o := Settle(s1, h, hold, actual, source);
    ChargedTables(s, s1, h, actual, source, terminal);
    SettleExactly(s, s1, h, actual, source);
    if s.accounts[hold.account].available + (hold.requested - actual) <= INT64_MAX {
      SettlementCloses(s, s1, h, actual, source, terminal, o);
    }
  }

  lemma {:induction false} ChargedTables(s: Ledger, s1: Ledger, h: nat, actual: int, source: string, terminal: HoldStatus)
    requires h < |s.holds|
    requires Charged(s.(holds := s.holds[h := Terminated(s.holds[h], actual, source, terminal)]), s1, HoldOrder(s, h))
    ensures s1.accounts == s.accounts && s1.journal == s.journal
  {
  }

  lemma {:induction false} CloseIsSettle(s: Ledger, s1: Ledger, h: nat, actual: int, source: string,
                                         terminal: HoldStatus)
    requires h < |s.holds| && s.holds[h].account < |s.accounts| == |s1.accounts|
    requires var s0 := s.(holds := s.holds[h := Terminated(s.holds[h], actual, source, terminal)]);
             ChargeRows(s0, s.holds[h].account, HoldOrder(s, h), actual) == Some((s1, 0))
    ensures CloseHold(s, h, actual, source, terminal) == Settle(s1, h, s.holds[h], actual, source)
  {
  }

  lemma {:induction false} SettledIsClosing(s: Ledger, s1: Ledger, t: Ledger, h: nat, actual: int, source: string,
                                            terminal: HoldStatus)
    requires h < |s.holds| && s.holds[h].status.Open? && s.holds[h].account < |s.accounts|
    requires 0 <= actual <= s.holds[h].requested && ValidSource(source)
    requires terminal.Captured? || (terminal.Released? && actual == 0)
    requires terminal.Captured? ==> First(|s.holds|, CapturedUnder(s.holds, source)).None?
    requires Charged(s.(holds := s.holds[h := Terminated(s.holds[h], actual, source, terminal)]), s1, HoldOrder(s, h))
    requires SumAlong(HoldOrder(s, h), CapturedAt(s1.allocations)) == actual
    requires var hold := s.holds[h];
             var row := Project(s.accounts[hold.account], hold.requested - actual, -hold.requested);
             row.Ok? && t == s1.(accounts := s.accounts[hold.account := row.value],
                                 journal := s.journal + ClosingEntry(s, h, actual, source))
    ensures IsClosing(s, t, h, actual, source, terminal)
  {
    assert t.(accounts := s.accounts, journal := s.journal) == s1;
  }

  /** The charging walk of an open hold always ends with nothing left to charge. */
  lemma {:induction false} ChargeSucceeds(s: Ledger, h: nat, actual: int, source: string, terminal: HoldStatus)
    requires TablesOk(s) && h < |s.holds| && s.holds[h].status.Open? && 0 <= actual <= s.holds[h].requested
    ensures var s0 := s.(holds := s.holds[h := Terminated(s.holds[h], actual, source, terminal)]);
            var r := ChargeRows(s0, s.holds[h].account, HoldOrder(s, h), actual);
            && r.Some? && r.value.1 == 0 && Charged(s0, r.value.0, HoldOrder(s, h))
            && SumAlong(HoldOrder(s, h), CapturedAt(r.value.0.allocations)) == actual
            && PrefixCharged(HoldOrder(s, h), r.value.0.allocations)
  {
    var a, order := s.holds[h].account, HoldOrder(s, h);
    var s0 := s.(holds := s.holds[h := Terminated(s.holds[h], actual, source, terminal)]);
    OpenHoldChargeable(s, h);
    HoldOrderCovers(s, h);
    assert Chargeable(s0, a, order);
    ChargeRowsChange(s0, a, order, actual);
    ChargeRowsAmounts(s0, a, order, actual);
  }

  /** The account always still covers an open hold. */
  lemma {:induction false} HeldCovers(s: Ledger, h: nat)
    requires Inv(s) && h < |s.holds| && s.holds[h].status.Open?
    ensures s.holds[h].account < |s.accounts|
    ensures s.holds[h].requested <= s.accounts[s.holds[h].account].held <= INT64_MAX
  {
    assert HoldOk(s, h);
    var a := s.holds[h].account;
    assert Balanced(s, a, 0, 0);
    forall k: nat | k < |s.holds| ensures 0 <= OpenOf(s.holds, a)(k) { assert HoldOk(s, k); }
    TermAtMostSum(|s.holds|, OpenOf(s.holds, a), h);
  }

  // ----- no corruption branch -----

  /** Every integrity check of #assertTerminalAllocations passes on a sound ledger. */
  lemma {:induction false} IntegrityChecksPass(s: Ledger, h: nat)
    requires TablesOk(s) && h < |s.holds|
    ensures AllocationsOk(s, h)
  {
    var n, rows := |s.allocations|, Where(|s.allocations|, OfHold(s.allocations, h));
    assert HoldOk(s, h);
    HoldTotal(s.allocations, h, rows, HeldIn(s.allocations, h), HeldIn(s.allocations, h));
    HoldTotal(s.allocations, h, rows, CapturedIn(s.allocations, h), CapturedIn(s.allocations, h));
    HoldTotal(s.allocations, h, rows, ReleasedIn(s.allocations, h), ReleasedIn(s.allocations, h));
    forall i | 0 <= i < |rows| ensures AllocationOk(s, s.holds[h], s.allocations[rows[i]]) {
      var j := rows[i];
      assert RowOk(s, j);
      assert GrantOk(s, s.allocations[j].grant);
      if s.holds[h].status.Open? { ReservedCoversRow(s, j); }
    }
  }

  /** A capture of a positive amount owns exactly one debit of its source in the whole tenant. */
  lemma {:induction false} CaptureOwnsOneDebit(s: Ledger, h: nat)
    requires Inv(s) && h < |s.holds| && s.holds[h].status.Captured? && s.holds[h].captured > 0
    ensures s.holds[h].terminalSource.Some? && OneDebit(s, s.holds[h], s.holds[h].terminalSource.value)
  {
    assert HoldOk(s, h) && CaptureRecorded(s, h);
    var hold := s.holds[h];
    var p := HasKind(s.journal, Debit(hold.terminalSource.value));
    var i: nat :| p(i) && s.journal[i].account == hold.account && s.journal[i].amount == -hold.captured;
    WhereOnly(|s.journal|, p, i);
  }

  /** Hold g was captured under this source. */
  predicate TakenBy(holds: seq<Hold>, g: nat, source: string) {
    g < |holds| && holds[g].status == Captured && holds[g].terminalSource == Some(source)
  }

  lemma {:induction false} CapturedExactly(holds: seq<Hold>, source: string)
    ensures First(|holds|, CapturedUnder(holds, source)).Some? <==> exists g: nat :: TakenBy(holds, g, source)
  {
    var found := First(|holds|, CapturedUnder(holds, source));
    if found.Some? { assert TakenBy(holds, found.value, source); }
    forall g: nat | TakenBy(holds, g, source) ensures found.Some? { assert CapturedUnder(holds, source)(g); }
  }

  /** Capture and release on a sound ledger, in full: which inputs are refused and why, that no
      corruption branch is reachable, and what an accepted call does. */
  lemma {:induction false} FinishExactly(s: Ledger, h: nat, actual: int, source: string, terminal: HoldStatus)
    requires Inv(s) && (terminal.Captured? || (terminal.Released? && actual == 0))
    ensures var o := FinishStep(s, h, actual, source, terminal);
            if actual < 0 then o == Failed(InvalidAmount)
            else if !(1 <= |source| <= 255 && '\0' !in source) then o == Failed(InvalidSource)
            else if h >= |s.holds| then o == Failed(HoldNotActive)
            else
              var hold := s.holds[h];
              if !hold.status.Open? then
                if hold.status == terminal && hold.terminalSource == Some(source) && hold.captured == actual
                then o == Done(s, TerminalResult(h, hold.account, hold.captured, hold.released, false))
                     && hold.captured + hold.released == hold.requested
                else o == Failed(IdempotencyConflict)
              else if actual > hold.requested then o == Failed(Insufficient)
              else if terminal.Captured? && exists g: nat :: TakenBy(s.holds, g, source)
              then o == Failed(IdempotencyConflict)
              else if hold.account < |s.accounts|
                      && s.accounts[hold.account].available + (hold.requested - actual) >= 0x8000_0000_0000_0000
              then o == Failed(CheckViolation)
              else o.Done? && IsClosing(s, o.after, h, actual, source, terminal) && Inv(o.after)
                   && o.value == TerminalResult(h, hold.account, actual, hold.requested - actual, true)
  {
    CapturedExactly(s.holds, source);
    if 0 <= actual && ValidSource(source) && h < |s.holds| {
      var hold := s.holds[h];
      assert HoldOk(s, h);
      IntegrityChecksPass(s, h);
      assert 0 <= s.accounts[hold.account].available && 0 <= s.accounts[hold.account].held;
      if !hold.status.Open? {
        if hold.status.Captured? && hold.captured > 0 { CaptureOwnsOneDebit(s, h); }
      } else {
        HeldCovers(s, h);
        if actual <= hold.requested && (terminal.Captured? ==> First(|s.holds|, CapturedUnder(s.holds, source)).None?) {
          CloseHoldExactly(s, h, actual, source, terminal);
          var o := CloseHold(s, h, actual, source, terminal);
          if o.Done? { ClosingKeeps(s, o.after, h, actual, source, terminal); }
        }
      }
    }
  }

  // ----- runs -----

  datatype Step =
    | Grant(grant: GrantInput, clocks: GrantClocks, uuid: nat)
    | Reserve(reserve: ReserveInput, refreshClock: int, selectClock: int)
    | Capture(capture: nat, actual: int, source: string)
    | Release(release: nat, releaseSource: string)
    | Refresh(account: nat, now: int)

  function AfterOf<T>(s: Ledger, o: Outcome<T>): Ledger {
    match o
    case Done(t, _) => t
    case Failed(_) => s
  }

  function Apply(s: Ledger, step: Step): Ledger {
    match step
    case Grant(input, clocks, uuid) => AfterOf(s, GrantStep(s, input, clocks, uuid))
    case Reserve(input, c1, c2) => AfterOf(s, ReserveStep(s, input, c1, c2))
    case Capture(h, actual, source) => AfterOf(s, FinishStep(s, h, actual, source, Captured))
    case Release(h, source) => AfterOf(s, FinishStep(s, h, 0, source, Released))
    case Refresh(a, now) => AfterOf(s, RefreshStep(s, a, now))
  }

  predicate Orderly(step: Step) {
    step.Grant? ==> ClocksAgree(step.grant, step.clocks)
  }

  function Run(s: Ledger, steps: seq<Step>): Ledger {
    if steps == [] then s else Apply(Run(s, steps[..|steps| - 1]), steps[|steps| - 1])
  }

  /** Refreshing an account that does not exist touches nothing. */
  lemma {:induction false} RefreshNobody(s: Ledger, a: nat, now: int)
    requires TablesOk(s) && a >= |s.accounts|
    ensures RefreshStep(s, a, now) == Done(s, ())
  {
    forall g: nat | g < |s.grants| ensures !OfAccount(s.grants, a)(g) { assert GrantOk(s, g); }
    WhereNone(|s.grants|, OfAccount(s.grants, a));
  }

  lemma {:induction false} StepKeeps(s: Ledger, step: Step)
    requires Inv(s) && Orderly(step)
    ensures Inv(Apply(s, step))
  {
    match step
    case Grant(input, clocks, uuid) =>
      if GrantStep(s, input, clocks, uuid).Done? { GrantKeeps(s, input, clocks, uuid); }
    case Reserve(input, c1, c2) =>
      if ReserveStep(s, input, c1, c2).Done? { ReserveKeeps(s, input, c1, c2); }
    case Capture(h, actual, source) => FinishExactly(s, h, actual, source, Captured);
    case Release(h, source) => FinishExactly(s, h, 0, source, Released);
    case Refresh(a, now) =>
      if a < |s.accounts| { RefreshKeeps(s, a, now); } else { RefreshNobody(s, a, now); }
  }

  lemma {:induction false} EveryRunKeeps(s: Ledger, steps: seq<Step>)
    requires Inv(s)
    requires forall i :: 0 <= i < |steps| ==> Orderly(steps[i])
    ensures Inv(Run(s, steps))
  {
    if steps != [] {
      EveryRunKeeps(s, steps[..|steps| - 1]);
      StepKeeps(Run(s, steps[..|steps| - 1]), steps[|steps| - 1]);
    }
  }

  /** The books of any account after any run: the spendable and held balances are the remaining
      credit of the non-pending grants, no amount is negative, and the journal explains them. */
  lemma {:induction false} BooksAfterAnyRun(steps: seq<Step>, a: nat)
    requires forall i :: 0 <= i < |steps| ==> Orderly(steps[i])
    ensures var s := Run(EMPTY, steps);
            && (forall g: nat :: g < |s.grants| ==>
                  0 <= Reserved(s.holds, s.allocations, g) <= s.grants[g].remaining <= s.grants[g].original)
            && (a < |s.accounts| ==>
                  var account := s.accounts[a];
                  && 0 <= account.available && 0 <= account.held
                  && account.available + account.held == Remaining(s, a)
                  && account.held == OpenTotal(s, a)
                  && JournalTotal(s, a) == account.available + account.held + PendingTotal(s, a) + LapsedTotal(s, a))
  {
    EmptyInv();
    EveryRunKeeps(EMPTY, steps);
    var s := Run(EMPTY, steps);
    forall g: nat | g < |s.grants|
      ensures 0 <= Reserved(s.holds, s.allocations, g) <= s.grants[g].remaining <= s.grants[g].original
    {
      assert GrantOk(s, g);
    }
    if a < |s.accounts| {
      assert Balanced(s, a, 0, 0);
      assert JournalTotal(s, a) == Booked(s, a);
    }
  }

  /** The running balance of account a after entry i. */
  ghost predicate NotOverdrawn(journal: seq<Entry>, i: nat, a: nat)
    requires i < |journal|
  {
    0 <= SumSeq(journal[..i + 1], AmountOf(a))
  }

  /** The journal after any run: entries of an account are numbered 1..n, no two rows share a
      kind and source, and no running balance was ever negative. */
  lemma {:induction false} JournalAfterAnyRun(steps: seq<Step>)
    requires forall i :: 0 <= i < |steps| ==> Orderly(steps[i])
    ensures var journal := Run(EMPTY, steps).journal;
            && KindsUnique(journal)
            && (forall i :: 0 <= i < |journal| ==>
                  journal[i].sequence == 1 + SumSeq(journal[..i], CountOf(journal[i].account)))
            && (forall i: nat, a: nat :: i < |journal| ==> NotOverdrawn(journal, i, a))
  {
    EmptyInv();
    EveryRunKeeps(EMPTY, steps);
    var journal := Run(EMPTY, steps).journal;
    forall i | 0 <= i < |journal|
      ensures journal[i].sequence == 1 + SumSeq(journal[..i], CountOf(journal[i].account))
    {
      JournalAt(journal, i, 0);
    }
    forall i: nat, a: nat | i < |journal| ensures NotOverdrawn(journal, i, a) { JournalAt(journal, i, a); }
  }

  // ----- terminal holds never change -----

  /** Tables only grow, the journal is append-only, and a finished hold stays as it is. */
  ghost predicate Grows(s: Ledger, t: Ledger) {
    && |s.accounts| <= |t.accounts| && |s.grants| <= |t.grants| && |s.holds| <= |t.holds|
    && s.journal <= t.journal
    && (forall h :: 0 <= h < |s.holds| && !s.holds[h].status.Open? ==> t.holds[h] == s.holds[h])
  }

  lemma {:induction false} RefreshRowsGrow(s: Ledger, a: nat, order: seq<nat>, now: int)
    ensures var t := RefreshRows(s, a, order, now).0;
            t.accounts == s.accounts && t.holds == s.holds && |t.grants| == |s.grants| && s.journal <= t.journal
    decreases |order|
  {
    if order != [] {
      RefreshRowFrame(s, a, order[0], now);
      RefreshRowsGrow(RefreshRow(s, a, order[0], now).0, a, order[1..], now);
    }
  }

  lemma {:induction false} ChargeRowsGrow(s: Ledger, a: nat, order: seq<nat>, left: int)
    ensures var r := ChargeRows(s, a, order, left);
            r.Some? ==> r.value.0.holds == s.holds && r.value.0.journal == s.journal
                        && r.value.0.accounts == s.accounts && |r.value.0.grants| == |s.grants|
    decreases |order|
  {
    if order != [] {
      match ChargeRow(s, a, order[0], left)
      case None =>
      case Some((s1, left1)) => ChargeRowsGrow(s1, a, order[1..], left1);
    }
  }

  lemma {:induction false} StepGrows(s: Ledger, step: Step)
    ensures Grows(s, Apply(s, step))
  {
    match step
    case Grant(input, clocks, uuid) => GrantGrows(s, input, clocks, uuid);
    case Reserve(input, c1, c2) => ReserveGrows(s, input, c1, c2);
    case Capture(h, actual, source) => FinishGrows(s, h, actual, source, Captured);
    case Release(h, source) => FinishGrows(s, h, 0, source, Released);
    case Refresh(a, now) => RefreshGrows(s, a, now);
  }

  lemma {:induction false} GrantGrows(s: Ledger, input: GrantInput, clocks: GrantClocks, uuid: nat)
    ensures Grows(s, AfterOf(s, GrantStep(s, input, clocks, uuid)))
  {
  }

  lemma {:induction false} PlaceGrows(s: Ledger, input: ReserveInput, now: int)
    ensures Grows(s, AfterOf(s, PlaceHold(s, input, now)))
  {
  }

  lemma {:induction false} ReserveGrows(s: Ledger, input: ReserveInput, refreshClock: int, selectClock: int)
    ensures Grows(s, AfterOf(s, ReserveStep(s, input, refreshClock, selectClock)))
  {
    RefreshGrows(s, input.account, refreshClock);
    var s1 := AfterOf(s, RefreshStep(s, input.account, refreshClock));
    PlaceGrows(s1, input, selectClock);
    assert Grows(s, AfterOf(s1, PlaceHold(s1, input, selectClock)));
  }

  lemma {:induction false} RefreshGrows(s: Ledger, a: nat, now: int)
    ensures Grows(s, AfterOf(s, RefreshStep(s, a, now)))
  {
    RefreshRowsGrow(s, a, RefreshOrder(s, a), now);
  }

  lemma {:induction false} FinishGrows(s: Ledger, h: nat, actual: int, source: string, terminal: HoldStatus)
    ensures Grows(s, AfterOf(s, FinishStep(s, h, actual, source, terminal)))
  {
    if h < |s.holds| {
      var s0 := s.(holds := s.holds[h := Terminated(s.holds[h], actual, source, terminal)]);
      ChargeRowsGrow(s0, s.holds[h].account, HoldOrder(s, h), actual);
    }
  }

  /** Terminal holds absorb: after any further run a finished hold is the same row, and
      repeating the finishing call returns the same amounts and changes nothing. */
  lemma {:induction false} TerminalHoldsAbsorb(s: Ledger, steps: seq<Step>, h: nat)
    requires Inv(s) && h < |s.holds|
    requires s.holds[h].status.Captured? || s.holds[h].status.Released?
    requires forall i :: 0 <= i < |steps| ==> Orderly(steps[i])
    ensures var t := Run(s, steps);
            var hold := s.holds[h];
            && h < |t.holds| && t.holds[h] == hold
            && hold.captured + hold.released == hold.requested
            && hold.terminalSource.Some?
            && FinishStep(t, h, hold.captured, hold.terminalSource.value, hold.status)
               == Done(t, TerminalResult(h, hold.account, hold.captured, hold.released, false))
    decreases |steps|
  {
    var t := Run(s, steps);
    EveryRunKeeps(s, steps);
    assert HoldOk(s, h);
    if steps != [] {
      TerminalHoldsAbsorb(s, steps[..|steps| - 1], h);
      StepGrows(Run(s, steps[..|steps| - 1]), steps[|steps| - 1]);
    }
    FinishExactly(t, h, s.holds[h].captured, s.holds[h].terminalSource.value, s.holds[h].status);
  }

  // ----- when reserving succeeds -----

  /** A new hold is placed if and only if, after the refresh, the eligible grants cover the
      request (and the projections stay within BIGINT). */
  lemma {:induction false} ReserveSucceedsExactly(s: Ledger, input: ReserveInput, refreshClock: int, selectClock: int)
    requires Inv(s) && 0 < input.requested && input.account < |s.accounts|
    requires First(|s.holds|, HasKey(s.holds, input.key)).None?
    ensures ReserveStep(s, input, refreshClock, selectClock).Done? <==>
              var r := RefreshStep(s, input.account, refreshClock);
              && r.Done?
              && input.requested <= EligibleCredit(r.after, input.account, selectClock)
              && (input.account < |r.after.accounts| ==>
                    r.after.accounts[input.account].held + input.requested <= INT64_MAX)
  {
    var r := RefreshStep(s, input.account, refreshClock);
    if r.Done? {
      RefreshKeeps(s, input.account, refreshClock);
      PlaceHoldExactly(r.after, input, selectClock);
    }
  }

  // ----- credit that no reserve can spend -----

  function StrandingGrant(): GrantInput {
    GrantInput("alice", 100, "promo", "p1", "trial", 0, Some(10), 0)
  }

  /** A grant of 100 expiring at 10, reserved in full at 2, refreshed at 11, then released. */
  function StrandingRun(): seq<Step> {
    [Step.Grant(StrandingGrant(), GrantClocks(1, 1, 1), 1),
     Reserve(ReserveInput(0, "k1", 100, None, 20), 2, 2), Refresh(0, 11), Release(0, "job")]
  }

  /** The ledger of that run once the hold is placed. */
  function StrandingLedger(grant: Grant): Ledger {
    Ledger([Account("alice", 0, 100, 3)], [grant],
           [NewHold(ReserveInput(0, "k1", 100, None, 20))], NewAllocations(0, [Piece(0, 100)]),
           [Entry(0, 1, Issued("promo", "p1"), 100)])
  }

  lemma {:induction false} OneGrant(p: nat -> bool, key: nat -> BurnKey)
    ensures SortBy(Where(1, p), key) == if p(0) then [0] else []
  {
    assert Where(0, p) == [];
    var one: seq<nat> := [0];
    assert Where(1, p) == if p(0) then one else [];
    assert SortBy([], key) == [];
    assert one[1..] == [];
    assert SortBy(one, key) == Insert(one[0], SortBy(one[1..], key), ByKey(key)) == one;
  }

  lemma {:induction false} StrandingGranted(s: Ledger)
    requires s == Apply(EMPTY, StrandingRun()[0])
    ensures s == Ledger([Account("alice", 100, 0, 2)], [NewGrant(0, 1, StrandingGrant(), GrantClocks(1, 1, 1))], [], [],
                        [Entry(0, 1, Issued("promo", "p1"), 100)])
  {
    assert First(0, HasSubject([], "alice")).None?;
  }

  lemma {:induction false} StrandingRefreshIsIdle(t: Ledger)
    requires t == Apply(EMPTY, StrandingRun()[0])
    ensures RefreshStep(t, 0, 2) == Done(t, ())
  {
    StrandingGranted(t);
    OneGrant(OfAccount(t.grants, 0), IdOf(t.grants));
    assert RefreshOrder(t, 0) == [0];
    assert RefreshRows(t, 0, [0], 2) == (t, 0) by { assert RefreshRows(t, 0, [0][1..], 2) == (t, 0); }
  }

  lemma {:induction false} StrandingPlaced(t: Ledger)
    requires t == Apply(EMPTY, StrandingRun()[0])
    ensures Burn(EligibleOrder(t, 0, 2), AllocatableIn(t), 100) == ([Piece(0, 100)], 0)
  {
    StrandingGranted(t);
    OneGrant(Eligible(t.grants, 0, 2), BurnKeyOf(t.grants));
    assert EligibleOrder(t, 0, 2) == [0];
    assert Reserved(t.holds, t.allocations, 0) == 0;
  }

  lemma {:induction false} StrandingReserved(s: Ledger)
    requires s == Apply(Apply(EMPTY, StrandingRun()[0]), StrandingRun()[1])
    ensures s == StrandingLedger(NewGrant(0, 1, StrandingGrant(), GrantClocks(1, 1, 1)))
  {
    var t := Apply(EMPTY, StrandingRun()[0]);
    StrandingGranted(t);
    StrandingRefreshIsIdle(t);
    StrandingPlaced(t);
  }

  lemma {:induction false} StrandingRefreshed(s: Ledger)
    requires s == Apply(StrandingLedger(NewGrant(0, 1, StrandingGrant(), GrantClocks(1, 1, 1))), Refresh(0, 11))
    ensures s == StrandingLedger(NewGrant(0, 1, StrandingGrant(), GrantClocks(1, 1, 1)).(status := Expired))
  {
    var t := StrandingLedger(NewGrant(0, 1, StrandingGrant(), GrantClocks(1, 1, 1)));
    OneGrant(OfAccount(t.grants, 0), IdOf(t.grants));
    var kept := KeptOf(t.holds, t.allocations, 0);
    assert Sum(1, kept) == Sum(0, kept) + kept(0) == 100;
    var (u, d) := RefreshRow(t, 0, 0, 11);
    assert d == 0 && u == s;
    assert RefreshRows(u, 0, [0][1..], 11) == (u, 0);
    assert RefreshRows(t, 0, [0], 11) == (u, 0);
  }

  /** Closing the one hold of the run leaves its one grant expired. */
  lemma {:induction false} StrandingClosed(s: Ledger, t: Ledger)
    requires s == StrandingLedger(NewGrant(0, 1, StrandingGrant(), GrantClocks(1, 1, 1)).(status := Expired))
    requires IsClosing(s, t, 0, 0, "job", Released)
    ensures |t.accounts| == 1 && t.accounts[0].available == 100
    ensures |t.grants| == 1 && t.grants[0].status.Expired?
  {
    assert TakenExactly(s.(holds := t.holds), t.(accounts := s.accounts, journal := s.journal), HoldOrder(s, 0), 0);
  }

  lemma {:induction false} NothingEligible(t: Ledger, a: nat, now: int)
    requires forall g: nat :: g < |t.grants| ==> t.grants[g].status.Expired?
    ensures EligibleCredit(t, a, now) == 0
  {
    WhereNone(|t.grants|, Eligible(t.grants, a, now));
  }

  lemma {:induction false} StrandingEnds(s: Ledger, t: Ledger, now: int)
    requires s == StrandingLedger(NewGrant(0, 1, StrandingGrant(), GrantClocks(1, 1, 1)).(status := Expired))
    requires IsClosing(s, t, 0, 0, "job", Released)
    ensures |t.accounts| == 1 && t.accounts[0].available == 100 && EligibleCredit(t, 0, now) == 0
  {
    StrandingClosed(s, t);
    NothingEligible(t, 0, now);
  }

  lemma {:induction false} ReleaseCloses(s: Ledger, o: Outcome<TerminalResult>, h: nat, source: string)
    requires Inv(s) && h < |s.holds| && s.holds[h].status.Open? && s.holds[h].account < |s.accounts|
    requires s.accounts[s.holds[h].account].available + s.holds[h].requested <= INT64_MAX && ValidSource(source)
    requires o == FinishStep(s, h, 0, source, Released)
    ensures o.Done? && IsClosing(s, o.after, h, 0, source, Released)
  {
    FinishExactly(s, h, 0, source, Released);
  }

  lemma {:induction false} StrandingReleased(s: Ledger, o: Outcome<TerminalResult>, now: int)
    requires Inv(s) && s == StrandingLedger(NewGrant(0, 1, StrandingGrant(), GrantClocks(1, 1, 1)).(status := Expired))
    requires o == FinishStep(s, 0, 0, "job", Released)
    ensures o.Done? && |o.after.accounts| == 1 && o.after.accounts[0].available == 100
    ensures EligibleCredit(o.after, 0, now) == 0
  {
    ReleaseCloses(s, o, 0, "job");
    StrandingEnds(s, o.after, now);
  }

  lemma {:induction false} StrandingLast(s: Ledger, t: Ledger, now: int)
    requires Inv(s) && s == StrandingLedger(NewGrant(0, 1, StrandingGrant(), GrantClocks(1, 1, 1)).(status := Expired))
    requires t == Apply(s, Release(0, "job"))
    ensures |t.accounts| == 1 && t.accounts[0].available == 100 && EligibleCredit(t, 0, now) == 0
  {
    StrandingReleased(s, FinishStep(s, 0, 0, "job", Released), now);
  }

  /** The available balance is not always spendable: after that run it is 100, and no reserve at
      any later or earlier instant can take a unit of it. */
  lemma {:induction false} ReleasedAfterExpiryIsStranded(now: int)
    ensures var s := Run(EMPTY, StrandingRun());
            |s.accounts| == 1 && s.accounts[0].available == 100 && EligibleCredit(s, 0, now) == 0
  {
    var s1 := Apply(EMPTY, StrandingRun()[0]);
    var s2 := Apply(s1, StrandingRun()[1]);
    var s3 := Apply(s2, StrandingRun()[2]);
    EmptyInv();
    StepKeeps(EMPTY, StrandingRun()[0]);
    StepKeeps(s1, StrandingRun()[1]);
    StepKeeps(s2, StrandingRun()[2]);
    StrandingReserved(s2);
    StrandingRefreshed(s3);
    StrandingLast(s3, Apply(s3, StrandingRun()[3]), now);
    RunOfFour(EMPTY, StrandingRun());
  }

  lemma {:induction false} RunOfFour(s: Ledger, steps: seq<Step>)
    requires |steps| == 4
    ensures Run(s, steps) == Apply(Apply(Apply(Apply(s, steps[0]), steps[1]), steps[2]), steps[3])
  {
    assert steps[..3][..2] == steps[..2] && steps[..2][..1] == steps[..1] && steps[..1][..0] == [];
    assert Run(s, steps[..1]) == Apply(Run(s, []), steps[0]);
    assert Run(s, steps[..2]) == Apply(Run(s, steps[..1]), steps[1]);
    assert Run(s, steps[..3]) == Apply(Run(s, steps[..2]), steps[2]);
  }
}
