/** The credit repository as it runs: five tables updated row by row. Every method is proved
    to perform one step of the ledger; a call that fails midway rolls the tables back. */
module CreditRepository {
  import opened Outcomes
  import opened Sums
  import opened Positions
  import opened LedgerModel
  import opened LedgerRefreshProof
  import opened LedgerFinishProof
  import opened LedgerPaging

  /** The call took the step the ledger defines: same rows, same answer, and on failure no change. */
  ghost predicate Performs<T>(before: Ledger, after: Ledger, step: Outcome<T>, answer: Result<T, CreditError>) {
    match step
    case Done(t, value) => after == t && answer == Ok(value)
    case Failed(error) => after == before && answer == Err(error)
  }

  class CreditRepository {
    var accounts: seq<Account>
    var grants: seq<Grant>
    var holds: seq<Hold>
    var allocations: seq<Allocation>
    var journal: seq<Entry>

    function Rows(): Ledger
      reads this
    {
      Ledger(accounts, grants, holds, allocations, journal)
    }

    constructor ()
      ensures Rows() == EMPTY
    {
      accounts, grants, holds, allocations, journal := [], [], [], [], [];
    }

    /** Roll the transaction back. */
    method Restore(s: Ledger)
      modifies this
      ensures Rows() == s
    {
      accounts, grants, holds, allocations, journal := s.accounts, s.grants, s.holds, s.allocations, s.journal;
    }

    method NextJournalSequence(account: nat) returns (sequence: nat)
      ensures sequence == MaxSequence(journal, account) + 1
    {
      var maximum := 0;
      for i := 0 to |journal|
        invariant maximum == MaxSequence(journal[..i], account)
      {
        assert journal[..i + 1][..i] == journal[..i];
        if journal[i].account == account && maximum < journal[i].sequence {
          maximum := journal[i].sequence;
        }
      }
      assert journal[..|journal|] == journal;
      sequence := maximum + 1;
    }

    method Append(account: nat, kind: EntryKind, amount: int)
      modifies this`journal
      ensures journal == old(journal) + [Entry(account, MaxSequence(old(journal), account) + 1, kind, amount)]
    {
      var sequence := NextJournalSequence(account);
      journal := journal + [Entry(account, sequence, kind, amount)];
    }

    // ----- grant windows -----

    /** One row of the refresh loop. */
    method RefreshGrant(account: nat, g: nat, now: int) returns (delta: int)
      requires g < |grants|
      modifies this`grants, this`journal
      ensures (Rows(), delta) == RefreshRow(old(Rows()), account, g, now)
    {
      var grant := grants[g];
      delta := 0;
      if grant.status.Pending? && WindowOpen(grant, now) {
        grants := grants[g := grant.(status := Active)];
        delta := grant.remaining;
      } else if !grant.status.Expired? && WindowOver(grant, now) {
        var reserved := Reserved(holds, allocations, g);
        var expiredAvailable := if grant.status.Active? then grant.remaining - reserved else 0;
        delta := -expiredAvailable;
        grants := grants[g := grant.(status := Expired, remaining := reserved, lapsed := grant.status.Pending?)];
        if expiredAvailable > 0 {
          Append(account, Expiry(g), -expiredAvailable);
        }
      }
    }

    /** The UPDATE of one account row. */
    method ProjectAccount(account: nat, available: int, held: int) returns (failure: Option<CreditError>)
      requires account < |accounts|
      modifies this`accounts
      ensures match Project(old(accounts)[account], available, held)
              case Ok(row) => failure.None? && accounts == old(accounts)[account := row]
              case Err(e) => failure == Some(e) && accounts == old(accounts)
    {
      match Project(accounts[account], available, held)
      case Ok(row) =>
        accounts := accounts[account := row];
        failure := None;
      case Err(e) =>
        failure := Some(e);
    }

    /** The loop over the grants of the account, in id order. */
    method RefreshAll(account: nat, now: int) returns (availableDelta: int)
      modifies this
      ensures (Rows(), availableDelta) == RefreshRows(old(Rows()), account, RefreshOrder(old(Rows()), account), now)
    {
      var start := Rows();
      var order := RefreshOrder(start, account);
      ghost var whole := RefreshRows(start, account, order, now);
      assert InAccount(start.grants, account, order[0..]) by {
        RefreshOrderInAccount(start, account);
        assert order[0..] == order;
      }
      assert order[0..] == order;
      availableDelta := 0;
      var k := 0;
      while k < |order|
        invariant 0 <= k <= |order|
        invariant InAccount(grants, account, order[k..])
        invariant RefreshRows(Rows(), account, order[k..], now) == (whole.0, whole.1 - availableDelta)
      {
        WalkFrom(Rows(), account, order, k, now);
        var delta := RefreshGrant(account, order[k], now);
        availableDelta := availableDelta + delta;
        k := k + 1;
      }
    }

    method RefreshGrantWindows(account: nat, now: int) returns (answer: Result<(), CreditError>)
      modifies this
      ensures Performs(old(Rows()), Rows(), RefreshStep(old(Rows()), account, now), answer)
    {
      var start := Rows();
      var availableDelta := RefreshAll(account, now);
      if availableDelta != 0 {
        if account >= |accounts| {
          Restore(start);
          return Err(AccountNotFound);
        }
        var failure := ProjectAccount(account, availableDelta, 0);
        if failure.Some? {
          Restore(start);
          return Err(failure.value);
        }
      }
      answer := Ok(());
    }

    // ----- grant -----

    method FindOrOpenAccount(subject: string) returns (account: nat)
      modifies this`accounts
      ensures (Rows(), account) == OpenedFor(old(Rows()), subject)
    {
      match First(|accounts|, HasSubject(accounts, subject))
      case Some(a) =>
        account := a;
      case None =>
        account := |accounts|;
        accounts := accounts + [Account(subject, 0, 0, 1)];
    }

    method Grant(input: GrantInput, clocks: GrantClocks, uuid: nat) returns (answer: Result<GrantResult, CreditError>)
      modifies this
      ensures Performs(old(Rows()), Rows(), GrantStep(old(Rows()), input, clocks, uuid), answer)
    {
      if input.amount <= 0 { return Err(InvalidAmount); }
      var start := Rows();
      var account := FindOrOpenAccount(input.subject);
      var prior := First(|grants|, HasSource(grants, input.sourceKind, input.sourceRef));
      if prior.Some? {
        if !SamePayload(grants[prior.value], account, input) {
          Restore(start);
          return Err(IdempotencyConflict);
        }
        var entry := First(|journal|, HasKind(journal, Issued(input.sourceKind, input.sourceRef)));
        if entry.None? {
          Restore(start);
          return Err(JournalMissing);
        }
        return Ok(GrantResult(account, prior.value, entry.value));
      }
      answer := Issue(start, account, input, clocks, uuid);
    }

    /** The writes of a new grant: its row, the account projection, its journal row. */
    method Issue(start: Ledger, account: nat, input: GrantInput, clocks: GrantClocks, uuid: nat)
      returns (answer: Result<GrantResult, CreditError>)
      modifies this
      ensures match IssueGrant(old(Rows()), account, input, clocks, uuid)
              case Done(t, value) => Rows() == t && answer == Ok(value)
              case Failed(error) => Rows() == start && answer == Err(error)
    {
      var kind := Issued(input.sourceKind, input.sourceRef);
      var sequence := NextJournalSequence(account);
      if input.amount > INT64_MAX || (input.expiresAt.Some? && input.expiresAt.value <= input.effectiveAt) {
        Restore(start);
        return Err(CheckViolation);
      }
      if !Storable(input.sourceKind, KIND_WIDTH) || !Storable(input.sourceRef, REF_WIDTH) {
        Restore(start);
        return Err(CheckViolation);
      }
      if account >= |accounts| {
        Restore(start);
        return Err(AccountNotFound);
      }
      grants := grants + [NewGrant(account, uuid, input, clocks)];
      if input.effectiveAt <= clocks.forCredit {
        var failure := ProjectAccount(account, input.amount, 0);
        if failure.Some? {
          Restore(start);
          return Err(failure.value);
        }
      }
      if First(|journal|, HasKind(journal, kind)).Some? {
        Restore(start);
        return Err(UniqueViolation);
      }
      journal := journal + [Entry(account, sequence, kind, input.amount)];
      assert accounts == old(accounts)[account := accounts[account]];
      answer := Ok(GrantResult(account, |grants| - 1, |journal| - 1));
    }

    // ----- reserve -----

    method Reserve(input: ReserveInput, refreshClock: int, selectClock: int)
      returns (answer: Result<ReserveResult, CreditError>)
      modifies this
      ensures Performs(old(Rows()), Rows(), ReserveStep(old(Rows()), input, refreshClock, selectClock), answer)
    {
      if input.requested <= 0 { return Err(InvalidAmount); }
      var prior := First(|holds|, HasKey(holds, input.key));
      if prior.Some? {
        var hold := holds[prior.value];
        if hold.account != input.account || hold.requested != input.requested || hold.feature != input.feature {
          return Err(IdempotencyConflict);
        }
        return Ok(ReserveResult(prior.value, hold.requested));
      }
      if input.account >= |accounts| { return Err(AccountNotFound); }
      var start := Rows();
      var refreshed := RefreshGrantWindows(input.account, refreshClock);
      if refreshed.Err? { return Err(refreshed.error); }
      answer := Place(start, input, selectClock);
    }

    /** The rest of reserve, after its refresh. */
    method Place(start: Ledger, input: ReserveInput, now: int) returns (answer: Result<ReserveResult, CreditError>)
      requires 0 < input.requested
      modifies this
      ensures match PlaceHold(old(Rows()), input, now)
              case Done(t, value) => Rows() == t && answer == Ok(value)
              case Failed(error) => Rows() == start && answer == Err(error)
    {
      if input.account >= |accounts| {
        Restore(start);
        return Err(AccountNotFound);
      }
      if accounts[input.account].available < input.requested {
        Restore(start);
        return Err(Insufficient);
      }
      var pieces, remaining := Take(EligibleOrder(Rows(), input.account, now), input.requested);
      if remaining != 0 {
        Restore(start);
        return Err(Insufficient);
      }
      var hold := |holds|;
      var failure := ProjectAccount(input.account, -input.requested, input.requested);
      if failure.Some? {
        Restore(start);
        return Err(failure.value);
      }
      holds := holds + [NewHold(input)];
      Allocate(hold, pieces);
      answer := Ok(ReserveResult(hold, input.requested));
    }

    /** One allocation row for each piece taken. */
    method Allocate(hold: nat, pieces: seq<Piece>)
      modifies this`allocations
      ensures allocations == old(allocations) + NewAllocations(hold, pieces)
    {
      var k := 0;
      while k < |pieces|
        invariant 0 <= k <= |pieces|
        invariant allocations == old(allocations) + NewAllocations(hold, pieces[..k])
      {
        allocations := allocations + [Allocation(hold, pieces[k].grant, pieces[k].amount, 0, 0)];
        assert NewAllocations(hold, pieces[..k + 1])
            == NewAllocations(hold, pieces[..k]) + [Allocation(hold, pieces[k].grant, pieces[k].amount, 0, 0)];
        k := k + 1;
      }
      assert pieces[..|pieces|] == pieces;
    }

    /** The greedy loop over the eligible grants. */
    method Take(order: seq<nat>, requested: int) returns (pieces: seq<Piece>, remaining: int)
      requires 0 < requested
      ensures (pieces, remaining) == Burn(order, AllocatableIn(Rows()), requested)
    {
      var allocatable := AllocatableIn(Rows());
      pieces, remaining := [], requested;
      var k := 0;
      ghost var (whole, end) := Burn(order, allocatable, requested);
      while k < |order|
        invariant 0 <= k <= |order|
        invariant pieces + Burn(order[k..], allocatable, remaining).0 == whole
        invariant Burn(order[k..], allocatable, remaining).1 == end
      {
        assert order[k..][0] == order[k] && order[k..][1..] == order[k + 1..];
        ghost var rest := Burn(order[k + 1..], allocatable, remaining - (if allocatable(order[k]) < remaining then allocatable(order[k]) else remaining)).0;
        var amount := if allocatable(order[k]) < remaining then allocatable(order[k]) else remaining;
        ghost var piece := if amount > 0 then [Piece(order[k], amount)] else [];
        assert pieces + (piece + rest) == (pieces + piece) + rest;
        assert pieces + piece == if amount > 0 then pieces + [Piece(order[k], amount)] else pieces;
        if amount > 0 { pieces := pieces + [Piece(order[k], amount)]; }
        remaining := remaining - amount;
        if remaining == 0 {
          return;
        }
        k := k + 1;
      }
      assert pieces + [] == pieces;
    }

    // ----- capture and release -----

    method Capture(hold: nat, actual: int, source: string) returns (answer: Result<TerminalResult, CreditError>)
      modifies this
      ensures Performs(old(Rows()), Rows(), FinishStep(old(Rows()), hold, actual, source, Captured), answer)
    {
      answer := FinishHold(hold, actual, source, Captured);
    }

    method Release(hold: nat, source: string) returns (answer: Result<TerminalResult, CreditError>)
      modifies this
      ensures Performs(old(Rows()), Rows(), FinishStep(old(Rows()), hold, 0, source, Released), answer)
    {
      answer := FinishHold(hold, 0, source, Released);
    }

    /** The row checks and the three running totals of the allocations of a hold. */
    method AssertTerminalAllocations(h: nat) returns (ok: bool)
      requires h < |holds|
      ensures ok == AllocationsOk(Rows(), h)
    {
      var hold := holds[h];
      var rows := Where(|allocations|, OfHold(allocations, h));
      var held, captured, released := 0, 0, 0;
      var k := 0;
      while k < |rows|
        invariant 0 <= k <= |rows|
        invariant forall i :: 0 <= i < k ==> AllocationOk(Rows(), hold, allocations[rows[i]])
        invariant held + SumAlong(rows[k..], HeldIn(allocations, h)) == SumAlong(rows, HeldIn(allocations, h))
        invariant captured + SumAlong(rows[k..], CapturedIn(allocations, h)) == SumAlong(rows, CapturedIn(allocations, h))
        invariant released + SumAlong(rows[k..], ReleasedIn(allocations, h)) == SumAlong(rows, ReleasedIn(allocations, h))
      {
        var row := allocations[rows[k]];
        if !AllocationOk(Rows(), hold, row) { return false; }
        assert rows[k..][0] == rows[k] && rows[k..][1..] == rows[k + 1..];
        held, captured, released := held + row.held, captured + row.captured, released + row.released;
        k := k + 1;
      }
      ok := held == hold.requested && captured == hold.captured && released == hold.released;
    }

    method FinishHold(h: nat, actual: int, source: string, terminal: HoldStatus)
      returns (answer: Result<TerminalResult, CreditError>)
      modifies this
      ensures Performs(old(Rows()), Rows(), FinishStep(old(Rows()), h, actual, source, terminal), answer)
    {
      if actual < 0 { return Err(InvalidAmount); }
      if !ValidSource(source) { return Err(InvalidSource); }
      if h >= |holds| { return Err(HoldNotActive); }
      var hold := holds[h];
      if hold.account >= |accounts| { return Err(TerminalCorrupt); }
      var account := accounts[hold.account];
      if account.available < 0 || account.held < 0 { return Err(TerminalCorrupt); }
      if !HoldFactsOk(hold) { return Err(TerminalCorrupt); }
      var sound := AssertTerminalAllocations(h);
      if !sound { return Err(TerminalCorrupt); }
      if !hold.status.Open? {
        if hold.terminalSource.None? { return Err(TerminalCorrupt); }
        if hold.status.Captured? && hold.captured > 0 && !OneDebit(Rows(), hold, hold.terminalSource.value) {
          return Err(TerminalCorrupt);
        }
        if hold.status != terminal || hold.terminalSource.value != source || hold.captured != actual {
          return Err(IdempotencyConflict);
        }
        return Ok(TerminalResult(h, hold.account, hold.captured, hold.released, false));
      }
      if hold.requested < actual { return Err(Insufficient); }
      if account.held < hold.requested { return Err(TerminalCorrupt); }
      if terminal.Captured? && First(|holds|, CapturedUnder(holds, source)).Some? { return Err(IdempotencyConflict); }
      answer := Close(h, actual, source, terminal);
    }

    /** One row of the charging loop: the allocation, then the grant it takes from. */
    method ChargeAllocation(account: nat, j: nat, left: int) returns (captured: Option<int>)
      requires j < |allocations|
      modifies this`allocations, this`grants
      ensures match ChargeRow(old(Rows()), account, j, left)
              case Some(r) => Rows() == r.0 && captured == Some(left - r.1)
              case None => captured.None?
      ensures |allocations| == |old(allocations)|
    {
      var row := allocations[j];
      var amount := if row.held < left then row.held else left;
      if row.captured != 0 || row.released != 0 { return None; }
      allocations := allocations[j := row.(captured := amount, released := row.held - amount)];
      if amount > 0 {
        if row.grant >= |grants| || grants[row.grant].account != account || grants[row.grant].remaining < amount {
          return None;
        }
        grants := grants[row.grant := grants[row.grant].(remaining := grants[row.grant].remaining - amount)];
      }
      captured := Some(amount);
    }

    /** The charging loop over the allocations of a hold, in burn order. */
    method ChargeAll(account: nat, order: seq<nat>, actual: int) returns (left: Option<int>)
      requires forall i :: 0 <= i < |order| ==> order[i] < |allocations|
      modifies this`allocations, this`grants
      ensures match ChargeRows(old(Rows()), account, order, actual)
              case Some(r) => Rows() == r.0 && left == Some(r.1)
              case None => left.None?
    {
      ghost var charged := ChargeRows(Rows(), account, order, actual);
      var captureLeft := actual;
      var k := 0;
      while k < |order|
        invariant 0 <= k <= |order|
        invariant |allocations| == |old(allocations)|
        invariant ChargeRows(Rows(), account, order[k..], captureLeft) == charged
      {
        assert order[k..][0] == order[k] && order[k..][1..] == order[k + 1..];
        var charge := ChargeAllocation(account, order[k], captureLeft);
        if charge.None? { return None; }
        captureLeft := captureLeft - charge.value;
        k := k + 1;
      }
      left := Some(captureLeft);
    }

    /** The writes of #finishHold: the hold, its allocations and grants, the account, the journal. */
    method Close(h: nat, actual: int, source: string, terminal: HoldStatus)
      returns (answer: Result<TerminalResult, CreditError>)
      requires h < |holds| && holds[h].account < |accounts|
      modifies this
      ensures Performs(old(Rows()), Rows(), CloseHold(old(Rows()), h, actual, source, terminal), answer)
    {
      var start := Rows();
      var hold := holds[h];
      var released := hold.requested - actual;
      var order := HoldOrder(start, h);
      assert forall i :: 0 <= i < |order| ==> order[i] < |allocations| by { HoldOrderFacts(start, h); }
      holds := holds[h := hold.(status := terminal, terminalSource := Some(source), captured := actual, released := released)];
      var left := ChargeAll(hold.account, order, actual);
      if left != Some(0) {
        Restore(start);
        return Err(TerminalCorrupt);
      }
      answer := SettleAccount(start, h, hold, actual, source);
    }

    method SettleAccount(start: Ledger, h: nat, hold: Hold, actual: int, source: string)
      returns (answer: Result<TerminalResult, CreditError>)
      requires hold.account < |accounts|
      modifies this
      ensures match Settle(old(Rows()), h, hold, actual, source)
              case Done(t, value) => Rows() == t && answer == Ok(value)
              case Failed(error) => Rows() == start && answer == Err(error)
    {
      var released := hold.requested - actual;
      var failure := ProjectAccount(hold.account, released, -hold.requested);
      if failure.Some? {
        Restore(start);
        return Err(failure.value);
      }
      if actual > 0 {
        if First(|journal|, HasKind(journal, Debit(source))).Some? {
          Restore(start);
          return Err(UniqueViolation);
        }
        Append(hold.account, Debit(source), -actual);
      }
      answer := Ok(TerminalResult(h, hold.account, actual, released, true));
    }

    // ----- reading -----

    /** One page of the journal of a subject's account: the loop checks each row and stops at the
        first bad one. */
    method ListMyLedger(subject: string, limit: nat, cursor: Option<Cursor>) returns (answer: Result<Page, ReadError>)
      ensures answer == ReadLedger(Rows(), subject, limit, cursor)
    {
      var found := First(|accounts|, HasSubject(accounts, subject));
      if found.None? { return Err(NotFound); }
      var account := found.value;
      if accounts[account].available < 0 || accounts[account].held < 0 { return Err(Corrupt); }
      if cursor.Some? && cursor.value.account != account { return Err(InvalidCursor); }
      if InvalidRow(journal, account) { return Err(Corrupt); }
      var highWater := MaxSequence(journal, account);
      var before := highWater + 1;
      if cursor.Some? {
        if !CursorValid(journal, account, cursor.value) { return Err(InvalidCursor); }
        highWater, before := cursor.value.highWater, cursor.value.last;
      } else if LatestBelow(journal, account, before).None? {
        return Ok(Page([], None));
      }
      if HistoryCorrupt(journal, account, highWater) { return Err(Corrupt); }
      var rows := ItemsBelow(journal, account, if before <= highWater then before else highWater + 1, limit + 1);
      answer := Present(rows, account, limit, highWater);
    }

    method Present(rows: seq<Item>, account: nat, limit: nat, highWater: nat) returns (answer: Result<Page, ReadError>)
      ensures answer == CutPage(rows, account, limit, highWater)
    {
      var items, k := [], 0;
      while k < |rows|
        invariant 0 <= k <= |rows| && items == rows[..k]
        invariant forall i {:trigger ItemOk(rows[i])} :: 0 <= i < k ==> ItemOk(rows[i])
      {
        if !ItemOk(rows[k]) { return Err(Corrupt); }
        items := items + [rows[k]];
        k := k + 1;
      }
      assert items == rows;
      var hasMore := |items| > limit;
      var pageItems := if hasMore then items[..limit] else items;
      var next := if hasMore && limit > 0 then Some(Cursor(account, highWater, pageItems[|pageItems| - 1].sequence)) else None;
      answer := Ok(Page(pageItems, next));
    }
  }
}
