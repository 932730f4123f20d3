/** Granting credit: the invariant survives exactly when the two clock readings agree. */
module LedgerGrantProof {
  import opened Outcomes
  import opened Sums
  import opened Sorting
  import opened Positions
  import opened BurnOrder
  import opened LedgerModel
  import opened LedgerInvariant
  import opened LedgerRefreshProof

  /** Both readings put the grant on the same side of its effective time. */
  predicate ClocksAgree(input: GrantInput, clocks: GrantClocks) {
    input.effectiveAt <= clocks.forStatus <==> input.effectiveAt <= clocks.forCredit
  }

  // ----- opening an account -----

  lemma {:induction false} OpeningKeeps(s: Ledger, subject: string)
    requires Inv(s)
    ensures var (t, a) := OpenedFor(s, subject);
            && Inv(t) && a < |t.accounts| && t.accounts[a].subject == subject
            && t == s.(accounts := t.accounts) && s.accounts <= t.accounts
  {
    var (t, a) := OpenedFor(s, subject);
    if t != s {
      forall i, j | 0 <= i < j < |t.accounts| ensures t.accounts[i].subject != t.accounts[j].subject {
        if j == |s.accounts| { assert !HasSubject(s.accounts, subject)(i); }
      }
      forall g: nat | g < |t.grants| ensures GrantOk(t, g) { assert GrantOk(s, g); }
      forall h: nat | h < |t.holds| ensures HoldOk(t, h) { assert HoldOk(s, h); }
      forall j: nat | j < |t.allocations| ensures RowOk(t, j) { assert RowOk(s, j); }
      forall b: nat | b < |t.accounts| ensures Balanced(t, b, 0, 0) {
        if b < |s.accounts| {
          assert Balanced(s, b, 0, 0);
        } else {
          forall i: nat | i < |s.grants| ensures RemainingOf(s.grants, b)(i) == 0 { assert GrantOk(s, i); }
          forall i: nat | i < |s.holds| ensures OpenOf(s.holds, b)(i) == 0 { assert HoldOk(s, i); }
          SumZero(|s.grants|, RemainingOf(s.grants, b));
          SumZero(|s.holds|, OpenOf(s.holds, b));
        }
      }
      forall b: nat ensures JournalTotal(t, b) == Booked(t, b) { assert JournalTotal(s, b) == Booked(s, b); }
      forall i: nat | i < |t.journal| ensures EntryOwned(t, i) { assert EntryOwned(s, i); }
      forall g: nat | g < |t.grants| ensures IssueRecorded(t, g) { assert IssueRecorded(s, g); }
      forall h: nat | h < |t.holds| ensures CaptureRecorded(t, h) { assert CaptureRecorded(s, h); }
    }
  }

  // ----- appending the grant row -----

  lemma {:induction false} ReservedOfNewGrant(s: Ledger)
    requires RowsOk(s)
    ensures Reserved(s.holds, s.allocations, |s.grants|) == 0
  {
    var kept := KeptOf(s.holds, s.allocations, |s.grants|);
    forall j: nat | j < |s.allocations| ensures kept(j) == 0 { assert RowOk(s, j); }
    SumZero(|s.allocations|, kept);
  }

  lemma {:induction false} AppendTotals(s: Ledger, t: Ledger, row: Grant, b: nat)
    requires t.grants == s.grants + [row] && !row.lapsed
    ensures Remaining(t, b) == Remaining(s, b) + (if b == row.account && !row.status.Pending? then row.remaining else 0)
    ensures Booked(t, b) == Booked(s, b) + (if b == row.account then row.remaining else 0)
  {
    SumSame(|s.grants|, RemainingOf(s.grants, b), RemainingOf(t.grants, b));
    SumSame(|s.grants|, PendingOf(s.grants, b), PendingOf(t.grants, b));
    SumSame(|s.grants|, LapsedOf(s.grants, b), LapsedOf(t.grants, b));
  }

  /** The state after a new grant row, its account row and its journal row. */
  ghost predicate IsIssue(s: Ledger, t: Ledger, a: nat, input: GrantInput, clocks: GrantClocks, uuid: nat,
                          row: Account) {
    && a < |s.accounts| && input.amount > 0
    && (if input.effectiveAt <= clocks.forCredit
        then Project(s.accounts[a], input.amount, 0) == Ok(row)
        else row == s.accounts[a])
    && t == s.(accounts := s.accounts[a := row],
               grants := s.grants + [NewGrant(a, uuid, input, clocks)],
               journal := s.journal + [Entry(a, MaxSequence(s.journal, a) + 1,
                                             Issued(input.sourceKind, input.sourceRef), input.amount)])
    && First(|s.grants|, HasSource(s.grants, input.sourceKind, input.sourceRef)).None?
    && First(|s.journal|, HasKind(s.journal, Issued(input.sourceKind, input.sourceRef))).None?
  }

  lemma {:induction false} IssueTables(s: Ledger, t: Ledger, a: nat, input: GrantInput, clocks: GrantClocks,
                                       uuid: nat, row: Account)
    requires TablesOk(s) && IsIssue(s, t, a, input, clocks, uuid, row)
    ensures TablesOk(t)
  {
    ReservedOfNewGrant(s);
    forall g: nat | g < |t.grants| ensures GrantOk(t, g) {
      if g < |s.grants| { assert GrantOk(s, g) && t.grants[g] == s.grants[g]; }
    }
    forall h: nat | h < |t.holds| ensures HoldOk(t, h) { assert HoldOk(s, h); }
    forall j: nat | j < |t.allocations| ensures RowOk(t, j) { assert RowOk(s, j); }
  }

  lemma {:induction false} IssueJournal(s: Ledger, t: Ledger, a: nat, input: GrantInput, clocks: GrantClocks,
                                        uuid: nat, row: Account)
    requires TablesOk(s) && JournalOk(s) && IsIssue(s, t, a, input, clocks, uuid, row)
    ensures JournalOk(t)
  {
    var e := t.journal[|s.journal|];
    assert t.journal == s.journal + [e];
    assert JournalTotal(s, a) == Booked(s, a);
    BookedNonNegative(s, a);
    PushEntry(s.journal, e);
    forall b: nat ensures JournalTotal(t, b) == Booked(t, b) {
      AppendTotals(s, t, NewGrant(a, uuid, input, clocks), b);
      assert JournalTotal(s, b) == Booked(s, b);
    }
  }

  lemma {:induction false} IssueNames(s: Ledger, t: Ledger, a: nat, input: GrantInput, clocks: GrantClocks, uuid: nat,
                                      row: Account)
    requires NamesOk(s) && IsIssue(s, t, a, input, clocks, uuid, row)
    ensures NamesOk(t)
  {
    var n := |s.journal|;
    forall i: nat | i < |t.journal| ensures EntryOwned(t, i) {
      if i < n {
        assert t.journal[i] == s.journal[i] && EntryOwned(s, i);
        if s.journal[i].kind.Issued? {
          var g: nat :| HasSource(s.grants, s.journal[i].kind.sourceKind, s.journal[i].kind.sourceRef)(g);
          assert HasSource(t.grants, s.journal[i].kind.sourceKind, s.journal[i].kind.sourceRef)(g);
        }
      } else {
        assert HasSource(t.grants, input.sourceKind, input.sourceRef)(|s.grants|);
      }
    }
    forall i, j | 0 <= i < j < |t.journal| ensures t.journal[i].kind != t.journal[j].kind {
      if j == n { assert !HasKind(s.journal, t.journal[n].kind)(i); }
    }
    forall i, j | 0 <= i < j < |t.grants|
      ensures t.grants[i].sourceKind != t.grants[j].sourceKind || t.grants[i].sourceRef != t.grants[j].sourceRef
    {
      if j == |s.grants| { assert !HasSource(s.grants, input.sourceKind, input.sourceRef)(i); }
    }
    forall g: nat | g < |t.grants| ensures IssueRecorded(t, g) {
      var kind := Issued(t.grants[g].sourceKind, t.grants[g].sourceRef);
      if g < |s.grants| {
        assert IssueRecorded(s, g) && t.grants[g] == s.grants[g];
        var i: nat :| HasKind(s.journal, kind)(i)
                      && s.journal[i].account == s.grants[g].account && s.journal[i].amount == s.grants[g].original;
        assert HasKind(t.journal, kind)(i);
      } else {
        assert HasKind(t.journal, kind)(n);
      }
    }
    forall h: nat | h < |t.holds| ensures CaptureRecorded(t, h) {
      assert CaptureRecorded(s, h);
      var hold := s.holds[h];
      if hold.status.Captured? && hold.captured > 0 && hold.terminalSource.Some? {
        var i: nat :| HasKind(s.journal, Debit(hold.terminalSource.value))(i)
                      && s.journal[i].account == hold.account && s.journal[i].amount == -hold.captured;
        assert HasKind(t.journal, Debit(hold.terminalSource.value))(i);
      }
    }
  }

  /** The books of the granted account close exactly when the clock readings agree. */
  lemma {:induction false} IssueBalance(s: Ledger, t: Ledger, a: nat, input: GrantInput, clocks: GrantClocks,
                                        uuid: nat, row: Account)
    requires AllBalanced(s, 0, 0) && IsIssue(s, t, a, input, clocks, uuid, row)
    ensures AllBalanced(t, 0, 0) <==> ClocksAgree(input, clocks)
  {
    forall b: nat | b < |t.accounts|
      ensures Balanced(t, b, 0, 0) <==> (b != a || ClocksAgree(input, clocks))
    {
      assert Balanced(s, b, 0, 0);
      AppendTotals(s, t, NewGrant(a, uuid, input, clocks), b);
    }
    assert Balanced(t, a, 0, 0) <==> ClocksAgree(input, clocks);
  }

  lemma {:induction false} IssueInv(s: Ledger, t: Ledger, a: nat, input: GrantInput, clocks: GrantClocks, uuid: nat,
                                    row: Account)
    requires Inv(s) && IsIssue(s, t, a, input, clocks, uuid, row)
    ensures Inv(t) <==> ClocksAgree(input, clocks)
  {
    IssueTables(s, t, a, input, clocks, uuid, row);
    IssueJournal(s, t, a, input, clocks, uuid, row);
    IssueNames(s, t, a, input, clocks, uuid, row);
    IssueBalance(s, t, a, input, clocks, uuid, row);
  }

  /** Granting a new source keeps the ledger sound if and only if the effective time does not
      fall between the two clock readings; a replay changes nothing. */
  lemma {:induction false} GrantKeeps(s: Ledger, input: GrantInput, clocks: GrantClocks, uuid: nat)
    requires Inv(s) && GrantStep(s, input, clocks, uuid).Done?
    ensures var o := GrantStep(s, input, clocks, uuid);
            if First(|s.grants|, HasSource(s.grants, input.sourceKind, input.sourceRef)).Some?
            then o.after == s && Inv(o.after)
            else Inv(o.after) <==> ClocksAgree(input, clocks)
  {
    var o := GrantStep(s, input, clocks, uuid);
    var (s0, a) := OpenedFor(s, input.subject);
    OpeningKeeps(s, input.subject);
    match First(|s.grants|, HasSource(s.grants, input.sourceKind, input.sourceRef))
    case Some(g) =>
      assert GrantOk(s, g);
    case None =>
      var row := if input.effectiveAt <= clocks.forCredit then Project(s0.accounts[a], input.amount, 0).value else s0.accounts[a];
      assert IsIssue(s0, o.after, a, input, clocks, uuid, row);
      IssueInv(s0, o.after, a, input, clocks, uuid, row);
  }

  /** A replay of a recorded grant always finds its journal row. */
  lemma {:induction false} GrantReplayFindsJournal(s: Ledger, input: GrantInput, clocks: GrantClocks, uuid: nat)
    requires Inv(s) && 0 < input.amount
    ensures GrantStep(s, input, clocks, uuid) != Failed(JournalMissing)
    ensures GrantStep(s, input, clocks, uuid) != Failed(UniqueViolation)
    ensures GrantStep(s, input, clocks, uuid) != Failed(AccountNotFound)
  {
    OpeningKeeps(s, input.subject);
    IssueAndGrantTogether(s, input.sourceKind, input.sourceRef);
  }

  /** A grant whose source is recorded already: it is a replay if and only if the recorded grant
      belongs to the same subject and has the same program, amount and window; then nothing changes
      and the answer names the recorded rows. Anything else is a conflict. */
  lemma {:induction false} GrantReplayExactly(s: Ledger, input: GrantInput, clocks: GrantClocks, uuid: nat, g: nat)
    requires Inv(s) && 0 < input.amount && g < |s.grants|
    requires s.grants[g].sourceKind == input.sourceKind && s.grants[g].sourceRef == input.sourceRef
    ensures var o, prior := GrantStep(s, input, clocks, uuid), s.grants[g];
            && prior.account < |s.accounts|
            && if s.accounts[prior.account].subject == input.subject && prior.program == input.program
                  && prior.original == input.amount && prior.effectiveAt == input.effectiveAt
                  && prior.expiresAt == input.expiresAt
               then
                 && o.Done? && o.after == s && o.value.account == prior.account && o.value.grant == g
                 && o.value.journal < |s.journal|
                 && s.journal[o.value.journal].kind == Issued(input.sourceKind, input.sourceRef)
               else o == Failed(IdempotencyConflict)
  {
    var found := First(|s.grants|, HasSource(s.grants, input.sourceKind, input.sourceRef));
    assert HasSource(s.grants, input.sourceKind, input.sourceRef)(g);
    assert found == Some(g);
    assert GrantOk(s, g);
    IssueAndGrantTogether(s, input.sourceKind, input.sourceRef);
    OpenedExactly(s, input.subject, s.grants[g].account);
  }

  /** What a new grant demands: an amount in signed 64 bits, an end after its beginning, source texts
      that fit their columns, and room in the balance if it is credited at once. */
  predicate Grantable(before: Account, input: GrantInput, forCredit: int) {
    && input.amount < 0x8000_0000_0000_0000
    && (input.expiresAt.Some? ==> input.effectiveAt < input.expiresAt.value)
    && |input.sourceKind| <= 64 && '\0' !in input.sourceKind && |input.sourceRef| <= 255 && '\0' !in input.sourceRef
    && (input.effectiveAt <= forCredit ==> before.available + input.amount < 0x8000_0000_0000_0000)
  }

  /** A grant whose source is new, in full: refused unless it is grantable; otherwise one grant row, one
      journal entry behind all others of the account, and the credit, if it is effective. */
  lemma {:induction false} IssuedExactly(s: Ledger, input: GrantInput, clocks: GrantClocks, uuid: nat) returns (a: nat)
    requires Inv(s) && 0 < input.amount
    requires forall g: nat :: g < |s.grants| ==>
               s.grants[g].sourceKind != input.sourceKind || s.grants[g].sourceRef != input.sourceRef
    ensures a <= |s.accounts| && forall i :: 0 <= i < |s.accounts| ==> (s.accounts[i].subject == input.subject <==> i == a)
    ensures var before := if a < |s.accounts| then s.accounts[a] else Account(input.subject, 0, 0, 1);
            var o := GrantStep(s, input, clocks, uuid);
            if !Grantable(before, input, clocks.forCredit) then o == Failed(CheckViolation)
            else
              && o.Done? && o.value == GrantResult(a, |s.grants|, |s.journal|)
              && o.after.grants == s.grants +
                   [Grant(a, uuid, input.sourceKind, input.sourceRef, input.program, input.amount, input.amount,
                          input.effectiveAt, input.expiresAt, input.burnPriority, clocks.issuedAt,
                          if input.effectiveAt <= clocks.forStatus then Active else Pending, false)]
              && o.after.holds == s.holds && o.after.allocations == s.allocations
              && |o.after.journal| == |s.journal| + 1 && o.after.journal[..|s.journal|] == s.journal
              && (var last := o.after.journal[|s.journal|];
                  && last == Entry(a, last.sequence, Issued(input.sourceKind, input.sourceRef), input.amount)
                  && forall i :: 0 <= i < |s.journal| && s.journal[i].account == a ==> s.journal[i].sequence < last.sequence)
              && |o.after.accounts| == (if a < |s.accounts| then |s.accounts| else a + 1)
              && o.after.accounts[a] == (if input.effectiveAt <= clocks.forCredit
                                         then Account(before.subject, before.available + input.amount, before.held,
                                                      before.generation + 1)
                                         else before)
              && forall i :: 0 <= i < |s.accounts| && i != a ==> o.after.accounts[i] == s.accounts[i]
  {
    a := OpenedFor(s, input.subject).1;
    OpeningKeeps(s, input.subject);
    IssueAndGrantTogether(s, input.sourceKind, input.sourceRef);
    LargestSequence(s.journal, a);
    assert First(|s.grants|, HasSource(s.grants, input.sourceKind, input.sourceRef)).None?;
    forall i | 0 <= i < |s.accounts| ensures s.accounts[i].subject == input.subject <==> i == a {
      OpenedExactly(s, input.subject, i);
    }
  }

  lemma {:induction false} LargestSequence(journal: seq<Entry>, a: nat)
    ensures forall i :: 0 <= i < |journal| && journal[i].account == a ==> journal[i].sequence <= MaxSequence(journal, a)
  {
    if journal != [] {
      var init := journal[..|journal| - 1];
      LargestSequence(init, a);
      assert forall i :: 0 <= i < |init| ==> init[i] == journal[i];
    }
  }

  lemma {:induction false} OpenedExactly(s: Ledger, subject: string, a: nat)
    requires SubjectsUnique(s.accounts) && a < |s.accounts|
    ensures OpenedFor(s, subject).1 == a <==> s.accounts[a].subject == subject
    ensures s.accounts[a].subject == subject ==> OpenedFor(s, subject) == (s, a)
  {
    if s.accounts[a].subject == subject { assert HasSubject(s.accounts, subject)(a); }
  }

  lemma {:induction false} IssueAndGrantTogether(s: Ledger, kind: string, ref: string)
    requires NamesOk(s)
    ensures First(|s.grants|, HasSource(s.grants, kind, ref)).Some?
            <==> First(|s.journal|, HasKind(s.journal, Issued(kind, ref))).Some?
  {
    var g := First(|s.grants|, HasSource(s.grants, kind, ref));
    var i := First(|s.journal|, HasKind(s.journal, Issued(kind, ref)));
    if g.Some? { assert IssueRecorded(s, g.value); }
    if i.Some? { assert EntryOwned(s, i.value); }
  }

  /** The race, on concrete values: a grant effective at 5, read as pending at 4 and credited
      at 5, is credited a second time by the next refresh. */
  lemma {:induction false} RacingGrantCountsTwice()
    ensures var input := GrantInput("alice", 100, "promo", "p1", "trial", 5, None, 0);
            var o := GrantStep(EMPTY, input, GrantClocks(4, 4, 5), 1);
            && o.Done? && o.after.accounts == [Account("alice", 100, 0, 2)]
            && var r := RefreshStep(o.after, 0, 6);
               r.Done? && r.after.accounts == [Account("alice", 200, 0, 3)]
  {
    var input := GrantInput("alice", 100, "promo", "p1", "trial", 5, None, 0);
    var t := GrantStep(EMPTY, input, GrantClocks(4, 4, 5), 1).after;
    assert t.grants == [NewGrant(0, 1, input, GrantClocks(4, 4, 5))];
    assert t.accounts == [Account("alice", 100, 0, 2)];
    var p := OfAccount(t.grants, 0);
    assert Where(0, p) == [];
    assert Where(1, p) == [0];
    assert SortBy([], IdOf(t.grants)) == [];
    assert SortBy([0], IdOf(t.grants)) == Insert(0, SortBy([0][1..], IdOf(t.grants)), ByKey(IdOf(t.grants))) == [0];
    assert RefreshOrder(t, 0) == [0];
    var (u, d) := RefreshRow(t, 0, 0, 6);
    assert d == 100;
    assert RefreshRows(u, 0, [0][1..], 6) == (u, 0);
    assert RefreshRows(t, 0, [0], 6) == (u, 100);
    assert Project(u.accounts[0], 100, 0) == Ok(Account("alice", 200, 0, 3));
  }
}
