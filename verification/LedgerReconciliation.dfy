/** What the integrity checks before a capture or release find, on any ledger: exactly which rows of
    a hold reconcile, and that nothing is charged when they do not. */
module LedgerReconciliation {
  import opened Outcomes
  import opened Sums
  import opened Positions
  import opened LedgerModel
  import opened LedgerFinishProof

  // ----- the facts of a hold -----

  predicate HoldReconciles(hold: Hold) {
    && 0 <= hold.requested && 0 <= hold.captured && 0 <= hold.released
    && match hold.terminalSource
       case None => hold.status == Open && hold.captured == 0 == hold.released
       case Some(source) =>
         && hold.status != Open && 1 <= |source| <= 255 && '\0' !in source
         && hold.captured + hold.released == hold.requested && (hold.captured == 0 || hold.status == Captured)
  }

  lemma {:induction false} HoldFactsExactly(hold: Hold)
    ensures HoldFactsOk(hold) <==> HoldReconciles(hold)
  {
  }

  // ----- the rows of a hold -----

  /** One row against its hold and its grant. */
  predicate RowReconciles(s: Ledger, h: nat, j: nat)
    requires h < |s.holds|
  {
    j < |s.allocations| && s.allocations[j].hold == h ==>
      var row, hold := s.allocations[j], s.holds[h];
      && row.grant < |s.grants| && s.grants[row.grant].account == hold.account
      && 0 <= s.grants[row.grant].remaining <= s.grants[row.grant].original
      && 0 <= row.held && 0 <= row.captured && 0 <= row.released
      && if hold.status == Open then row.captured == 0 == row.released && row.held <= s.grants[row.grant].remaining
         else row.captured + row.released == row.held
  }

  /** The rows reconcile one by one, and their columns sum to those of the hold. */
  ghost predicate RowsReconcile(s: Ledger, h: nat)
    requires h < |s.holds|
  {
    var n, rows := |s.allocations|, s.allocations;
    && (forall j: nat :: RowReconciles(s, h, j))
    && Sum(n, (j: nat) => if j < |rows| && rows[j].hold == h then rows[j].held else 0) == s.holds[h].requested
    && Sum(n, (j: nat) => if j < |rows| && rows[j].hold == h then rows[j].captured else 0) == s.holds[h].captured
    && Sum(n, (j: nat) => if j < |rows| && rows[j].hold == h then rows[j].released else 0) == s.holds[h].released
  }

  /** The checks pass exactly on rows that reconcile. */
  lemma {:induction false} RowsReconcileExactly(s: Ledger, h: nat)
    requires h < |s.holds|
    ensures AllocationsOk(s, h) <==> RowsReconcile(s, h)
  {
    var rows := s.allocations;
    var found := Where(|rows|, OfHold(rows, h));
    HoldTotal(rows, h, found, HeldIn(rows, h),
              (j: nat) => if j < |rows| && rows[j].hold == h then rows[j].held else 0);
    HoldTotal(rows, h, found, CapturedIn(rows, h),
              (j: nat) => if j < |rows| && rows[j].hold == h then rows[j].captured else 0);
    HoldTotal(rows, h, found, ReleasedIn(rows, h),
              (j: nat) => if j < |rows| && rows[j].hold == h then rows[j].released else 0);
    if AllocationsOk(s, h) {
      forall j: nat ensures RowReconciles(s, h, j) {
        if j < |rows| && rows[j].hold == h {
          assert j in found;
          var i :| 0 <= i < |found| && found[i] == j;
          assert AllocationOk(s, s.holds[h], rows[found[i]]);
        }
      }
    }
    if RowsReconcile(s, h) {
      forall i | 0 <= i < |found| ensures AllocationOk(s, s.holds[h], rows[found[i]]) {
        assert RowReconciles(s, h, found[i]);
      }
    }
  }

  // ----- the debit of a capture -----

  /** Entry i is the debit of the source. */
  predicate IsDebit(journal: seq<Entry>, i: nat, source: string) {
    i < |journal| && journal[i].kind == Debit(source)
  }

  /** There is one debit of the source, and it is the hold's. */
  ghost predicate DebitReconciles(s: Ledger, hold: Hold, source: string) {
    exists i: nat ::
      && IsDebit(s.journal, i, source)
      && s.journal[i].account == hold.account && s.journal[i].amount == -hold.captured
      && forall k: nat :: IsDebit(s.journal, k, source) ==> k == i
  }

  lemma {:induction false} OneDebitExactly(s: Ledger, hold: Hold, source: string)
    ensures OneDebit(s, hold, source) <==> DebitReconciles(s, hold, source)
  {
    var p := HasKind(s.journal, Debit(source));
    var rows := Where(|s.journal|, p);
    if OneDebit(s, hold, source) {
      assert rows[0] in rows && IsDebit(s.journal, rows[0], source);
      forall k: nat | IsDebit(s.journal, k, source) ensures k == rows[0] { assert p(k); assert k in rows; }
    }
    if DebitReconciles(s, hold, source) {
      var i: nat :| && IsDebit(s.journal, i, source)
                    && s.journal[i].account == hold.account && s.journal[i].amount == -hold.captured
                    && forall k: nat :: IsDebit(s.journal, k, source) ==> k == i;
      forall k: nat | k < |s.journal| && k != i ensures !p(k) { assert !IsDebit(s.journal, k, source); }
      WhereOnly(|s.journal|, p, i);
    }
  }

  // ----- capture and release on any ledger -----

  /** Hold, rows and account reconcile. */
  ghost predicate Reconciles(s: Ledger, h: nat)
    requires h < |s.holds|
  {
    && HoldReconciles(s.holds[h]) && RowsReconcile(s, h)
    && s.holds[h].account < |s.accounts|
    && 0 <= s.accounts[s.holds[h].account].available && 0 <= s.accounts[s.holds[h].account].held
  }

  /** Whatever the ledger holds, a legal call on a hold that does not reconcile is refused as corrupt
      and changes nothing. */
  lemma {:induction false} CorruptionIsRefused(s: Ledger, h: nat, actual: int, source: string, terminal: HoldStatus)
    requires 0 <= actual && 1 <= |source| <= 255 && '\0' !in source && h < |s.holds|
    ensures !Reconciles(s, h) ==> FinishStep(s, h, actual, source, terminal) == Failed(TerminalCorrupt)
  {
    HoldFactsExactly(s.holds[h]);
    RowsReconcileExactly(s, h);
  }

  /** The repeated call on a finished hold, on any ledger: corrupt exactly if something does not
      reconcile, the debit of a positive capture included; a replay exactly for the same end. */
  lemma {:induction false} FinishedExactly(s: Ledger, h: nat, actual: int, source: string, terminal: HoldStatus)
    requires 0 <= actual && 1 <= |source| <= 255 && '\0' !in source && h < |s.holds|
    requires s.holds[h].status != Open
    ensures var o, hold := FinishStep(s, h, actual, source, terminal), s.holds[h];
            if !Reconciles(s, h)
               || (hold.status == Captured && hold.captured > 0 && !DebitReconciles(s, hold, hold.terminalSource.value))
            then o == Failed(TerminalCorrupt)
            else if hold.status == terminal && hold.terminalSource == Some(source) && hold.captured == actual
            then o == Done(s, TerminalResult(h, hold.account, hold.captured, hold.released, false))
            else o == Failed(IdempotencyConflict)
  {
    HoldFactsExactly(s.holds[h]);
    RowsReconcileExactly(s, h);
    if s.holds[h].terminalSource.Some? { OneDebitExactly(s, s.holds[h], s.holds[h].terminalSource.value); }
  }
}
