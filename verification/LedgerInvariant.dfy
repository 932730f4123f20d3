/** What every reachable credit ledger satisfies. */
module LedgerInvariant {
  import opened Sums
  import opened LedgerModel

  // ----- totals of one account -----

  function RemainingOf(grants: seq<Grant>, a: nat): nat -> int {
    (i: nat) => if i < |grants| && grants[i].account == a && !grants[i].status.Pending? then grants[i].remaining else 0
  }

  function PendingOf(grants: seq<Grant>, a: nat): nat -> int {
    (i: nat) => if i < |grants| && grants[i].account == a && grants[i].status.Pending? then grants[i].remaining else 0
  }

  function LapsedOf(grants: seq<Grant>, a: nat): nat -> int {
    (i: nat) => if i < |grants| && grants[i].account == a && grants[i].lapsed then grants[i].original else 0
  }

  function OpenOf(holds: seq<Hold>, a: nat): nat -> int {
    (i: nat) => if i < |holds| && holds[i].account == a && holds[i].status.Open? then holds[i].requested else 0
  }

  function AmountOf(a: nat): Entry -> int {
    (e: Entry) => if e.account == a then e.amount else 0
  }

  function CountOf(a: nat): Entry -> int {
    (e: Entry) => if e.account == a then 1 else 0
  }

  function Remaining(s: Ledger, a: nat): int { Sum(|s.grants|, RemainingOf(s.grants, a)) }
  function PendingTotal(s: Ledger, a: nat): int { Sum(|s.grants|, PendingOf(s.grants, a)) }
  function LapsedTotal(s: Ledger, a: nat): int { Sum(|s.grants|, LapsedOf(s.grants, a)) }
  function OpenTotal(s: Ledger, a: nat): int { Sum(|s.holds|, OpenOf(s.holds, a)) }
  function JournalTotal(s: Ledger, a: nat): int { SumSeq(s.journal, AmountOf(a)) }

  // ----- the parts of the invariant -----

  ghost predicate GrantOk(s: Ledger, g: nat)
    requires g < |s.grants|
  {
    var grant := s.grants[g];
    && grant.account < |s.accounts|
    && 0 <= Reserved(s.holds, s.allocations, g) <= grant.remaining <= grant.original
    && 0 < grant.original
    && (grant.status.Pending? ==> grant.remaining == grant.original && Reserved(s.holds, s.allocations, g) == 0)
    && (grant.lapsed ==> grant.status.Expired? && grant.remaining == 0)
  }

  ghost predicate GrantsOk(s: Ledger) {
    forall g: nat :: g < |s.grants| ==> GrantOk(s, g)
  }

  ghost predicate HoldOk(s: Ledger, h: nat)
    requires h < |s.holds|
  {
    var hold := s.holds[h];
    && hold.account < |s.accounts|
    && 0 < hold.requested
    && HoldFactsOk(hold)
    && Sum(|s.allocations|, HeldIn(s.allocations, h)) == hold.requested
    && Sum(|s.allocations|, CapturedIn(s.allocations, h)) == hold.captured
    && Sum(|s.allocations|, ReleasedIn(s.allocations, h)) == hold.released
  }

  ghost predicate HoldsOk(s: Ledger) {
    forall h: nat :: h < |s.holds| ==> HoldOk(s, h)
  }

  ghost predicate RowOk(s: Ledger, j: nat)
    requires j < |s.allocations|
  {
    var row := s.allocations[j];
    && row.hold < |s.holds| && row.grant < |s.grants|
    && s.grants[row.grant].account == s.holds[row.hold].account
    && 0 < row.held && 0 <= row.captured && 0 <= row.released
    && if s.holds[row.hold].status.Open?
       then row.captured == 0 && row.released == 0
       else row.captured + row.released == row.held
  }

  /** A hold takes from one grant through at most one row. */
  ghost predicate PairsUnique(allocations: seq<Allocation>) {
    forall i, j :: 0 <= i < j < |allocations| ==>
      allocations[i].hold != allocations[j].hold || allocations[i].grant != allocations[j].grant
  }

  ghost predicate RowsOk(s: Ledger) {
    && (forall j: nat :: j < |s.allocations| ==> RowOk(s, j))
    && PairsUnique(s.allocations)
  }

  /** Account b, when a running refresh has still to add `delta` to the row of account a. */
  ghost predicate Balanced(s: Ledger, b: nat, a: nat, delta: int)
    requires b < |s.accounts|
  {
    && s.accounts[b].available + (if b == a then delta else 0) + s.accounts[b].held == Remaining(s, b)
    && s.accounts[b].held == OpenTotal(s, b)
  }

  ghost predicate AllBalanced(s: Ledger, a: nat, delta: int) {
    forall b: nat :: b < |s.accounts| ==> Balanced(s, b, a, delta)
  }

  /** What the account's journal must sum to. */
  function Booked(s: Ledger, a: nat): int { Remaining(s, a) + PendingTotal(s, a) + LapsedTotal(s, a) }

  /** Each entry carries one more than the number of earlier entries of its account. */
  ghost predicate Numbered(journal: seq<Entry>) {
    if journal == [] then true
    else
      var front, last := journal[..|journal| - 1], journal[|journal| - 1];
      Numbered(front) && last.sequence == 1 + SumSeq(front, CountOf(last.account))
  }

  /** After each entry, the running balance of every account is non-negative. */
  ghost predicate NeverNegative(journal: seq<Entry>) {
    if journal == [] then true
    else NeverNegative(journal[..|journal| - 1]) && forall a: nat :: 0 <= SumSeq(journal, AmountOf(a))
  }

  ghost predicate JournalOk(s: Ledger) {
    && (forall i :: 0 <= i < |s.journal| ==> s.journal[i].account < |s.accounts| && s.journal[i].amount != 0)
    && (forall a: nat :: JournalTotal(s, a) == Booked(s, a))
    && Numbered(s.journal)
    && NeverNegative(s.journal)
  }

  // ----- names: sources, keys and the journal rows they own -----

  ghost predicate KindsUnique(journal: seq<Entry>) {
    forall i, j :: 0 <= i < j < |journal| ==> journal[i].kind != journal[j].kind
  }

  ghost predicate SourcesUnique(grants: seq<Grant>) {
    forall i, j :: 0 <= i < j < |grants| ==>
      grants[i].sourceKind != grants[j].sourceKind || grants[i].sourceRef != grants[j].sourceRef
  }

  ghost predicate KeysUnique(holds: seq<Hold>) {
    forall i, j :: 0 <= i < j < |holds| ==> holds[i].key != holds[j].key
  }

  ghost predicate CapturesUnique(holds: seq<Hold>) {
    forall i, j :: 0 <= i < j < |holds| && holds[i].status.Captured? && holds[j].status.Captured? ==>
      holds[i].terminalSource != holds[j].terminalSource
  }

  ghost predicate SubjectsUnique(accounts: seq<Account>) {
    forall i, j :: 0 <= i < j < |accounts| ==> accounts[i].subject != accounts[j].subject
  }

  /** Entry i is the one row that its grant or hold wrote. */
  ghost predicate EntryOwned(s: Ledger, i: nat)
    requires i < |s.journal|
  {
    var e := s.journal[i];
    match e.kind
    case Issued(kind, ref) =>
      exists g: nat :: HasSource(s.grants, kind, ref)(g)
    case Debit(ref) =>
      exists h: nat :: CapturedUnder(s.holds, ref)(h) && s.holds[h].captured > 0
    case Expiry(g) => g < |s.grants| && s.grants[g].status.Expired? && !s.grants[g].lapsed
  }

  ghost predicate IssueRecorded(s: Ledger, g: nat)
    requires g < |s.grants|
  {
    var grant := s.grants[g];
    exists i: nat :: HasKind(s.journal, Issued(grant.sourceKind, grant.sourceRef))(i)
                     && s.journal[i].account == grant.account && s.journal[i].amount == grant.original
  }

  ghost predicate CaptureRecorded(s: Ledger, h: nat)
    requires h < |s.holds|
  {
    var hold := s.holds[h];
    hold.status.Captured? && hold.captured > 0 && hold.terminalSource.Some? ==>
      exists i: nat :: HasKind(s.journal, Debit(hold.terminalSource.value))(i)
                       && s.journal[i].account == hold.account && s.journal[i].amount == -hold.captured
  }

  ghost predicate NamesOk(s: Ledger) {
    && SubjectsUnique(s.accounts) && SourcesUnique(s.grants) && KeysUnique(s.holds)
    && CapturesUnique(s.holds) && KindsUnique(s.journal)
    && (forall i: nat :: i < |s.journal| ==> EntryOwned(s, i))
    && (forall g: nat :: g < |s.grants| ==> IssueRecorded(s, g))
    && (forall h: nat :: h < |s.holds| ==> CaptureRecorded(s, h))
  }

  ghost predicate TablesOk(s: Ledger) {
    GrantsOk(s) && HoldsOk(s) && RowsOk(s)
  }

  ghost predicate AccountsOk(s: Ledger) {
    forall b: nat :: b < |s.accounts| ==>
      0 <= s.accounts[b].available <= INT64_MAX && 0 <= s.accounts[b].held <= INT64_MAX
  }

  /** The invariant while a refresh still owes `delta` to account a. */
  ghost predicate InvOwing(s: Ledger, a: nat, delta: int) {
    TablesOk(s) && AccountsOk(s) && AllBalanced(s, a, delta) && JournalOk(s) && NamesOk(s)
  }

  ghost predicate Inv(s: Ledger) {
    InvOwing(s, 0, 0)
  }

  lemma {:induction false} EmptyInv()
    ensures Inv(EMPTY)
  {
  }
}
