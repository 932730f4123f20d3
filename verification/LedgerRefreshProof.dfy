/** Refreshing grant windows keeps the invariant, one grant row at a time. */
module LedgerRefreshProof {
  import opened Sums
  import opened Positions
  import opened BurnOrder
  import opened LedgerModel
  import opened LedgerInvariant

  // ----- reserved amounts -----

  lemma {:induction false} KeptNonNegative(s: Ledger, g: nat)
    requires RowsOk(s)
    ensures forall j: nat :: j < |s.allocations| ==> 0 <= KeptOf(s.holds, s.allocations, g)(j)
  {
    forall j: nat | j < |s.allocations| ensures 0 <= KeptOf(s.holds, s.allocations, g)(j) {
      assert RowOk(s, j);
    }
  }

  lemma {:induction false} ReservedNonNegative(s: Ledger, g: nat)
    requires RowsOk(s)
    ensures 0 <= Reserved(s.holds, s.allocations, g)
  {
    KeptNonNegative(s, g);
    SumNonNegative(|s.allocations|, KeptOf(s.holds, s.allocations, g));
  }

  // ----- appending to the journal -----

  lemma {:induction false} MaxIsCount(journal: seq<Entry>, a: nat)
    requires Numbered(journal)
    ensures MaxSequence(journal, a) == SumSeq(journal, CountOf(a))
  {
    if journal != [] {
      var front, last := journal[..|journal| - 1], journal[|journal| - 1];
      MaxIsCount(front, a);
      MaxIsCount(front, last.account);
    }
  }

  /** The next entry keeps the numbering; the running balances stay non-negative if the new one is. */
  lemma {:induction false} PushEntry(journal: seq<Entry>, e: Entry)
    requires Numbered(journal) && NeverNegative(journal)
    requires e.sequence == MaxSequence(journal, e.account) + 1
    requires 0 <= SumSeq(journal, AmountOf(e.account)) + e.amount
    ensures Numbered(journal + [e]) && NeverNegative(journal + [e])
    ensures forall a: nat :: SumSeq(journal + [e], AmountOf(a)) == SumSeq(journal, AmountOf(a)) + AmountOf(a)(e)
  {
    var after := journal + [e];
    assert after[..|after| - 1] == journal;
    MaxIsCount(journal, e.account);
    forall a: nat
      ensures SumSeq(after, AmountOf(a)) == SumSeq(journal, AmountOf(a)) + AmountOf(a)(e)
      ensures 0 <= SumSeq(after, AmountOf(a))
    {
      SumSeqPush(journal, e, AmountOf(a));
    }
  }

  /** The two journal properties, at any position. */
  lemma {:induction false} JournalAt(journal: seq<Entry>, i: nat, a: nat)
    requires Numbered(journal) && NeverNegative(journal) && i < |journal|
    ensures journal[i].sequence == 1 + SumSeq(journal[..i], CountOf(journal[i].account))
    ensures 0 <= SumSeq(journal[..i + 1], AmountOf(a))
    decreases |journal|
  {
    var n := |journal| - 1;
    if i < n {
      JournalAt(journal[..n], i, a);
      assert journal[..n][..i] == journal[..i] && journal[..n][..i + 1] == journal[..i + 1];
    } else {
      assert journal[..i + 1] == journal;
    }
  }

  // ----- one row -----

  /** What one refreshed grant row changes: its status, its remaining amount, and `d`. */
  ghost predicate RowChange(before: Grant, after: Grant, d: int) {
    && after == before.(status := after.status, remaining := after.remaining, lapsed := after.lapsed)
    && !after.status.Pending?
    && (if before.status.Pending?
        then (if after.status.Active? then after.remaining == before.remaining == d && !after.lapsed
              else after.status.Expired? && after.remaining == 0 == d && after.lapsed && !before.lapsed)
        else before.status.Active? && after.status.Expired? && d == after.remaining - before.remaining
             && !after.lapsed && !before.lapsed)
  }

  lemma {:induction false} RowTotals(s: Ledger, t: Ledger, g: nat, after: Grant, d: int, b: nat)
    requires g < |s.grants| && t.grants == s.grants[g := after]
    requires RowChange(s.grants[g], after, d)
    requires s.grants[g].status.Pending? ==> s.grants[g].remaining == s.grants[g].original
    requires s.grants[g].lapsed ==> s.grants[g].status.Expired?
    ensures Remaining(t, b) == Remaining(s, b) + (if b == s.grants[g].account then d else 0)
    ensures Booked(t, b) == Booked(s, b)
            + (if b == s.grants[g].account && s.grants[g].status.Active? then d else 0)
  {
    SumSwitch(|s.grants|, RemainingOf(s.grants, b), RemainingOf(t.grants, b), g);
    SumSwitch(|s.grants|, PendingOf(s.grants, b), PendingOf(t.grants, b), g);
    SumSwitch(|s.grants|, LapsedOf(s.grants, b), LapsedOf(t.grants, b), g);
  }

  lemma {:induction false} RefreshRowTables(s: Ledger, a: nat, g: nat, now: int)
    requires TablesOk(s) && g < |s.grants| && s.grants[g].account == a
    ensures var (t, d) := RefreshRow(s, a, g, now);
            TablesOk(t) && ((t == s && d == 0) || RowChange(s.grants[g], t.grants[g], d))
  {
    var (t, d) := RefreshRow(s, a, g, now);
    assert GrantOk(s, g);
    ReservedNonNegative(s, g);
    forall k: nat | k < |t.grants| ensures GrantOk(t, k) { assert GrantOk(s, k); }
    forall h: nat | h < |t.holds| ensures HoldOk(t, h) { assert HoldOk(s, h); }
    forall j: nat | j < |t.allocations| ensures RowOk(t, j) { assert RowOk(s, j); }
  }

  lemma {:induction false} RefreshRowJournal(s: Ledger, a: nat, g: nat, now: int)
    requires TablesOk(s) && JournalOk(s) && a < |s.accounts|
    requires g < |s.grants| && s.grants[g].account == a
    ensures JournalOk(RefreshRow(s, a, g, now).0)
  {
    var (t, d) := RefreshRow(s, a, g, now);
    RefreshRowTables(s, a, g, now);
    assert GrantOk(s, g);
    if t != s {
      forall b: nat ensures Booked(t, b) == Booked(s, b)
                            + (if b == a && s.grants[g].status.Active? then d else 0)
      {
        RowTotals(s, t, g, t.grants[g], d, b);
      }
      if s.grants[g].status.Active? && d < 0 {
        var e := Entry(a, MaxSequence(s.journal, a) + 1, Expiry(g), d);
        assert t.journal == s.journal + [e];
        BookedNonNegative(t, a);
        PushEntry(s.journal, e);
      }
    }
  }

  lemma {:induction false} BookedNonNegative(s: Ledger, a: nat)
    requires GrantsOk(s)
    ensures 0 <= Booked(s, a)
  {
    forall i: nat | i < |s.grants|
      ensures 0 <= RemainingOf(s.grants, a)(i) && 0 <= PendingOf(s.grants, a)(i) && 0 <= LapsedOf(s.grants, a)(i)
    {
      assert GrantOk(s, i);
    }
    SumNonNegative(|s.grants|, RemainingOf(s.grants, a));
    SumNonNegative(|s.grants|, PendingOf(s.grants, a));
    SumNonNegative(|s.grants|, LapsedOf(s.grants, a));
  }

  lemma {:induction false} RefreshRowNames(s: Ledger, a: nat, g: nat, now: int)
    requires NamesOk(s) && g < |s.grants| && (s.grants[g].lapsed ==> s.grants[g].status.Expired?)
    ensures NamesOk(RefreshRow(s, a, g, now).0)
  {
    var (t, d) := RefreshRow(s, a, g, now);
    forall i: nat | i < |t.journal| ensures EntryOwned(t, i) {
      if i < |s.journal| {
        assert t.journal[i] == s.journal[i];
        assert EntryOwned(s, i);
        match s.journal[i].kind
        case Issued(kind, ref) =>
          var k: nat :| HasSource(s.grants, kind, ref)(k);
          assert HasSource(t.grants, kind, ref)(k);
        case Debit(ref) =>
        case Expiry(_) =>
      }
    }
    forall i, j | 0 <= i < j < |t.journal| ensures t.journal[i].kind != t.journal[j].kind {
      if j == |s.journal| { assert EntryOwned(s, i); }
    }
    forall k: nat | k < |t.grants| ensures IssueRecorded(t, k) {
      assert IssueRecorded(s, k);
      var i: nat :| HasKind(s.journal, Issued(s.grants[k].sourceKind, s.grants[k].sourceRef))(i)
                    && s.journal[i].account == s.grants[k].account && s.journal[i].amount == s.grants[k].original;
      assert HasKind(t.journal, Issued(t.grants[k].sourceKind, t.grants[k].sourceRef))(i);
    }
    forall h: nat | h < |t.holds| ensures CaptureRecorded(t, h) {
      assert CaptureRecorded(s, h);
      var hold := s.holds[h];
      if hold.status.Captured? && hold.captured > 0 && hold.terminalSource.Some? {
        var i: nat :| HasKind(s.journal, Debit(hold.terminalSource.value))(i)
                      && s.journal[i].account == hold.account && s.journal[i].amount == -hold.captured;
        assert HasKind(t.journal, Debit(hold.terminalSource.value))(i);
      }
    }
  }

  lemma {:induction false} RefreshRowBalance(s: Ledger, a: nat, g: nat, now: int, delta: int)
    requires TablesOk(s) && AllBalanced(s, a, delta)
    requires g < |s.grants| && s.grants[g].account == a
    ensures var (t, d) := RefreshRow(s, a, g, now); AllBalanced(t, a, delta + d)
  {
    var (t, d) := RefreshRow(s, a, g, now);
    assert GrantOk(s, g);
    RefreshRowTables(s, a, g, now);
    var owed := delta + d;
    forall b: nat | b < |t.accounts| ensures Balanced(t, b, a, owed) {
      assert Balanced(s, b, a, delta);
      if t != s { RowTotals(s, t, g, t.grants[g], d, b); }
    }
  }

  lemma {:induction false} NotLapsed(s: Ledger, g: nat)
    requires GrantsOk(s) && g < |s.grants|
    ensures s.grants[g].lapsed ==> s.grants[g].status.Expired?
  {
    assert GrantOk(s, g);
  }

  lemma {:induction false} RefreshRowKeeps(s: Ledger, a: nat, g: nat, now: int, delta: int)
    requires InvOwing(s, a, delta) && a < |s.accounts|
    requires g < |s.grants| && s.grants[g].account == a
    ensures var (t, d) := RefreshRow(s, a, g, now); InvOwing(t, a, delta + d)
  {
    NotLapsed(s, g);
    RefreshRowTables(s, a, g, now);
    RefreshRowBalance(s, a, g, now, delta);
    RefreshRowJournal(s, a, g, now);
    RefreshRowNames(s, a, g, now);
  }

  /** Rows keep their account, so the rest of the walk stays inside account a. */
  lemma {:induction false} RefreshRowFrame(s: Ledger, a: nat, g: nat, now: int)
    ensures var (t, d) := RefreshRow(s, a, g, now);
            && t.accounts == s.accounts && t.holds == s.holds && t.allocations == s.allocations
            && |t.grants| == |s.grants|
            && (forall k: nat :: k < |s.grants| ==> t.grants[k].account == s.grants[k].account)
            && (forall k: nat :: k < |s.grants| && k != g ==> t.grants[k] == s.grants[k])
            && s.journal <= t.journal
  {
  }

  /** A walk over grant rows leaves the other tables alone and only appends to the journal. */
  ghost predicate Walked(s: Ledger, t: Ledger) {
    && t.accounts == s.accounts && t.holds == s.holds && t.allocations == s.allocations
    && |t.grants| == |s.grants| && s.journal <= t.journal
  }

  ghost predicate InAccount(grants: seq<Grant>, a: nat, order: seq<nat>) {
    forall i :: 0 <= i < |order| ==> order[i] < |grants| && grants[order[i]].account == a
  }

  lemma {:induction false} WalkOne(s: Ledger, a: nat, order: seq<nat>, now: int)
    requires order != [] && InAccount(s.grants, a, order)
    ensures var (t, d) := RefreshRow(s, a, order[0], now); Walked(s, t) && InAccount(t.grants, a, order[1..])
    ensures order[0] < |s.grants| && s.grants[order[0]].account == a
  {
    RefreshRowFrame(s, a, order[0], now);
    assert forall i :: 0 <= i < |order[1..]| ==> order[1..][i] == order[i + 1];
  }

  /** The walk from position k on is the row at k, then the walk from k + 1 on. */
  lemma {:induction false} WalkFrom(s: Ledger, a: nat, order: seq<nat>, k: nat, now: int)
    requires k < |order| && InAccount(s.grants, a, order[k..])
    ensures order[k] < |s.grants|
    ensures var (t, d) := RefreshRow(s, a, order[k], now);
            && InAccount(t.grants, a, order[k + 1..])
            && RefreshRows(s, a, order[k..], now)
               == (RefreshRows(t, a, order[k + 1..], now).0, d + RefreshRows(t, a, order[k + 1..], now).1)
  {
    assert order[k..][0] == order[k] && order[k..][1..] == order[k + 1..];
    WalkOne(s, a, order[k..], now);
  }

  lemma {:induction false} RefreshRowsKeep(s: Ledger, a: nat, order: seq<nat>, now: int, delta: int)
    requires InvOwing(s, a, delta) && a < |s.accounts| && InAccount(s.grants, a, order)
    ensures var (t, d) := RefreshRows(s, a, order, now); InvOwing(t, a, delta + d) && Walked(s, t)
    decreases |order|
  {
    if order != [] {
      var (s1, d1) := RefreshRow(s, a, order[0], now);
      WalkOne(s, a, order, now);
      RefreshRowKeeps(s, a, order[0], now, delta);
      RefreshRowsKeep(s1, a, order[1..], now, delta + d1);
    }
  }

  // ----- spendable credit is never negative -----

  function FreeOf(s: Ledger, a: nat): nat -> int {
    (i: nat) =>
      if i < |s.grants| && s.grants[i].account == a && !s.grants[i].status.Pending?
      then s.grants[i].remaining - Reserved(s.holds, s.allocations, i) else 0
  }

  function ReservedOf(s: Ledger, a: nat): nat -> int {
    (i: nat) => if i < |s.grants| && s.grants[i].account == a then Reserved(s.holds, s.allocations, i) else 0
  }

  /** What row j keeps for an open hold of account a. */
  function KeptFor(s: Ledger, a: nat): nat -> int {
    (j: nat) =>
      if j < |s.allocations| && IsOpen(s.holds, s.allocations[j].hold) && s.holds[s.allocations[j].hold].account == a
      then s.allocations[j].held else 0
  }

  function GrantColumn(s: Ledger): nat -> int {
    (j: nat) => if j < |s.allocations| then s.allocations[j].grant else -1
  }

  function HoldColumn(s: Ledger): nat -> int {
    (j: nat) => if j < |s.allocations| then s.allocations[j].hold else -1
  }

  /** Reservations counted grant by grant are the rows of the account's open holds. */
  lemma {:induction false} ReservedByGrant(s: Ledger, a: nat)
    requires RowsOk(s)
    ensures Sum(|s.grants|, ReservedOf(s, a)) == Sum(|s.allocations|, KeptFor(s, a))
  {
    var n := |s.allocations|;
    forall j: nat | j < n ensures 0 <= GrantColumn(s)(j) < |s.grants| { assert RowOk(s, j); }
    BucketsPartition(|s.grants|, n, GrantColumn(s), KeptFor(s, a));
    forall g: nat | g < |s.grants|
      ensures ReservedOf(s, a)(g) == BucketTotal(n, GrantColumn(s), KeptFor(s, a))(g)
    {
      var kept, bucket := KeptOf(s.holds, s.allocations, g), InBucket(GrantColumn(s), KeptFor(s, a), g);
      forall j: nat | j < n ensures bucket(j) == if s.grants[g].account == a then kept(j) else 0 {
        assert RowOk(s, j);
      }
      if s.grants[g].account == a { SumSame(n, kept, bucket); } else { SumZero(n, bucket); }
    }
    SumSame(|s.grants|, ReservedOf(s, a), BucketTotal(n, GrantColumn(s), KeptFor(s, a)));
  }

  /** And counted hold by hold they are the requested amounts of those holds. */
  lemma {:induction false} ReservedByHold(s: Ledger, a: nat)
    requires RowsOk(s) && HoldsOk(s)
    ensures OpenTotal(s, a) == Sum(|s.allocations|, KeptFor(s, a))
  {
    var n := |s.allocations|;
    forall j: nat | j < n ensures 0 <= HoldColumn(s)(j) < |s.holds| { assert RowOk(s, j); }
    BucketsPartition(|s.holds|, n, HoldColumn(s), KeptFor(s, a));
    forall h: nat | h < |s.holds|
      ensures OpenOf(s.holds, a)(h) == BucketTotal(n, HoldColumn(s), KeptFor(s, a))(h)
    {
      var bucket := InBucket(HoldColumn(s), KeptFor(s, a), h);
      assert HoldOk(s, h);
      if s.holds[h].status.Open? && s.holds[h].account == a {
        SumSame(n, HeldIn(s.allocations, h), bucket);
      } else {
        SumZero(n, bucket);
      }
    }
    SumSame(|s.holds|, OpenOf(s.holds, a), BucketTotal(n, HoldColumn(s), KeptFor(s, a)));
  }

  /** The spendable balance is exactly the unreserved remainder of the non-pending grants. */
  lemma {:induction false} AvailableIsFree(s: Ledger, a: nat, owner: nat, delta: int)
    requires TablesOk(s) && a < |s.accounts| && Balanced(s, a, owner, delta)
    ensures s.accounts[a].available + (if a == owner then delta else 0) == Sum(|s.grants|, FreeOf(s, a))
    ensures 0 <= Sum(|s.grants|, FreeOf(s, a))
    ensures 0 <= s.accounts[a].held
  {
    ReservedByGrant(s, a);
    ReservedByHold(s, a);
    forall i: nat | i < |s.grants|
      ensures RemainingOf(s.grants, a)(i) == FreeOf(s, a)(i) + ReservedOf(s, a)(i)
      ensures 0 <= FreeOf(s, a)(i)
    {
      assert GrantOk(s, i);
    }
    SumAdds(|s.grants|, FreeOf(s, a), ReservedOf(s, a), RemainingOf(s.grants, a));
    SumNonNegative(|s.grants|, FreeOf(s, a));
    forall h: nat | h < |s.holds| ensures 0 <= OpenOf(s.holds, a)(h) { assert HoldOk(s, h); }
    SumNonNegative(|s.holds|, OpenOf(s.holds, a));
  }

  // ----- the whole refresh -----

  lemma {:induction false} InvAnyOwner(s: Ledger, a: nat, b: nat)
    requires InvOwing(s, a, 0)
    ensures InvOwing(s, b, 0)
  {
    forall c: nat | c < |s.accounts| ensures Balanced(s, c, b, 0) { assert Balanced(s, c, a, 0); }
  }

  lemma {:induction false} RefreshOrderInAccount(s: Ledger, a: nat)
    ensures InAccount(s.grants, a, RefreshOrder(s, a))
    ensures Distinct(RefreshOrder(s, a))
    ensures forall g: nat :: g in RefreshOrder(s, a) <==> g < |s.grants| && s.grants[g].account == a
  {
    var rows := Where(|s.grants|, OfAccount(s.grants, a));
    SortByKeeps(rows, IdOf(s.grants));
    forall i | 0 <= i < |RefreshOrder(s, a)|
      ensures RefreshOrder(s, a)[i] < |s.grants| && s.grants[RefreshOrder(s, a)[i]].account == a
    {
      assert RefreshOrder(s, a)[i] in rows;
    }
  }

  /** Paying the owed delta into the account row settles the books. */
  lemma {:induction false} CreditKeeps(s: Ledger, t: Ledger, a: nat, delta: int)
    requires InvOwing(s, a, delta) && a < |s.accounts|
    requires Project(s.accounts[a], delta, 0).Ok?
    requires t == s.(accounts := s.accounts[a := Project(s.accounts[a], delta, 0).value])
    ensures Inv(t)
  {
    forall g: nat | g < |t.grants| ensures GrantOk(t, g) { assert GrantOk(s, g); }
    forall h: nat | h < |t.holds| ensures HoldOk(t, h) { assert HoldOk(s, h); }
    forall j: nat | j < |t.allocations| ensures RowOk(t, j) { assert RowOk(s, j); }
    forall b: nat | b < |t.accounts| ensures Balanced(t, b, 0, 0) { assert Balanced(s, b, a, delta); }
    forall b: nat ensures JournalTotal(t, b) == Booked(t, b) { assert JournalTotal(s, b) == Booked(s, b); }
    forall i: nat | i < |t.journal| ensures EntryOwned(t, i) { assert EntryOwned(s, i); }
    forall g: nat | g < |t.grants| ensures IssueRecorded(t, g) { assert IssueRecorded(s, g); }
    forall h: nat | h < |t.holds| ensures CaptureRecorded(t, h) { assert CaptureRecorded(s, h); }
  }

  /** The walk over the grant rows of one refresh, before the account row is updated. */
  lemma {:induction false} RefreshWalk(s: Ledger, a: nat, now: int)
    requires Inv(s) && a < |s.accounts|
    ensures var (t, delta) := RefreshRows(s, a, RefreshOrder(s, a), now);
            InvOwing(t, a, delta) && 0 <= s.accounts[a].available + delta && Walked(s, t)
  {
    var order := RefreshOrder(s, a);
    assert InAccount(s.grants, a, order) by { RefreshOrderInAccount(s, a); }
    InvAnyOwner(s, 0, a);
    RefreshRowsKeep(s, a, order, now, 0);
    FreeAfterWalk(RefreshRows(s, a, order, now).0, a, RefreshRows(s, a, order, now).1);
  }

  lemma {:induction false} FreeAfterWalk(t: Ledger, a: nat, delta: int)
    requires InvOwing(t, a, delta) && a < |t.accounts|
    ensures 0 <= t.accounts[a].available + delta
  {
    assert Balanced(t, a, a, delta);
    AvailableIsFree(t, a, a, delta);
  }

  /** A refresh keeps the invariant, and its possibly negative delta never overdraws the
      account: it can only fail by leaving the range of BIGINT at the top. */
  lemma {:induction false} RefreshKeeps(s: Ledger, a: nat, now: int)
    requires Inv(s) && a < |s.accounts|
    ensures var (t, delta) := RefreshRows(s, a, RefreshOrder(s, a), now);
            && 0 <= s.accounts[a].available + delta
            && (RefreshStep(s, a, now).Failed? <==> s.accounts[a].available + delta > INT64_MAX)
    ensures RefreshStep(s, a, now).Done? ==>
              var t := RefreshStep(s, a, now).after;
              Inv(t) && t.holds == s.holds && t.allocations == s.allocations && |t.accounts| == |s.accounts|
              && |t.grants| == |s.grants|
  {
    var order := RefreshOrder(s, a);
    RefreshWalk(s, a, now);
    var (t, delta) := RefreshRows(s, a, order, now);
    assert 0 <= s.accounts[a].available <= INT64_MAX && 0 <= s.accounts[a].held <= INT64_MAX;
    if delta == 0 {
      InvAnyOwner(t, a, 0);
    } else if Project(t.accounts[a], delta, 0).Ok? {
      CreditKeeps(t, RefreshStep(s, a, now).after, a, delta);
    }
  }

  // ----- what a refresh means -----

  lemma {:induction false} RefreshRowsPointwise(s: Ledger, a: nat, order: seq<nat>, now: int)
    requires Distinct(order) && forall i :: 0 <= i < |order| ==> order[i] < |s.grants|
    ensures var t := RefreshRows(s, a, order, now).0;
            && t == s.(grants := t.grants, journal := t.journal) && |t.grants| == |s.grants|
            && forall g: nat :: g < |s.grants| ==>
                 t.grants[g] == if g in order then RefreshRow(s, a, g, now).0.grants[g] else s.grants[g]
    decreases |order|
  {
    if order != [] {
      var x, rest := order[0], order[1..];
      var s1 := RefreshRow(s, a, x, now).0;
      assert order == [x] + rest;
      assert forall i :: 0 <= i < |rest| ==> rest[i] == order[i + 1];
      RefreshRowsPointwise(s1, a, rest, now);
    }
  }

  /** No grant of the account is left pending inside its window or alive past its expiry. */
  ghost predicate UpToDate(s: Ledger, a: nat, now: int) {
    forall g: nat :: g < |s.grants| && s.grants[g].account == a ==> RowUpToDate(s.grants[g], now)
  }

  predicate RowUpToDate(grant: Grant, now: int) {
    && !(grant.status.Pending? && WindowOpen(grant, now))
    && !(!grant.status.Expired? && WindowOver(grant, now))
  }

  lemma {:induction false} UpToDateRowsStay(s: Ledger, a: nat, order: seq<nat>, now: int)
    requires UpToDate(s, a, now)
    requires forall i :: 0 <= i < |order| ==> order[i] < |s.grants| && s.grants[order[i]].account == a
    ensures RefreshRows(s, a, order, now) == (s, 0)
    decreases |order|
  {
    if order != [] {
      assert forall i :: 0 <= i < |order[1..]| ==> order[1..][i] == order[i + 1];
      UpToDateRowsStay(s, a, order[1..], now);
    }
  }

  lemma {:induction false} RefreshBringsUpToDate(s: Ledger, a: nat, now: int)
    requires RefreshStep(s, a, now).Done?
    ensures var t := RefreshStep(s, a, now).after;
            && UpToDate(t, a, now) && |t.grants| == |s.grants|
            && (forall g: nat :: g < |s.grants| && s.grants[g].account != a ==> t.grants[g] == s.grants[g])
  {
    var order := RefreshOrder(s, a);
    RefreshOrderInAccount(s, a);
    RefreshRowsPointwise(s, a, order, now);
    var t := RefreshRows(s, a, order, now).0;
    assert RefreshStep(s, a, now).after.grants == t.grants;
    forall g: nat | g < |t.grants| && t.grants[g].account == a ensures RowUpToDate(t.grants[g], now) {
      RefreshRowFrame(s, a, g, now);
      assert g in order;
      RefreshedRow(s, a, g, now);
    }
  }

  lemma {:induction false} RefreshedRow(s: Ledger, a: nat, g: nat, now: int)
    requires g < |s.grants|
    ensures g < |RefreshRow(s, a, g, now).0.grants| && RowUpToDate(RefreshRow(s, a, g, now).0.grants[g], now)
  {
  }

  /** A refresh brings every grant of the account up to date, touches no other grant, and
      repeating it at the same instant changes nothing. */
  lemma {:induction false} RefreshSettles(s: Ledger, a: nat, now: int)
    requires RefreshStep(s, a, now).Done?
    ensures var t := RefreshStep(s, a, now).after;
            && UpToDate(t, a, now) && |t.grants| == |s.grants|
            && (forall g: nat :: g < |s.grants| && s.grants[g].account != a ==> t.grants[g] == s.grants[g])
            && RefreshStep(t, a, now) == Done(t, ())
  {
    var t := RefreshStep(s, a, now).after;
    RefreshBringsUpToDate(s, a, now);
    RefreshOrderInAccount(t, a);
    UpToDateRowsStay(t, a, RefreshOrder(t, a), now);
  }
}
