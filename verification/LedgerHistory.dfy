/** Reading the history of an account while the ledger runs on. */
module LedgerHistory {
  import opened Outcomes
  import opened Positions
  import opened LedgerModel
  import opened LedgerInvariant
  import opened LedgerRuns
  import opened LedgerPaging

  predicate AllOrderly(steps: seq<Step>) {
    forall i :: 0 <= i < |steps| ==> Orderly(steps[i])
  }

  // ----- what the steps write -----

  /** The caller named the source of a grant: neither text is empty. */
  predicate Named(input: GrantInput) {
    input.sourceKind != "" && input.sourceRef != ""
  }

  /** The step issues a new grant to account a. */
  predicate IssuesTo(s: Ledger, step: Step, a: nat) {
    && step.Grant? && OpenedFor(s, step.grant.subject).1 == a
    && First(|s.grants|, HasSource(s.grants, step.grant.sourceKind, step.grant.sourceRef)).None?
    && GrantStep(s, step.grant, step.clocks, step.uuid).Done?
  }

  /** An entry of a capture or a refresh. */
  predicate Routine(e: Entry) {
    e.kind.Expiry? || (e.kind.Debit? && ValidSource(e.kind.usageRef))
  }

  lemma {:induction false} RoutineIsSourced(e: Entry)
    requires Routine(e)
    ensures StoredTexts(e.kind) && Sourced(e.kind)
  {
  }

  /** The step appends routine entries only. */
  ghost predicate AddsRoutine(before: seq<Entry>, after: seq<Entry>) {
    before <= after && forall i :: |before| <= i < |after| ==> Routine(after[i])
  }

  lemma {:induction false} RefreshRowsAdd(s: Ledger, a: nat, order: seq<nat>, now: int)
    ensures AddsRoutine(s.journal, RefreshRows(s, a, order, now).0.journal)
    decreases |order|
  {
    if order != [] {
      var s1 := RefreshRow(s, a, order[0], now).0;
      assert AddsRoutine(s.journal, s1.journal);
      RefreshRowsAdd(s1, a, order[1..], now);
    }
  }

  lemma {:induction false} FinishAdds(s: Ledger, h: nat, actual: int, source: string, terminal: HoldStatus)
    ensures AddsRoutine(s.journal, AfterOf(s, FinishStep(s, h, actual, source, terminal)).journal)
  {
    if h < |s.holds| {
      var s0 := s.(holds := s.holds[h := Terminated(s.holds[h], actual, source, terminal)]);
      ChargeRowsGrow(s0, s.holds[h].account, HoldOrder(s, h), actual);
    }
  }

  lemma {:induction false} OtherStepsAdd(s: Ledger, step: Step)
    requires !step.Grant?
    ensures AddsRoutine(s.journal, Apply(s, step).journal)
  {
    match step
    case Reserve(input, c1, c2) => RefreshRowsAdd(s, input.account, RefreshOrder(s, input.account), c1);
    case Capture(h, actual, source) => FinishAdds(s, h, actual, source, Captured);
    case Release(h, source) => FinishAdds(s, h, 0, source, Released);
    case Refresh(a, now) => RefreshRowsAdd(s, a, RefreshOrder(s, a), now);
  }

  lemma {:induction false} GrantAdds(s: Ledger, step: Step)
    requires step.Grant?
    ensures var a := OpenedFor(s, step.grant.subject).1;
            var kind := Issued(step.grant.sourceKind, step.grant.sourceRef);
            if IssuesTo(s, step, a)
            then StoredTexts(kind)
                 && Apply(s, step).journal == s.journal + [Entry(a, MaxSequence(s.journal, a) + 1, kind, step.grant.amount)]
            else Apply(s, step).journal == s.journal
  {
  }

  lemma {:induction false} InvalidAfter(before: seq<Entry>, after: seq<Entry>, a: nat)
    requires before <= after && Stored(before)
    requires forall i :: |before| <= i < |after| ==> StoredTexts(after[i].kind) && after[i].amount != 0
    ensures Stored(after)
    ensures InvalidRow(after, a) <==>
              InvalidRow(before, a)
              || exists i :: |before| <= i < |after| && after[i].account == a && !Sourced(after[i].kind)
  {
    forall i | 0 <= i < |after| ensures StoredTexts(after[i].kind) {
      if i < |before| { assert after[i] == before[i]; }
    }
    if InvalidRow(before, a) {
      var i :| 0 <= i < |before| && before[i].account == a && InvalidEntry(before[i]);
      assert after[i] == before[i] && InvalidEntry(after[i]);
    }
    forall i | 0 <= i < |after| && after[i].account == a && InvalidEntry(after[i])
      ensures InvalidRow(before, a) || (|before| <= i && !Sourced(after[i].kind))
    {
      if i < |before| { assert after[i] == before[i] && InvalidEntry(before[i]); }
    }
    forall i | |before| <= i < |after| && after[i].account == a && !Sourced(after[i].kind) ensures InvalidRow(after, a) {
      assert InvalidEntry(after[i]);
    }
  }

  /** A step makes the history of account a unreadable exactly by issuing it a grant without a
      named source. */
  lemma {:induction false} StepReads(s: Ledger, step: Step, a: nat)
    requires Inv(s) && Orderly(step) && Stored(s.journal)
    ensures var t := Apply(s, step);
            && Stored(t.journal)
            && (InvalidRow(t.journal, a) <==> InvalidRow(s.journal, a) || (IssuesTo(s, step, a) && !Named(step.grant)))
  {
    var t := Apply(s, step);
    StepKeeps(s, step);
    if step.Grant? {
      GrantAdds(s, step);
    } else {
      OtherStepsAdd(s, step);
      forall i | |s.journal| <= i < |t.journal| ensures StoredTexts(t.journal[i].kind) && Sourced(t.journal[i].kind) {
        RoutineIsSourced(t.journal[i]);
      }
    }
    InvalidAfter(s.journal, t.journal, a);
  }

  /** If step i issues a grant to account a, its source is named. */
  predicate NamedAt(s: Ledger, steps: seq<Step>, i: nat, a: nat)
    requires i < |steps|
  {
    IssuesTo(Run(s, steps[..i]), steps[i], a) ==> Named(steps[i].grant)
  }

  /** Every grant that the steps issue to account a has a named source. */
  predicate NamesSources(s: Ledger, steps: seq<Step>, a: nat) {
    forall i: nat {:trigger NamedAt(s, steps, i, a)} :: i < |steps| ==> NamedAt(s, steps, i, a)
  }

  lemma {:induction false} NamedAtPrefix(s: Ledger, steps: seq<Step>, n: nat, i: nat, a: nat)
    requires i < n <= |steps|
    ensures NamedAt(s, steps[..n], i, a) == NamedAt(s, steps, i, a)
  {
    assert steps[..n][..i] == steps[..i];
  }

  lemma {:induction false} NamesSourcesSnoc(s: Ledger, steps: seq<Step>, n: nat, a: nat)
    requires |steps| == n + 1
    ensures NamesSources(s, steps, a) <==> NamesSources(s, steps[..n], a) && NamedAt(s, steps, n, a)
  {
    forall i: nat | i < n ensures NamedAt(s, steps[..n], i, a) == NamedAt(s, steps, i, a) {
      NamedAtPrefix(s, steps, n, i, a);
    }
  }

  lemma {:induction false} LastStepReads(s: Ledger, steps: seq<Step>, n: nat, a: nat)
    requires |steps| == n + 1 && Inv(Run(s, steps[..n])) && Stored(Run(s, steps[..n]).journal) && Orderly(steps[n])
    ensures Stored(Run(s, steps).journal)
    ensures InvalidRow(Run(s, steps).journal, a)
            <==> InvalidRow(Run(s, steps[..n]).journal, a) || !NamedAt(s, steps, n, a)
  {
    StepReads(Run(s, steps[..n]), steps[n], a);
  }

  lemma {:induction false} RunReads(s: Ledger, steps: seq<Step>, a: nat)
    requires Inv(s) && AllOrderly(steps) && Stored(s.journal)
    ensures Stored(Run(s, steps).journal)
    ensures InvalidRow(Run(s, steps).journal, a) <==> InvalidRow(s.journal, a) || !NamesSources(s, steps, a)
  {
    if steps != [] {
      var n := |steps| - 1;
      EveryRunKeeps(s, steps[..n]);
      RunReads(s, steps[..n], a);
      LastStepReads(s, steps, n, a);
      NamesSourcesSnoc(s, steps, n, a);
    }
  }

  lemma {:induction false} SoundWhenReadable(s: Ledger, a: nat)
    requires Inv(s) && Stored(s.journal)
    ensures Sound(s.journal, a) <==> !InvalidRow(s.journal, a)
  {
    WritersSatisfyReader(s.journal, a);
  }

  // ----- one reading -----

  /** A subject reads the journal of its own account, which is found and has sound balances. */
  lemma {:induction false} ReadsOwnAccount(s: Ledger, a: nat, limit: nat, cursor: Option<Cursor>)
    requires Inv(s) && a < |s.accounts|
    ensures ReadLedger(s, s.accounts[a].subject, limit, cursor) == ReadPage(s.journal, a, limit, cursor)
  {
    assert HasSubject(s.accounts, s.accounts[a].subject)(a);
  }

  /** The writers accept a grant whose source is empty, and the reader then refuses the account:
      after any run a subject can read its history if and only if every grant issued to its
      account named its source. Otherwise every reading reports corruption. */
  lemma {:induction false} ReaderAcceptsExactly(steps: seq<Step>, a: nat, limit: nat)
    requires AllOrderly(steps) && 0 < limit
    ensures var s := Run(EMPTY, steps);
            a < |s.accounts| ==>
              var subject := s.accounts[a].subject;
              && (ReadLedger(s, subject, limit, None).Ok? <==> NamesSources(EMPTY, steps, a))
              && (!NamesSources(EMPTY, steps, a) ==>
                    forall cursor: Option<Cursor> :: (cursor.Some? ==> cursor.value.account == a) ==>
                      ReadLedger(s, subject, limit, cursor) == Err(Corrupt))
  {
    var s := Run(EMPTY, steps);
    EmptyInv();
    EveryRunKeeps(EMPTY, steps);
    RunReads(EMPTY, steps, a);
    SoundWhenReadable(s, a);
    if a < |s.accounts| {
      forall cursor: Option<Cursor>
        ensures ReadLedger(s, s.accounts[a].subject, limit, cursor) == ReadPage(s.journal, a, limit, cursor)
      {
        ReadsOwnAccount(s, a, limit, cursor);
      }
      if NamesSources(EMPTY, steps, a) {
        var high := |History(s.journal, a)|;
        FirstReads(s.journal, limit, a, high);
        if 0 < high { FirstPage(s.journal, limit, a, high); }
      }
    }
  }

  /** On concrete values: a grant with an empty reference succeeds, and its account is unreadable. */
  lemma {:induction false} EmptySourceIsUnreadable(limit: nat, cursor: Option<Cursor>)
    requires cursor.Some? ==> cursor.value.account == 0
    ensures var o := GrantStep(EMPTY, GrantInput("alice", 100, "promo", "", "trial", 0, None, 0), GrantClocks(1, 1, 1), 1);
            o.Done? && ReadLedger(o.after, "alice", limit, cursor) == Err(Corrupt)
  {
    var input := GrantInput("alice", 100, "promo", "", "trial", 0, None, 0);
    assert First(0, HasSubject([], "alice")).None?;
    var t := GrantStep(EMPTY, input, GrantClocks(1, 1, 1), 1).after;
    assert HasSubject(t.accounts, "alice")(0);
    assert First(1, HasSubject(t.accounts, "alice")) == Some(0);
    assert t.journal[0].kind == Issued("promo", "") && InvalidEntry(t.journal[0]);
  }

  // ----- sessions -----

  /** The journal as each page of a session finds it: one batch of steps runs before each page. */
  function JournalsAlong(s: Ledger, batches: seq<seq<Step>>): (r: seq<seq<Entry>>)
    ensures |r| == |batches|
    decreases |batches|
  {
    if batches == [] then []
    else [Run(s, batches[0]).journal] + JournalsAlong(Run(s, batches[0]), batches[1..])
  }

  lemma {:induction false} JournalsPrefix(s: Ledger, batches: seq<seq<Step>>, k: nat)
    requires k <= |batches|
    ensures JournalsAlong(s, batches[..k]) == JournalsAlong(s, batches)[..k]
    decreases k
  {
    if k > 0 {
      JournalsPrefix(Run(s, batches[0]), batches[1..], k - 1);
      assert batches[..k][1..] == batches[1..][..k - 1];
    }
  }

  lemma {:induction false} RunAppends(s: Ledger, steps: seq<Step>)
    ensures s.journal <= Run(s, steps).journal
  {
    if steps != [] {
      RunAppends(s, steps[..|steps| - 1]);
      StepGrows(Run(s, steps[..|steps| - 1]), steps[|steps| - 1]);
    }
  }

  predicate BatchesOrderly(batches: seq<seq<Step>>) {
    forall i :: 0 <= i < |batches| ==> AllOrderly(batches[i])
  }

  /** Every grant that the batches issue to account a has a named source. */
  predicate BatchesNamed(s: Ledger, batches: seq<seq<Step>>, a: nat)
    decreases |batches|
  {
    batches == [] || (NamesSources(s, batches[0], a) && BatchesNamed(Run(s, batches[0]), batches[1..], a))
  }

  /** A ledger as a run leaves it. */
  ghost predicate Reached(s: Ledger) {
    Inv(s) && Stored(s.journal)
  }

  lemma {:induction false} AfterBatch(s: Ledger, batches: seq<seq<Step>>, a: nat)
    requires Reached(s) && batches != [] && BatchesOrderly(batches)
    ensures var t := Run(s, batches[0]);
            && Reached(t) && BatchesOrderly(batches[1..]) && s.journal <= t.journal
            && (InvalidRow(t.journal, a) <==> InvalidRow(s.journal, a) || !NamesSources(s, batches[0], a))
  {
    assert forall i :: 0 <= i < |batches[1..]| ==> batches[1..][i] == batches[i + 1];
    EveryRunKeeps(s, batches[0]);
    RunReads(s, batches[0], a);
    RunAppends(s, batches[0]);
  }

  lemma {:induction false} BatchesNamedCons(s: Ledger, batches: seq<seq<Step>>, a: nat, k: nat)
    requires k < |batches|
    ensures BatchesNamed(s, batches[..k + 1], a)
            <==> NamesSources(s, batches[0], a) && BatchesNamed(Run(s, batches[0]), batches[1..][..k], a)
  {
    assert batches[..k + 1][0] == batches[0] && batches[..k + 1][1..] == batches[1..][..k];
  }

  lemma {:induction false} JournalsCons(s: Ledger, batches: seq<seq<Step>>, k: nat)
    requires k < |batches|
    ensures var t := Run(s, batches[0]);
            JournalsAlong(s, batches)[k] == if k == 0 then t.journal else JournalsAlong(t, batches[1..])[k - 1]
  {
  }

  /** Page k finds a readable journal exactly if every grant issued until then named its source. */
  lemma {:induction false} PageReads(s: Ledger, batches: seq<seq<Step>>, a: nat, k: nat)
    requires Reached(s) && BatchesOrderly(batches) && k < |batches|
    ensures InvalidRow(JournalsAlong(s, batches)[k], a)
            <==> InvalidRow(s.journal, a) || !BatchesNamed(s, batches[..k + 1], a)
    decreases k
  {
    AfterBatch(s, batches, a);
    BatchesNamedCons(s, batches, a, k);
    JournalsCons(s, batches, k);
    if k == 0 {
      assert BatchesNamed(Run(s, batches[0]), batches[1..][..0], a);
    } else {
      PageReads(Run(s, batches[0]), batches[1..], a, k - 1);
    }
  }

  lemma {:induction false} GrowingCons(history: seq<Item>, first: seq<Entry>, rest: seq<seq<Entry>>, a: nat)
    requires Extends(history, first, a) && Growing(history, rest, a)
    ensures Growing(history, [first] + rest, a)
  {
    forall i | 0 <= i < |[first] + rest| ensures Extends(history, ([first] + rest)[i], a) {
      if i > 0 { assert Extends(history, rest[i - 1], a) && ([first] + rest)[i] == rest[i - 1]; }
    }
  }

  lemma {:induction false} JournalsGrow(history: seq<Item>, s: Ledger, batches: seq<seq<Step>>, a: nat)
    requires Reached(s) && Sound(s.journal, a) && history <= History(s.journal, a)
    requires BatchesOrderly(batches) && BatchesNamed(s, batches, a)
    ensures Growing(history, JournalsAlong(s, batches), a)
    decreases |batches|
  {
    if batches != [] {
      var t := Run(s, batches[0]);
      AfterBatch(s, batches, a);
      SoundWhenReadable(s, a);
      SoundWhenReadable(t, a);
      HistoryGrows(s.journal, t.journal, a);
      JournalsGrow(history, t, batches[1..], a);
      GrowingCons(history, t.journal, JournalsAlong(t, batches[1..]), a);
    }
  }

  /** A session while every grant issued to the account names its source. */
  lemma {:induction false} NamedPaging(batches: seq<seq<Step>>, limits: seq<nat>, a: nat)
    requires |batches| == |limits| && batches != [] && AllPositive(limits)
    requires BatchesOrderly(batches) && BatchesNamed(EMPTY, batches, a)
    ensures var journals := JournalsAlong(EMPTY, batches);
            var history := History(journals[0], a);
            Continues(Follow(journals, limits, a, None), history, |history|, |batches|)
  {
    var t := Run(EMPTY, batches[0]);
    EmptyInv();
    AfterBatch(EMPTY, batches, a);
    SoundWhenReadable(t, a);
    var history := History(t.journal, a);
    JournalsGrow(history, t, batches[1..], a);
    GrowingCons(history, t.journal, JournalsAlong(t, batches[1..]), a);
    PagingShowsHistoryOnce(JournalsAlong(EMPTY, batches), limits, a);
  }

  /** A session that follows nextCursor while any ledger operations run between its pages, where
      the first k batches name the source of every grant they issue to the account and the next
      one, if there is one, does not. The first k pages show each entry present at the first
      page exactly once, newest first and with its running balance, and the session is finished
      after as many pages as there are entries. It is told that the history is corrupt if and only
      if it was not finished by then. */
  lemma {:induction false} PagingDuringAnyRun(batches: seq<seq<Step>>, limits: seq<nat>, a: nat, k: nat)
    requires |batches| == |limits| && AllPositive(limits) && BatchesOrderly(batches)
    requires k <= |batches| && BatchesNamed(EMPTY, batches[..k], a)
    requires k < |batches| ==> !BatchesNamed(EMPTY, batches[..k + 1], a)
    ensures var journals := JournalsAlong(EMPTY, batches);
            var session := Follow(journals[..k], limits[..k], a, None);
            && (0 < k ==> var history := History(journals[0], a); Continues(session, history, |history|, k))
            && (Follow(journals, limits, a, None).failed <==> k < |batches| && !session.finished)
            && (session.finished ==> Follow(journals, limits, a, None) == session)
  {
    var journals := JournalsAlong(EMPTY, batches);
    JournalsPrefix(EMPTY, batches, k);
    EmptyInv();
    if k > 0 {
      assert batches[..k][0] == batches[0];
      NamedPaging(batches[..k], limits[..k], a);
    }
    if k < |batches| {
      PageReads(EMPTY, batches, a, k);
      FollowStops(journals, limits, a, None, k);
    } else {
      assert batches[..k] == batches && journals[..k] == journals && limits[..k] == limits;
    }
  }
}
