/** The outbox repository as it runs: one table, updated a row at a time. Every method is
    proved to take the step of the outbox that its call stands for. */
module OutboxRepository {
  import opened Outcomes
  import opened Positions
  import opened Sums
  import opened Sorting
  import opened Digests
  import opened Outbox
  import opened OutboxRows

  predicate SameRow(call: Call, row: Row) {
    match call
    case Renew(fence, _, _) => Fenced(row, fence)
    case Complete(fence, _) => Fenced(row, fence)
    case Retry(fence, _, _, _) => Fenced(row, fence)
    case DeadLetter(fence, _, _) => Fenced(row, fence)
    case RequeueDead(requeue, _) => Requeueable(row, requeue)
    case _ => false
  }

  /** The PRIMARY KEY. */
  predicate DistinctIds(rows: seq<Row>) {
    forall i, j :: 0 <= i < j < |rows| ==> rows[i].id != rows[j].id
  }

  /** The duration the call names, if it names one, and the generation it expects. */
  predicate InputOk(call: Call) {
    match call
    case Renew(_, ms, _) => DurationOk(ms)
    case Retry(_, _, ms, _) => DurationOk(ms)
    case RequeueDead(requeue, _) => IsSafeCount(requeue.expectedGeneration)
    case ClaimNext(claim, _, _, _) => ClaimOk(claim)
    case _ => true
  }

  lemma {:induction false} RefusedChangesNothing(rows: seq<Row>, call: Call)
    requires IsFenced(call) || call.RequeueDead? || call.ClaimNext?
    requires !InputOk(call)
    ensures Next(rows, call) == rows && AnswerTo(rows, call) == Refused(InvalidInput)
  {
  }

  lemma {:induction false} NoRowChangesNothing(rows: seq<Row>, call: Call)
    requires (IsFenced(call) || call.RequeueDead?) && InputOk(call)
    requires forall i: nat :: i < |rows| ==> !SameRow(call, rows[i])
    ensures Next(rows, call) == rows && AnswerTo(rows, call) == Done(false)
  {
    forall i: nat | i < |rows| ensures ChangeOf(rows, call, i) == Nothing { assert !SameRow(call, rows[i]); }
    assert Next(rows, call) == rows;
  }

  /** A call that names a row by its key changes that row or none. */
  lemma {:induction false} OneRowChanges(rows: seq<Row>, call: Call, r: nat)
    requires (IsFenced(call) || call.RequeueDead?) && InputOk(call)
    requires DistinctIds(rows) && r < |rows| && SameRow(call, rows[r])
    ensures Next(rows, call) == rows[r := Apply(rows[r], ChangeOf(rows, call, r))]
    ensures AnswerTo(rows, call) == Done(ChangeOf(rows, call, r) != Nothing)
  {
    forall i: nat | i < |rows| && i != r ensures !SameRow(call, rows[i]) && ChangeOf(rows, call, i) == Nothing {
      assert rows[i].id != rows[r].id;
    }
    assert Next(rows, call) == rows[r := Apply(rows[r], ChangeOf(rows, call, r))];
  }

  lemma {:induction false} IdsStay(rows: seq<Row>, call: Call)
    requires DistinctIds(rows)
    requires call.Enqueue? ==> forall i: nat :: i < |rows| ==> rows[i].id != call.id
    ensures DistinctIds(Next(rows, call))
  {
    var next := Next(rows, call);
    assert forall i: nat :: i < |rows| ==> next[i].id == rows[i].id;
  }

  // ----- ORDER BY next_attempt_at, id ... LIMIT -----

  predicate Earlier(rows: seq<Row>, r: nat, s: nat) {
    r < |rows| && s < |rows| && DueBefore(rows[r], rows[s])
  }

  predicate InDueOrder(rows: seq<Row>, due: seq<nat>) {
    forall i, j :: 0 <= i < j < |due| ==> Earlier(rows, due[i], due[j])
  }

  /** The free rows, in due order. */
  ghost predicate IsDue(rows: seq<Row>, claim: Claim, locked: set<nat>, now: int, due: seq<nat>) {
    InDueOrder(rows, due) && forall r: nat :: r in due <==> Available(rows, claim, locked, now, r)
  }

  function Members(xs: seq<nat>): set<nat> {
    set x | x in xs
  }

  lemma {:induction false} MembersCount(xs: seq<nat>)
    requires Distinct(xs)
    ensures |Members(xs)| == |xs|
  {
    if xs != [] {
      var init, last := xs[..|xs| - 1], xs[|xs| - 1];
      assert xs == init + [last];
      MembersCount(init);
      assert last !in init && Members(xs) == Members(init) + {last};
    }
  }

  lemma {:induction false} AheadIsBefore(rows: seq<Row>, claim: Claim, locked: set<nat>, now: int, due: seq<nat>,
                                         i: nat, q: nat)
    requires IsDue(rows, claim, locked, now, due) && i < |due|
    ensures q in Ahead(rows, claim, locked, now, due[i]) <==> q in due[..i]
  {
    assert due[i] in due;
    if q in due[..i] {
      var k :| 0 <= k < i && due[k] == q;
      assert q in due && Earlier(rows, due[k], due[i]);
    }
    if q in Ahead(rows, claim, locked, now, due[i]) {
      assert q in due;
      var k :| 0 <= k < |due| && due[k] == q;
      assert k < i;
      assert due[..i][k] == q;
    }
  }

  /** The rows ahead of the i-th due row are the i rows listed before it. */
  lemma {:induction false} RankIsPosition(rows: seq<Row>, claim: Claim, locked: set<nat>, now: int, due: seq<nat>,
                                          i: nat)
    requires IsDue(rows, claim, locked, now, due) && i < |due|
    ensures |Ahead(rows, claim, locked, now, due[i])| == i
  {
    var front := due[..i];
    var ahead := Ahead(rows, claim, locked, now, due[i]);
    assert Distinct(front) by {
      assert forall a, b :: 0 <= a < b < i ==> Earlier(rows, due[a], due[b]);
    }
    forall q ensures q in ahead <==> q in front { AheadIsBefore(rows, claim, locked, now, due, i, q); }
    assert ahead == Members(front);
    MembersCount(front);
  }

  /** The claim takes exactly the first `limit` due rows. */
  lemma {:induction false} PicksArePrefix(rows: seq<Row>, claim: Claim, locked: set<nat>, now: int, due: seq<nat>)
    requires ClaimOk(claim) && IsDue(rows, claim, locked, now, due)
    ensures var n := if claim.limit < |due| then claim.limit else |due|;
      forall r: nat :: r in due[..n] <==> Picks(rows, claim, locked, now, r)
  {
    var n := if claim.limit < |due| then claim.limit else |due|;
    forall r: nat ensures r in due[..n] <==> Picks(rows, claim, locked, now, r) {
      if r in due {
        var i :| 0 <= i < |due| && due[i] == r;
        RankIsPosition(rows, claim, locked, now, due, i);
        if i < n { assert due[..n][i] == r; }
        if r in due[..n] {
          var k :| 0 <= k < n && due[k] == r;
          assert k == i;
        }
      }
    }
  }

  lemma {:induction false} PickedRows(rows: seq<Row>, claim: Claim, locked: set<nat>, now: int, due: seq<nat>, n: nat)
    requires IsDue(rows, claim, locked, now, due) && n <= |due|
    ensures Distinct(due[..n]) && forall r <- due[..n] :: r < |rows|
  {
    forall i, j | 0 <= i < j < n ensures due[i] != due[j] { assert Earlier(rows, due[i], due[j]); }
    forall r | r in due[..n] ensures r < |rows| { assert r in due; }
  }

  lemma {:induction false} ClaimIsNext(rows: seq<Row>, updated: seq<Row>, chosen: seq<nat>, call: Call)
    requires call.ClaimNext? && ClaimOk(call.claim)
    requires forall r: nat :: r in chosen <==> Picks(rows, call.claim, call.locked, call.now, r)
    requires UpdatedTo(rows, chosen, call.token, call.now + call.claim.leaseMs, updated)
    ensures updated == Next(rows, call)
  {
    var next := Next(rows, call);
    forall r: nat | r < |rows| ensures next[r] == updated[r] {
      assert r in chosen <==> Picks(rows, call.claim, call.locked, call.now, r);
    }
  }

  /** The table after an UPDATE of the chosen rows. */
  predicate UpdatedTo(rows: seq<Row>, chosen: seq<nat>, token: nat, until: int, updated: seq<Row>) {
    && |updated| == |rows|
    && forall r: nat :: r < |rows| ==>
         updated[r] == if r in chosen then Apply(rows[r], Claimed(token, until)) else rows[r]
  }

  function LeasedRows(rows: seq<Row>, chosen: seq<nat>, token: nat, until: int): set<Leased> {
    set r | r in chosen && r < |rows| :: LeasedRow(rows[r], token, until)
  }

  lemma {:induction false} ClaimAnswers(rows: seq<Row>, chosen: seq<nat>, call: Call)
    requires call.ClaimNext? && ClaimOk(call.claim)
    requires forall r: nat :: r in chosen <==> Picks(rows, call.claim, call.locked, call.now, r)
    ensures AnswerTo(rows, call) == Leases(LeasedRows(rows, chosen, call.token, call.now + call.claim.leaseMs))
  {
    var until := call.now + call.claim.leaseMs;
    var picked := set r: nat | r < |rows| && Picks(rows, call.claim, call.locked, call.now, r) ::
                    LeasedRow(rows[r], call.token, until);
    assert picked == LeasedRows(rows, chosen, call.token, until);
  }

  /** The keys the candidates are ordered by. */
  function DueKey(rows: seq<Row>): nat -> seq<int> {
    (i: nat) => if i < |rows| then [rows[i].nextAttemptAt, rows[i].id] else []
  }

  lemma {:induction false} DueKeyOrders(rows: seq<Row>, r: nat, s: nat)
    requires r < |rows| && s < |rows|
    ensures ByText(DueKey(rows))(r, s) == DueBefore(rows[r], rows[s])
  {
    var a, b := [rows[r].nextAttemptAt, rows[r].id], [rows[s].nextAttemptAt, rows[s].id];
    assert a[1..] == [rows[r].id] && b[1..] == [rows[s].id];
    assert !LexBefore(a[1..][1..], b[1..][1..]);
    assert LexBefore(a[1..], b[1..]) == (rows[r].id < rows[s].id);
    assert LexBefore(a, b) == DueBefore(rows[r], rows[s]);
    assert DueKey(rows)(r) == a && DueKey(rows)(s) == b;
  }

  lemma {:induction false} SortedIsDueOrder(rows: seq<Row>, due: seq<nat>)
    requires DistinctIds(rows) && Distinct(due) && forall r <- due :: r < |rows|
    requires Sorted(due, ByText(DueKey(rows)))
    ensures InDueOrder(rows, due)
  {
    var before := ByText(DueKey(rows));
    forall i, j | 0 <= i < j < |due| ensures Earlier(rows, due[i], due[j]) {
      var r, s := due[i], due[j];
      assert r in due && s in due && !before(s, r) && r != s;
      DueKeyOrders(rows, s, r);
    }
  }

  class OutboxRepository {
    var rows: seq<Row>

    predicate Valid()
      reads this
    {
      DistinctIds(rows)
    }

    constructor ()
      ensures Valid() && rows == []
    {
      rows := [];
    }

    /** SELECT ... FOR UPDATE of the row a fence names. */
    method LockFence(fence: Fence) returns (row: Option<nat>)
      ensures row.Some? ==> row.value < |rows| && Fenced(rows[row.value], fence)
      ensures row.None? ==> forall i: nat :: i < |rows| ==> !Fenced(rows[i], fence)
    {
      var i := 0;
      while i < |rows|
        invariant 0 <= i <= |rows|
        invariant forall k: nat :: k < i ==> !Fenced(rows[k], fence)
      {
        if Fenced(rows[i], fence) { return Some(i); }
        i := i + 1;
      }
      row := None;
    }

    method Enqueue(event: Event, id: nat, now: int) returns (answer: Answer)
      requires Valid() && forall i: nat :: i < |rows| ==> rows[i].id != id
      modifies this
      ensures Valid()
      ensures rows == Next(old(rows), Call.Enqueue(event, id, now))
      ensures answer == AnswerTo(old(rows), Call.Enqueue(event, id, now))
    {
      IdsStay(rows, Call.Enqueue(event, id, now));
      assert Next(rows, Call.Enqueue(event, id, now)) == rows + Inserted(rows, Call.Enqueue(event, id, now));
      if event.eventType !in REGISTERED_EVENT_TYPES || event.version < 1 || !IsDigest(event.digest) {
        return Refused(InvalidInput);
      }
      var identity := ByIdentity(rows, event);
      var aggregate := ByAggregate(rows, event);
      if identity.Some? || aggregate.Some? {
        if identity.None? || aggregate.None? || identity.value != aggregate.value {
          return Refused(Conflict);
        }
        var row := rows[identity.value];
        if row.tenant != event.tenant || row.version != event.version || row.digest != event.digest {
          return Refused(Conflict);
        }
        return Enqueued(row.id);
      }
      rows := rows + [NewRow(event, id, now)];
      answer := Enqueued(id);
    }

    method ClaimNext(claim: Claim, token: nat, locked: set<nat>, now: int) returns (answer: Answer)
      requires Valid()
      modifies this
      ensures Valid()
      ensures rows == Next(old(rows), Call.ClaimNext(claim, token, locked, now))
      ensures answer == AnswerTo(old(rows), Call.ClaimNext(claim, token, locked, now))
    {
      ghost var call := Call.ClaimNext(claim, token, locked, now);
      IdsStay(rows, call);
      if !ClaimOk(claim) {
        RefusedChangesNothing(rows, call);
        return Refused(InvalidInput);
      }
      var chosen := SelectChosen(claim, locked, now);
      var leases := Lease(chosen, token, now + claim.leaseMs);
      ClaimIsNext(old(rows), rows, chosen, call);
      answer := Leases(leases);
      ClaimAnswers(old(rows), chosen, call);
    }

    /** The candidates of the claim. */
    method SelectChosen(claim: Claim, locked: set<nat>, now: int) returns (chosen: seq<nat>)
      requires Valid() && ClaimOk(claim)
      ensures Distinct(chosen) && forall r <- chosen :: r < |rows|
      ensures forall r: nat :: r in chosen <==> Picks(rows, claim, locked, now, r)
    {
      var due := SelectDue(claim, locked, now);
      PicksArePrefix(rows, claim, locked, now, due);
      chosen := due[..if claim.limit < |due| then claim.limit else |due|];
      PickedRows(rows, claim, locked, now, due, |chosen|);
    }

    /** SELECT ... ORDER BY next_attempt_at, id FOR UPDATE SKIP LOCKED. */
    method SelectDue(claim: Claim, locked: set<nat>, now: int) returns (due: seq<nat>)
      requires Valid()
      ensures IsDue(rows, claim, locked, now, due)
    {
      var table := rows;
      var candidates := Where(|table|, (r: nat) => Available(table, claim, locked, now, r));
      ByTextIsWeakOrder(DueKey(table));
      SortKeeps(candidates, ByText(DueKey(table)));
      due := Sort(candidates, ByText(DueKey(table)));
      SortedIsDueOrder(table, due);
    }

    /** The UPDATE of the chosen rows and its RETURNING list. */
    method Lease(chosen: seq<nat>, token: nat, until: int) returns (leases: set<Leased>)
      requires Distinct(chosen) && forall r <- chosen :: r < |rows|
      modifies this
      ensures UpdatedTo(old(rows), chosen, token, until, rows)
      ensures leases == LeasedRows(old(rows), chosen, token, until)
    {
      leases := {};
      for k := 0 to |chosen|
        invariant leases == LeasedRows(old(rows), chosen[..k], token, until)
        invariant UpdatedTo(old(rows), chosen[..k], token, until, rows)
      {
        var r := chosen[k];
        assert r in chosen && r < |rows|;
        assert r !in chosen[..k];
        assert chosen[..k + 1] == chosen[..k] + [r];
        rows := rows[r := rows[r].(lease := Some(Outbox.Lease(token, until)), attempts := rows[r].attempts + 1)];
        leases := leases + {Leased(rows[r].id, token, until, rows[r].attempts)};
      }
      assert chosen[..|chosen|] == chosen;
    }

    method Renew(fence: Fence, leaseMs: int, now: int) returns (answer: Answer)
      requires Valid()
      modifies this
      ensures Valid()
      ensures rows == Next(old(rows), Call.Renew(fence, leaseMs, now))
      ensures answer == AnswerTo(old(rows), Call.Renew(fence, leaseMs, now))
    {
      ghost var call := Call.Renew(fence, leaseMs, now);
      IdsStay(rows, call);
      if !DurationOk(leaseMs) {
        RefusedChangesNothing(rows, call);
        return Refused(InvalidInput);
      }
      var found := LockFence(fence);
      if found.None? {
        NoRowChangesNothing(rows, call);
        return Done(false);
      }
      var r := found.value;
      OneRowChanges(rows, call, r);
      if rows[r].lease.value.until > now {
        rows := rows[r := rows[r].(lease := Some(Outbox.Lease(fence.token, now + leaseMs)))];
        answer := Done(true);
      } else {
        answer := Done(false);
      }
    }

    method Retry(fence: Fence, errorCode: string, delayMs: int, now: int) returns (answer: Answer)
      requires Valid()
      modifies this
      ensures Valid()
      ensures rows == Next(old(rows), Call.Retry(fence, errorCode, delayMs, now))
      ensures answer == AnswerTo(old(rows), Call.Retry(fence, errorCode, delayMs, now))
    {
      ghost var call := Call.Retry(fence, errorCode, delayMs, now);
      IdsStay(rows, call);
      if !DurationOk(delayMs) {
        RefusedChangesNothing(rows, call);
        return Refused(InvalidInput);
      }
      var found := LockFence(fence);
      if found.None? {
        NoRowChangesNothing(rows, call);
        return Done(false);
      }
      var r := found.value;
      OneRowChanges(rows, call, r);
      if rows[r].lease.value.until > now {
        rows := rows[r := rows[r].(lease := None, nextAttemptAt := now + delayMs, errorCode := Some(errorCode))];
        answer := Done(true);
      } else {
        answer := Done(false);
      }
    }

    /** Completion and dead-lettering; an absent error code is stored as a default one. */
    method Terminal(fence: Fence, complete: bool, errorCode: Option<string>, now: int) returns (answer: Answer)
      requires Valid()
      modifies this
      ensures Valid()
      ensures rows == Next(old(rows), TerminalCall(fence, complete, errorCode, now))
      ensures answer == AnswerTo(old(rows), TerminalCall(fence, complete, errorCode, now))
    {
      ghost var call := TerminalCall(fence, complete, errorCode, now);
      IdsStay(rows, call);
      var found := LockFence(fence);
      if found.None? {
        NoRowChangesNothing(rows, call);
        return Done(false);
      }
      var r := found.value;
      OneRowChanges(rows, call, r);
      if rows[r].lease.value.until <= now { return Done(false); }
      if complete {
        rows := rows[r := rows[r].(completedAt := Some(now), lease := None, errorCode := None)];
      } else {
        var code := if errorCode.Some? then errorCode.value else "outbox.failed";
        rows := rows[r := rows[r].(deadLetteredAt := Some(now), lease := None, errorCode := Some(code))];
      }
      answer := Done(true);
    }

    method Requeue(requeue: Outbox.Requeue, now: int) returns (answer: Answer)
      requires Valid()
      modifies this
      ensures Valid()
      ensures rows == Next(old(rows), RequeueDead(requeue, now))
      ensures answer == AnswerTo(old(rows), RequeueDead(requeue, now))
    {
      ghost var call := RequeueDead(requeue, now);
      IdsStay(rows, call);
      if !IsSafeCount(requeue.expectedGeneration) {
        RefusedChangesNothing(rows, call);
        return Refused(InvalidInput);
      }
      var i := 0;
      while i < |rows|
        invariant 0 <= i <= |rows|
        invariant rows == old(rows)
        invariant forall k: nat :: k < i ==> !Requeueable(rows[k], requeue)
      {
        if Requeueable(rows[i], requeue) {
          OneRowChanges(rows, call, i);
          rows := rows[i := rows[i].(deadLetteredAt := None, errorCode := None, nextAttemptAt := now, attempts := 0,
                                     generation := rows[i].generation + 1)];
          return Done(true);
        }
        i := i + 1;
      }
      NoRowChangesNothing(rows, call);
      answer := Done(false);
    }
  }

  function TerminalCall(fence: Fence, complete: bool, errorCode: Option<string>, now: int): Call {
    if complete then Call.Complete(fence, now)
    else Call.DeadLetter(fence, if errorCode.Some? then errorCode.value else "outbox.failed", now)
  }
}
