/** What each outbox call does over every run, in the columns of the rows: which rows a claim
    leases and in what order, what the fenced calls and a requeue demand and leave, and what an
    enqueue stores. */
module OutboxColumns {
  import opened Outcomes
  import opened Positions
  import opened Sorting
  import opened Digests
  import opened Outbox
  import opened OutboxRows
  import opened OutboxRuns
  import opened OutboxRepository

  lemma {:induction false} RunIdsDistinct(run: Run, k: nat)
    requires IsRun(run)
    ensures DistinctIds(run.rows(k))
  {
    var rows := run.rows(k);
    forall i: nat, j: nat | i < j < |rows| && rows[i].id == rows[j].id ensures false {
      assert RowAt(run, k, i) == Some(rows[i]) && RowAt(run, k, j) == Some(rows[j]);
      IdsAreUnique(run, k, i, j);
    }
  }

  // ----- claims -----

  /** The duration, the limit and the event types of a claim are admitted. */
  predicate Admitted(claim: Claim) {
    && 1 <= claim.leaseMs <= 0x7FFF_FFFF && 1 <= claim.limit <= 100 && 0 < |claim.eventTypes|
    && forall t :: t in claim.eventTypes ==>
         || t == "PaymentProviderEventReceived" || t == "RefundCreditEffectRequested"
         || t == "SubscriptionCreditGrantRequested"
  }

  lemma {:induction false} AdmittedExactly(claim: Claim)
    ensures ClaimOk(claim) <==> Admitted(claim)
  {
    forall t | t in claim.eventTypes && ClaimOk(claim)
      ensures t == REGISTERED_EVENT_TYPES[0] || t == REGISTERED_EVENT_TYPES[1] || t == REGISTERED_EVENT_TYPES[2]
    {
      var k :| 0 <= k < |claim.eventTypes| && claim.eventTypes[k] == t;
    }
    if Admitted(claim) {
      assert REGISTERED_EVENT_TYPES[0] in REGISTERED_EVENT_TYPES && REGISTERED_EVENT_TYPES[1] in REGISTERED_EVENT_TYPES;
      assert REGISTERED_EVENT_TYPES[2] in REGISTERED_EVENT_TYPES;
      forall k | 0 <= k < |claim.eventTypes| ensures claim.eventTypes[k] in REGISTERED_EVENT_TYPES {
        assert claim.eventTypes[k] in claim.eventTypes;
      }
    }
  }

  /** Call k claims. */
  predicate ClaimsAt(run: Run, k: nat) {
    run.call(k).ClaimNext?
  }

  /** What a claim does to a row: nothing, or, if the claim is admitted, the row is free for it and no
      other transaction holds it, a lease with the claim's token for its duration and one attempt more. */
  lemma {:induction false} ClaimLeases(run: Run, k: nat, r: nat)
    requires IsRun(run) && ClaimsAt(run, k) && r < |run.rows(k)|
    ensures var c, token, now := run.call(k).claim, run.call(k).token, run.call(k).now;
            && |run.rows(k + 1)| == |run.rows(k)|
            && var before, after := run.rows(k)[r], run.rows(k + 1)[r];
            && (after != before ==>
                  && Admitted(c) && r !in run.call(k).locked
                  && before.tenant == c.tenant && before.namespace == c.namespace && before.eventType in c.eventTypes
                  && before.completedAt == None && before.deadLetteredAt == None && before.nextAttemptAt <= now
                  && (before.lease == None || before.lease.value.until <= now)
                  && after == before.(lease := Some(Lease(token, now + c.leaseMs)), attempts := before.attempts + 1))
  {
    assert StepAt(run, k);
    AdmittedExactly(run.call(k).claim);
  }

  /** The rows that call k changes. */
  function Changed(run: Run, k: nat): set<nat> {
    set r: nat | r < |run.rows(k)| && r < |run.rows(k + 1)| && run.rows(k + 1)[r] != run.rows(k)[r]
  }

  lemma {:induction false} ChangedArePicks(run: Run, k: nat, r: nat)
    requires IsRun(run) && ClaimsAt(run, k)
    ensures var call := run.call(k);
            r in Changed(run, k) <==> ClaimOk(call.claim) && Picks(run.rows(k), call.claim, call.locked, call.now, r)
  {
    assert StepAt(run, k);
  }

  lemma {:induction false} DueList(rows: seq<Row>, claim: Claim, locked: set<nat>, now: int) returns (due: seq<nat>)
    requires DistinctIds(rows)
    ensures IsDue(rows, claim, locked, now, due) && forall r <- due :: r < |rows|
  {
    var candidates := Where(|rows|, (r: nat) => Available(rows, claim, locked, now, r));
    ByTextIsWeakOrder(DueKey(rows));
    SortKeeps(candidates, ByText(DueKey(rows)));
    due := Sort(candidates, ByText(DueKey(rows)));
    SortedIsDueOrder(rows, due);
  }

  /** An admitted claim changes the first rows of a list in due order, as many as it may. */
  lemma {:induction false} ChangedAreFirst(run: Run, k: nat) returns (due: seq<nat>, n: nat)
    requires IsRun(run) && ClaimsAt(run, k) && Admitted(run.call(k).claim)
    ensures var call := run.call(k);
            && IsDue(run.rows(k), call.claim, call.locked, call.now, due)
            && n == (if call.claim.limit < |due| then call.claim.limit else |due|)
            && Changed(run, k) == Members(due[..n]) && |Changed(run, k)| == n
  {
    var rows, call := run.rows(k), run.call(k);
    RunIdsDistinct(run, k);
    AdmittedExactly(call.claim);
    due := DueList(rows, call.claim, call.locked, call.now);
    PicksArePrefix(rows, call.claim, call.locked, call.now, due);
    n := if call.claim.limit < |due| then call.claim.limit else |due|;
    PickedRows(rows, call.claim, call.locked, call.now, due, n);
    forall q: nat ensures q in Changed(run, k) <==> q in due[..n] { ChangedArePicks(run, k, q); }
    assert Changed(run, k) == Members(due[..n]);
    MembersCount(due[..n]);
  }

  lemma {:induction false} FirstComeEarlier(rows: seq<Row>, due: seq<nat>, n: nat, q: nat, r: nat)
    requires InDueOrder(rows, due) && n <= |due| && q in due[..n] && r in due && r !in due[..n]
    ensures q < |rows| && r < |rows| && n < |due|
    ensures rows[q].nextAttemptAt < rows[r].nextAttemptAt
            || (rows[q].nextAttemptAt == rows[r].nextAttemptAt && rows[q].id < rows[r].id)
  {
    var j :| 0 <= j < n && due[j] == q;
    var i :| 0 <= i < |due| && due[i] == r;
    assert forall x :: 0 <= x < n ==> due[..n][x] == due[x];
    assert j < n <= i;
    assert Earlier(rows, due[j], due[i]);
  }

  /** An admitted claim leaves out a free row that nobody holds only if it leased as many rows as it
      may, all of them due earlier, or at the same instant with a smaller id. */
  lemma {:induction false} ClaimSkips(run: Run, k: nat, r: nat)
    requires IsRun(run) && ClaimsAt(run, k) && Admitted(run.call(k).claim)
    requires r < |run.rows(k)| && r !in run.call(k).locked && r !in Changed(run, k)
    requires var row, c, now := run.rows(k)[r], run.call(k).claim, run.call(k).now;
             && row.tenant == c.tenant && row.namespace == c.namespace && row.eventType in c.eventTypes
             && row.completedAt == None && row.deadLetteredAt == None && row.nextAttemptAt <= now
             && (row.lease == None || row.lease.value.until <= now)
    ensures |Changed(run, k)| == run.call(k).claim.limit
    ensures forall q: nat :: q in Changed(run, k) ==>
              var a, b := run.rows(k)[q], run.rows(k)[r];
              a.nextAttemptAt < b.nextAttemptAt || (a.nextAttemptAt == b.nextAttemptAt && a.id < b.id)
  {
    var rows, call := run.rows(k), run.call(k);
    var due, n := ChangedAreFirst(run, k);
    assert Available(rows, call.claim, call.locked, call.now, r);
    assert r in due && r !in due[..n];
    assert due[..|due|] == due;
    forall q: nat | q in Changed(run, k)
      ensures rows[q].nextAttemptAt < rows[r].nextAttemptAt
              || (rows[q].nextAttemptAt == rows[r].nextAttemptAt && rows[q].id < rows[r].id)
    {
      FirstComeEarlier(rows, due, n, q, r);
    }
  }

  /** What the answer of a claim lists. */
  function LeasesOf(run: Run, k: nat): set<Leased>
    requires ClaimsAt(run, k)
  {
    var rows, call := run.rows(k), run.call(k);
    set r: nat | r in Changed(run, k) && r < |rows| ::
      Leased(rows[r].id, call.token, call.now + call.claim.leaseMs, rows[r].attempts + 1)
  }

  lemma {:induction false} AnswerListsChanged(run: Run, k: nat)
    requires IsRun(run) && ClaimsAt(run, k) && Admitted(run.call(k).claim)
    ensures AnswerAt(run, k) == Leases(LeasesOf(run, k))
  {
    var rows, call := run.rows(k), run.call(k);
    AdmittedExactly(call.claim);
    forall r: nat ensures r in Changed(run, k) <==> Picks(rows, call.claim, call.locked, call.now, r) {
      ChangedArePicks(run, k, r);
    }
    assert AnswerAt(run, k).rows == LeasesOf(run, k);
  }

  /** A claim never leases more rows than its limit, and its answer lists exactly the leased rows. */
  lemma {:induction false} ClaimAnswersWithLeases(run: Run, k: nat)
    requires IsRun(run) && ClaimsAt(run, k)
    ensures if !Admitted(run.call(k).claim) then AnswerAt(run, k) == Refused(InvalidInput) && Changed(run, k) == {}
            else |Changed(run, k)| <= run.call(k).claim.limit && AnswerAt(run, k) == Leases(LeasesOf(run, k))
  {
    AdmittedExactly(run.call(k).claim);
    if Admitted(run.call(k).claim) {
      var due, n := ChangedAreFirst(run, k);
      AnswerListsChanged(run, k);
    } else {
      forall r: nat ensures r !in Changed(run, k) { ChangedArePicks(run, k, r); }
    }
  }

  // ----- fenced calls -----

  predicate FencedAt(run: Run, k: nat) {
    IsFenced(run.call(k))
  }

  /** The duration a fenced call names is admitted. */
  predicate DurationAdmitted(call: Call) {
    match call
    case Renew(_, ms, _) => 1 <= ms <= 0x7FFF_FFFF
    case Retry(_, _, ms, _) => 1 <= ms <= 0x7FFF_FFFF
    case _ => true
  }

  /** What a fenced call demands of the row it names and what it makes of it: the row is of the
      fence's tenant and namespace, open, and leased under the fence's token beyond this instant. */
  lemma {:induction false} FencedExactly(run: Run, k: nat, r: nat)
    requires IsRun(run) && FencedAt(run, k) && r < |run.rows(k)| && run.rows(k)[r].id == run.call(k).fence.id
    ensures |run.rows(k + 1)| == |run.rows(k)|
    ensures forall q: nat :: q < |run.rows(k)| && q != r ==> run.rows(k + 1)[q] == run.rows(k)[q]
    ensures var call, row, after := run.call(k), run.rows(k)[r], run.rows(k + 1)[r];
            if !DurationAdmitted(call) then AnswerAt(run, k) == Refused(InvalidInput) && after == row
            else if && row.tenant == call.fence.tenant && row.namespace == call.fence.namespace
                    && row.completedAt == None && row.deadLetteredAt == None
                    && row.lease.Some? && row.lease.value.token == call.fence.token && call.now < row.lease.value.until
            then
              && AnswerAt(run, k) == Done(true)
              && after == match call
                 case Renew(fence, ms, now) => row.(lease := Some(Lease(fence.token, now + ms)))
                 case Retry(_, code, ms, now) => row.(lease := None, nextAttemptAt := now + ms, errorCode := Some(code))
                 case Complete(_, now) => row.(lease := None, completedAt := Some(now), errorCode := None)
                 case DeadLetter(_, code, now) => row.(lease := None, deadLetteredAt := Some(now), errorCode := Some(code))
                 case _ => row
            else AnswerAt(run, k) == Done(false) && after == row
  {
    var rows, call := run.rows(k), run.call(k);
    assert StepAt(run, k);
    RunIdsDistinct(run, k);
    forall q: nat | q < |rows| && q != r ensures !Fenced(rows[q], call.fence) {
      if q < r { assert rows[q].id != rows[r].id; } else { assert rows[r].id != rows[q].id; }
    }
    assert AnyRow(rows, row => Holds(row, call.fence, call.now)) <==> Holds(rows[r], call.fence, call.now);
  }

  /** A fence or a requeue that names no row changes nothing and is answered false. */
  lemma {:induction false} UnknownIsFalse(run: Run, k: nat)
    requires IsRun(run) && (FencedAt(run, k) || run.call(k).RequeueDead?)
    requires var id := if run.call(k).RequeueDead? then run.call(k).requeue.id else run.call(k).fence.id;
             forall r: nat :: r < |run.rows(k)| ==> run.rows(k)[r].id != id
    ensures run.rows(k + 1) == run.rows(k)
    ensures AnswerAt(run, k) == Done(false) || AnswerAt(run, k) == Refused(InvalidInput)
  {
    assert StepAt(run, k);
    var rows := run.rows(k);
    forall r: nat | r < |rows| ensures ChangeOf(rows, run.call(k), r) == Nothing {}
    assert run.rows(k + 1) == rows;
  }

  // ----- requeue -----

  /** A requeue of a row: refused for an impossible generation; otherwise it succeeds exactly for a
      dead row of the tenant and namespace with the expected generation whose delivery was not
      retired, and makes it due now with no attempts, a generation later. */
  lemma {:induction false} RequeueLeaves(run: Run, k: nat, r: nat)
    requires IsRun(run) && run.call(k).RequeueDead? && r < |run.rows(k)|
    requires run.rows(k)[r].id == run.call(k).requeue.id
    ensures |run.rows(k + 1)| == |run.rows(k)|
    ensures forall q: nat :: q < |run.rows(k)| && q != r ==> run.rows(k + 1)[q] == run.rows(k)[q]
    ensures var q, row, after := run.call(k).requeue, run.rows(k)[r], run.rows(k + 1)[r];
            if !(0 <= q.expectedGeneration < 0x20_0000_0000_0000) then
              AnswerAt(run, k) == Refused(InvalidInput) && after == row
            else if && row.tenant == q.tenant && row.namespace == q.namespace && row.deadLetteredAt.Some?
                    && row.generation == q.expectedGeneration && row.errorCode != Some("delivery_retired_by_migration")
            then
              && AnswerAt(run, k) == Done(true)
              && after == row.(deadLetteredAt := None, errorCode := None, nextAttemptAt := run.call(k).now, attempts := 0,
                               generation := row.generation + 1)
            else AnswerAt(run, k) == Done(false) && after == row
  {
    var rows, q := run.rows(k), run.call(k).requeue;
    assert StepAt(run, k);
    RowsLive(run, r);
    RowMatchesHistory(LifeOf(run, r), k);
    assert RowAt(run, k, r) == Some(rows[r]);
    assert Matches(LifeOf(run, r), k, rows[r]);
    RunIdsDistinct(run, k);
    forall x: nat | x < |rows| && x != r ensures !Requeueable(rows[x], q) {
      if x < r { assert rows[x].id != rows[r].id; } else { assert rows[r].id != rows[x].id; }
    }
    if IsSafeCount(q.expectedGeneration) { OneRequeueable(run, k, r); }
  }

  // ----- enqueue -----

  predicate EnqueuesAt(run: Run, k: nat) {
    run.call(k).Enqueue?
  }

  predicate EventAdmitted(event: Event) {
    && (|| event.eventType == "PaymentProviderEventReceived" || event.eventType == "RefundCreditEffectRequested"
        || event.eventType == "SubscriptionCreditGrantRequested")
    && 1 <= event.version
    && |event.digest| == 64
    && forall i :: 0 <= i < |event.digest| ==> '0' <= event.digest[i] <= '9' || 'a' <= event.digest[i] <= 'f'
  }

  lemma {:induction false} DigestExactly(text: string)
    ensures IsDigest(text) <==>
              |text| == 64 && forall i :: 0 <= i < |text| ==> '0' <= text[i] <= '9' || 'a' <= text[i] <= 'f'
  {
    var units := seq(|text|, k requires 0 <= k < |text| => text[k] as int);
    forall i | 0 <= i < |text| ensures IsHexUnit(units[i]) <==> '0' <= text[i] <= '9' || 'a' <= text[i] <= 'f' {}
    if IsDigest(text) {
      forall i | 0 <= i < |text| ensures '0' <= text[i] <= '9' || 'a' <= text[i] <= 'f' { assert IsHexUnit(units[i]); }
    }
  }

  lemma {:induction false} EventAdmittedExactly(event: Event)
    ensures EventOk(event) <==> EventAdmitted(event)
  {
    DigestExactly(event.digest);
    var types := REGISTERED_EVENT_TYPES;
    assert types[0] in types && types[1] in types && types[2] in types;
    if event.eventType in types {
      var k :| 0 <= k < |types| && types[k] == event.eventType;
      assert event.eventType == types[0] || event.eventType == types[1] || event.eventType == types[2];
    }
  }

  predicate TakesIdentity(row: Row, event: Event) {
    row.namespace == event.namespace && row.identity == event.identity
  }

  predicate TakesAggregate(row: Row, event: Event) {
    && row.namespace == event.namespace && row.aggregateType == event.aggregateType
    && row.aggregateId == event.aggregateId && row.eventType == event.eventType
  }

  /** The identity and the aggregate of the event belong to this row, which holds the same payload. */
  predicate Stores(row: Row, event: Event) {
    && TakesIdentity(row, event) && TakesAggregate(row, event)
    && row.tenant == event.tenant && row.version == event.version && row.digest == event.digest
  }

  /** An enqueue in full: an event that is not admitted is refused; an event whose identity and
      aggregate are both free becomes a new row, due when it says or else at once; an event stored
      already is answered with the id of its row; anything else is a conflict. */
  lemma {:induction false} EnqueueExactly(run: Run, k: nat)
    requires IsRun(run) && EnqueuesAt(run, k)
    ensures var rows, after, event, id, now := run.rows(k), run.rows(k + 1), run.call(k).event, run.call(k).id, run.call(k).now;
            if !EventAdmitted(event) then AnswerAt(run, k) == Refused(InvalidInput) && after == rows
            else if forall r: nat :: r < |rows| ==> !TakesIdentity(rows[r], event) && !TakesAggregate(rows[r], event) then
              && AnswerAt(run, k) == Enqueued(id) && |after| == |rows| + 1 && after[..|rows|] == rows
              && var row := after[|rows|];
              && row.id == id && Stores(row, event)
              && row.nextAttemptAt == (if event.nextAttemptAt.Some? then event.nextAttemptAt.value else now)
              && row.lease == None && row.attempts == 0 && row.generation == 0
              && row.completedAt == None && row.deadLetteredAt == None && row.errorCode == None
            else
              && after == rows
              && (AnswerAt(run, k) == Refused(Conflict)
                  || exists r: nat :: r < |rows| && Stores(rows[r], event) && AnswerAt(run, k) == Enqueued(rows[r].id))
              && (AnswerAt(run, k) == Refused(Conflict) <==> forall r: nat :: r < |rows| ==> !Stores(rows[r], event))
  {
    assert StepAt(run, k);
    EventAdmittedExactly(run.call(k).event);
    if EventOk(run.call(k).event) { LookupExactly(run, k); }
    var rows, event := run.rows(k), run.call(k).event;
    assert forall r: nat :: r < |rows| ==> Apply(rows[r], ChangeOf(rows, run.call(k), r)) == rows[r];
    assert run.rows(k + 1) == rows + Inserted(rows, run.call(k));
  }

  lemma {:induction false} LookupExactly(run: Run, k: nat)
    requires IsRun(run) && EnqueuesAt(run, k) && EventOk(run.call(k).event)
    ensures var rows, event := run.rows(k), run.call(k).event;
            if forall r: nat :: r < |rows| ==> !TakesIdentity(rows[r], event) && !TakesAggregate(rows[r], event)
            then Lookup(rows, event) == Ok(None)
            else
              || (Lookup(rows, event) == Err(Conflict) && forall r: nat :: r < |rows| ==> !Stores(rows[r], event))
              || (exists r: nat :: r < |rows| && Stores(rows[r], event) && Lookup(rows, event) == Ok(Some(r)))
  {
    var rows, event := run.rows(k), run.call(k).event;
    var same := (i: nat) => i < |rows| && SameIdentity(rows[i], event);
    var aggregate := (i: nat) => i < |rows| && SameAggregate(rows[i], event);
    forall r: nat | r < |rows| ensures same(r) == TakesIdentity(rows[r], event) && aggregate(r) == TakesAggregate(rows[r], event) {}
    forall r: nat, q: nat | r < |rows| && q < |rows| && (same(r) || aggregate(r)) && same(q) && aggregate(q) ensures r == q {
      assert RowAt(run, k, r) == Some(rows[r]) && RowAt(run, k, q) == Some(rows[q]);
      if r < q { RowsNeverCollide(run, k, r, q); }
      if q < r { RowsNeverCollide(run, k, q, r); }
    }
    assert ByIdentity(rows, event) == First(|rows|, same) && ByAggregate(rows, event) == First(|rows|, aggregate);
    forall r: nat | r < |rows| ensures Stores(rows[r], event) <==> same(r) && aggregate(r) && SamePayload(rows[r], event) {}
  }
}
