/** What holds over every run of the outbox: any interleaving of calls by any number of
    workers, at any clock readings. */
module OutboxRuns {
  import opened Outcomes
  import opened Outbox
  import opened OutboxRows

  /** The k-th call and the table before it. A finite run is a prefix of one. */
  datatype Run = Run(call: nat -> Call, rows: nat -> seq<Row>)

  predicate StepAt(run: Run, k: nat) {
    run.rows(k + 1) == Next(run.rows(k), run.call(k))
  }

  /** The run starts from an empty table, every call is one step of it, and no random uuid is
      drawn twice. */
  ghost predicate IsRun(run: Run) {
    && run.rows(0) == []
    && (forall k: nat :: StepAt(run, k))
    && FreshTokens(run.call)
    && (forall i: nat, j: nat :: i < j && run.call(i).Enqueue? && run.call(j).Enqueue? ==>
          run.call(i).id != run.call(j).id)
  }

  function AnswerAt(run: Run, k: nat): Answer {
    AnswerTo(run.rows(k), run.call(k))
  }

  /** What call k did to row r. */
  function Effect(run: Run, k: nat, r: nat): Change {
    if r < |run.rows(k)| then ChangeOf(run.rows(k), run.call(k), r) else Nothing
  }

  function RowAt(run: Run, k: nat, r: nat): Option<Row> {
    if r < |run.rows(k)| then Some(run.rows(k)[r]) else None
  }

  function LifeOf(run: Run, r: nat): Life {
    Life(run.call, (k: nat) => RowAt(run, k, r), (k: nat) => Effect(run, k, r))
  }

  // ----- one step of the table -----

  lemma {:induction false} ChangeIsAllowed(rows: seq<Row>, call: Call, r: nat)
    requires r < |rows|
    ensures Allowed(rows[r], call, ChangeOf(rows, call, r))
  {
  }

  /** The row a call appends. */
  predicate Appends(rows: seq<Row>, call: Call, row: Row) {
    call.Enqueue? && Lookup(rows, call.event) == Ok(None) && row == NewRow(call.event, call.id, call.now)
  }

  lemma {:induction false} RowStep(run: Run, k: nat, r: nat)
    requires StepAt(run, k)
    ensures |run.rows(k)| <= |run.rows(k + 1)|
    ensures match RowAt(run, k, r)
            case Some(row) =>
              RowAt(run, k + 1, r) == Some(Apply(row, Effect(run, k, r))) && Allowed(row, run.call(k), Effect(run, k, r))
            case None => RowAt(run, k + 1, r).Some? ==>
              r == |run.rows(k)| && Appends(run.rows(k), run.call(k), RowAt(run, k + 1, r).value)
  {
    if r < |run.rows(k)| { ChangeIsAllowed(run.rows(k), run.call(k), r); }
  }

  /** Every row of a run lives the life of a row. */
  lemma {:induction false} RowsLive(run: Run, r: nat)
    requires IsRun(run)
    ensures IsLife(LifeOf(run, r)) && FreshTokens(LifeOf(run, r).call)
  {
    forall k: nat ensures LivesOn(LifeOf(run, r), k) {
      assert StepAt(run, k);
      RowStep(run, k, r);
    }
  }

  // ----- identity of rows -----

  predicate SameColumns(a: Row, b: Row) {
    && a.id == b.id && a.tenant == b.tenant && a.namespace == b.namespace && a.aggregateType == b.aggregateType
    && a.aggregateId == b.aggregateId && a.eventType == b.eventType && a.identity == b.identity
    && a.version == b.version && a.digest == b.digest
  }

  lemma {:induction false} ColumnsStay(run: Run, i: nat, j: nat, r: nat)
    requires IsRun(run) && i <= j && RowAt(run, i, r).Some?
    ensures RowAt(run, j, r).Some? && SameColumns(RowAt(run, i, r).value, RowAt(run, j, r).value)
  {
    if i < j {
      ColumnsStay(run, i, j - 1, r);
      assert StepAt(run, j - 1);
      RowStep(run, j - 1, r);
    }
  }

  /** Every row was appended by one call, and carries the id that call drew. */
  lemma {:induction false} RowsComeFromCalls(run: Run, k: nat, r: nat) returns (i: nat)
    requires IsRun(run) && RowAt(run, k, r).Some?
    ensures i < k && run.call(i).Enqueue? && RowAt(run, k, r).value.id == run.call(i).id
    ensures |run.rows(i)| == r
  {
    assert StepAt(run, k - 1);
    RowStep(run, k - 1, r);
    if RowAt(run, k - 1, r).Some? {
      i := RowsComeFromCalls(run, k - 1, r);
    } else {
      i := k - 1;
    }
  }

  /** The primary key identifies one row. */
  lemma {:induction false} IdsAreUnique(run: Run, k: nat, r: nat, q: nat)
    requires IsRun(run) && RowAt(run, k, r).Some? && RowAt(run, k, q).Some?
    requires RowAt(run, k, r).value.id == RowAt(run, k, q).value.id
    ensures r == q
  {
    var i := RowsComeFromCalls(run, k, r);
    var j := RowsComeFromCalls(run, k, q);
    assert i == j;
  }

  // ----- fencing -----

  lemma {:induction false} EffectNeedsTheRow(run: Run, j: nat, q: nat)
    requires IsFenced(run.call(j)) && Effect(run, j, q) != Nothing
    ensures RowAt(run, j, q).Some? && RowAt(run, j, q).value.id == run.call(j).fence.id
  {
  }

  /** A fenced call that succeeds changes one row, under the lease of exactly one earlier
      claim, and between that claim and this call nobody else claimed, finished or gave
      back the row. */
  lemma {:induction false} FencedSuccess(run: Run, j: nat) returns (r: nat, k: nat)
    requires IsRun(run) && IsFenced(run.call(j)) && AnswerAt(run, j) == Done(true)
    ensures IsFencedChange(run.call(j), Effect(run, j, r))
    ensures forall q: nat :: q != r ==> Effect(run, j, q) == Nothing
    ensures k < j && Effect(run, k, r).Claimed? && Effect(run, k, r).token == run.call(j).fence.token
    ensures forall i: nat :: k < i < j ==> KeepsLease(Effect(run, i, r))
    ensures forall i: nat :: Effect(run, i, r).Claimed? && Effect(run, i, r).token == run.call(j).fence.token ==> i == k
  {
    var rows, call := run.rows(j), run.call(j);
    r :| 0 <= r < |rows| && Holds(rows[r], call.fence, call.now);
    assert RowAt(run, j, r).Some?;
    forall q: nat | q != r ensures Effect(run, j, q) == Nothing {
      if Effect(run, j, q) != Nothing {
        EffectNeedsTheRow(run, j, q);
        IdsAreUnique(run, j, r, q);
      }
    }
    RowsLive(run, r);
    var life := LifeOf(run, r);
    k := FencedUnderOneClaim(life, j);
    forall i: nat | k < i < j ensures KeepsLease(Effect(run, i, r)) { assert KeepsLease(life.change(i)); }
    forall i: nat | Effect(run, i, r).Claimed? && Effect(run, i, r).token == call.fence.token ensures i == k {
      assert life.change(i).Claimed?;
    }
  }

  // ----- requeue -----

  /** A dead row carries an error code, so a requeue with the right generation is turned
      away only for a retired delivery. */
  lemma {:induction false} RequeueExactly(run: Run, k: nat, r: nat)
    requires IsRun(run) && run.call(k).RequeueDead? && RowAt(run, k, r).Some?
    requires var row, q := RowAt(run, k, r).value, run.call(k).requeue;
      row.id == q.id && row.tenant == q.tenant && row.namespace == q.namespace && IsSafeCount(q.expectedGeneration)
    ensures var row := RowAt(run, k, r).value;
      AnswerAt(run, k) == Done(row.deadLetteredAt.Some?
                               && row.generation == run.call(k).requeue.expectedGeneration
                               && row.errorCode != Some(RETIRED))
  {
    RowsLive(run, r);
    RowMatchesHistory(LifeOf(run, r), k);
    assert Matches(LifeOf(run, r), k, RowAt(run, k, r).value);
    OneRequeueable(run, k, r);
  }

  lemma {:induction false} OneRequeueable(run: Run, k: nat, r: nat)
    requires IsRun(run) && run.call(k).RequeueDead? && IsSafeCount(run.call(k).requeue.expectedGeneration)
    requires RowAt(run, k, r).Some? && RowAt(run, k, r).value.id == run.call(k).requeue.id
    ensures AnswerAt(run, k) == Done(Requeueable(RowAt(run, k, r).value, run.call(k).requeue))
  {
    var rows, q := run.rows(k), run.call(k).requeue;
    forall i | 0 <= i < |rows| && Requeueable(rows[i], q) ensures i == r { IdsAreUnique(run, k, i, r); }
  }

  /** Of two requeues that expect the same generation only the first can succeed. */
  lemma {:induction false} RequeueOnce(run: Run, i: nat, j: nat)
    requires IsRun(run) && i < j && run.call(i).RequeueDead? && run.call(j).RequeueDead?
    requires run.call(i).requeue.id == run.call(j).requeue.id
    requires run.call(i).requeue.expectedGeneration == run.call(j).requeue.expectedGeneration
    requires AnswerAt(run, i) == Done(true)
    ensures AnswerAt(run, j) == Done(false)
  {
    var rows := run.rows(i);
    var r :| 0 <= r < |rows| && Requeueable(rows[r], run.call(i).requeue);
    assert RowAt(run, i, r) == Some(rows[r]);
    assert StepAt(run, i);
    RowStep(run, i, r);
    RowsLive(run, r);
    RowStays(LifeOf(run, r), i + 1, j);
    ColumnsStay(run, i, j, r);
    OneRequeueable(run, j, r);
  }

  // ----- enqueue -----

  predicate SameEvent(row: Row, event: Event) {
    SameIdentity(row, event) && SameAggregate(row, event) && SamePayload(row, event)
  }

  /** Two rows collide in one of the two uniqueness domains. */
  predicate Collide(a: Row, b: Row) {
    && a.namespace == b.namespace
    && (|| a.identity == b.identity
        || (a.aggregateType == b.aggregateType && a.aggregateId == b.aggregateId && a.eventType == b.eventType))
  }

  lemma {:induction false} NewRowCollidesWithNone(rows: seq<Row>, call: Call, row: Row)
    requires Appends(rows, call, row)
    ensures forall r: nat :: r < |rows| ==> !Collide(rows[r], row)
  {
    var event := call.event;
    assert ByIdentity(rows, event).None? && ByAggregate(rows, event).None?;
    forall r: nat | r < |rows| ensures !Collide(rows[r], row) {
      var same := (i: nat) => i < |rows| && SameIdentity(rows[i], event);
      var aggregate := (i: nat) => i < |rows| && SameAggregate(rows[i], event);
      assert !same(r) && !aggregate(r);
    }
  }

  /** The unique indexes of the table never reject an insert: no two rows share an identity
      and none share an aggregate, in either namespace. */
  lemma {:induction false} RowsNeverCollide(run: Run, k: nat, r: nat, q: nat)
    requires IsRun(run) && r < q && RowAt(run, k, q).Some?
    ensures RowAt(run, k, r).Some? && !Collide(RowAt(run, k, r).value, RowAt(run, k, q).value)
  {
    assert StepAt(run, k - 1);
    RowStep(run, k - 1, q);
    if RowAt(run, k - 1, q).Some? {
      RowsNeverCollide(run, k - 1, r, q);
      ColumnsStay(run, k - 1, k, q);
    } else {
      NewRowCollidesWithNone(run.rows(k - 1), run.call(k - 1), RowAt(run, k, q).value);
    }
    ColumnsStay(run, k - 1, k, r);
  }

  /** After a successful enqueue the event is stored in the row whose id it returned. */
  lemma {:induction false} EnqueueStores(run: Run, k: nat) returns (r: nat)
    requires StepAt(run, k) && run.call(k).Enqueue? && AnswerAt(run, k).Enqueued?
    ensures RowAt(run, k + 1, r).Some? && SameEvent(RowAt(run, k + 1, r).value, run.call(k).event)
    ensures RowAt(run, k + 1, r).value.id == AnswerAt(run, k).id
  {
    var rows, event := run.rows(k), run.call(k).event;
    match Lookup(rows, event)
    case Ok(None) =>
      r := |rows|;
      RowStep(run, k, r);
      assert run.rows(k + 1)[r] == NewRow(event, run.call(k).id, run.call(k).now);
    case Ok(Some(found)) =>
      r := found;
      RowStep(run, k, r);
  }

  predicate SharesIdentity(a: Event, b: Event) {
    a.namespace == b.namespace && a.identity == b.identity
  }

  predicate SharesAggregate(a: Event, b: Event) {
    && a.namespace == b.namespace && a.aggregateType == b.aggregateType
    && a.aggregateId == b.aggregateId && a.eventType == b.eventType
  }

  /** Two successful enqueues return the same id exactly when they name the same identity,
      exactly when they name the same aggregate, and then they carry the same payload. */
  lemma {:induction false} EnqueueIsIdempotent(run: Run, i: nat, j: nat)
    requires IsRun(run) && i < j && run.call(i).Enqueue? && run.call(j).Enqueue?
    requires AnswerAt(run, i).Enqueued? && AnswerAt(run, j).Enqueued?
    ensures var a, b := run.call(i).event, run.call(j).event;
      var same := AnswerAt(run, i).id == AnswerAt(run, j).id;
      && (same <==> SharesIdentity(a, b))
      && (same <==> SharesAggregate(a, b))
      && (same ==> a.tenant == b.tenant && a.version == b.version && a.digest == b.digest)
  {
    assert StepAt(run, i) && StepAt(run, j);
    var r := EnqueueStores(run, i);
    var q := EnqueueStores(run, j);
    ColumnsStay(run, i + 1, j + 1, r);
    if r < q { RowsNeverCollide(run, j + 1, r, q); }
    if q < r { RowsNeverCollide(run, j + 1, q, r); }
    if AnswerAt(run, i).id == AnswerAt(run, j).id { IdsAreUnique(run, j + 1, r, q); }
  }
}
