/** The outbox table and what each call does to it. One call is one transaction: the row and
    advisory locks order the calls, and a call reads the clock once. */
module Outbox {
  import opened Outcomes
  import opened Positions
  import opened Digests

  const REGISTERED_EVENT_TYPES: seq<string> := [
    "PaymentProviderEventReceived",
    "RefundCreditEffectRequested",
    "SubscriptionCreditGrantRequested"
  ]

  const MAXIMUM_DURATION := 2_147_483_647
  const MAXIMUM_CLAIM := 100
  const MAXIMUM_SAFE_INTEGER := 9_007_199_254_740_991
  const RETIRED := "delivery_retired_by_migration"

  datatype Namespace = Credit | Payment

  datatype OutboxError = Conflict | InvalidInput

  datatype Lease = Lease(token: nat, until: int)

  datatype Row = Row(
    id: nat,
    tenant: string,
    namespace: Namespace,
    aggregateType: string,
    aggregateId: nat,
    eventType: string,
    identity: string,
    version: int,
    digest: string,
    lease: Option<Lease>,
    attempts: int,
    nextAttemptAt: int,
    completedAt: Option<int>,
    deadLetteredAt: Option<int>,
    errorCode: Option<string>,
    generation: int
  )

  datatype Event = Event(
    tenant: string,
    namespace: Namespace,
    aggregateType: string,
    aggregateId: nat,
    eventType: string,
    identity: string,
    version: int,
    digest: string,
    nextAttemptAt: Option<int>
  )

  datatype Claim = Claim(tenant: string, namespace: Namespace, eventTypes: seq<string>, leaseMs: int, limit: int)

  datatype Fence = Fence(tenant: string, namespace: Namespace, id: nat, token: nat)

  datatype Requeue = Requeue(tenant: string, namespace: Namespace, id: nat, expectedGeneration: int)

  /** One call. `id` and `token` are the random uuids it draws, `locked` the rows that
      other transactions hold locked, `now` the database clock. */
  datatype Call =
    | Enqueue(event: Event, id: nat, now: int)
    | ClaimNext(claim: Claim, token: nat, locked: set<nat>, now: int)
    | Renew(fence: Fence, leaseMs: int, now: int)
    | Complete(fence: Fence, now: int)
    | Retry(fence: Fence, errorCode: string, delayMs: int, now: int)
    | DeadLetter(fence: Fence, errorCode: string, now: int)
    | RequeueDead(requeue: Requeue, now: int)

  datatype Leased = Leased(id: nat, token: nat, until: int, attempts: int)

  datatype Answer =
    | Enqueued(id: nat)
    | Leases(rows: set<Leased>)
    | Done(succeeded: bool)
    | Refused(error: OutboxError)

  // ----- validation -----

  predicate EventOk(event: Event) {
    event.eventType in REGISTERED_EVENT_TYPES && event.version >= 1 && IsDigest(event.digest)
  }

  predicate DurationOk(ms: int) {
    1 <= ms <= MAXIMUM_DURATION
  }

  predicate IsSafeCount(value: int) {
    0 <= value <= MAXIMUM_SAFE_INTEGER
  }

  predicate ClaimOk(claim: Claim) {
    && DurationOk(claim.leaseMs)
    && 1 <= claim.limit <= MAXIMUM_CLAIM
    && claim.eventTypes != []
    && forall k :: 0 <= k < |claim.eventTypes| ==> claim.eventTypes[k] in REGISTERED_EVENT_TYPES
  }

  // ----- enqueue -----

  predicate SameIdentity(row: Row, event: Event) {
    row.namespace == event.namespace && row.identity == event.identity
  }

  predicate SameAggregate(row: Row, event: Event) {
    && row.namespace == event.namespace
    && row.aggregateType == event.aggregateType
    && row.aggregateId == event.aggregateId
    && row.eventType == event.eventType
  }

  predicate SamePayload(row: Row, event: Event) {
    row.tenant == event.tenant && row.version == event.version && row.digest == event.digest
  }

  function ByIdentity(rows: seq<Row>, event: Event): Option<nat> {
    First(|rows|, (i: nat) => i < |rows| && SameIdentity(rows[i], event))
  }

  function ByAggregate(rows: seq<Row>, event: Event): Option<nat> {
    First(|rows|, (i: nat) => i < |rows| && SameAggregate(rows[i], event))
  }

  function NewRow(event: Event, id: nat, now: int): Row {
    Row(id, event.tenant, event.namespace, event.aggregateType, event.aggregateId, event.eventType, event.identity,
        event.version, event.digest, None, 0, (if event.nextAttemptAt.Some? then event.nextAttemptAt.value else now), None, None, None, 0)
  }

  /** The row an event is stored in already, none if it is new, or a refusal. */
  function Lookup(rows: seq<Row>, event: Event): Result<Option<nat>, OutboxError> {
    if !EventOk(event) then Err(InvalidInput)
    else
      var identity := ByIdentity(rows, event);
      var aggregate := ByAggregate(rows, event);
      if identity.None? && aggregate.None? then Ok(None)
      else if identity != aggregate then Err(Conflict)
      else if !SamePayload(rows[identity.value], event) then Err(Conflict)
      else Ok(identity)
  }

  // ----- claims -----

  predicate Open(row: Row) {
    row.completedAt.None? && row.deadLetteredAt.None?
  }

  predicate Claimable(row: Row, claim: Claim, now: int) {
    && row.tenant == claim.tenant
    && row.namespace == claim.namespace
    && row.eventType in claim.eventTypes
    && Open(row)
    && row.nextAttemptAt <= now
    && (row.lease.None? || row.lease.value.until <= now)
  }

  /** Row a comes up for dispatch before row b. */
  predicate DueBefore(a: Row, b: Row) {
    a.nextAttemptAt < b.nextAttemptAt || (a.nextAttemptAt == b.nextAttemptAt && a.id < b.id)
  }

  /** A row is free for the claim: no other transaction holds it, and it is due. */
  predicate Available(rows: seq<Row>, claim: Claim, locked: set<nat>, now: int, r: nat) {
    r < |rows| && r !in locked && Claimable(rows[r], claim, now)
  }

  function Ahead(rows: seq<Row>, claim: Claim, locked: set<nat>, now: int, r: nat): set<nat> {
    set q: nat | q < |rows| && r < |rows| && Available(rows, claim, locked, now, q) && DueBefore(rows[q], rows[r])
  }

  /** The claim takes a free row when fewer than `limit` free rows come up before it. */
  predicate Picks(rows: seq<Row>, claim: Claim, locked: set<nat>, now: int, r: nat) {
    Available(rows, claim, locked, now, r) && |Ahead(rows, claim, locked, now, r)| < claim.limit
  }

  // ----- fenced calls -----

  /** The row lock of a fenced call: the token still matches an open row. */
  predicate Fenced(row: Row, fence: Fence) {
    && row.tenant == fence.tenant
    && row.namespace == fence.namespace
    && row.id == fence.id
    && row.lease.Some? && row.lease.value.token == fence.token
    && Open(row)
  }

  predicate Holds(row: Row, fence: Fence, now: int) {
    Fenced(row, fence) && row.lease.value.until > now
  }

  predicate Requeueable(row: Row, requeue: Requeue) {
    && row.id == requeue.id
    && row.tenant == requeue.tenant
    && row.namespace == requeue.namespace
    && row.completedAt.None?
    && row.deadLetteredAt.Some?
    && row.generation == requeue.expectedGeneration
    && row.errorCode.Some? && row.errorCode.value != RETIRED
  }

  // ----- what a call does to one row -----

  datatype Change =
    | Nothing
    | Claimed(token: nat, until: int)
    | Renewed(until: int)
    | Completed(at: int)
    | Retried(next: int, errorCode: string)
    | DeadLettered(at: int, errorCode: string)
    | Requeued(at: int)

  function Apply(row: Row, change: Change): Row {
    match change
    case Nothing => row
    case Claimed(token, until) => row.(lease := Some(Lease(token, until)), attempts := row.attempts + 1)
    case Renewed(until) => if row.lease.Some? then row.(lease := Some(Lease(row.lease.value.token, until))) else row
    case Completed(at) => row.(completedAt := Some(at), lease := None, errorCode := None)
    case Retried(next, code) => row.(lease := None, nextAttemptAt := next, errorCode := Some(code))
    case DeadLettered(at, code) => row.(deadLetteredAt := Some(at), lease := None, errorCode := Some(code))
    case Requeued(at) => row.(deadLetteredAt := None, errorCode := None, nextAttemptAt := at, attempts := 0,
                              generation := row.generation + 1)
  }

  function ChangeOf(rows: seq<Row>, call: Call, r: nat): Change
    requires r < |rows|
  {
    match call
    case Enqueue(_, _, _) => Nothing
    case ClaimNext(claim, token, locked, now) =>
      if ClaimOk(claim) && Picks(rows, claim, locked, now, r) then Claimed(token, now + claim.leaseMs) else Nothing
    case Renew(fence, ms, now) => if DurationOk(ms) && Holds(rows[r], fence, now) then Renewed(now + ms) else Nothing
    case Complete(fence, now) => if Holds(rows[r], fence, now) then Completed(now) else Nothing
    case Retry(fence, code, ms, now) =>
      if DurationOk(ms) && Holds(rows[r], fence, now) then Retried(now + ms, code) else Nothing
    case DeadLetter(fence, code, now) => if Holds(rows[r], fence, now) then DeadLettered(now, code) else Nothing
    case RequeueDead(requeue, now) =>
      if IsSafeCount(requeue.expectedGeneration) && Requeueable(rows[r], requeue) then Requeued(now) else Nothing
  }

  function Inserted(rows: seq<Row>, call: Call): seq<Row> {
    match call
    case Enqueue(event, id, now) => if Lookup(rows, event) == Ok(None) then [NewRow(event, id, now)] else []
    case _ => []
  }

  function Next(rows: seq<Row>, call: Call): seq<Row> {
    seq(|rows|, (r: nat) requires r < |rows| => Apply(rows[r], ChangeOf(rows, call, r))) + Inserted(rows, call)
  }

  predicate AnyRow(rows: seq<Row>, p: Row -> bool) {
    exists r :: 0 <= r < |rows| && p(rows[r])
  }

  function AnswerTo(rows: seq<Row>, call: Call): Answer {
    match call
    case Enqueue(event, id, now) =>
      (match Lookup(rows, event)
       case Err(e) => Refused(e)
       case Ok(None) => Enqueued(id)
       case Ok(Some(r)) => if r < |rows| then Enqueued(rows[r].id) else Refused(Conflict))
    case ClaimNext(claim, token, locked, now) =>
      if ClaimOk(claim)
      then Leases(set r: nat | r < |rows| && Picks(rows, claim, locked, now, r) ::
                    LeasedRow(rows[r], token, now + claim.leaseMs))
      else Refused(InvalidInput)
    case Renew(fence, ms, now) =>
      if DurationOk(ms) then Done(AnyRow(rows, row => Holds(row, fence, now))) else Refused(InvalidInput)
    case Complete(fence, now) => Done(AnyRow(rows, row => Holds(row, fence, now)))
    case Retry(fence, code, ms, now) =>
      if DurationOk(ms) then Done(AnyRow(rows, row => Holds(row, fence, now))) else Refused(InvalidInput)
    case DeadLetter(fence, code, now) => Done(AnyRow(rows, row => Holds(row, fence, now)))
    case RequeueDead(requeue, now) =>
      if IsSafeCount(requeue.expectedGeneration) then Done(AnyRow(rows, row => Requeueable(row, requeue)))
      else Refused(InvalidInput)
  }

  /** The returned lease of a claimed row; the list of them has no order. */
  function LeasedRow(row: Row, token: nat, until: int): Leased {
    Leased(row.id, token, until, row.attempts + 1)
  }
}
