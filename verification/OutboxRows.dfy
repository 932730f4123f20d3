/** The life of one outbox row: the changes made to it, and what they leave of the lease,
    the counters and the terminal states. */
module OutboxRows {
  import opened Outcomes
  import opened Outbox

  /** One row over time: its value before call k (none before it exists), and what call k
      did to it. */
  datatype Life = Life(call: nat -> Call, row: nat -> Option<Row>, change: nat -> Change)

  predicate IsFenced(call: Call) {
    call.Renew? || call.Complete? || call.Retry? || call.DeadLetter?
  }

  /** The change a successful fenced call makes. */
  predicate IsFencedChange(call: Call, change: Change) {
    match call
    case Renew(_, _, _) => change.Renewed?
    case Complete(_, _) => change.Completed?
    case Retry(_, _, _, _) => change.Retried?
    case DeadLetter(_, _, _) => change.DeadLettered?
    case _ => false
  }

  /** The guard a change passed. */
  predicate Allowed(row: Row, call: Call, change: Change) {
    match change
    case Nothing => true
    case Claimed(token, until) =>
      && call.ClaimNext? && token == call.token && Open(row) && row.nextAttemptAt <= call.now
      && (row.lease.None? || row.lease.value.until <= call.now)
    case Requeued(_) => call.RequeueDead? && Requeueable(row, call.requeue)
    case _ => IsFenced(call) && IsFencedChange(call, change) && Holds(row, call.fence, call.now)
  }

  predicate IsNew(row: Row) {
    && row.lease.None? && Open(row) && row.errorCode.None?
    && row.attempts == 0 && row.generation == 0
  }

  predicate LivesOn(life: Life, k: nat) {
    match life.row(k)
    case Some(row) =>
      life.row(k + 1) == Some(Apply(row, life.change(k))) && Allowed(row, life.call(k), life.change(k))
    case None =>
      life.change(k) == Nothing && (life.row(k + 1).Some? ==> IsNew(life.row(k + 1).value))
  }

  ghost predicate IsLife(life: Life) {
    life.row(0).None? && forall k: nat :: LivesOn(life, k)
  }

  ghost predicate FreshTokens(call: nat -> Call) {
    forall i: nat, j: nat :: i < j && call(i).ClaimNext? && call(j).ClaimNext? ==> call(i).token != call(j).token
  }

  // ----- counting -----

  function One(b: bool): nat {
    if b then 1 else 0
  }

  /** How many of the first k changes are of a kind. */
  function Count(change: nat -> Change, k: nat, kind: Change -> bool): nat {
    if k == 0 then 0 else Count(change, k - 1, kind) + One(kind(change(k - 1)))
  }

  predicate IsCompleted(change: Change) { change.Completed? }
  predicate IsDeadLettered(change: Change) { change.DeadLettered? }
  predicate IsRequeued(change: Change) { change.Requeued? }

  function ClaimsSinceRequeue(change: nat -> Change, k: nat): nat {
    if k == 0 then 0
    else
      match change(k - 1)
      case Requeued(_) => 0
      case Claimed(_, _) => ClaimsSinceRequeue(change, k - 1) + 1
      case _ => ClaimsSinceRequeue(change, k - 1)
  }

  /** The call whose claim the row is leased under. */
  function Holder(change: nat -> Change, k: nat): Option<nat> {
    if k == 0 then None
    else
      match change(k - 1)
      case Nothing => Holder(change, k - 1)
      case Renewed(_) => Holder(change, k - 1)
      case Claimed(_, _) => Some(k - 1)
      case _ => None
  }

  // ----- columns and history -----

  /** The columns of a row and its history tell the same story, and the CHECK constraints hold. */
  ghost predicate Matches(life: Life, k: nat, row: Row) {
    && (match Holder(life.change, k)
        case None => row.lease.None?
        case Some(h) => life.call(h).ClaimNext? && row.lease.Some? && row.lease.value.token == life.call(h).token)
    && (Open(row) || row.lease.None?)
    && !(row.completedAt.Some? && row.deadLetteredAt.Some?)
    && (row.completedAt.Some? ==> row.errorCode.None?)
    && (row.deadLetteredAt.Some? ==> row.errorCode.Some?)
    && row.attempts == ClaimsSinceRequeue(life.change, k)
    && row.generation == Count(life.change, k, IsRequeued)
    && Count(life.change, k, IsDeadLettered) == row.generation + One(row.deadLetteredAt.Some?)
    && Count(life.change, k, IsCompleted) == One(row.completedAt.Some?)
  }

  ghost predicate Unborn(life: Life, k: nat) {
    && Holder(life.change, k).None? && ClaimsSinceRequeue(life.change, k) == 0
    && Count(life.change, k, IsRequeued) == Count(life.change, k, IsDeadLettered) == 0
    && Count(life.change, k, IsCompleted) == 0
  }

  /** In every state of its life a row matches its history. */
  lemma {:induction false} RowMatchesHistory(life: Life, k: nat)
    requires IsLife(life)
    ensures match life.row(k) case Some(row) => Matches(life, k, row) case None => Unborn(life, k)
  {
    if k > 0 {
      RowMatchesHistory(life, k - 1);
      assert LivesOn(life, k - 1);
    }
  }

  lemma {:induction false} RowStays(life: Life, i: nat, k: nat)
    requires IsLife(life) && i <= k && life.row(i).Some?
    ensures life.row(k).Some? && life.row(i).value.generation <= life.row(k).value.generation
  {
    if i < k {
      RowStays(life, i, k - 1);
      assert LivesOn(life, k - 1);
    }
  }

  // ----- fencing -----

  predicate KeepsLease(change: Change) {
    change.Nothing? || change.Renewed?
  }

  /** A lease belongs to the latest claim, and since then the row was at most renewed. */
  lemma {:induction false} HolderIsLatest(change: nat -> Change, j: nat)
    requires Holder(change, j).Some?
    ensures var h := Holder(change, j).value;
      h < j && change(h).Claimed? && forall i: nat :: h < i < j ==> KeepsLease(change(i))
  {
    if !change(j - 1).Claimed? { HolderIsLatest(change, j - 1); }
  }

  lemma {:induction false} ClaimToken(life: Life, k: nat)
    requires IsLife(life) && life.change(k).Claimed?
    ensures life.call(k).ClaimNext? && life.change(k).token == life.call(k).token
  {
    assert LivesOn(life, k);
  }

  lemma {:induction false} SameToken(life: Life, i: nat, j: nat)
    requires IsLife(life) && FreshTokens(life.call)
    requires life.change(i).Claimed? && life.change(j).Claimed? && life.change(i).token == life.change(j).token
    ensures i == j
  {
    ClaimToken(life, i);
    ClaimToken(life, j);
  }

  /** A fenced change happens under the lease of exactly one claim, and between the two
      nobody claimed, finished or gave back the row. */
  lemma {:induction false} FencedUnderOneClaim(life: Life, j: nat) returns (k: nat)
    requires IsLife(life) && FreshTokens(life.call) && IsFenced(life.call(j)) && life.change(j) != Nothing
    ensures IsFencedChange(life.call(j), life.change(j))
    ensures k < j && life.change(k).Claimed? && life.change(k).token == life.call(j).fence.token
    ensures forall i: nat :: k < i < j ==> KeepsLease(life.change(i))
    ensures forall i: nat :: life.change(i).Claimed? && life.change(i).token == life.call(j).fence.token ==> i == k
  {
    assert LivesOn(life, j);
    RowMatchesHistory(life, j);
    k := Holder(life.change, j).value;
    HolderIsLatest(life.change, j);
    ClaimToken(life, k);
    forall i: nat | life.change(i).Claimed? && life.change(i).token == life.call(j).fence.token ensures i == k {
      SameToken(life, i, k);
    }
  }

  // ----- when a row may be claimed again -----

  /** The earliest time at which the row may be claimed after a change; none if never. */
  function ClaimableFrom(change: Change): Option<int> {
    match change
    case Claimed(_, until) => Some(until)
    case Renewed(until) => Some(until)
    case Retried(next, _) => Some(next)
    case Requeued(at) => Some(at)
    case _ => None
  }

  lemma {:induction false} LastChange(life: Life, k: nat, m: nat) returns (i: nat)
    requires IsLife(life) && k < m && life.change(k) != Nothing
    ensures k <= i < m && life.change(i) != Nothing && forall x: nat :: i < x < m ==> life.change(x) == Nothing
    ensures life.row(i).Some? && life.row(m) == Some(Apply(life.row(i).value, life.change(i)))
    ensures Allowed(life.row(i).value, life.call(i), life.change(i))
  {
    assert LivesOn(life, m - 1);
    if life.change(m - 1) != Nothing {
      i := m - 1;
    } else {
      i := LastChange(life, k, m - 1);
    }
  }

  /** A row is claimed again only after its last lease ran out, its retry delay passed or an
      operator requeued it; a completed row and a dead one are not claimed. */
  lemma {:induction false} ClaimWaits(life: Life, k: nat, m: nat) returns (i: nat)
    requires IsLife(life) && k < m && life.change(k) != Nothing && life.change(m).Claimed?
    ensures k <= i < m && life.change(i) != Nothing && forall x: nat :: i < x < m ==> life.change(x) == Nothing
    ensures life.call(m).ClaimNext?
    ensures ClaimableFrom(life.change(i)).Some? && ClaimableFrom(life.change(i)).value <= life.call(m).now
  {
    i := LastChange(life, k, m);
    assert LivesOn(life, m);
  }

  /** A worker whose row was claimed again never succeeds with its old lease. */
  lemma {:induction false} StaleHolderFails(life: Life, k: nat, m: nat, j: nat)
    requires IsLife(life) && FreshTokens(life.call) && k < m < j
    requires life.change(k).Claimed? && life.change(m).Claimed?
    requires IsFenced(life.call(j)) && life.call(j).fence.token == life.change(k).token
    ensures life.change(j) == Nothing
  {
    if life.change(j) != Nothing {
      var h := FencedUnderOneClaim(life, j);
      assert false;
    }
  }

  // ----- completion -----

  lemma {:induction false} StaysCompleted(life: Life, c: nat, k: nat)
    requires IsLife(life) && c < k && life.change(c).Completed?
    ensures life.row(k).Some? && life.row(k) == life.row(c + 1) && life.row(k).value.completedAt.Some?
  {
    assert LivesOn(life, k - 1);
    if c < k - 1 { StaysCompleted(life, c, k - 1); }
  }

  /** Completion is final: nothing happens to the row again. */
  lemma {:induction false} CompletionIsFinal(life: Life, c: nat, k: nat)
    requires IsLife(life) && c < k && life.change(c).Completed?
    ensures life.change(k) == Nothing
  {
    StaysCompleted(life, c, k);
    assert LivesOn(life, k);
  }
}
