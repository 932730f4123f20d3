/** The credit ledger of one tenant as a value: five tables, and each repository call as one
    atomic step on them. A row is named by its position (rows are never deleted); the random
    id stays as the column `uuid` because two queries order by it. */
module LedgerModel {
  import opened Outcomes
  import opened Sums
  import opened Positions
  import opened BurnOrder

  const INT64_MAX: int := 9_223_372_036_854_775_807

  datatype Account = Account(subject: string, available: int, held: int, generation: nat)

  datatype GrantStatus = Pending | Active | Expired

  /** `lapsed` remembers that a grant expired without ever becoming active. No branch reads it. */
  datatype Grant = Grant(
    account: nat, uuid: nat, sourceKind: string, sourceRef: string, program: string,
    original: int, remaining: int, effectiveAt: int, expiresAt: Option<int>,
    burnPriority: int, issuedAt: int, status: GrantStatus, lapsed: bool)

  /** `Open` is the status 'active' of a hold; no modelled writer produces `Overdue` ('expired'). */
  datatype HoldStatus = Open | Captured | Released | Overdue

  datatype Hold = Hold(
    account: nat, key: string, requested: int, feature: Option<string>, expiresAt: int,
    status: HoldStatus, captured: int, released: int, terminalSource: Option<string>)

  datatype Allocation = Allocation(hold: nat, grant: nat, held: int, captured: int, released: int)

  /** Entry kind together with its source columns. */
  datatype EntryKind =
    | Issued(sourceKind: string, sourceRef: string)
    | Debit(usageRef: string)
    | Expiry(grant: nat)

  datatype Entry = Entry(account: nat, sequence: nat, kind: EntryKind, amount: int)

  datatype Ledger = Ledger(
    accounts: seq<Account>, grants: seq<Grant>, holds: seq<Hold>,
    allocations: seq<Allocation>, journal: seq<Entry>)

  const EMPTY := Ledger([], [], [], [], [])

  datatype CreditError =
    | InvalidAmount | InvalidSource | AccountNotFound | IdempotencyConflict | Insufficient
    | HoldNotActive | TerminalCorrupt | JournalMissing | CheckViolation | UniqueViolation

  /** A failed step leaves the ledger as it was: its transaction rolls back. */
  datatype Outcome<+T> = Done(after: Ledger, value: T) | Failed(error: CreditError)

  // ----- text columns -----

  const KIND_WIDTH: nat := 64
  const REF_WIDTH: nat := 255

  /** What a text column takes: at most its width, and no U+0000. The empty text is stored. */
  predicate Storable(text: string, width: nat) {
    |text| <= width && forall i :: 0 <= i < |text| ==> text[i] != '\0'
  }

  // ----- queries -----

  function HasSubject(accounts: seq<Account>, subject: string): nat -> bool {
    (i: nat) => i < |accounts| && accounts[i].subject == subject
  }

  function HasSource(grants: seq<Grant>, kind: string, ref: string): nat -> bool {
    (i: nat) => i < |grants| && grants[i].sourceKind == kind && grants[i].sourceRef == ref
  }

  function HasKey(holds: seq<Hold>, key: string): nat -> bool {
    (i: nat) => i < |holds| && holds[i].key == key
  }

  function HasKind(journal: seq<Entry>, kind: EntryKind): nat -> bool {
    (i: nat) => i < |journal| && journal[i].kind == kind
  }

  function CapturedUnder(holds: seq<Hold>, source: string): nat -> bool {
    (i: nat) => i < |holds| && holds[i].status.Captured? && holds[i].terminalSource == Some(source)
  }

  function OfAccount(grants: seq<Grant>, a: nat): nat -> bool {
    (i: nat) => i < |grants| && grants[i].account == a
  }

  function OfHold(allocations: seq<Allocation>, h: nat): nat -> bool {
    (i: nat) => i < |allocations| && allocations[i].hold == h
  }

  predicate IsOpen(holds: seq<Hold>, h: nat) {
    h < |holds| && holds[h].status.Open?
  }

  /** What one allocation row still keeps of grant g for an open hold. */
  function KeptOf(holds: seq<Hold>, allocations: seq<Allocation>, g: nat): nat -> int {
    (j: nat) =>
      if j < |allocations| && allocations[j].grant == g && IsOpen(holds, allocations[j].hold)
      then allocations[j].held - allocations[j].captured - allocations[j].released
      else 0
  }

  function Reserved(holds: seq<Hold>, allocations: seq<Allocation>, g: nat): int {
    Sum(|allocations|, KeptOf(holds, allocations, g))
  }

  function MaxSequence(journal: seq<Entry>, a: nat): nat {
    if journal == [] then 0
    else
      var last := journal[|journal| - 1];
      var before := MaxSequence(journal[..|journal| - 1], a);
      if last.account == a && before < last.sequence then last.sequence else before
  }

  function IdOf(grants: seq<Grant>): nat -> BurnKey {
    (i: nat) => if i < |grants| then IdKey(grants[i].uuid) else IdKey(0)
  }

  function BurnKeyOf(grants: seq<Grant>): nat -> BurnKey {
    (i: nat) =>
      if i < |grants|
      then BurnKey(grants[i].expiresAt, grants[i].burnPriority, grants[i].issuedAt, grants[i].uuid)
      else IdKey(0)
  }

  // ----- account projection -----

  /** The UPDATE of an account row under its CHECK constraint and the width of BIGINT. */
  function Project(account: Account, available: int, held: int): Result<Account, CreditError> {
    var a := account.available + available;
    var h := account.held + held;
    if 0 <= a <= INT64_MAX && 0 <= h <= INT64_MAX
    then Ok(account.(available := a, held := h, generation := account.generation + 1))
    else Err(CheckViolation)
  }

  // ----- grant windows -----

  predicate WindowOpen(grant: Grant, now: int) {
    grant.effectiveAt <= now && (grant.expiresAt.None? || now < grant.expiresAt.value)
  }

  predicate WindowOver(grant: Grant, now: int) {
    grant.expiresAt.Some? && grant.expiresAt.value <= now
  }

  /** One grant row of one refresh, and what it adds to the spendable balance. */
  function RefreshRow(s: Ledger, a: nat, g: nat, now: int): (Ledger, int) {
    if g >= |s.grants| then (s, 0)
    else
      var grant := s.grants[g];
      if grant.status.Pending? && WindowOpen(grant, now) then
        (s.(grants := s.grants[g := grant.(status := Active)]), grant.remaining)
      else if !grant.status.Expired? && WindowOver(grant, now) then
        var reserved := Reserved(s.holds, s.allocations, g);
        var lost := if grant.status.Active? then grant.remaining - reserved else 0;
        var row := grant.(status := Expired, remaining := reserved, lapsed := grant.status.Pending?);
        var entry := Entry(a, MaxSequence(s.journal, a) + 1, Expiry(g), -lost);
        (s.(grants := s.grants[g := row],
            journal := if lost > 0 then s.journal + [entry] else s.journal), -lost)
      else (s, 0)
  }

  function RefreshRows(s: Ledger, a: nat, order: seq<nat>, now: int): (Ledger, int)
    decreases |order|
  {
    if order == [] then (s, 0)
    else
      var (s1, d1) := RefreshRow(s, a, order[0], now);
      var (s2, d2) := RefreshRows(s1, a, order[1..], now);
      (s2, d1 + d2)
  }

  function RefreshOrder(s: Ledger, a: nat): seq<nat> {
    SortBy(Where(|s.grants|, OfAccount(s.grants, a)), IdOf(s.grants))
  }

  function RefreshStep(s: Ledger, a: nat, now: int): Outcome<()> {
    var (s1, delta) := RefreshRows(s, a, RefreshOrder(s, a), now);
    if delta == 0 then Done(s1, ())
    else if a >= |s1.accounts| then Failed(AccountNotFound)
    else
      match Project(s1.accounts[a], delta, 0)
      case Err(e) => Failed(e)
      case Ok(row) => Done(s1.(accounts := s1.accounts[a := row]), ())
  }

  // ----- grant -----

  datatype GrantInput = GrantInput(
    subject: string, amount: int, sourceKind: string, sourceRef: string, program: string,
    effectiveAt: int, expiresAt: Option<int>, burnPriority: int)

  datatype GrantResult = GrantResult(account: nat, grant: nat, journal: nat)

  predicate SamePayload(prior: Grant, a: nat, input: GrantInput) {
    && prior.account == a
    && prior.program == input.program
    && prior.original == input.amount
    && prior.effectiveAt == input.effectiveAt
    && prior.expiresAt == input.expiresAt
  }

  /** The clock is read twice: for the status of the row and for crediting the account. */
  datatype GrantClocks = GrantClocks(issuedAt: int, forStatus: int, forCredit: int)

  function NewGrant(a: nat, uuid: nat, input: GrantInput, clocks: GrantClocks): Grant {
    Grant(a, uuid, input.sourceKind, input.sourceRef, input.program, input.amount, input.amount,
          input.effectiveAt, input.expiresAt, input.burnPriority, clocks.issuedAt,
          if input.effectiveAt <= clocks.forStatus then Active else Pending, false)
  }

  function OpenedFor(s: Ledger, subject: string): (Ledger, nat) {
    match First(|s.accounts|, HasSubject(s.accounts, subject))
    case Some(a) => (s, a)
    case None => (s.(accounts := s.accounts + [Account(subject, 0, 0, 1)]), |s.accounts|)
  }

  function GrantStep(s: Ledger, input: GrantInput, clocks: GrantClocks, uuid: nat): Outcome<GrantResult> {
    if input.amount <= 0 then Failed(InvalidAmount)
    else
      var (s0, a) := OpenedFor(s, input.subject);
      match First(|s.grants|, HasSource(s.grants, input.sourceKind, input.sourceRef))
      case Some(g) =>
        if !SamePayload(s.grants[g], a, input) then Failed(IdempotencyConflict)
        else
          (match First(|s.journal|, HasKind(s.journal, Issued(input.sourceKind, input.sourceRef)))
           case None => Failed(JournalMissing)
           case Some(j) => Done(s0, GrantResult(a, g, j)))
      case None => IssueGrant(s0, a, input, clocks, uuid)
  }

  function IssueGrant(s: Ledger, a: nat, input: GrantInput, clocks: GrantClocks, uuid: nat): Outcome<GrantResult> {
    var kind := Issued(input.sourceKind, input.sourceRef);
    var entry := Entry(a, MaxSequence(s.journal, a) + 1, kind, input.amount);
    if input.amount > INT64_MAX || (input.expiresAt.Some? && input.expiresAt.value <= input.effectiveAt)
       || !Storable(input.sourceKind, KIND_WIDTH) || !Storable(input.sourceRef, REF_WIDTH)
    then Failed(CheckViolation)
    else if a >= |s.accounts| then Failed(AccountNotFound)
    else
      match Project(s.accounts[a], input.amount, 0)
      case Err(e) =>
        if input.effectiveAt <= clocks.forCredit then Failed(e)
        else FinishGrant(s, s.accounts[a], a, input, clocks, uuid, entry)
      case Ok(row) =>
        FinishGrant(s, if input.effectiveAt <= clocks.forCredit then row else s.accounts[a],
                    a, input, clocks, uuid, entry)
  }

  function FinishGrant(s: Ledger, row: Account, a: nat, input: GrantInput, clocks: GrantClocks,
                       uuid: nat, entry: Entry): Outcome<GrantResult>
    requires a < |s.accounts|
  {
    if First(|s.journal|, HasKind(s.journal, entry.kind)).Some? then Failed(UniqueViolation)
    else
      Done(s.(accounts := s.accounts[a := row],
              grants := s.grants + [NewGrant(a, uuid, input, clocks)],
              journal := s.journal + [entry]),
           GrantResult(a, |s.grants|, |s.journal|))
  }

  // ----- reserve -----

  datatype ReserveInput = ReserveInput(
    account: nat, key: string, requested: int, feature: Option<string>, expiresAt: int)

  datatype ReserveResult = ReserveResult(hold: nat, requested: int)

  datatype Piece = Piece(grant: nat, amount: int)

  function Eligible(grants: seq<Grant>, a: nat, now: int): nat -> bool {
    (i: nat) => i < |grants| && grants[i].account == a && grants[i].status.Active? && WindowOpen(grants[i], now)
  }

  function AllocatableIn(s: Ledger): nat -> int {
    (i: nat) => if i < |s.grants| then s.grants[i].remaining - Reserved(s.holds, s.allocations, i) else 0
  }

  /** Take from each grant in turn until nothing is left to take. */
  function Burn(order: seq<nat>, allocatable: nat -> int, left: int): (seq<Piece>, int)
    decreases |order|
  {
    if order == [] then ([], left)
    else
      var amount := if allocatable(order[0]) < left then allocatable(order[0]) else left;
      var piece := if amount > 0 then [Piece(order[0], amount)] else [];
      if left - amount == 0 then (piece, 0)
      else
        var (rest, end) := Burn(order[1..], allocatable, left - amount);
        (piece + rest, end)
  }

  function EligibleOrder(s: Ledger, a: nat, now: int): seq<nat> {
    SortBy(Where(|s.grants|, Eligible(s.grants, a, now)), BurnKeyOf(s.grants))
  }

  function NewAllocations(h: nat, pieces: seq<Piece>): seq<Allocation> {
    seq(|pieces|, i requires 0 <= i < |pieces| => Allocation(h, pieces[i].grant, pieces[i].amount, 0, 0))
  }

  function NewHold(input: ReserveInput): Hold {
    Hold(input.account, input.key, input.requested, input.feature, input.expiresAt, Open, 0, 0, None)
  }

  /** The two clocks are the reading of the refresh and the later one of the selection. */
  function ReserveStep(s: Ledger, input: ReserveInput, refreshClock: int, selectClock: int): Outcome<ReserveResult> {
    if input.requested <= 0 then Failed(InvalidAmount)
    else
      match First(|s.holds|, HasKey(s.holds, input.key))
      case Some(h) =>
        var prior := s.holds[h];
        if prior.account != input.account || prior.requested != input.requested || prior.feature != input.feature
        then Failed(IdempotencyConflict)
        else Done(s, ReserveResult(h, prior.requested))
      case None =>
        if input.account >= |s.accounts| then Failed(AccountNotFound)
        else
          (match RefreshStep(s, input.account, refreshClock)
           case Failed(e) => Failed(e)
           case Done(s1, _) => PlaceHold(s1, input, selectClock))
  }

  function PlaceHold(s: Ledger, input: ReserveInput, now: int): Outcome<ReserveResult> {
    if input.account >= |s.accounts| then Failed(AccountNotFound)
    else if s.accounts[input.account].available < input.requested then Failed(Insufficient)
    else
      var (pieces, left) := Burn(EligibleOrder(s, input.account, now), AllocatableIn(s), input.requested);
      if left != 0 then Failed(Insufficient)
      else
        match Project(s.accounts[input.account], -input.requested, input.requested)
        case Err(e) => Failed(e)
        case Ok(row) =>
          Done(s.(accounts := s.accounts[input.account := row],
                  holds := s.holds + [NewHold(input)],
                  allocations := s.allocations + NewAllocations(|s.holds|, pieces)),
               ReserveResult(|s.holds|, input.requested))
  }

  // ----- capture and release -----

  datatype TerminalResult = TerminalResult(hold: nat, account: nat, captured: int, released: int, applied: bool)

  predicate ValidSource(ref: string) {
    1 <= |ref| && Storable(ref, REF_WIDTH)
  }

  predicate HoldFactsOk(hold: Hold) {
    && hold.requested >= 0 && hold.captured >= 0 && hold.released >= 0
    && if hold.status.Open? then
         hold.terminalSource.None? && hold.captured == 0 && hold.released == 0
       else
         && hold.terminalSource.Some? && ValidSource(hold.terminalSource.value)
         && hold.captured + hold.released == hold.requested
         && (!hold.status.Captured? ==> hold.captured == 0)
  }

  predicate AllocationOk(s: Ledger, hold: Hold, row: Allocation) {
    && row.grant < |s.grants|
    && var grant := s.grants[row.grant];
    && grant.account == hold.account
    && 0 <= grant.remaining <= grant.original
    && row.held >= 0 && row.captured >= 0 && row.released >= 0
    && if hold.status.Open?
       then row.captured == 0 && row.released == 0 && row.held <= grant.remaining
       else row.captured + row.released == row.held
  }

  function HeldIn(allocations: seq<Allocation>, h: nat): nat -> int {
    (j: nat) => if j < |allocations| && allocations[j].hold == h then allocations[j].held else 0
  }

  function CapturedIn(allocations: seq<Allocation>, h: nat): nat -> int {
    (j: nat) => if j < |allocations| && allocations[j].hold == h then allocations[j].captured else 0
  }

  function ReleasedIn(allocations: seq<Allocation>, h: nat): nat -> int {
    (j: nat) => if j < |allocations| && allocations[j].hold == h then allocations[j].released else 0
  }

  function HoldOrder(s: Ledger, h: nat): seq<nat> {
    SortBy(Where(|s.allocations|, OfHold(s.allocations, h)), AllocationKey(s))
  }

  function AllocationKey(s: Ledger): nat -> BurnKey {
    (j: nat) => if j < |s.allocations| then BurnKeyOf(s.grants)(s.allocations[j].grant) else IdKey(0)
  }

  predicate AllocationsOk(s: Ledger, h: nat)
    requires h < |s.holds|
  {
    var rows := Where(|s.allocations|, OfHold(s.allocations, h));
    && (forall i :: 0 <= i < |rows| ==> AllocationOk(s, s.holds[h], s.allocations[rows[i]]))
    && SumAlong(rows, HeldIn(s.allocations, h)) == s.holds[h].requested
    && SumAlong(rows, CapturedIn(s.allocations, h)) == s.holds[h].captured
    && SumAlong(rows, ReleasedIn(s.allocations, h)) == s.holds[h].released
  }

  /** A captured hold owns exactly one debit of its source, for its account and amount. */
  predicate OneDebit(s: Ledger, hold: Hold, source: string) {
    var rows := Where(|s.journal|, HasKind(s.journal, Debit(source)));
    |rows| == 1 && s.journal[rows[0]].account == hold.account && s.journal[rows[0]].amount == -hold.captured
  }

  /** Charge one allocation row with at most `left`, and the rest of it is released. */
  function ChargeRow(s: Ledger, account: nat, j: nat, left: int): Option<(Ledger, int)> {
    if j >= |s.allocations| then None
    else
      var row := s.allocations[j];
      var captured := if row.held < left then row.held else left;
      if row.captured != 0 || row.released != 0 then None
      else
        var s1 := s.(allocations := s.allocations[j := row.(captured := captured, released := row.held - captured)]);
        if captured <= 0 then Some((s1, left - captured))
        else if row.grant >= |s.grants| || s.grants[row.grant].account != account
                || s.grants[row.grant].remaining < captured
        then None
        else
          var grant := s.grants[row.grant];
          Some((s1.(grants := s.grants[row.grant := grant.(remaining := grant.remaining - captured)]),
                left - captured))
  }

  function ChargeRows(s: Ledger, account: nat, order: seq<nat>, left: int): Option<(Ledger, int)>
    decreases |order|
  {
    if order == [] then Some((s, left))
    else
      match ChargeRow(s, account, order[0], left)
      case None => None
      case Some((s1, left1)) => ChargeRows(s1, account, order[1..], left1)
  }

  function FinishStep(s: Ledger, h: nat, actual: int, source: string, terminal: HoldStatus): Outcome<TerminalResult> {
    if actual < 0 then Failed(InvalidAmount)
    else if !ValidSource(source) then Failed(InvalidSource)
    else if h >= |s.holds| then Failed(HoldNotActive)
    else
      var hold := s.holds[h];
      if hold.account >= |s.accounts| then Failed(TerminalCorrupt)
      else if s.accounts[hold.account].available < 0 || s.accounts[hold.account].held < 0 then Failed(TerminalCorrupt)
      else if !HoldFactsOk(hold) || !AllocationsOk(s, h) then Failed(TerminalCorrupt)
      else if !hold.status.Open? then ReplayTerminal(s, h, actual, source, terminal)
      else if hold.requested < actual then Failed(Insufficient)
      else if s.accounts[hold.account].held < hold.requested then Failed(TerminalCorrupt)
      else if terminal.Captured? && First(|s.holds|, CapturedUnder(s.holds, source)).Some?
      then Failed(IdempotencyConflict)
      else CloseHold(s, h, actual, source, terminal)
  }

  function ReplayTerminal(s: Ledger, h: nat, actual: int, source: string, terminal: HoldStatus): Outcome<TerminalResult>
    requires h < |s.holds|
  {
    var hold := s.holds[h];
    if hold.terminalSource.None? then Failed(TerminalCorrupt)
    else if hold.status.Captured? && hold.captured > 0 && !OneDebit(s, hold, hold.terminalSource.value)
    then Failed(TerminalCorrupt)
    else if hold.status != terminal || hold.terminalSource.value != source || hold.captured != actual
    then Failed(IdempotencyConflict)
    else Done(s, TerminalResult(h, hold.account, hold.captured, hold.released, false))
  }

  function Terminated(hold: Hold, actual: int, source: string, terminal: HoldStatus): Hold {
    hold.(status := terminal, terminalSource := Some(source),
          captured := actual, released := hold.requested - actual)
  }

  function CloseHold(s: Ledger, h: nat, actual: int, source: string, terminal: HoldStatus): Outcome<TerminalResult>
    requires h < |s.holds| && s.holds[h].account < |s.accounts|
  {
    var hold := s.holds[h];
    var order := HoldOrder(s, h);
    var s0 := s.(holds := s.holds[h := Terminated(hold, actual, source, terminal)]);
    match ChargeRows(s0, hold.account, order, actual)
    case None => Failed(TerminalCorrupt)
    case Some((s1, left)) =>
      if left != 0 || hold.account >= |s1.accounts| then Failed(TerminalCorrupt)
      else Settle(s1, h, hold, actual, source)
  }

  /** The account projection and the journal row of a finished hold. */
  function Settle(s: Ledger, h: nat, hold: Hold, actual: int, source: string): Outcome<TerminalResult>
    requires hold.account < |s.accounts|
  {
    match Project(s.accounts[hold.account], hold.requested - actual, -hold.requested)
    case Err(e) => Failed(e)
    case Ok(row) =>
      var entry := Entry(hold.account, MaxSequence(s.journal, hold.account) + 1, Debit(source), -actual);
      if actual > 0 && First(|s.journal|, HasKind(s.journal, entry.kind)).Some? then Failed(UniqueViolation)
      else
        Done(s.(accounts := s.accounts[hold.account := row],
                journal := if actual > 0 then s.journal + [entry] else s.journal),
             TerminalResult(h, hold.account, actual, hold.requested - actual, true))
  }
}
