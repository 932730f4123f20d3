/** Reading the journal of an account page by page while it keeps growing. */
module LedgerPaging {
  import opened Outcomes
  import opened Sums
  import opened Positions
  import opened LedgerModel
  import opened LedgerInvariant
  import opened LedgerRefreshProof

  datatype Cursor = Cursor(account: nat, highWater: nat, last: nat)

  datatype Item = Item(journal: nat, sequence: nat, delta: int, balanceAfter: int, kind: EntryKind)

  datatype Page = Page(items: seq<Item>, next: Option<Cursor>)

  datatype ReadError = NotFound | InvalidCursor | Corrupt

  // ----- the queries of one page -----

  function HasSequence(journal: seq<Entry>, a: nat, q: nat): nat -> bool {
    (i: nat) => i < |journal| && journal[i].account == a && journal[i].sequence == q
  }

  function UpTo(a: nat, q: nat): Entry -> int {
    (e: Entry) => if e.account == a && e.sequence <= q then e.amount else 0
  }

  /** The running sum of the window, at sequence q. */
  function Balance(journal: seq<Entry>, a: nat, q: nat): int {
    SumSeq(journal, UpTo(a, q))
  }

  /** The first units of the text of an id: hexadecimal digits in groups of 8, 4, 4, 4 and 12. */
  function IdPrefix(id: nat, length: nat): (r: string)
    ensures |r| == length && Storable(r, length)
    decreases length
  {
    if length == 0 then ""
    else if length in {9, 14, 19, 24} then IdPrefix(id, length - 1) + "-"
    else IdPrefix(id / 16, length - 1) + ["0123456789abcdef"[id % 16]]
  }

  function IdText(id: nat): string { IdPrefix(id, 36) }

  /** The columns source_kind and source_ref of an entry. */
  function KindText(kind: EntryKind): string {
    match kind
    case Issued(sourceKind, _) => sourceKind
    case Debit(_) => "usage"
    case Expiry(_) => "grant_expiry"
  }

  function RefText(kind: EntryKind): string {
    match kind
    case Issued(_, sourceRef) => sourceRef
    case Debit(usageRef) => usageRef
    case Expiry(grant) => IdText(grant)
  }

  predicate Sourced(kind: EntryKind) {
    KindText(kind) != "" && RefText(kind) != ""
  }

  predicate InvalidEntry(e: Entry) {
    || e.amount == 0 || !Sourced(e.kind)
    || |KindText(e.kind)| > KIND_WIDTH || |RefText(e.kind)| > REF_WIDTH
  }

  /** The integrity query: one invalid row refuses the whole account. */
  predicate InvalidRow(journal: seq<Entry>, a: nat) {
    exists i {:trigger InvalidEntry(journal[i])} ::
      0 <= i < |journal| && journal[i].account == a && InvalidEntry(journal[i])
  }

  predicate HistoryCorrupt(journal: seq<Entry>, a: nat, high: nat) {
    exists i {:trigger Balance(journal, a, journal[i].sequence)} ::
      0 <= i < |journal| && journal[i].account == a && journal[i].sequence <= high
      && Balance(journal, a, journal[i].sequence) < 0
  }

  predicate Below(journal: seq<Entry>, a: nat, bound: nat, i: nat) {
    i < |journal| && journal[i].account == a && journal[i].sequence < bound
  }

  function IsLatest(journal: seq<Entry>, a: nat, bound: nat): nat -> bool {
    (i: nat) =>
      && Below(journal, a, bound, i)
      && forall j :: 0 <= j < |journal| && Below(journal, a, bound, j) ==> journal[j].sequence <= journal[i].sequence
  }

  /** The row of the account with the greatest sequence below the bound. */
  function LatestBelow(journal: seq<Entry>, a: nat, bound: nat): Option<nat> {
    First(|journal|, IsLatest(journal, a, bound))
  }

  function ItemOf(journal: seq<Entry>, a: nat, i: nat): Item
    requires i < |journal|
  {
    Item(i, journal[i].sequence, journal[i].amount, Balance(journal, a, journal[i].sequence), journal[i].kind)
  }

  /** ORDER BY journal_seq DESC LIMIT count. */
  function ItemsBelow(journal: seq<Entry>, a: nat, bound: nat, count: nat): (r: seq<Item>)
    ensures |r| <= count
    decreases count
  {
    if count == 0 then []
    else
      match LatestBelow(journal, a, bound)
      case None => []
      case Some(i) => [ItemOf(journal, a, i)] + ItemsBelow(journal, a, journal[i].sequence, count - 1)
  }

  predicate Readable(kind: EntryKind) {
    1 <= |KindText(kind)| <= KIND_WIDTH && ValidSource(RefText(kind))
  }

  /** The check of each row shown. */
  predicate ItemOk(item: Item) {
    item.delta != 0 && 0 <= item.balanceAfter && Readable(item.kind)
  }

  predicate ItemsOk(items: seq<Item>) {
    forall k {:trigger ItemOk(items[k])} :: 0 <= k < |items| ==> ItemOk(items[k])
  }

  predicate CursorValid(journal: seq<Entry>, a: nat, cursor: Cursor) {
    && First(|journal|, HasSequence(journal, a, cursor.highWater)).Some?
    && First(|journal|, HasSequence(journal, a, cursor.last)).Some?
  }

  /** One call of listMyLedger once the account is found. */
  function ReadPage(journal: seq<Entry>, a: nat, limit: nat, cursor: Option<Cursor>): Result<Page, ReadError> {
    if cursor.Some? && cursor.value.account != a then Err(InvalidCursor)
    else if InvalidRow(journal, a) then Err(Corrupt)
    else if cursor.Some? && !CursorValid(journal, a, cursor.value) then Err(InvalidCursor)
    else if cursor.None? && LatestBelow(journal, a, MaxSequence(journal, a) + 1).None? then Ok(Page([], None))
    else
      var high := if cursor.Some? then cursor.value.highWater else MaxSequence(journal, a);
      var bound := if cursor.Some? then cursor.value.last else high + 1;
      PageBelow(journal, a, limit, high, bound)
  }

  /** listMyLedger: the account of the subject, then a page of its journal. */
  function ReadLedger(s: Ledger, subject: string, limit: nat, cursor: Option<Cursor>): Result<Page, ReadError> {
    match First(|s.accounts|, HasSubject(s.accounts, subject))
    case None => Err(NotFound)
    case Some(a) =>
      if s.accounts[a].available < 0 || s.accounts[a].held < 0 then Err(Corrupt)
      else ReadPage(s.journal, a, limit, cursor)
  }

  function PageBelow(journal: seq<Entry>, a: nat, limit: nat, high: nat, bound: nat): Result<Page, ReadError> {
    if HistoryCorrupt(journal, a, high) then Err(Corrupt)
    else CutPage(ItemsBelow(journal, a, if bound <= high then bound else high + 1, limit + 1), a, limit, high)
  }

  /** The rows fetched, cut to the limit; one row more than the limit announces another page. */
  function CutPage(items: seq<Item>, a: nat, limit: nat, high: nat): Result<Page, ReadError> {
    if !ItemsOk(items) then Err(Corrupt)
    else if |items| > limit && limit > 0 then Ok(Page(items[..limit], Some(Cursor(a, high, items[limit - 1].sequence))))
    else Ok(Page(if |items| > limit then items[..limit] else items, None))
  }

  // ----- what a sound journal looks like to the reader -----

  function IsOwn(journal: seq<Entry>, a: nat): nat -> bool {
    (i: nat) => i < |journal| && journal[i].account == a
  }

  /** The rows of the account, in the order they were written. */
  function Own(journal: seq<Entry>, a: nat): seq<nat> {
    Where(|journal|, IsOwn(journal, a))
  }

  /** Every entry of the account as the reader shows it, oldest first. */
  function History(journal: seq<Entry>, a: nat): (r: seq<Item>)
    ensures |r| == |Own(journal, a)|
  {
    var own := Own(journal, a);
    seq(|own|, k requires 0 <= k < |own| => ItemOf(journal, a, own[k]))
  }

  /** The entries are numbered 1..n in the order they were written. */
  predicate Sequenced(history: seq<Item>) {
    forall k :: 0 <= k < |history| ==> history[k].sequence == k + 1
  }

  /** What the reader relies on, for one account. */
  ghost predicate Sound(journal: seq<Entry>, a: nat) {
    && MaxSequence(journal, a) == |History(journal, a)|
    && Sequenced(History(journal, a)) && ItemsOk(History(journal, a))
  }

  lemma {:induction false} SameWhere(n: nat, p: nat -> bool, q: nat -> bool)
    requires forall i: nat :: i < n ==> p(i) == q(i)
    ensures Where(n, p) == Where(n, q)
  {
    if n > 0 { SameWhere(n - 1, p, q); }
  }

  lemma {:induction false} OwnPush(front: seq<Entry>, e: Entry, a: nat)
    ensures Own(front + [e], a) == Own(front, a) + if e.account == a then [|front|] else []
  {
    SameWhere(|front|, IsOwn(front, a), IsOwn(front + [e], a));
  }

  lemma {:induction false} OwnRow(journal: seq<Entry>, a: nat, i: nat) returns (k: nat)
    requires i < |journal| && journal[i].account == a
    ensures k < |Own(journal, a)| && Own(journal, a)[k] == i
    ensures History(journal, a)[k] == ItemOf(journal, a, i)
  {
    assert i in Own(journal, a);
    k :| 0 <= k < |Own(journal, a)| && Own(journal, a)[k] == i;
  }

  /** A later journal lists the same rows first. */
  lemma {:induction false} OwnGrows(journal: seq<Entry>, extra: seq<Entry>, a: nat)
    ensures Own(journal, a) <= Own(journal + extra, a)
    decreases |extra|
  {
    if extra == [] {
      assert journal + extra == journal;
    } else {
      OwnGrows(journal + [extra[0]], extra[1..], a);
      assert journal + extra == journal + [extra[0]] + extra[1..];
      OwnPush(journal, extra[0], a);
    }
  }

  ghost predicate OwnNumbered(journal: seq<Entry>, a: nat) {
    forall k :: 0 <= k < |Own(journal, a)| ==> journal[Own(journal, a)[k]].sequence == k + 1
  }

  lemma {:induction false} NumberedIsSequenced(journal: seq<Entry>, a: nat)
    requires Numbered(journal)
    ensures OwnNumbered(journal, a) && MaxSequence(journal, a) == |Own(journal, a)|
  {
    if journal != [] {
      var n := |journal| - 1;
      var front, last := journal[..n], journal[n];
      NumberedIsSequenced(front, a);
      MaxIsCount(front, last.account);
      assert journal == front + [last];
      OwnPush(front, last, a);
      var own := Own(journal, a);
      forall k | 0 <= k < |own| ensures journal[own[k]].sequence == k + 1 {
        if k < |Own(front, a)| { assert own[k] == Own(front, a)[k]; }
      }
    }
  }

  /** The running sum shown with an entry is the sum of the account's entries up to it. */
  lemma {:induction false} BalanceIsPrefixSum(journal: seq<Entry>, a: nat, i: nat)
    requires Numbered(journal) && i < |journal| && journal[i].account == a
    ensures Balance(journal, a, journal[i].sequence) == SumSeq(journal[..i + 1], AmountOf(a))
    decreases |journal|
  {
    var n := |journal| - 1;
    var front := journal[..n];
    var q := journal[i].sequence;
    SequencesBelow(front, a);
    if i < n {
      BalanceIsPrefixSum(front, a, i);
      assert front[..i + 1] == journal[..i + 1];
      MaxIsCount(front, journal[n].account);
    } else {
      MaxIsCount(front, a);
      assert journal[..i + 1] == journal;
      SumSeqSame(front, UpTo(a, q), AmountOf(a));
    }
  }

  lemma {:induction false} SequencesBelow(journal: seq<Entry>, a: nat)
    ensures forall i :: 0 <= i < |journal| && journal[i].account == a ==> journal[i].sequence <= MaxSequence(journal, a)
  {
    if journal != [] {
      var n := |journal| - 1;
      SequencesBelow(journal[..n], a);
      assert forall i :: 0 <= i < n ==> journal[..n][i] == journal[i];
    }
  }

  lemma {:induction false} NoAmounts(rows: seq<Entry>, f: Entry -> int)
    requires forall k :: 0 <= k < |rows| ==> f(rows[k]) == 0
    ensures SumSeq(rows, f) == 0
  {
    if rows != [] { NoAmounts(rows[..|rows| - 1], f); }
  }

  /** Every text fits its column. */
  predicate Stored(journal: seq<Entry>) {
    forall i :: 0 <= i < |journal| ==> StoredTexts(journal[i].kind)
  }

  predicate StoredTexts(kind: EntryKind) {
    Storable(KindText(kind), KIND_WIDTH) && Storable(RefText(kind), REF_WIDTH)
  }

  lemma {:induction false} StoredEntry(journal: seq<Entry>, a: nat, i: nat)
    requires i < |journal| && StoredTexts(journal[i].kind) && 0 <= Balance(journal, a, journal[i].sequence)
    ensures ItemOk(ItemOf(journal, a, i)) <==> !InvalidEntry(journal[i])
  {
  }

  /** Row i of a journal as the ledger writes it. */
  lemma {:induction false} WrittenRow(journal: seq<Entry>, a: nat, i: nat)
    requires Numbered(journal) && NeverNegative(journal) && Stored(journal)
    requires i < |journal| && journal[i].account == a
    ensures Balance(journal, a, journal[i].sequence) == SumSeq(journal[..i + 1], AmountOf(a))
    ensures ItemOk(ItemOf(journal, a, i)) <==> !InvalidEntry(journal[i])
  {
    BalanceIsPrefixSum(journal, a, i);
    JournalAt(journal, i, a);
    StoredEntry(journal, a, i);
  }

  lemma {:induction false} NoInvalidRow(journal: seq<Entry>, a: nat)
    requires forall k {:trigger ItemOk(History(journal, a)[k])} :: 0 <= k < |Own(journal, a)| ==>
               (ItemOk(History(journal, a)[k]) <==> !InvalidEntry(journal[Own(journal, a)[k]]))
    ensures ItemsOk(History(journal, a)) <==> !InvalidRow(journal, a)
  {
    if InvalidRow(journal, a) {
      var i :| 0 <= i < |journal| && journal[i].account == a && InvalidEntry(journal[i]);
      var k := OwnRow(journal, a, i);
      assert !ItemOk(History(journal, a)[k]);
    }
  }

  /** A journal as the ledger writes it shows prefix sums, and it satisfies its reader if and only
      if no row of the account fails the integrity query. */
  lemma {:induction false} WritersSatisfyReader(journal: seq<Entry>, a: nat)
    requires Numbered(journal) && NeverNegative(journal) && Stored(journal)
    ensures Sound(journal, a) <==> !InvalidRow(journal, a)
    ensures forall k :: 0 <= k < |Own(journal, a)| ==>
              History(journal, a)[k].balanceAfter == SumSeq(journal[..Own(journal, a)[k] + 1], AmountOf(a))
  {
    NumberedIsSequenced(journal, a);
    var own, history := Own(journal, a), History(journal, a);
    forall k | 0 <= k < |own|
      ensures history[k].balanceAfter == SumSeq(journal[..own[k] + 1], AmountOf(a))
      ensures ItemOk(history[k]) <==> !InvalidEntry(journal[own[k]])
    {
      WrittenRow(journal, a, own[k]);
    }
    NoInvalidRow(journal, a);
  }

  // ----- one page -----

  /** The items are the entries top, top-1, ... of the history, without gap or repetition. */
  predicate Shows(items: seq<Item>, history: seq<Item>, top: nat) {
    && |items| <= top <= |history|
    && forall k :: 0 <= k < |items| ==> items[k] == history[top - 1 - k]
  }

  /** The next `count` entries below `bound`, or all of them. */
  predicate NextItems(items: seq<Item>, history: seq<Item>, bound: nat, count: nat) {
    && 1 <= bound <= |history| + 1
    && |items| == (if count < bound - 1 then count else bound - 1) && Shows(items, history, bound - 1)
  }

  lemma {:induction false} LatestIsNext(journal: seq<Entry>, a: nat, bound: nat)
    requires OwnNumbered(journal, a) && 1 <= bound <= |Own(journal, a)| + 1
    ensures LatestBelow(journal, a, bound) == if bound == 1 then None else Some(Own(journal, a)[bound - 2])
  {
    var own := Own(journal, a);
    forall i: nat | Below(journal, a, bound, i)
      ensures exists k :: 0 <= k < |own| && own[k] == i && k + 1 < bound
    {
      assert i in own;
    }
    if bound > 1 {
      var i := own[bound - 2];
      assert Below(journal, a, bound, i) && journal[i].sequence == bound - 1;
      assert IsLatest(journal, a, bound)(i);
      var r := LatestBelow(journal, a, bound).value;
      var k :| 0 <= k < |own| && own[k] == r && k + 1 < bound;
      assert journal[i].sequence <= journal[r].sequence;
    }
  }

  lemma {:induction false} SequencedRows(journal: seq<Entry>, a: nat)
    requires Sequenced(History(journal, a))
    ensures OwnNumbered(journal, a)
  {
    forall k | 0 <= k < |Own(journal, a)| ensures journal[Own(journal, a)[k]].sequence == k + 1 {
      assert History(journal, a)[k].sequence == k + 1;
    }
  }

  lemma {:induction false} HasEachSequence(journal: seq<Entry>, a: nat, q: nat)
    requires OwnNumbered(journal, a) && 1 <= q <= |Own(journal, a)|
    ensures First(|journal|, HasSequence(journal, a, q)).Some?
  {
    assert HasSequence(journal, a, q)(Own(journal, a)[q - 1]);
  }

  /** The entries bound-1, bound-2, ..., at most `count` of them. */
  function NewestFirst(history: seq<Item>, bound: nat, count: nat): seq<Item>
    requires 1 <= bound <= |history| + 1
    decreases count
  {
    if count == 0 || bound == 1 then [] else [history[bound - 2]] + NewestFirst(history, bound - 1, count - 1)
  }

  lemma {:induction false} NewestFirstShows(history: seq<Item>, bound: nat, count: nat)
    requires 1 <= bound <= |history| + 1
    ensures NextItems(NewestFirst(history, bound, count), history, bound, count)
    decreases count
  {
    if count > 0 && bound > 1 { NewestFirstShows(history, bound - 1, count - 1); }
  }

  lemma {:induction false} ItemsBelowIs(journal: seq<Entry>, a: nat, bound: nat, count: nat)
    requires OwnNumbered(journal, a) && 1 <= bound <= |History(journal, a)| + 1
    ensures ItemsBelow(journal, a, bound, count)
         == if count == 0 || bound == 1 then []
            else [History(journal, a)[bound - 2]] + ItemsBelow(journal, a, bound - 1, count - 1)
  {
    LatestIsNext(journal, a, bound);
    if bound > 1 { assert journal[Own(journal, a)[bound - 2]].sequence == bound - 1; }
  }

  /** The listing goes down by one entry at `bound`. */
  predicate StepsDown(history: seq<Item>, below: (nat, nat) -> seq<Item>, bound: nat, count: nat)
    requires 1 <= bound <= |history| + 1
  {
    below(bound, count)
    == if count == 0 || bound == 1 then [] else [history[bound - 2]] + below(bound - 1, count - 1)
  }

  lemma {:induction false} ListsNewestFirst(history: seq<Item>, below: (nat, nat) -> seq<Item>, bound: nat, count: nat)
    requires forall b: nat, c: nat :: 1 <= b <= |history| + 1 ==> StepsDown(history, below, b, c)
    requires 1 <= bound <= |history| + 1
    ensures below(bound, count) == NewestFirst(history, bound, count)
    decreases count
  {
    assert StepsDown(history, below, bound, count);
    if count > 0 && bound > 1 { ListsNewestFirst(history, below, bound - 1, count - 1); }
  }

  function Listing(journal: seq<Entry>, a: nat): (nat, nat) -> seq<Item> {
    (bound: nat, count: nat) => ItemsBelow(journal, a, bound, count)
  }

  lemma {:induction false} ListingStepsDown(journal: seq<Entry>, a: nat, bound: nat, count: nat)
    requires OwnNumbered(journal, a) && 1 <= bound <= |History(journal, a)| + 1
    ensures StepsDown(History(journal, a), Listing(journal, a), bound, count)
  {
    ListingIs(journal, a, bound, count);
    if count > 0 && bound > 1 { ListingIs(journal, a, bound - 1, count - 1); }
    ItemsBelowIs(journal, a, bound, count);
  }

  lemma {:induction false} ListingIs(journal: seq<Entry>, a: nat, bound: nat, count: nat)
    ensures Listing(journal, a)(bound, count) == ItemsBelow(journal, a, bound, count)
  {
  }

  /** A page below `bound` lists the next entries, newest first. */
  lemma {:induction false} ItemsShowNext(journal: seq<Entry>, a: nat, bound: nat, count: nat)
    requires OwnNumbered(journal, a) && 1 <= bound <= |History(journal, a)| + 1
    ensures Listing(journal, a)(bound, count) == NewestFirst(History(journal, a), bound, count)
  {
    forall b: nat, c: nat | 1 <= b <= |History(journal, a)| + 1
      ensures StepsDown(History(journal, a), Listing(journal, a), b, c)
    {
      ListingStepsDown(journal, a, b, c);
    }
    ListsNewestFirst(History(journal, a), Listing(journal, a), bound, count);
  }

  lemma {:induction false} OkItemIsValid(journal: seq<Entry>, a: nat, i: nat)
    requires i < |journal| && ItemOk(ItemOf(journal, a, i))
    ensures !InvalidEntry(journal[i]) && 0 <= Balance(journal, a, journal[i].sequence)
  {
  }

  lemma {:induction false} SoundHistory(journal: seq<Entry>, a: nat, high: nat)
    requires Sound(journal, a)
    ensures !InvalidRow(journal, a) && !HistoryCorrupt(journal, a, high)
  {
    forall i: nat | i < |journal| && journal[i].account == a
      ensures !InvalidEntry(journal[i]) && 0 <= Balance(journal, a, journal[i].sequence)
    {
      var k := OwnRow(journal, a, i);
      assert ItemOk(History(journal, a)[k]);
      OkItemIsValid(journal, a, i);
    }
  }

  /** An accepted page that continues the history below `bound`. */
  ghost predicate IsNextPage(p: Result<Page, ReadError>, history: seq<Item>, a: nat, limit: nat, high: nat, bound: nat)
    requires 1 <= bound
  {
    var shown := if limit < bound - 1 then limit else bound - 1;
    && p.Ok? && |p.value.items| == shown && Shows(p.value.items, history, bound - 1)
    && p.value.next == if shown < bound - 1 then Some(Cursor(a, high, bound - shown)) else None
  }

  lemma {:induction false} CutIsNext(items: seq<Item>, history: seq<Item>, a: nat, limit: nat, high: nat, bound: nat)
    requires Sequenced(history) && ItemsOk(history) && 0 < limit && NextItems(items, history, bound, limit + 1)
    ensures IsNextPage(CutPage(items, a, limit, high), history, a, limit, high, bound)
  {
    forall k | 0 <= k < |items| ensures ItemOk(items[k]) { assert ItemOk(history[bound - 2 - k]); }
    assert |items| > limit ==> items[limit - 1].sequence == bound - limit;
  }

  /** On a sound journal a page is always accepted, and is the next stretch of the history. */
  lemma {:induction false} PageIsNext(journal: seq<Entry>, a: nat, limit: nat, high: nat, bound: nat)
    requires Sound(journal, a) && 0 < limit && high <= |History(journal, a)| && 1 <= bound <= high + 1
    ensures IsNextPage(PageBelow(journal, a, limit, high, bound), History(journal, a), a, limit, high, bound)
  {
    SequencedRows(journal, a);
    ItemsShowNext(journal, a, bound, limit + 1);
    SoundHistory(journal, a, high);
    NewestFirstShows(History(journal, a), bound, limit + 1);
    PageIsCut(journal, a, limit, high, bound);
    CutIsNext(NewestFirst(History(journal, a), bound, limit + 1), History(journal, a), a, limit, high, bound);
  }

  lemma {:induction false} PageIsCut(journal: seq<Entry>, a: nat, limit: nat, high: nat, bound: nat)
    requires !HistoryCorrupt(journal, a, high) && bound <= high + 1
    ensures PageBelow(journal, a, limit, high, bound) == CutPage(ItemsBelow(journal, a, bound, limit + 1), a, limit, high)
  {
  }

  // ----- a session of pages over a growing journal -----

  lemma {:induction false} LaterIsHigher(journal: seq<Entry>, later: seq<Entry>, a: nat, j: nat)
    requires OwnNumbered(later, a) && Own(journal, a) <= Own(later, a)
    requires |journal| <= j < |later| && later[j].account == a
    ensures |Own(journal, a)| < later[j].sequence
  {
    var own := Own(later, a);
    assert j in own;
    var p :| 0 <= p < |own| && own[p] == j;
    assert own[..|Own(journal, a)|] == Own(journal, a);
  }

  /** Entries already written look the same in every later journal. */
  lemma {:induction false} EntryStays(journal: seq<Entry>, later: seq<Entry>, a: nat, k: nat)
    requires OwnNumbered(journal, a) && OwnNumbered(later, a) && journal <= later && k < |Own(journal, a)|
    requires Own(journal, a) <= Own(later, a)
    ensures History(later, a)[k] == History(journal, a)[k]
  {
    var extra := later[|journal|..];
    assert later == journal + extra;
    assert Own(later, a)[k] == Own(journal, a)[k];
    forall i | 0 <= i < |extra| ensures UpTo(a, k + 1)(extra[i]) == 0 {
      var j := |journal| + i;
      assert later[j] == extra[i];
      if later[j].account == a { LaterIsHigher(journal, later, a, j); }
    }
    SumSeqConcat(journal, extra, UpTo(a, k + 1));
    NoAmounts(extra, UpTo(a, k + 1));
  }

  lemma {:induction false} HistoryGrows(journal: seq<Entry>, later: seq<Entry>, a: nat)
    requires Sound(journal, a) && Sound(later, a) && journal <= later
    ensures History(journal, a) <= History(later, a)
  {
    SequencedRows(journal, a);
    SequencedRows(later, a);
    assert later == journal + later[|journal|..];
    OwnGrows(journal, later[|journal|..], a);
    forall k | 0 <= k < |History(journal, a)| ensures History(later, a)[k] == History(journal, a)[k] {
      EntryStays(journal, later, a, k);
    }
  }

  datatype Session = Session(items: seq<Item>, finished: bool, failed: bool)

  /** Read one page from each journal in turn, following the cursor. */
  function Follow(journals: seq<seq<Entry>>, limits: seq<nat>, a: nat, cursor: Option<Cursor>): Session
    requires |journals| == |limits|
    decreases |journals|, 0
  {
    if journals == [] then Session([], false, false)
    else
      match ReadPage(journals[0], a, limits[0], cursor)
      case Err(_) => Session([], false, true)
      case Ok(page) => AfterPage(page, journals[1..], limits[1..], a)
  }

  function AfterPage(page: Page, journals: seq<seq<Entry>>, limits: seq<nat>, a: nat): Session
    requires |journals| == |limits|
    decreases |journals|, 1
  {
    if page.next.None? then Session(page.items, true, false)
    else
      var rest := Follow(journals, limits, a, page.next);
      rest.(items := page.items + rest.items)
  }

  /** A sound journal that only adds to this history. */
  ghost predicate Extends(history: seq<Item>, journal: seq<Entry>, a: nat) {
    Sound(journal, a) && history <= History(journal, a)
  }

  ghost predicate Growing(history: seq<Item>, journals: seq<seq<Entry>>, a: nat) {
    forall i {:trigger Extends(history, journals[i], a)} :: 0 <= i < |journals| ==> Extends(history, journals[i], a)
  }

  predicate AllPositive(limits: seq<nat>) {
    forall i :: 0 <= i < |limits| ==> 0 < limits[i]
  }

  lemma {:induction false} SessionTail(history: seq<Item>, journals: seq<seq<Entry>>, limits: seq<nat>, a: nat)
    requires |journals| == |limits| && journals != [] && Growing(history, journals, a) && AllPositive(limits)
    ensures Growing(history, journals[1..], a) && AllPositive(limits[1..])
    ensures Extends(history, journals[0], a) && 0 < limits[0]
  {
    forall i | 0 <= i < |journals[1..]| ensures Extends(history, journals[1..][i], a) {
      assert Extends(history, journals[i + 1], a);
    }
    assert forall i :: 0 <= i < |limits[1..]| ==> limits[1..][i] == limits[i + 1];
    assert Extends(history, journals[0], a);
  }

  lemma {:induction false} ReadsBelow(journal: seq<Entry>, a: nat, limit: nat, high: nat, bound: nat)
    requires Sound(journal, a) && 1 <= bound <= high <= |History(journal, a)|
    ensures ReadPage(journal, a, limit, Some(Cursor(a, high, bound))) == PageBelow(journal, a, limit, high, bound)
  {
    SoundHistory(journal, a, high);
    SequencedRows(journal, a);
    HasEachSequence(journal, a, high);
    HasEachSequence(journal, a, bound);
  }

  lemma {:induction false} NextPage(history: seq<Item>, journal: seq<Entry>, limit: nat, a: nat, high: nat, bound: nat)
    requires Extends(history, journal, a) && 0 < limit && 2 <= bound <= high == |history|
    ensures IsNextPage(ReadPage(journal, a, limit, Some(Cursor(a, high, bound))), history, a, limit, high, bound)
  {
    ReadsBelow(journal, a, limit, high, bound);
    PageIsNext(journal, a, limit, high, bound);
  }

  /** A session that shows the entries below top, completely once it is finished. */
  ghost predicate Continues(s: Session, history: seq<Item>, top: nat, pages: nat) {
    && !s.failed && Shows(s.items, history, top)
    && (s.finished <==> |s.items| == top)
    && (top <= pages ==> s.finished)
  }

  lemma {:induction false} GlueSession(page: Page, rest: Session, history: seq<Item>, top: nat, pages: nat)
    requires 0 < |page.items| < top && Shows(page.items, history, top)
    requires Continues(rest, history, top - |page.items|, pages)
    ensures Continues(rest.(items := page.items + rest.items), history, top, pages + 1)
  {
  }

  lemma {:induction false} FollowStep(journals: seq<seq<Entry>>, limits: seq<nat>, a: nat, cursor: Option<Cursor>)
    requires |journals| == |limits| && journals != []
    requires ReadPage(journals[0], a, limits[0], cursor).Ok?
    ensures Follow(journals, limits, a, cursor) ==
            AfterPage(ReadPage(journals[0], a, limits[0], cursor).value, journals[1..], limits[1..], a)
  {
  }

  lemma {:induction false} FollowFrom(history: seq<Item>, journals: seq<seq<Entry>>, limits: seq<nat>, a: nat,
                                      high: nat, bound: nat)
    requires |journals| == |limits| && Growing(history, journals, a) && AllPositive(limits)
    requires 2 <= bound <= high == |history|
    ensures Continues(Follow(journals, limits, a, Some(Cursor(a, high, bound))), history, bound - 1, |journals|)
    decreases |journals|, 1
  {
    var cursor := Some(Cursor(a, high, bound));
    if journals != [] {
      SessionTail(history, journals, limits, a);
      NextPage(history, journals[0], limits[0], a, high, bound);
      FollowStep(journals, limits, a, cursor);
      var p := ReadPage(journals[0], a, limits[0], cursor);
      FollowRest(history, p, limits[0], journals[1..], limits[1..], a, high, bound);
    }
  }

  lemma {:induction false} AfterSome(page: Page, journals: seq<seq<Entry>>, limits: seq<nat>, a: nat, session: Session)
    requires |journals| == |limits| && page.next.Some? && session == Follow(journals, limits, a, page.next)
    ensures AfterPage(page, journals, limits, a) == session.(items := page.items + session.items)
  {
  }

  lemma {:induction false} FollowMore(history: seq<Item>, page: Page, session: Session, journals: seq<seq<Entry>>,
                                      limits: seq<nat>, a: nat, top: nat)
    requires |journals| == |limits| && page.next.Some? && session == Follow(journals, limits, a, page.next)
    requires 0 < |page.items| < top && Shows(page.items, history, top)
    requires Continues(session, history, top - |page.items|, |journals|)
    ensures Continues(AfterPage(page, journals, limits, a), history, top, |journals| + 1)
  {
    AfterSome(page, journals, limits, a, session);
    GlueSession(page, session, history, top, |journals|);
  }

  /** After an accepted page, the rest of the session continues below it. */
  lemma {:induction false} FollowRest(history: seq<Item>, answer: Result<Page, ReadError>, limit: nat,
                                      journals: seq<seq<Entry>>, limits: seq<nat>, a: nat, high: nat, bound: nat)
    requires |journals| == |limits| && Growing(history, journals, a) && AllPositive(limits)
    requires 2 <= bound <= high + 1 && high == |history| && 0 < limit
    requires IsNextPage(answer, history, a, limit, high, bound)
    ensures Continues(AfterPage(answer.value, journals, limits, a), history, bound - 1, |journals| + 1)
    decreases |journals|, 2
  {
    var page := answer.value;
    if page.next.Some? {
      FollowFrom(history, journals, limits, a, high, bound - limit);
      FollowMore(history, page, Follow(journals, limits, a, page.next), journals, limits, a, bound - 1);
    }
  }

  lemma {:induction false} FirstReads(journal: seq<Entry>, limit: nat, a: nat, high: nat)
    requires Sound(journal, a) && high == |History(journal, a)|
    ensures ReadPage(journal, a, limit, None)
            == if high == 0 then Ok(Page([], None)) else PageBelow(journal, a, limit, high, high + 1)
  {
    SoundHistory(journal, a, high);
    SequencedRows(journal, a);
    LatestIsNext(journal, a, high + 1);
  }

  lemma {:induction false} FirstPage(journal: seq<Entry>, limit: nat, a: nat, high: nat)
    requires Sound(journal, a) && 0 < limit && 0 < high == |History(journal, a)|
    ensures IsNextPage(ReadPage(journal, a, limit, None), History(journal, a), a, limit, high, high + 1)
  {
    FirstReads(journal, limit, a, high);
    PageIsNext(journal, a, limit, high, high + 1);
  }

  /** Paging: starting without a cursor and following nextCursor, whatever is appended between
      the pages and whatever limits are used, never fails; it shows the entries that existed at
      the first page, newest first and each once with its running sum, and it ends. */
  lemma {:induction false} PagingShowsHistoryOnce(journals: seq<seq<Entry>>, limits: seq<nat>, a: nat)
    requires |journals| == |limits| && journals != [] && AllPositive(limits)
    requires Growing(History(journals[0], a), journals, a)
    ensures var history := History(journals[0], a);
            Continues(Follow(journals, limits, a, None), history, |history|, |journals|)
  {
    var history := History(journals[0], a);
    SessionTail(history, journals, limits, a);
    FirstReads(journals[0], limits[0], a, |history|);
    if history != [] { FirstPage(journals[0], limits[0], a, |history|); }
    FollowStep(journals, limits, a, None);
    FollowFirst(history, ReadPage(journals[0], a, limits[0], None), limits[0], journals[1..], limits[1..], a);
  }

  lemma {:induction false} FollowFirst(history: seq<Item>, answer: Result<Page, ReadError>, limit: nat,
                                       journals: seq<seq<Entry>>, limits: seq<nat>, a: nat)
    requires |journals| == |limits| && Growing(history, journals, a) && AllPositive(limits) && 0 < limit
    requires if history == [] then answer == Ok(Page([], None))
             else IsNextPage(answer, history, a, limit, |history|, |history| + 1)
    ensures Continues(AfterPage(answer.value, journals, limits, a), history, |history|, |journals| + 1)
  {
    if history != [] {
      FollowRest(history, answer, limit, journals, limits, a, |history|, |history| + 1);
    }
  }

  // ----- a session that meets a corrupt journal -----

  lemma {:induction false} NextStaysInAccount(journal: seq<Entry>, a: nat, limit: nat, cursor: Option<Cursor>)
    ensures var p := ReadPage(journal, a, limit, cursor);
            p.Ok? && p.value.next.Some? ==> p.value.next.value.account == a
  {
  }

  /** If the k-th journal fails the integrity query, the session fails unless it ended before. */
  lemma {:induction false} FollowStops(journals: seq<seq<Entry>>, limits: seq<nat>, a: nat, cursor: Option<Cursor>,
                                       k: nat)
    requires k < |journals| == |limits| && InvalidRow(journals[k], a)
    requires cursor.Some? ==> cursor.value.account == a
    ensures var before, whole := Follow(journals[..k], limits[..k], a, cursor), Follow(journals, limits, a, cursor);
            && (whole.failed <==> before.failed || !before.finished)
            && (!whole.failed ==> whole == before)
    decreases k
  {
    if k > 0 {
      NextStaysInAccount(journals[0], a, limits[0], cursor);
      assert journals[..k][1..] == journals[1..][..k - 1] && limits[..k][1..] == limits[1..][..k - 1];
      var p := ReadPage(journals[0], a, limits[0], cursor);
      if p.Ok? && p.value.next.Some? {
        FollowStops(journals[1..], limits[1..], a, p.value.next, k - 1);
        FollowStep(journals, limits, a, cursor);
        FollowStep(journals[..k], limits[..k], a, cursor);
      }
    }
  }
}
