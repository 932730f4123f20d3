/** What one call of the reader answers on any journal, in the columns of its entries. */
module LedgerReader {
  import opened Outcomes
  import opened Positions
  import opened LedgerModel
  import opened LedgerPaging

  // ----- the rows of a page -----

  predicate OfAccount(journal: seq<Entry>, a: nat, i: int) {
    0 <= i < |journal| && journal[i].account == a
  }

  /** An account has one entry for each sequence, as the unique index says. */
  ghost predicate OneEach(journal: seq<Entry>, a: nat) {
    forall i, j :: OfAccount(journal, a, i) && OfAccount(journal, a, j) && journal[i].sequence == journal[j].sequence ==> i == j
  }

  /** The item is entry i with its running balance. */
  predicate Shows(journal: seq<Entry>, a: nat, item: Item, i: int) {
    && OfAccount(journal, a, i) && item.journal == i && item.sequence == journal[i].sequence
    && item.delta == journal[i].amount && item.kind == journal[i].kind
    && item.balanceAfter == Balance(journal, a, journal[i].sequence)
  }

  /** The items are entries below the bound, newest first, and any other entry below the bound is
      older than all of them and there was no room for it. */
  ghost predicate Lists(journal: seq<Entry>, a: nat, bound: nat, count: nat, items: seq<Item>) {
    && |items| <= count
    && (forall k :: 0 <= k < |items| ==> Shows(journal, a, items[k], items[k].journal) && items[k].sequence < bound)
    && (forall k, m :: 0 <= k < m < |items| ==> items[m].sequence < items[k].sequence)
    && forall i :: OfAccount(journal, a, i) && journal[i].sequence < bound ==> ShownOrOlder(journal, i, count, items)
  }

  predicate ShownOrOlder(journal: seq<Entry>, i: int, count: nat, items: seq<Item>)
    requires 0 <= i < |journal|
  {
    || (exists k :: 0 <= k < |items| && items[k].journal == i)
    || (|items| == count && forall k :: 0 <= k < |items| ==> journal[i].sequence < items[k].sequence)
  }

  lemma {:induction false} SomeIsLatest(journal: seq<Entry>, a: nat, bound: nat, n: nat) returns (i: int)
    requires n <= |journal|
    ensures -1 <= i < n
    ensures if i < 0 then forall j: nat :: j < n ==> !Below(journal, a, bound, j)
            else Below(journal, a, bound, i)
                 && forall j: nat :: j < n && Below(journal, a, bound, j) ==> journal[j].sequence <= journal[i].sequence
  {
    if n == 0 {
      i := -1;
    } else {
      i := SomeIsLatest(journal, a, bound, n - 1);
      if Below(journal, a, bound, n - 1) && (i < 0 || journal[i].sequence < journal[n - 1].sequence) { i := n - 1; }
    }
  }

  /** The row a page continues with is the newest one below the bound, if there is one. */
  lemma {:induction false} LatestExactly(journal: seq<Entry>, a: nat, bound: nat)
    ensures match LatestBelow(journal, a, bound)
            case None => forall j :: OfAccount(journal, a, j) ==> journal[j].sequence >= bound
            case Some(i) =>
              && OfAccount(journal, a, i) && journal[i].sequence < bound
              && forall j :: OfAccount(journal, a, j) && journal[j].sequence < bound ==> journal[j].sequence <= journal[i].sequence
  {
    var i := SomeIsLatest(journal, a, bound, |journal|);
    if i >= 0 { assert IsLatest(journal, a, bound)(i); }
    forall j | OfAccount(journal, a, j) ensures Below(journal, a, bound, j) <==> journal[j].sequence < bound {}
  }

  lemma {:induction false} ItemsAreNewest(journal: seq<Entry>, a: nat, bound: nat, count: nat)
    requires OneEach(journal, a)
    ensures Lists(journal, a, bound, count, ItemsBelow(journal, a, bound, count))
    decreases count
  {
    LatestExactly(journal, a, bound);
    if count > 0 && LatestBelow(journal, a, bound).Some? {
      var i := LatestBelow(journal, a, bound).value;
      ItemsAreNewest(journal, a, journal[i].sequence, count - 1);
      ListsOneMore(journal, a, bound, count, i, ItemsBelow(journal, a, journal[i].sequence, count - 1));
    }
  }

  lemma {:induction false} ListsOneMore(journal: seq<Entry>, a: nat, bound: nat, count: nat, i: nat, rest: seq<Item>)
    requires OneEach(journal, a) && count > 0 && OfAccount(journal, a, i) && journal[i].sequence < bound
    requires forall j :: OfAccount(journal, a, j) && journal[j].sequence < bound ==> journal[j].sequence <= journal[i].sequence
    requires Lists(journal, a, journal[i].sequence, count - 1, rest)
    ensures Lists(journal, a, bound, count, [ItemOf(journal, a, i)] + rest)
  {
    var items := [ItemOf(journal, a, i)] + rest;
    forall j | OfAccount(journal, a, j) && journal[j].sequence < bound ensures ShownOrOlder(journal, j, count, items) {
      if j == i {
        assert items[0].journal == j;
      } else {
        assert ShownOrOlder(journal, j, count - 1, rest);
        if k :| 0 <= k < |rest| && rest[k].journal == j { assert items[k + 1].journal == j; }
      }
    }
  }

  // ----- one call -----

  /** A row the integrity query refuses. */
  predicate BadRow(e: Entry) {
    e.amount == 0 || !(1 <= |KindText(e.kind)| <= 64) || !(1 <= |RefText(e.kind)| <= 255)
  }

  ghost predicate HasBadRow(journal: seq<Entry>, a: nat) {
    exists i :: OfAccount(journal, a, i) && BadRow(journal[i])
  }

  ghost predicate Overdrawn(journal: seq<Entry>, a: nat, high: nat) {
    exists i :: OfAccount(journal, a, i) && journal[i].sequence <= high && Balance(journal, a, journal[i].sequence) < 0
  }

  /** The account has entries with both sequences of the cursor. */
  ghost predicate Known(journal: seq<Entry>, a: nat, cursor: Cursor) {
    && (exists i :: OfAccount(journal, a, i) && journal[i].sequence == cursor.highWater)
    && (exists i :: OfAccount(journal, a, i) && journal[i].sequence == cursor.last)
  }

  lemma {:induction false} KnownExactly(journal: seq<Entry>, a: nat, cursor: Cursor)
    ensures CursorValid(journal, a, cursor) <==> Known(journal, a, cursor)
  {
    HasSequenceExactly(journal, a, cursor.highWater);
    HasSequenceExactly(journal, a, cursor.last);
  }

  lemma {:induction false} HasSequenceExactly(journal: seq<Entry>, a: nat, q: nat)
    ensures First(|journal|, HasSequence(journal, a, q)).Some? <==> exists i :: OfAccount(journal, a, i) && journal[i].sequence == q
  {
    var found := First(|journal|, HasSequence(journal, a, q));
    if found.Some? { assert OfAccount(journal, a, found.value); }
    forall i | OfAccount(journal, a, i) && journal[i].sequence == q ensures found.Some? {
      assert HasSequence(journal, a, q)(i);
    }
  }

  lemma {:induction false} ChecksExactly(journal: seq<Entry>, a: nat, high: nat)
    ensures InvalidRow(journal, a) <==> HasBadRow(journal, a)
    ensures HistoryCorrupt(journal, a, high) <==> Overdrawn(journal, a, high)
  {
    if InvalidRow(journal, a) {
      var i :| 0 <= i < |journal| && journal[i].account == a && InvalidEntry(journal[i]);
      assert OfAccount(journal, a, i) && BadRow(journal[i]);
    }
    if HasBadRow(journal, a) {
      var i :| OfAccount(journal, a, i) && BadRow(journal[i]);
      assert InvalidEntry(journal[i]);
    }
    if HistoryCorrupt(journal, a, high) {
      var i :| 0 <= i < |journal| && journal[i].account == a && journal[i].sequence <= high
               && Balance(journal, a, journal[i].sequence) < 0;
      assert OfAccount(journal, a, i);
    }
    if Overdrawn(journal, a, high) {
      var i :| OfAccount(journal, a, i) && journal[i].sequence <= high && Balance(journal, a, journal[i].sequence) < 0;
      assert 0 <= i < |journal|;
    }
  }

  /** The largest sequence of the account. */
  ghost predicate IsTop(journal: seq<Entry>, a: nat, top: nat) {
    && (exists i :: OfAccount(journal, a, i) && journal[i].sequence == top)
    && forall i :: OfAccount(journal, a, i) ==> journal[i].sequence <= top
  }

  lemma {:induction false} TopExactly(journal: seq<Entry>, a: nat)
    ensures (exists i :: OfAccount(journal, a, i)) ==> IsTop(journal, a, MaxSequence(journal, a))
    ensures (forall i :: !OfAccount(journal, a, i)) ==> MaxSequence(journal, a) == 0
  {
    if journal != [] {
      var n := |journal| - 1;
      var init := journal[..n];
      TopExactly(init, a);
      assert forall i :: OfAccount(init, a, i) <==> i < n && OfAccount(journal, a, i);
      assert forall i :: 0 <= i < n ==> init[i] == journal[i];
      if i :| OfAccount(init, a, i) && init[i].sequence == MaxSequence(init, a) { assert OfAccount(journal, a, i); }
      if journal[n].account == a { assert OfAccount(journal, a, n); }
    }
  }

  /** Some entry below the bound is not among the items. */
  ghost predicate Remains(journal: seq<Entry>, a: nat, bound: nat, items: seq<Item>) {
    exists i :: OfAccount(journal, a, i) && journal[i].sequence < bound
             && forall k :: 0 <= k < |items| ==> items[k].journal != i
  }

  /** Cutting a list one longer than the limit leaves a list of the limit. */
  lemma {:induction false} CutLists(journal: seq<Entry>, a: nat, bound: nat, limit: nat, items: seq<Item>)
    requires Lists(journal, a, bound, limit + 1, items)
    ensures var shown := if |items| > limit then items[..limit] else items;
            Lists(journal, a, bound, limit, shown) && (|items| > limit <==> Remains(journal, a, bound, shown))
  {
    var shown := if |items| > limit then items[..limit] else items;
    forall i | OfAccount(journal, a, i) && journal[i].sequence < bound ensures ShownOrOlder(journal, i, limit, shown) {
      assert ShownOrOlder(journal, i, limit + 1, items);
      if k :| 0 <= k < |items| && items[k].journal == i {
        if k < |shown| { assert shown[k].journal == i; } else { assert Shows(journal, a, items[k], i); }
      }
    }
    if |items| > limit {
      var last := items[limit];
      assert Shows(journal, a, last, last.journal);
      forall k | 0 <= k < |shown| ensures shown[k].journal != last.journal {
        assert Shows(journal, a, items[k], items[k].journal) && items[limit].sequence < items[k].sequence;
      }
    } else {
      forall i | OfAccount(journal, a, i) && journal[i].sequence < bound
        ensures !(forall k :: 0 <= k < |shown| ==> shown[k].journal != i)
      {
        assert ShownOrOlder(journal, i, limit + 1, items);
      }
    }
  }

  /** An entry below the bound whose reference holds U+0000, which no stored text does. */
  ghost predicate HoldsZero(journal: seq<Entry>, a: nat, bound: nat) {
    exists i :: OfAccount(journal, a, i) && journal[i].sequence < bound && '\0' in RefText(journal[i].kind)
  }

  /** The items below the bound as a page: the newest up to the limit, and a cursor behind them if
      some remain. */
  ghost predicate IsPage(journal: seq<Entry>, a: nat, limit: nat, high: nat, bound: nat, page: Page) {
    && Lists(journal, a, bound, limit, page.items)
    && if limit > 0 && Remains(journal, a, bound, page.items)
       then page.items != [] && page.next == Some(Cursor(a, high, page.items[|page.items| - 1].sequence))
       else page.next == None
  }

  /** What a call answers that gets past the checks of its cursor. */
  ghost predicate Answers(journal: seq<Entry>, a: nat, limit: nat, high: nat, bound: nat, answer: Result<Page, ReadError>) {
    match answer
    case Err(e) => e == Corrupt && (Overdrawn(journal, a, high) || HoldsZero(journal, a, bound))
    case Ok(page) => !Overdrawn(journal, a, high) && IsPage(journal, a, limit, high, bound, page)
  }

  lemma {:induction false} UnreadableHoldsZero(journal: seq<Entry>, a: nat, high: nat, bound: nat, count: nat,
                                               items: seq<Item>)
    requires Lists(journal, a, bound, count, items) && !ItemsOk(items) && bound <= high + 1
    requires !HasBadRow(journal, a) && !Overdrawn(journal, a, high)
    ensures HoldsZero(journal, a, bound)
  {
    var k :| 0 <= k < |items| && !ItemOk(items[k]);
    var i := items[k].journal;
    assert Shows(journal, a, items[k], i) && !BadRow(journal[i]);
    assert Balance(journal, a, journal[i].sequence) >= 0;
    assert '\0' in RefText(journal[i].kind);
  }

  lemma {:induction false} CutExactly(journal: seq<Entry>, a: nat, limit: nat, high: nat, bound: nat, items: seq<Item>)
    requires Lists(journal, a, bound, limit + 1, items) && bound <= high + 1
    requires !HasBadRow(journal, a) && !Overdrawn(journal, a, high)
    ensures Answers(journal, a, limit, high, bound, CutPage(items, a, limit, high))
  {
    if ItemsOk(items) {
      CutLists(journal, a, bound, limit, items);
    } else {
      UnreadableHoldsZero(journal, a, high, bound, limit + 1, items);
    }
  }

  lemma {:induction false} PageExactly(journal: seq<Entry>, a: nat, limit: nat, high: nat, bound: nat)
    requires OneEach(journal, a) && !HasBadRow(journal, a)
    ensures var first := if bound <= high then bound else high + 1;
            Answers(journal, a, limit, high, first, PageBelow(journal, a, limit, high, bound))
  {
    var first := if bound <= high then bound else high + 1;
    ChecksExactly(journal, a, high);
    if !Overdrawn(journal, a, high) {
      ItemsAreNewest(journal, a, first, limit + 1);
      CutExactly(journal, a, limit, high, first, ItemsBelow(journal, a, first, limit + 1));
    }
  }

  lemma {:induction false} NothingToRead(journal: seq<Entry>, a: nat, limit: nat, high: nat, bound: nat)
    requires forall i :: !OfAccount(journal, a, i)
    ensures Answers(journal, a, limit, high, bound, Ok(Page([], None)))
  {
  }

  /** The first page, on any journal with one entry for each sequence: corrupt for a bad row anywhere or
      an overdrawn balance, or else the newest entries. */
  lemma {:induction false} FirstPageExactly(journal: seq<Entry>, a: nat, limit: nat) returns (high: nat)
    requires OneEach(journal, a)
    ensures (exists i :: OfAccount(journal, a, i)) ==> IsTop(journal, a, high)
    ensures var answer := ReadPage(journal, a, limit, None);
            if HasBadRow(journal, a) then answer == Err(Corrupt) else Answers(journal, a, limit, high, high + 1, answer)
  {
    high := MaxSequence(journal, a);
    TopExactly(journal, a);
    ChecksExactly(journal, a, high);
    LatestExactly(journal, a, high + 1);
    if !HasBadRow(journal, a) {
      if LatestBelow(journal, a, high + 1).None? {
        NothingToRead(journal, a, limit, high, high + 1);
      } else {
        PageExactly(journal, a, limit, high, high + 1);
      }
    }
  }

  /** A further page, on any journal with one entry for each sequence: a foreign cursor, a bad row, an unknown
      cursor, an overdrawn balance up to the high-water mark, or the newest entries behind the cursor. */
  lemma {:induction false} NextPageExactly(journal: seq<Entry>, a: nat, limit: nat, cursor: Cursor)
    requires OneEach(journal, a)
    ensures var answer := ReadPage(journal, a, limit, Some(cursor));
            if cursor.account != a then answer == Err(InvalidCursor)
            else if HasBadRow(journal, a) then answer == Err(Corrupt)
            else if !Known(journal, a, cursor) then answer == Err(InvalidCursor)
            else
              var bound := if cursor.last <= cursor.highWater then cursor.last else cursor.highWater + 1;
              Answers(journal, a, limit, cursor.highWater, bound, answer)
  {
    ChecksExactly(journal, a, cursor.highWater);
    KnownExactly(journal, a, cursor);
    if !HasBadRow(journal, a) { PageExactly(journal, a, limit, cursor.highWater, cursor.last); }
  }
}
