/** What reading a rate revision back tells about the tables, whoever wrote them: it succeeds
    exactly on the rows that publishing the draft it returns would have written. */
module RateIntegrity {
  import opened Outcomes
  import opened Positions
  import opened Sorting
  import opened Unicode
  import opened AgentJson
  import opened Decimals
  import opened RateRevision
  import opened RateRevisionProof
  import opened RateStore
  import opened RateRevisionRepository

  // ----- one row -----

  /** The columns a rate is stored in. */
  predicate ColumnsOf(row: RateRow, rate: Rate, host: Host) {
    && row.binding == rate.binding && row.bucket == rate.bucket && row.unit == rate.unit && row.currency == rate.currency
    && row.numerator == Value(rate.price.numerator) && row.denominator == Value(rate.price.denominator)
    && row.keyDigest == host.sha256(Stringify(Arr([Word("kokoro.billing.metering.rate.key.v1")] + KeyItems(rate))))
    && match rate.applicability
       case All =>
         row.kind == KindAll && row.dimension == None && row.applicabilityUnit == None && row.lower == None && row.upper == None
       case Range(dimension, unit, lower, upper) =>
         && row.kind == KindRange && row.dimension == Some(dimension) && row.applicabilityUnit == Some(unit)
         && row.lower == Some(Value(lower))
         && row.upper == if upper.Some? then Some(Value(upper.value)) else None
  }

  lemma {:induction false} NegativeIsRefused(n: int)
    ensures n < 0 ==> !DecimalOk(Decimal(n))
  {
    if n < 0 { assert Decimal(n)[0] == '-' as int; }
  }

  lemma {:induction false} ValueOfDecimal(n: int)
    requires DecimalOk(Decimal(n))
    ensures Value(Decimal(n)) == n
  {
    NegativeIsRefused(n);
    ValueOfNumeral(n);
  }

  /** A row gives an acceptable rate exactly when its columns are those of that rate. */
  lemma {:induction false} RowReadsExactly(row: RateRow, rate: Rate, host: Host)
    requires RateOk(rate)
    ensures RateOf(row, host) == Some(rate) <==> ColumnsOf(row, rate, host)
  {
    if ColumnsOf(row, rate, host) {
      RateOfRow(row.tenant, row.revision, row.ordinal, rate, host);
      assert row == RowOf(row.tenant, row.revision, row.ordinal, rate, host);
    }
    if RateOf(row, host) == Some(rate) {
      ValueOfDecimal(row.numerator);
      ValueOfDecimal(row.denominator);
      if row.lower.Some? && row.kind.KindRange? { ValueOfDecimal(row.lower.value); }
      if row.upper.Some? && row.kind.KindRange? { ValueOfDecimal(row.upper.value); }
    }
  }

  // ----- the rows of a revision -----

  ghost predicate AllOk(rates: seq<Rate>) {
    forall i :: 0 <= i < |rates| ==> RateOk(rates[i])
  }

  predicate OfRevision(row: RateRow, tenant: JsString, revision: int) {
    row.tenant == tenant && row.revision == revision
  }

  ghost predicate AllOf(rows: seq<RateRow>, tenant: JsString, revision: int) {
    forall i :: 0 <= i < |rows| ==> OfRevision(rows[i], tenant, revision)
  }

  lemma {:induction false} RebuildsExactly(rows: seq<RateRow>, rates: seq<Rate>, tenant: JsString, revision: int, host: Host)
    requires AllOk(rates) && AllOf(rows, tenant, revision)
    ensures Rebuild(rows, host) == Some(rates) <==> rows == RowsOf(tenant, revision, rates, host)
  {
    if rows == RowsOf(tenant, revision, rates, host) {
      RebuildRows(tenant, revision, rates, host);
    } else if Rebuild(rows, host) == Some(rates) {
      RebuiltRows(rows, rates, tenant, revision, host);
    }
  }

  lemma {:induction false} RowIsWritten(row: RateRow, rate: Rate, host: Host)
    requires RateOk(rate) && RateOf(row, host) == Some(rate)
    ensures row == RowOf(row.tenant, row.revision, row.ordinal, rate, host)
  {
    RowReadsExactly(row, rate, host);
  }

  lemma {:induction false} RebuiltLast(rows: seq<RateRow>, rates: seq<Rate>, host: Host)
    requires rows != [] && Rebuild(rows, host) == Some(rates)
    ensures rates != []
    ensures Rebuild(rows[..|rows| - 1], host) == Some(rates[..|rates| - 1])
    ensures RateOf(rows[|rows| - 1], host) == Some(rates[|rates| - 1]) && rows[|rows| - 1].ordinal == |rows| - 1
  {
    var before, rate := Rebuild(rows[..|rows| - 1], host).value, RateOf(rows[|rows| - 1], host).value;
    assert rates == before + [rate];
    assert rates[..|rates| - 1] == before;
  }

  lemma {:induction false} AllButLast(rows: seq<RateRow>, rates: seq<Rate>, tenant: JsString, revision: int)
    requires AllOk(rates) && AllOf(rows, tenant, revision) && rows != [] && rates != []
    ensures AllOk(rates[..|rates| - 1]) && AllOf(rows[..|rows| - 1], tenant, revision)
    ensures RateOk(rates[|rates| - 1]) && OfRevision(rows[|rows| - 1], tenant, revision)
  {
  }

  lemma {:induction false} RebuiltRows(rows: seq<RateRow>, rates: seq<Rate>, tenant: JsString, revision: int, host: Host)
    requires AllOk(rates) && AllOf(rows, tenant, revision)
    requires Rebuild(rows, host) == Some(rates)
    ensures rows == RowsOf(tenant, revision, rates, host)
  {
    if rows != [] {
      RebuiltLast(rows, rates, host);
      AllButLast(rows, rates, tenant, revision);
      RebuiltRows(rows[..|rows| - 1], rates[..|rates| - 1], tenant, revision, host);
      RowIsWritten(rows[|rows| - 1], rates[|rates| - 1], host);
      AddLast(rows, rates, tenant, revision, host);
    }
  }

  lemma {:induction false} AddLast(rows: seq<RateRow>, rates: seq<Rate>, tenant: JsString, revision: int, host: Host)
    requires rows != [] && rates != []
    requires rows[..|rows| - 1] == RowsOf(tenant, revision, rates[..|rates| - 1], host)
    requires rows[|rows| - 1] == RowOf(tenant, revision, |rows| - 1, rates[|rates| - 1], host)
    ensures rows == RowsOf(tenant, revision, rates, host)
  {
    var init, last, before, rate := rows[..|rows| - 1], rows[|rows| - 1], rates[..|rates| - 1], rates[|rates| - 1];
    assert |init| == |before|;
    RowsOfMore(tenant, revision, before, rate, host);
    assert rates == before + [rate] && rows == init + [last];
  }

  // ----- the whole revision -----

  /** A tenant has one header for each revision, as the unique index says. */
  ghost predicate OneHeader(headers: seq<Header>) {
    forall i, j :: 0 <= i < j < |headers| ==> headers[i].tenant != headers[j].tenant || headers[i].revision != headers[j].revision
  }

  /** The header and the rows are those of the draft, and the digest is that of its text. */
  ghost predicate Written(header: Header, rates: seq<RateRow>, stored: Stored, host: Host) {
    var draft := stored.draft;
    && stored.id == header.id && stored.contentDigest == header.contentDigest
    && stored.publishedAt == host.calendar.show(header.publishedAt)
    && draft.tenant == header.tenant && draft.sourceRef == header.sourceRef && draft.profile == header.profile
    && draft.effectiveFrom == host.calendar.show(header.effectiveFrom)
    && draft.verifiedAt == host.calendar.show(header.verifiedAt)
    && header.rateCount == |draft.rates|
    && EncodeDraft(draft, host.calendar).Some?
    && header.contentDigest == host.sha256(EncodeDraft(draft, host.calendar).value)
    && multiset(RevisionRows(rates, header.tenant, header.revision))
       == multiset(RowsOf(header.tenant, header.revision, draft.rates, host))
  }

  lemma {:induction false} SortedRowsExactly(rows: seq<RateRow>, tenant: JsString, revision: int, rates: seq<Rate>, host: Host)
    ensures Sort(rows, ByOrdinal()) == RowsOf(tenant, revision, rates, host)
            <==> multiset(rows) == multiset(RowsOf(tenant, revision, rates, host))
  {
    SortKeepsRows(rows, ByOrdinal());
    if multiset(rows) == multiset(RowsOf(tenant, revision, rates, host)) {
      RowsAreOrdered(tenant, revision, rates, host);
      assert Separates(RowsOf(tenant, revision, rates, host), ByOrdinal());
      SortIgnoresOrder(RowsOf(tenant, revision, rates, host), rows, ByOrdinal());
    }
  }

  lemma {:induction false} AcceptedDraft(draft: Draft, calendar: Calendar)
    requires EncodeDraft(draft, calendar).Some?
    ensures AllOk(draft.rates) && 1 <= |draft.rates| <= MAX_RATES
  {
  }

  lemma {:induction false} RevisionRowsAreOf(rates: seq<RateRow>, tenant: JsString, revision: int)
    ensures forall row :: row in Sort(RevisionRows(rates, tenant, revision), ByOrdinal()) ==> OfRevision(row, tenant, revision)
  {
    var p := (row: RateRow) => row.tenant == tenant && row.revision == revision;
    SortKeeps(RevisionRows(rates, tenant, revision), ByOrdinal());
    forall row | row in RevisionRows(rates, tenant, revision) ensures OfRevision(row, tenant, revision) {
      FilterMember(rates, p, row);
    }
  }

  lemma {:induction false} HeaderReadsExactly(header: Header, rates: seq<RateRow>, stored: Stored, host: Host)
    ensures Rebuilt(header, Sort(RevisionRows(rates, header.tenant, header.revision), ByOrdinal()), host) == Some(stored)
            <==> Written(header, rates, stored, host)
  {
    var tenant, revision, draft := header.tenant, header.revision, stored.draft;
    var kept := RevisionRows(rates, tenant, revision);
    var rows := Sort(kept, ByOrdinal());
    if EncodeDraft(draft, host.calendar).Some? {
      AcceptedDraft(draft, host.calendar);
      RevisionRowsAreOf(rates, tenant, revision);
      RebuildsExactly(rows, draft.rates, tenant, revision, host);
      SortedRowsExactly(kept, tenant, revision, draft.rates, host);
      RebuiltOnce(header, rows, stored, host);
    }
  }

  lemma {:induction false} RebuiltOnce(header: Header, rows: seq<RateRow>, stored: Stored, host: Host)
    requires EncodeDraft(stored.draft, host.calendar).Some? && 1 <= |stored.draft.rates| <= MAX_RATES
    requires Rebuild(rows, host) == Some(stored.draft.rates) ==> |rows| == |stored.draft.rates|
    ensures Rebuilt(header, rows, host) == Some(stored)
            <==> Rebuild(rows, host) == Some(stored.draft.rates) && header.rateCount == |stored.draft.rates|
                 && stored == Stored(header.id, header.contentDigest, host.calendar.show(header.publishedAt),
                                     DraftOf(header, stored.draft.rates, host))
                 && header.contentDigest == host.sha256(EncodeDraft(stored.draft, host.calendar).value)
  {
  }

  /** Reading a revision back succeeds exactly on the rows that publishing the returned draft
      writes, under a header with its fields and the digest of its text. */
  lemma {:induction false} ReadExactly(tables: Tables, tenant: JsString, revision: int, host: Host, stored: Stored)
    requires OneHeader(tables.headers)
    ensures Read(tables, tenant, revision, host) == Some(stored)
            <==> exists header :: header in tables.headers && header.tenant == tenant && header.revision == revision
                               && Written(header, tables.rates, stored, host)
  {
    var p := (i: nat) => i < |tables.headers| && Names(tables.headers[i], tenant, revision);
    match FindHeader(tables.headers, tenant, revision)
    case None =>
      forall header | header in tables.headers ensures !Names(header, tenant, revision) {
        var i :| 0 <= i < |tables.headers| && tables.headers[i] == header;
        assert !p(i);
      }
    case Some(h) =>
      assert p(h);
      HeaderReadsExactly(tables.headers[h], tables.rates, stored, host);
      forall header | header in tables.headers && Names(header, tenant, revision) ensures header == tables.headers[h] {
        var i :| 0 <= i < |tables.headers| && tables.headers[i] == header;
      }
  }

  /** Whatever happens to the rows of a revision, its reader finds the draft that was digested, up
      to the order of its rates, or refuses: under an injective hash no other draft is served. */
  lemma {:induction false} TamperingIsRefused(before: Tables, after: Tables, tenant: JsString, revision: int, host: Host)
    requires Injective(host.sha256) && OneHeader(before.headers) && after.headers == before.headers
    requires Read(before, tenant, revision, host).Some? && Read(after, tenant, revision, host).Some?
    ensures var a, b := Read(before, tenant, revision, host).value, Read(after, tenant, revision, host).value;
      && a.(draft := a.draft.(rates := [])) == b.(draft := b.draft.(rates := []))
      && multiset(a.draft.rates) == multiset(b.draft.rates)
  {
    var a, b := Read(before, tenant, revision, host).value, Read(after, tenant, revision, host).value;
    ReadExactly(before, tenant, revision, host, a);
    ReadExactly(after, tenant, revision, host, b);
    SameTextSameDraft(a.draft, b.draft, host.calendar);
  }

  // ----- the confirmation of a publication -----

  /** The tables hold the draft, its rates in any order, as the publication says. */
  ghost predicate Holds(tables: Tables, header: Header, expected: Publication, draft: Draft, rates: seq<Rate>, host: Host) {
    && header in tables.headers && header.tenant == draft.tenant && header.revision == expected.revision
    && multiset(rates) == multiset(draft.rates)
    && Written(header, tables.rates,
               Stored(header.id, expected.contentDigest, expected.publishedAt, draft.(rates := rates)), host)
  }

  /** A publication is confirmed exactly when it names the draft and the digest of its text, and
      the tables hold the draft under the header it names. */
  lemma {:induction false} ConfirmsExactly(tables: Tables, expected: Publication, draft: Draft, host: Host)
    requires OneHeader(tables.headers) && EncodeDraft(draft, host.calendar).Some?
    ensures Confirms(tables, expected, draft, host)
            <==> && expected.tenant == draft.tenant && expected.effectiveFrom == draft.effectiveFrom
                 && expected.contentDigest == host.sha256(EncodeDraft(draft, host.calendar).value)
                 && exists header, rates :: Holds(tables, header, expected, draft, rates, host)
  {
    var found := Read(tables, expected.tenant, expected.revision, host);
    if Confirms(tables, expected, draft, host) {
      var stored := found.value;
      ReadExactly(tables, expected.tenant, expected.revision, host, stored);
      SameTextSameDraft(draft, stored.draft, host.calendar);
      var header :| header in tables.headers && header.tenant == expected.tenant && header.revision == expected.revision
                    && Written(header, tables.rates, stored, host);
      assert draft.(rates := stored.draft.rates) == stored.draft.(rates := []).(rates := stored.draft.rates);
      assert Holds(tables, header, expected, draft, stored.draft.rates, host);
    }
    if expected.tenant == draft.tenant {
      forall header, rates | Holds(tables, header, expected, draft, rates, host)
        ensures found == Some(Stored(header.id, expected.contentDigest, expected.publishedAt, draft.(rates := rates)))
        ensures EncodeDraft(draft.(rates := rates), host.calendar) == EncodeDraft(draft, host.calendar)
      {
        ReadExactly(tables, expected.tenant, expected.revision, host,
                    Stored(header.id, expected.contentDigest, expected.publishedAt, draft.(rates := rates)));
        SameTextSameDraft(draft, draft.(rates := rates), host.calendar);
      }
    }
  }
}
