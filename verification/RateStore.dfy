/** The tables of published rate revisions. A revision is a header and one row per rate;
    reading it back rebuilds the draft, and every published revision stays readable. */
module RateStore {
  import opened Outcomes
  import opened Positions
  import opened Sorting
  import opened Unicode
  import opened AgentJson
  import opened Decimals
  import opened RateRevision
  import opened RateRevisionProof

  datatype Kind = KindAll | KindRange

  datatype Header = Header(
    id: nat,
    tenant: JsString,
    revision: int,
    effectiveFrom: int,
    sourceRef: JsString,
    verifiedAt: int,
    profile: Reference,
    contentDigest: JsString,
    rateCount: int,
    publishedAt: int
  )

  datatype RateRow = RateRow(
    tenant: JsString,
    revision: int,
    ordinal: int,
    binding: Binding,
    bucket: JsString,
    unit: JsString,
    kind: Kind,
    dimension: Option<JsString>,
    applicabilityUnit: Option<JsString>,
    lower: Option<int>,
    upper: Option<int>,
    currency: JsString,
    numerator: int,
    denominator: int,
    keyDigest: JsString
  )

  datatype Tables = Tables(headers: seq<Header>, rates: seq<RateRow>)

  /** Calendar and SHA-256 of the host. */
  datatype Host = Host(calendar: Calendar, sha256: JsString -> JsString)

  datatype Publication = Publication(tenant: JsString, revision: int, contentDigest: JsString, publishedAt: JsString,
                                     effectiveFrom: JsString, id: nat)

  datatype Stored = Stored(id: nat, contentDigest: JsString, publishedAt: JsString, draft: Draft)

  datatype StoreError = Exhausted | InvalidDate

  const KEY_DOMAIN := "kokoro.billing.metering.rate.key.v1"

  function KeyTuple(rate: Rate): Json { Arr([Word(KEY_DOMAIN)] + KeyItems(rate)) }

  function KeyDigest(rate: Rate, host: Host): JsString { host.sha256(Stringify(KeyTuple(rate))) }

  // ----- writing -----

  function RowOf(tenant: JsString, revision: int, ordinal: int, rate: Rate, host: Host): RateRow {
    var a := rate.applicability;
    RateRow(tenant, revision, ordinal, rate.binding, rate.bucket, rate.unit,
            if a.All? then KindAll else KindRange,
            if a.Range? then Some(a.dimension) else None,
            if a.Range? then Some(a.unit) else None,
            if a.Range? then Some(Value(a.lower)) else None,
            if a.Range? && a.upper.Some? then Some(Value(a.upper.value)) else None,
            rate.currency, Value(rate.price.numerator), Value(rate.price.denominator), KeyDigest(rate, host))
  }

  function RowsOf(tenant: JsString, revision: int, rates: seq<Rate>, host: Host): seq<RateRow> {
    seq(|rates|, i requires 0 <= i < |rates| => RowOf(tenant, revision, i, rates[i], host))
  }

  /** SELECT MAX(revision), zero if the tenant has none. */
  function MaxRevision(headers: seq<Header>, tenant: JsString): int {
    if headers == [] then 0
    else
      var rest, last := MaxRevision(headers[..|headers| - 1], tenant), headers[|headers| - 1];
      if last.tenant == tenant && last.revision > rest then last.revision else rest
  }

  function HeaderOf(draft: Draft, contentDigest: JsString, revision: int, id: nat, now: int, host: Host): Header
    requires host.calendar.parse(draft.effectiveFrom).Some? && host.calendar.parse(draft.verifiedAt).Some?
  {
    Header(id, draft.tenant, revision, host.calendar.parse(draft.effectiveFrom).value, draft.sourceRef,
           host.calendar.parse(draft.verifiedAt).value, draft.profile, contentDigest, |draft.rates|, now)
  }

  function Publish(tables: Tables, draft: Draft, contentDigest: JsString, id: nat, now: int, host: Host)
    : Result<(Tables, Publication), StoreError>
  {
    var revision := MaxRevision(tables.headers, draft.tenant) + 1;
    if revision > INT64_MAX then Err(Exhausted)
    else if host.calendar.parse(draft.effectiveFrom).None? || host.calendar.parse(draft.verifiedAt).None? then Err(InvalidDate)
    else
      Ok((Tables(tables.headers + [HeaderOf(draft, contentDigest, revision, id, now, host)],
                 tables.rates + RowsOf(draft.tenant, revision, draft.rates, host)),
          Publication(draft.tenant, revision, contentDigest, host.calendar.show(now), draft.effectiveFrom, id)))
  }

  // ----- reading -----

  /** BigInt and NUMERIC(78,0) as text. */
  function Decimal(n: int): JsString {
    if n < 0 then ['-' as int] + Numeral(-n) else Numeral(n)
  }

  /** The rate of a row; none if the row is corrupt. */
  function RateOf(row: RateRow, host: Host): Option<Rate> {
    var nulls := row.dimension.None? && row.applicabilityUnit.None? && row.lower.None? && row.upper.None?;
    var range := row.dimension.Some? && row.applicabilityUnit.Some? && row.lower.Some?;
    if (row.kind.KindAll? && !nulls) || (row.kind.KindRange? && !range) then None
    else
      var a :=
        if row.kind.KindAll? then All
        else Range(row.dimension.value, row.applicabilityUnit.value, Decimal(row.lower.value),
                   if row.upper.Some? then Some(Decimal(row.upper.value)) else None);
      var rate := Rate(row.binding, row.bucket, row.unit, a, row.currency,
                       Price(Decimal(row.numerator), Decimal(row.denominator)));
      if row.keyDigest != KeyDigest(rate, host) then None else Some(rate)
  }

  /** The rates of rows numbered 0, 1, 2, ... */
  function Rebuild(rows: seq<RateRow>, host: Host): Option<seq<Rate>> {
    if rows == [] then Some([])
    else
      var init, last := rows[..|rows| - 1], rows[|rows| - 1];
      if last.ordinal != |rows| - 1 || RateOf(last, host).None? || Rebuild(init, host).None? then None
      else Some(Rebuild(init, host).value + [RateOf(last, host).value])
  }

  predicate Names(header: Header, tenant: JsString, revision: int) {
    header.tenant == tenant && header.revision == revision
  }

  function FindHeader(headers: seq<Header>, tenant: JsString, revision: int): Option<nat> {
    First(|headers|, (i: nat) => i < |headers| && Names(headers[i], tenant, revision))
  }

  function ByOrdinal(): (RateRow, RateRow) -> bool {
    (a: RateRow, b: RateRow) => a.ordinal < b.ordinal
  }

  function RevisionRows(rates: seq<RateRow>, tenant: JsString, revision: int): seq<RateRow> {
    Filter(rates, (row: RateRow) => row.tenant == tenant && row.revision == revision)
  }

  function DraftOf(header: Header, rates: seq<Rate>, host: Host): Draft {
    Draft(header.tenant, host.calendar.show(header.effectiveFrom), header.sourceRef,
          host.calendar.show(header.verifiedAt), header.profile, rates)
  }

  /** The published revision; none if anything about it is corrupt. */
  function Rebuilt(header: Header, rows: seq<RateRow>, host: Host): Option<Stored> {
    if !(1 <= header.rateCount <= MAX_RATES) || |rows| != header.rateCount || Rebuild(rows, host).None? then None
    else
      var draft := DraftOf(header, Rebuild(rows, host).value, host);
      match EncodeDraft(draft, host.calendar)
      case None => None
      case Some(text) =>
        if host.sha256(text) != header.contentDigest then None
        else Some(Stored(header.id, header.contentDigest, host.calendar.show(header.publishedAt), draft))
  }

  function Read(tables: Tables, tenant: JsString, revision: int, host: Host): Option<Stored> {
    match FindHeader(tables.headers, tenant, revision)
    case None => None
    case Some(h) => Rebuilt(tables.headers[h], Sort(RevisionRows(tables.rates, tenant, revision), ByOrdinal()), host)
  }

  // ----- a row gives its rate back -----

  lemma {:induction false} DecimalOfValue(s: JsString)
    requires DecimalOk(s)
    ensures Decimal(Value(s)) == s
  {
    NumeralOfValue(s);
  }

  lemma {:induction false} RateOfRow(tenant: JsString, revision: int, ordinal: int, rate: Rate, host: Host)
    requires RateOk(rate)
    ensures RateOf(RowOf(tenant, revision, ordinal, rate, host), host) == Some(rate)
  {
    DecimalOfValue(rate.price.numerator);
    DecimalOfValue(rate.price.denominator);
    var a := rate.applicability;
    if a.Range? {
      DecimalOfValue(a.lower);
      if a.upper.Some? { DecimalOfValue(a.upper.value); }
    }
  }

  lemma {:induction false} RebuildMore(rows: seq<RateRow>, row: RateRow, rates: seq<Rate>, rate: Rate, host: Host)
    requires Rebuild(rows, host) == Some(rates) && RateOf(row, host) == Some(rate) && row.ordinal == |rows|
    ensures Rebuild(rows + [row], host) == Some(rates + [rate])
  {
    assert (rows + [row])[..|rows|] == rows;
  }

  lemma {:induction false} RowsOfMore(tenant: JsString, revision: int, rates: seq<Rate>, rate: Rate, host: Host)
    ensures RowsOf(tenant, revision, rates + [rate], host)
            == RowsOf(tenant, revision, rates, host) + [RowOf(tenant, revision, |rates|, rate, host)]
  {
  }

  lemma {:induction false} RebuildRows(tenant: JsString, revision: int, rates: seq<Rate>, host: Host)
    requires forall i :: 0 <= i < |rates| ==> RateOk(rates[i])
    ensures Rebuild(RowsOf(tenant, revision, rates, host), host) == Some(rates)
  {
    if rates != [] {
      var init, last := rates[..|rates| - 1], rates[|rates| - 1];
      assert rates == init + [last];
      RebuildRows(tenant, revision, init, host);
      RateOfRow(tenant, revision, |init|, last, host);
      RowsOfMore(tenant, revision, init, last, host);
      RebuildMore(RowsOf(tenant, revision, init, host), RowOf(tenant, revision, |init|, last, host), init, last, host);
    }
  }

  lemma {:induction false} RowsAreOrdered(tenant: JsString, revision: int, rates: seq<Rate>, host: Host)
    ensures var rows := RowsOf(tenant, revision, rates, host); Sort(rows, ByOrdinal()) == rows
  {
    var rows := RowsOf(tenant, revision, rates, host);
    SortKeeps(rows, ByOrdinal());
    assert Separates(rows, ByOrdinal());
    SortedIsUnique(Sort(rows, ByOrdinal()), rows, ByOrdinal());
  }

  // ----- publishing keeps what was published readable -----

  lemma {:induction false} MaxRevisionIsMax(headers: seq<Header>, tenant: JsString, h: nat)
    requires h < |headers| && headers[h].tenant == tenant
    ensures headers[h].revision <= MaxRevision(headers, tenant)
  {
    if h < |headers| - 1 {
      assert headers[..|headers| - 1][h] == headers[h];
      MaxRevisionIsMax(headers[..|headers| - 1], tenant, h);
    }
  }

  lemma {:induction false} MaxRevisionMore(headers: seq<Header>, header: Header, tenant: JsString)
    ensures MaxRevision(headers + [header], tenant) ==
              if header.tenant == tenant && header.revision > MaxRevision(headers, tenant) then header.revision
              else MaxRevision(headers, tenant)
  {
    assert (headers + [header])[..|headers|] == headers;
  }

  /** Rates belong to revisions that were numbered. */
  ghost predicate Numbered(tables: Tables) {
    forall r :: 0 <= r < |tables.rates| ==> tables.rates[r].revision <= MaxRevision(tables.headers, tables.rates[r].tenant)
  }

  lemma {:induction false} FoundHeader(headers: seq<Header>, tenant: JsString, revision: int)
    ensures match FindHeader(headers, tenant, revision)
            case Some(h) => h < |headers| && Names(headers[h], tenant, revision)
            case None => forall h: nat :: h < |headers| ==> !Names(headers[h], tenant, revision)
  {
    var p := (i: nat) => i < |headers| && Names(headers[i], tenant, revision);
    forall h: nat | h < |headers| && FindHeader(headers, tenant, revision).None? ensures !Names(headers[h], tenant, revision) {
      assert !p(h);
    }
  }

  lemma {:induction false} HeaderStays(headers: seq<Header>, header: Header, tenant: JsString, revision: int)
    requires FindHeader(headers, tenant, revision).Some?
    ensures FindHeader(headers + [header], tenant, revision) == FindHeader(headers, tenant, revision)
  {
    var h := FindHeader(headers, tenant, revision).value;
    var more := headers + [header];
    var p := (i: nat) => i < |headers| && Names(headers[i], tenant, revision);
    var q := (i: nat) => i < |more| && Names(more[i], tenant, revision);
    assert q(h);
    forall i: nat | i < h ensures !q(i) { assert !p(i); }
  }

  lemma {:induction false} NewHeaderFound(headers: seq<Header>, header: Header)
    requires header.revision == MaxRevision(headers, header.tenant) + 1
    ensures FindHeader(headers + [header], header.tenant, header.revision) == Some(|headers|)
  {
    var more := headers + [header];
    var q := (i: nat) => i < |more| && Names(more[i], header.tenant, header.revision);
    assert q(|headers|);
    forall i: nat | i < |headers| ensures !q(i) {
      if headers[i].tenant == header.tenant { MaxRevisionIsMax(headers, header.tenant, i); }
    }
  }

  lemma {:induction false} RowsStay(rates: seq<RateRow>, more: seq<RateRow>, tenant: JsString, revision: int)
    requires forall r :: 0 <= r < |more| ==> more[r].tenant != tenant || more[r].revision != revision
    ensures RevisionRows(rates + more, tenant, revision) == RevisionRows(rates, tenant, revision)
  {
    var p := (row: RateRow) => row.tenant == tenant && row.revision == revision;
    FilterConcat(rates, more, p);
    FilterNone(more, p);
  }

  lemma {:induction false} NewRowsFound(tables: Tables, more: seq<RateRow>, tenant: JsString, revision: int)
    requires Numbered(tables) && revision > MaxRevision(tables.headers, tenant)
    requires forall r :: 0 <= r < |more| ==> more[r].tenant == tenant && more[r].revision == revision
    ensures RevisionRows(tables.rates + more, tenant, revision) == more
  {
    var p := (row: RateRow) => row.tenant == tenant && row.revision == revision;
    FilterConcat(tables.rates, more, p);
    FilterNone(tables.rates, p);
    FilterAll(more, p);
  }

  lemma {:induction false} AppendKeepsReads(tables: Tables, header: Header, rows: seq<RateRow>, tenant: JsString,
                                            revision: int, host: Host)
    requires FindHeader(tables.headers, tenant, revision).Some?
    requires forall r :: 0 <= r < |rows| ==> rows[r].tenant != tenant || rows[r].revision != revision
    ensures Read(Tables(tables.headers + [header], tables.rates + rows), tenant, revision, host)
            == Read(tables, tenant, revision, host)
  {
    FoundHeader(tables.headers, tenant, revision);
    HeaderStays(tables.headers, header, tenant, revision);
    var h := FindHeader(tables.headers, tenant, revision).value;
    RowsStay(tables.rates, rows, tenant, revision);
    assert (tables.headers + [header])[h] == tables.headers[h];
    SameRead(tables, Tables(tables.headers + [header], tables.rates + rows), tenant, revision, host);
  }

  /** What a publication appends: a header and rows of the tenant's next revision. */
  lemma {:induction false} PublishAppends(tables: Tables, draft: Draft, contentDigest: JsString, id: nat, now: int,
                                          host: Host, after: Tables)
    returns (header: Header, rows: seq<RateRow>)
    requires Publish(tables, draft, contentDigest, id, now, host).Ok?
    requires after == Publish(tables, draft, contentDigest, id, now, host).value.0
    ensures after == Tables(tables.headers + [header], tables.rates + rows)
    ensures forall r :: 0 <= r < |rows| ==>
              rows[r].tenant == draft.tenant && rows[r].revision == MaxRevision(tables.headers, draft.tenant) + 1
  {
    var next := MaxRevision(tables.headers, draft.tenant) + 1;
    header := HeaderOf(draft, contentDigest, next, id, now, host);
    rows := RowsOf(draft.tenant, next, draft.rates, host);
  }

  lemma {:induction false} OtherRevision(headers: seq<Header>, tenant: JsString, revision: int, other: JsString)
    requires FindHeader(headers, tenant, revision).Some?
    ensures other != tenant || MaxRevision(headers, other) + 1 != revision
  {
    FoundHeader(headers, tenant, revision);
    if tenant == other { MaxRevisionIsMax(headers, tenant, FindHeader(headers, tenant, revision).value); }
  }

  /** A publication leaves every earlier revision as it reads. */
  lemma {:induction false} PublishKeepsReads(tables: Tables, draft: Draft, contentDigest: JsString, id: nat, now: int,
                                             host: Host, after: Tables, tenant: JsString, revision: int)
    requires Publish(tables, draft, contentDigest, id, now, host).Ok?
    requires after == Publish(tables, draft, contentDigest, id, now, host).value.0
    requires FindHeader(tables.headers, tenant, revision).Some?
    ensures Read(after, tenant, revision, host) == Read(tables, tenant, revision, host)
  {
    var header, rows := PublishAppends(tables, draft, contentDigest, id, now, host, after);
    OtherRevision(tables.headers, tenant, revision, draft.tenant);
    AppendKeepsReads(tables, header, rows, tenant, revision, host);
  }

  lemma {:induction false} SameRead(tables: Tables, after: Tables, tenant: JsString, revision: int, host: Host)
    requires FindHeader(tables.headers, tenant, revision).Some?
    requires FindHeader(after.headers, tenant, revision) == FindHeader(tables.headers, tenant, revision)
    requires var h := FindHeader(tables.headers, tenant, revision).value;
      h < |tables.headers| && h < |after.headers| && after.headers[h] == tables.headers[h]
    requires RevisionRows(after.rates, tenant, revision) == RevisionRows(tables.rates, tenant, revision)
    ensures Read(after, tenant, revision, host) == Read(tables, tenant, revision, host)
  {
  }

  lemma {:induction false} PublishKeepsNumbered(tables: Tables, draft: Draft, contentDigest: JsString, id: nat,
                                                now: int, host: Host)
    requires Numbered(tables) && Publish(tables, draft, contentDigest, id, now, host).Ok?
    ensures Numbered(Publish(tables, draft, contentDigest, id, now, host).value.0)
  {
    var next := MaxRevision(tables.headers, draft.tenant) + 1;
    var header := HeaderOf(draft, contentDigest, next, id, now, host);
    var after := Publish(tables, draft, contentDigest, id, now, host).value.0;
    forall r | 0 <= r < |after.rates|
      ensures after.rates[r].revision <= MaxRevision(after.headers, after.rates[r].tenant)
    {
      MaxRevisionMore(tables.headers, header, after.rates[r].tenant);
      if r < |tables.rates| { assert after.rates[r] == tables.rates[r]; }
    }
  }

  /** What the publication of a draft stores. */
  function StoredOf(draft: Draft, contentDigest: JsString, id: nat, now: int, host: Host): Stored {
    Stored(id, contentDigest, host.calendar.show(now), draft)
  }

  /** A published draft is rebuilt from its rows. */
  lemma {:induction false} PublishReadsBack(tables: Tables, draft: Draft, text: JsString, id: nat, now: int, host: Host)
    requires Numbered(tables) && EncodeDraft(draft, host.calendar) == Some(text)
    requires Publish(tables, draft, host.sha256(text), id, now, host).Ok?
    ensures var (after, publication) := Publish(tables, draft, host.sha256(text), id, now, host).value;
      Read(after, draft.tenant, publication.revision, host) == Some(StoredOf(draft, host.sha256(text), id, now, host))
  {
    var next := MaxRevision(tables.headers, draft.tenant) + 1;
    var header := HeaderOf(draft, host.sha256(text), next, id, now, host);
    var rows := RowsOf(draft.tenant, next, draft.rates, host);
    NewHeaderFound(tables.headers, header);
    NewRowsFound(tables, rows, draft.tenant, next);
    RowsAreOrdered(draft.tenant, next, draft.rates, host);
    RebuiltFromRows(header, draft, text, host, next, id, now);
  }

  lemma {:induction false} RebuiltFromRows(header: Header, draft: Draft, text: JsString, host: Host, revision: int,
                                           id: nat, now: int)
    requires EncodeDraft(draft, host.calendar) == Some(text)
    requires host.calendar.parse(draft.effectiveFrom).Some? && host.calendar.parse(draft.verifiedAt).Some?
    requires header == HeaderOf(draft, host.sha256(text), revision, id, now, host)
    ensures Rebuilt(header, RowsOf(draft.tenant, revision, draft.rates, host), host)
            == Some(StoredOf(draft, host.sha256(text), id, now, host))
  {
    RebuildRows(draft.tenant, revision, draft.rates, host);
    assert DraftOf(header, draft.rates, host) == draft;
  }

  // ----- the unique index on key digests -----

  ghost predicate Injective(sha256: JsString -> JsString) {
    forall a, b :: sha256(a) == sha256(b) ==> a == b
  }

  lemma {:induction false} KeyDomainIsPlain()
    ensures Plain(Word(KEY_DOMAIN), 1)
  {
    WordIsPlain(KEY_DOMAIN, 1);
  }

  lemma {:induction false} PrefixedIsPlain(word: Json, items: seq<Json>)
    requires Plain(word, 1) && AllPlain(items, 1)
    ensures Plain(Arr([word] + items), 2)
  {
    ArrayIsPlain([word] + items, 1);
  }

  lemma {:induction false} KeyTupleIsPlain(rate: Rate)
    requires RateOk(rate)
    ensures Plain(KeyTuple(rate), 2)
  {
    KeyDomainIsPlain();
    KeyIsPlain(rate);
    PrefixedIsPlain(Word(KEY_DOMAIN), KeyItems(rate));
  }

  lemma {:induction false} KeyTuplesTell(a: Rate, b: Rate)
    requires KeyTuple(a) == KeyTuple(b)
    ensures SameKey(a, b)
  {
    assert KeyItems(a) == KeyTuple(a).items[1..] && KeyItems(b) == KeyTuple(b).items[1..];
    GroupItemsTell(a, b);
  }

  /** No two rows of a revision have the same key digest. */
  lemma {:induction false} KeyDigestsDiffer(tenant: JsString, revision: int, rates: seq<Rate>, i: nat, j: nat,
                                            host: Host)
    requires RateSetOk(rates) && i < j < |rates| && Injective(host.sha256)
    ensures RowsOf(tenant, revision, rates, host)[i].keyDigest != RowsOf(tenant, revision, rates, host)[j].keyDigest
  {
    assert Compatible(rates[i], rates[j]);
    if KeyDigest(rates[i], host) == KeyDigest(rates[j], host) { DigestsTell(rates[i], rates[j], host); }
  }

  lemma {:induction false} DigestsTell(a: Rate, b: Rate, host: Host)
    requires RateOk(a) && RateOk(b) && Injective(host.sha256) && KeyDigest(a, host) == KeyDigest(b, host)
    ensures SameKey(a, b)
  {
    KeyTupleIsPlain(a);
    KeyTupleIsPlain(b);
    StringifyIsInjective(KeyTuple(a), KeyTuple(b), 2);
    KeyTuplesTell(a, b);
  }
}
