/** The publishing service in front of the repository, and what holds after any sequence of
    publications. */
module RateRevisionRuns {
  import opened Outcomes
  import opened Unicode
  import opened Decimals
  import opened RateRevision
  import opened RateRevisionProof
  import opened RateSelection
  import opened RateStore
  import opened RateRevisionRepository

  datatype Command = Command(draft: Draft, id: nat, now: int)

  /** The service: a draft is encoded and decoded again, and the decoded draft is published. */
  function Perform(tables: Tables, command: Command, host: Host): (Tables, Option<Publication>) {
    match EncodeDraft(command.draft, host.calendar)
    case None => (tables, None)
    case Some(text) =>
      match DecodeDraft(text, host.calendar)
      case None => (tables, None)
      case Some(draft) => Recording(tables, Publish(tables, draft, host.sha256(text), command.id, command.now, host))
  }

  /** The tables after a publication, and what it announces. */
  function Recording(tables: Tables, published: Result<(Tables, Publication), StoreError>): (Tables, Option<Publication>) {
    match published
    case Err(_) => (tables, None)
    case Ok(result) => (result.0, Some(result.1))
  }

  /** The k-th command, the tables before it, its answer, what it puts on record if it
      publishes, and what a read of a tenant's revision would return before it. A finite run is
      a prefix of one. */
  datatype Run = Run(
    host: Host,
    command: nat -> Command,
    tables: nat -> Tables,
    answer: nat -> Option<Publication>,
    record: nat -> Stored,
    stored: (nat, JsString, int) -> Option<Stored>
  )

  predicate StepAt(run: Run, k: nat) {
    Perform(run.tables(k), run.command(k), run.host) == (run.tables(k + 1), run.answer(k))
  }

  predicate ReadAt(run: Run, k: nat, tenant: JsString, revision: int) {
    run.stored(k, tenant, revision) == Read(run.tables(k), tenant, revision, run.host)
  }

  predicate RecordAt(run: Run, k: nat) {
    run.answer(k).Some? ==> run.record(k) == Recorded(run.command(k), run.answer(k).value, run.host)
  }

  ghost predicate IsRun(run: Run) {
    && run.tables(0) == Tables([], [])
    && (forall k: nat :: StepAt(run, k) && RecordAt(run, k))
    && (forall k: nat, tenant, revision :: ReadAt(run, k, tenant, revision))
  }

  /** What the command puts on record: its draft with the rates in key order. */
  function Recorded(command: Command, p: Publication, host: Host): Stored {
    StoredOf(command.draft.(rates := SortRates(command.draft.rates)), p.contentDigest, command.id, command.now, host)
  }

  /** The publication names the draft's tenant and instant, its text's digest and the time. */
  predicate Announces(p: Publication, command: Command, host: Host) {
    && p.tenant == command.draft.tenant && p.effectiveFrom == command.draft.effectiveFrom
    && p.publishedAt == host.calendar.show(command.now) && p.id == command.id
    && EncodeDraft(command.draft, host.calendar).Some?
    && p.contentDigest == host.sha256(EncodeDraft(command.draft, host.calendar).value)
  }

  predicate HeaderFor(header: Header, p: Publication, host: Host) {
    && header.tenant == p.tenant && header.revision == p.revision && header.id == p.id
    && host.calendar.parse(p.effectiveFrom) == Some(header.effectiveFrom)
  }

  /** One header more, for the tenant's next revision. */
  ghost predicate NextHeader(headers: seq<Header>, after: seq<Header>, p: Publication, host: Host) {
    p.revision == MaxRevision(headers, p.tenant) + 1
    && exists header :: HeaderFor(header, p, host) && after == headers + [header]
  }

  lemma {:induction false} ServicePublishes(tables: Tables, command: Command, host: Host, text: JsString)
    requires EncodeDraft(command.draft, host.calendar) == Some(text)
    ensures var draft := command.draft.(rates := SortRates(command.draft.rates));
      && EncodeDraft(draft, host.calendar) == Some(text) && RateSetOk(draft.rates)
      && Perform(tables, command, host)
         == Recording(tables, Publish(tables, draft, host.sha256(text), command.id, command.now, host))
  {
    DecodeOfEncodeDraft(command.draft, host.calendar);
    EncodeOfDecodeDraft(text, host.calendar);
    SortRatesIsStable(command.draft.rates, command.draft.rates);
  }

  lemma {:induction false} PublishAnnounces(tables: Tables, draft: Draft, digest: JsString, id: nat, now: int,
                                            host: Host, after: Tables, p: Publication)
    requires Publish(tables, draft, digest, id, now, host) == Ok((after, p))
    ensures NextHeader(tables.headers, after.headers, p, host)
    ensures p.tenant == draft.tenant && p.effectiveFrom == draft.effectiveFrom && p.contentDigest == digest
    ensures p.publishedAt == host.calendar.show(now) && p.id == id
  {
    var header := after.headers[|tables.headers|];
    assert HeaderFor(header, p, host) && after.headers == tables.headers + [header];
  }

  lemma {:induction false} PerformPublishes(tables: Tables, command: Command, host: Host, after: Tables, p: Publication)
    requires Numbered(tables) && Perform(tables, command, host) == (after, Some(p))
    ensures Numbered(after) && NextHeader(tables.headers, after.headers, p, host) && Announces(p, command, host)
    ensures Read(after, p.tenant, p.revision, host) == Some(Recorded(command, p, host))
    ensures RateSetOk(SortRates(command.draft.rates))
  {
    var text := EncodeDraft(command.draft, host.calendar).value;
    var draft := command.draft.(rates := SortRates(command.draft.rates));
    ServicePublishes(tables, command, host, text);
    PublishAnnounces(tables, draft, host.sha256(text), command.id, command.now, host, after, p);
    PublishReadsBack(tables, draft, text, command.id, command.now, host);
    PublishKeepsNumbered(tables, draft, host.sha256(text), command.id, command.now, host);
  }

  lemma {:induction false} PerformKeepsReads(tables: Tables, command: Command, host: Host, tenant: JsString,
                                             revision: int)
    requires Read(tables, tenant, revision, host).Some?
    ensures Read(Perform(tables, command, host).0, tenant, revision, host) == Read(tables, tenant, revision, host)
  {
    if Perform(tables, command, host).1.Some? {
      var text := EncodeDraft(command.draft, host.calendar).value;
      var draft := DecodeDraft(text, host.calendar).value;
      PublishKeepsReads(tables, draft, host.sha256(text), command.id, command.now, host,
                        Perform(tables, command, host).0, tenant, revision);
    }
  }

  // ----- one step of a run -----

  /** What a step of the run does. */
  ghost predicate Stepped(run: Run, k: nat) {
    match run.answer(k)
    case None => run.tables(k + 1) == run.tables(k)
    case Some(p) =>
      && NextHeader(run.tables(k).headers, run.tables(k + 1).headers, p, run.host)
      && run.stored(k + 1, p.tenant, p.revision) == Some(run.record(k))
  }

  lemma {:induction false} StepKeeps(run: Run, k: nat)
    requires IsRun(run) && Numbered(run.tables(k))
    ensures Numbered(run.tables(k + 1)) && Stepped(run, k)
  {
    assert StepAt(run, k) && RecordAt(run, k);
    match run.answer(k)
    case None => NothingPublished(run.tables(k), run.command(k), run.host);
    case Some(p) =>
      PerformPublishes(run.tables(k), run.command(k), run.host, run.tables(k + 1), p);
      assert ReadAt(run, k + 1, p.tenant, p.revision);
  }

  lemma {:induction false} NothingPublished(tables: Tables, command: Command, host: Host)
    requires Perform(tables, command, host).1.None?
    ensures Perform(tables, command, host).0 == tables
  {
  }

  lemma {:induction false} TablesAreNumbered(run: Run, k: nat)
    requires IsRun(run)
    ensures Numbered(run.tables(k)) && Stepped(run, k)
  {
    if k > 0 {
      TablesAreNumbered(run, k - 1);
      StepKeeps(run, k - 1);
    }
    StepKeeps(run, k);
  }

  lemma {:induction false} StoredStays(run: Run, k: nat, tenant: JsString, revision: int)
    requires IsRun(run) && run.stored(k, tenant, revision).Some?
    ensures run.stored(k + 1, tenant, revision) == run.stored(k, tenant, revision)
  {
    assert StepAt(run, k) && ReadAt(run, k, tenant, revision) && ReadAt(run, k + 1, tenant, revision);
    PerformKeepsReads(run.tables(k), run.command(k), run.host, tenant, revision);
  }

  // ----- over a run -----

  /** A published revision reads back as its draft, with the rates in key order, for good. */
  lemma {:induction false} EveryRevisionReadsBack(run: Run, k: nat, n: nat)
    requires IsRun(run) && k < n && run.answer(k).Some?
    ensures var p := run.answer(k).value;
      run.stored(n, p.tenant, p.revision) == Some(run.record(k))
  {
    if n == k + 1 {
      TablesAreNumbered(run, k);
    } else {
      EveryRevisionReadsBack(run, k, n - 1);
      StoredStays(run, n - 1, run.answer(k).value.tenant, run.answer(k).value.revision);
    }
  }

  lemma {:induction false} StepAnnounces(run: Run, k: nat)
    requires IsRun(run) && run.answer(k).Some?
    ensures Announces(run.answer(k).value, run.command(k), run.host)
    ensures run.record(k) == Recorded(run.command(k), run.answer(k).value, run.host)
    ensures RateSetOk(run.record(k).draft.rates)
  {
    TablesAreNumbered(run, k);
    assert StepAt(run, k) && RecordAt(run, k);
    PerformPublishes(run.tables(k), run.command(k), run.host, run.tables(k + 1), run.answer(k).value);
  }

  /** The read-back after a publication never reports corruption, then or later. */
  lemma {:induction false} EveryPublicationIsConfirmed(run: Run, k: nat, n: nat)
    requires IsRun(run) && k < n && run.answer(k).Some?
    ensures var draft := run.command(k).draft;
      Confirms(run.tables(n), run.answer(k).value, draft.(rates := SortRates(draft.rates)), run.host)
  {
    var p, draft := run.answer(k).value, run.command(k).draft;
    StepAnnounces(run, k);
    EveryRevisionReadsBack(run, k, n);
    assert ReadAt(run, n, p.tenant, p.revision);
    var text := EncodeDraft(draft, run.host.calendar).value;
    DecodeOfEncodeDraft(draft, run.host.calendar);
    EncodeOfDecodeDraft(text, run.host.calendar);
    Confirmed(run.tables(n), p, draft.(rates := SortRates(draft.rates)), text, run.host, run.record(k));
  }

  lemma {:induction false} Confirmed(tables: Tables, p: Publication, draft: Draft, text: JsString, host: Host,
                                     stored: Stored)
    requires EncodeDraft(draft, host.calendar) == Some(text)
    requires Read(tables, p.tenant, p.revision, host) == Some(stored) && stored.draft == draft
    requires p.tenant == draft.tenant && p.effectiveFrom == draft.effectiveFrom && p.contentDigest == host.sha256(text)
    requires stored.contentDigest == p.contentDigest && stored.publishedAt == p.publishedAt
    ensures Confirms(tables, p, draft, host)
  {
  }

  /** How many of the first k commands published for the tenant. */
  function Published(run: Run, k: nat, tenant: JsString): nat {
    if k == 0 then 0
    else Published(run, k - 1, tenant)
         + if run.answer(k - 1).Some? && run.answer(k - 1).value.tenant == tenant then 1 else 0
  }

  lemma {:induction false} HeaderCounts(headers: seq<Header>, after: seq<Header>, p: Publication, host: Host,
                                        tenant: JsString)
    requires NextHeader(headers, after, p, host)
    ensures MaxRevision(after, tenant) == MaxRevision(headers, tenant) + if p.tenant == tenant then 1 else 0
  {
    var header :| HeaderFor(header, p, host) && after == headers + [header];
    MaxRevisionMore(headers, header, tenant);
  }

  lemma {:induction false} RevisionsCount(run: Run, k: nat, tenant: JsString)
    requires IsRun(run)
    ensures MaxRevision(run.tables(k).headers, tenant) == Published(run, k, tenant)
  {
    if k > 0 {
      RevisionsCount(run, k - 1, tenant);
      TablesAreNumbered(run, k - 1);
      if run.answer(k - 1).Some? {
        HeaderCounts(run.tables(k - 1).headers, run.tables(k).headers, run.answer(k - 1).value, run.host,
                     tenant);
      }
    }
  }

  /** The revisions of a tenant are numbered 1, 2, 3, ... in the order of publication. */
  lemma {:induction false} RevisionsAreConsecutive(run: Run, k: nat)
    requires IsRun(run) && run.answer(k).Some?
    ensures run.answer(k).value.revision == Published(run, k, run.answer(k).value.tenant) + 1
  {
    TablesAreNumbered(run, k);
    RevisionsCount(run, k, run.answer(k).value.tenant);
  }

  // ----- selection -----

  /** Every header belongs to a publication. */
  lemma {:induction false} HeadersComeFromCommands(run: Run, n: nat, header: Header) returns (k: nat)
    requires IsRun(run) && header in run.tables(n).headers
    ensures k < n && run.answer(k).Some? && HeaderFor(header, run.answer(k).value, run.host)
  {
    TablesAreNumbered(run, n - 1);
    var headers := run.tables(n - 1).headers;
    if header in headers {
      k := HeadersComeFromCommands(run, n - 1, header);
    } else {
      k := n - 1;
    }
  }

  /** And every publication has its header from then on. */
  lemma {:induction false} PublicationsHaveHeaders(run: Run, k: nat, n: nat) returns (header: Header)
    requires IsRun(run) && k < n && run.answer(k).Some?
    ensures header in run.tables(n).headers && HeaderFor(header, run.answer(k).value, run.host)
  {
    TablesAreNumbered(run, n - 1);
    if k == n - 1 {
      var p := run.answer(k).value;
      header :| HeaderFor(header, p, run.host) && run.tables(n).headers == run.tables(k).headers + [header];
    } else {
      header := PublicationsHaveHeaders(run, k, n - 1);
    }
  }

  /** The rate prices the request: it belongs to the binding, names the same bucket and unit, and
      applies to everything or to a range that holds the measured value. */
  predicate Prices(rate: Rate, binding: Binding, request: Request) {
    && rate.binding == binding && rate.bucket == request.bucket && rate.unit == request.unit
    && (rate.applicability.Range? ==>
          && request.measure.Measured?
          && rate.applicability.dimension == request.measure.dimension
          && rate.applicability.unit == request.measure.unit
          && Value(rate.applicability.lower) <= request.measure.value
          && (rate.applicability.upper.Some? ==> request.measure.value < Value(rate.applicability.upper.value)))
  }

  ghost predicate Priced(rates: seq<Rate>, binding: Binding, request: Request) {
    exists rate :: rate in rates && Prices(rate, binding, request)
  }

  /** The answer from these rates: nothing requested is corrupt; one matching rate per request if
      every request has one; otherwise there is no rate. */
  ghost predicate SelectedFrom(answer: Result<seq<Rate>, SelectionError>, rates: seq<Rate>, binding: Binding,
                               requests: seq<Request>)
  {
    if requests == [] then answer == Err(Corrupt)
    else if forall k :: 0 <= k < |requests| ==> Priced(rates, binding, requests[k]) then
      && answer.Ok? && |answer.value| == |requests|
      && forall k :: 0 <= k < |requests| ==> answer.value[k] in rates && Prices(answer.value[k], binding, requests[k])
    else answer == Err(Unavailable)
  }

  /** Command k published for the tenant, to take effect at this instant. */
  predicate TakesEffect(run: Run, k: nat, tenant: JsString, at: int) {
    && run.answer(k).Some? && run.answer(k).value.tenant == tenant
    && run.host.calendar.parse(run.answer(k).value.effectiveFrom) == Some(at)
  }

  /** Whatever was published before, selection answers from one publication: of those of the tenant
      that have taken effect, all others took effect earlier, or at the same instant with a smaller
      revision. It is unavailable if there is none or it prices another profile, and otherwise
      answers exactly from the rates of that draft. */
  lemma {:induction false} ActiveSelectionIsExact(run: Run, n: nat, tenant: JsString, now: int, profile: Reference,
                                                  binding: Binding, requests: seq<Request>)
    returns (active: Option<(nat, int)>)
    requires IsRun(run)
    ensures var answer := SelectActive(run.tables(n), tenant, now, profile, binding, requests, run.host);
            match active
            case None =>
              && answer == Err(Unavailable)
              && forall m: nat, at: int :: m < n && TakesEffect(run, m, tenant, at) ==> now < at
            case Some((k, from)) =>
              && k < n && TakesEffect(run, k, tenant, from) && from <= now
              && (forall m: nat, at: int :: m < n && TakesEffect(run, m, tenant, at) && at <= now ==>
                    at < from || (at == from && run.answer(m).value.revision <= run.answer(k).value.revision))
              && var draft := run.command(k).draft;
                 if draft.profile != profile then answer == Err(Unavailable)
                 else SelectedFrom(answer, draft.rates, binding, requests)
  {
    var headers := run.tables(n).headers;
    var latest := Latest(headers, tenant, now);
    active := None;
    LatestIsLatest(headers, tenant, now);
    forall m: nat, at: int | m < n && TakesEffect(run, m, tenant, at)
      ensures latest.None? ==> now < at
      ensures latest.Some? && at <= now ==>
                at < latest.value.effectiveFrom
                || (at == latest.value.effectiveFrom && run.answer(m).value.revision <= latest.value.revision)
    {
      var header := PublicationsHaveHeaders(run, m, n);
    }
    if latest.Some? {
      var k := HeadersComeFromCommands(run, n, latest.value);
      active := Some((k, latest.value.effectiveFrom));
      SelectsFromPublication(run, n, tenant, now, profile, binding, requests, k);
    }
  }

  lemma {:induction false} SelectsFromPublication(run: Run, n: nat, tenant: JsString, now: int, profile: Reference,
                                                  binding: Binding, requests: seq<Request>, k: nat)
    requires IsRun(run) && k < n && run.answer(k).Some?
    requires Latest(run.tables(n).headers, tenant, now).Some?
    requires HeaderFor(Latest(run.tables(n).headers, tenant, now).value, run.answer(k).value, run.host)
    requires run.answer(k).value.tenant == tenant
    ensures var answer := SelectActive(run.tables(n), tenant, now, profile, binding, requests, run.host);
            var draft := run.command(k).draft;
            if draft.profile != profile then answer == Err(Unavailable)
            else SelectedFrom(answer, draft.rates, binding, requests)
  {
    var active := Latest(run.tables(n).headers, tenant, now).value;
    StepAnnounces(run, k);
    EveryRevisionReadsBack(run, k, n);
    assert ReadAt(run, n, tenant, active.revision);
    SelectActiveReads(run.tables(n), tenant, now, profile, binding, requests, run.host, active, run.record(k));
    SelectsFrom(run.command(k).draft.rates, binding, requests);
  }

  lemma {:induction false} ServedIsPriced(sorted: seq<Rate>, rates: seq<Rate>, binding: Binding, request: Request)
    requires forall rate :: rate in sorted <==> rate in rates
    ensures Served(sorted, binding, request) <==> Priced(rates, binding, request)
    ensures forall rate :: Chosen(sorted, binding, request, rate) <==> rate in rates && Prices(rate, binding, request)
  {
    if Served(sorted, binding, request) {
      var rate :| rate in sorted && rate.binding == binding && Matches(rate, request);
      assert rate in rates && Prices(rate, binding, request);
    }
    if Priced(rates, binding, request) {
      var rate :| rate in rates && Prices(rate, binding, request);
      assert rate in sorted && Matches(rate, request);
    }
  }

  lemma {:induction false} SelectsFrom(rates: seq<Rate>, binding: Binding, requests: seq<Request>)
    requires RateSetOk(SortRates(rates))
    ensures SelectedFrom(SelectRates(SortRates(rates), binding, requests), rates, binding, requests)
  {
    SortRatesKeeps(rates);
    SelectionIsExact(SortRates(rates), binding, requests);
    forall k | 0 <= k < |requests|
      ensures Served(SortRates(rates), binding, requests[k]) <==> Priced(rates, binding, requests[k])
      ensures forall rate :: Chosen(SortRates(rates), binding, requests[k], rate) <==>
                rate in rates && Prices(rate, binding, requests[k])
    {
      ServedIsPriced(SortRates(rates), rates, binding, requests[k]);
    }
  }

  lemma {:induction false} SelectActiveReads(tables: Tables, tenant: JsString, now: int, profile: Reference,
                                             binding: Binding, requests: seq<Request>, host: Host, active: Header,
                                             stored: Stored)
    requires Latest(tables.headers, tenant, now) == Some(active)
    requires Read(tables, tenant, active.revision, host) == Some(stored) && stored.id == active.id
    ensures SelectActive(tables, tenant, now, profile, binding, requests, host)
            == if stored.draft.profile != profile then Err(Unavailable) else SelectRates(stored.draft.rates, binding, requests)
  {
  }
}
