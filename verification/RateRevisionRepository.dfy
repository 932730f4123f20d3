/** The rate revision repository over its two tables: publication, the read-back that confirms it,
    and the choice of the active revision. */
module RateRevisionRepository {
  import opened Outcomes
  import opened Unicode
  import opened RateRevision
  import opened RateSelection
  import opened RateStore

  // ----- confirming a publication -----

  /** The read-back after a publication: header, digest, time and text agree. */
  predicate Confirms(tables: Tables, expected: Publication, draft: Draft, host: Host) {
    match EncodeDraft(draft, host.calendar)
    case None => false
    case Some(text) =>
      && expected.tenant == draft.tenant && expected.effectiveFrom == draft.effectiveFrom
      && expected.contentDigest == host.sha256(text)
      && match Read(tables, expected.tenant, expected.revision, host)
         case None => false
         case Some(stored) =>
           && stored.draft.effectiveFrom == expected.effectiveFrom
           && stored.contentDigest == expected.contentDigest
           && stored.publishedAt == expected.publishedAt
           && EncodeDraft(stored.draft, host.calendar) == Some(text)
  }

  // ----- the active revision -----

  predicate Later(a: Header, b: Header) {
    a.effectiveFrom > b.effectiveFrom || (a.effectiveFrom == b.effectiveFrom && a.revision > b.revision)
  }

  predicate Effective(header: Header, tenant: JsString, now: int) {
    header.tenant == tenant && header.effectiveFrom <= now
  }

  /** ORDER BY effective_from DESC, revision DESC LIMIT 1. */
  function Latest(headers: seq<Header>, tenant: JsString, now: int): Option<Header> {
    if headers == [] then None
    else
      var rest, last := Latest(headers[..|headers| - 1], tenant, now), headers[|headers| - 1];
      if Effective(last, tenant, now) && (rest.None? || Later(last, rest.value)) then Some(last) else rest
  }

  /** The chosen header belongs to the tenant and is effective, and every other effective header of
      the tenant takes effect earlier, or at the same instant with a smaller revision. */
  lemma {:induction false} LatestIsLatest(headers: seq<Header>, tenant: JsString, now: int)
    ensures match Latest(headers, tenant, now)
            case Some(h) =>
              && h in headers && h.tenant == tenant && h.effectiveFrom <= now
              && forall g :: g in headers && g.tenant == tenant && g.effectiveFrom <= now ==>
                   g.effectiveFrom < h.effectiveFrom || (g.effectiveFrom == h.effectiveFrom && g.revision <= h.revision)
            case None => forall g :: g in headers && g.tenant == tenant ==> now < g.effectiveFrom
  {
    if headers != [] {
      var init, last := headers[..|headers| - 1], headers[|headers| - 1];
      LatestIsLatest(init, tenant, now);
      assert headers == init + [last];
    }
  }

  function SelectActive(tables: Tables, tenant: JsString, now: int, profile: Reference, binding: Binding,
                        requests: seq<Request>, host: Host): Result<seq<Rate>, SelectionError>
  {
    match Latest(tables.headers, tenant, now)
    case None => Err(Unavailable)
    case Some(active) =>
      match Read(tables, tenant, active.revision, host)
      case None => Err(Corrupt)
      case Some(stored) =>
        if stored.id != active.id then Err(Corrupt)
        else if stored.draft.profile != profile then Err(Unavailable)
        else SelectRates(stored.draft.rates, binding, requests)
  }

  // ----- the repository -----

  class RateRevisionRepository {
    const host: Host
    var headers: seq<Header>
    var rates: seq<RateRow>

    function Content(): Tables
      reads this
    {
      Tables(headers, rates)
    }

    constructor (host: Host)
      ensures this.host == host && Content() == Tables([], [])
    {
      this.host := host;
      headers, rates := [], [];
    }

    method NextRevision(tenant: JsString) returns (revision: int)
      ensures revision == MaxRevision(headers, tenant) + 1
    {
      var maximum := 0;
      for i := 0 to |headers|
        invariant maximum == MaxRevision(headers[..i], tenant)
      {
        assert headers[..i + 1][..i] == headers[..i];
        if headers[i].tenant == tenant && headers[i].revision > maximum { maximum := headers[i].revision; }
      }
      assert headers[..|headers|] == headers;
      revision := maximum + 1;
    }

    method PublishRate(draft: Draft, contentDigest: JsString, id: nat, now: int)
      returns (answer: Result<Publication, StoreError>)
      modifies this
      ensures match Publish(old(Content()), draft, contentDigest, id, now, host)
              case Ok(result) => Content() == result.0 && answer == Ok(result.1)
              case Err(e) => Content() == old(Content()) && answer == Err(e)
    {
      var revision := NextRevision(draft.tenant);
      if revision > INT64_MAX { return Err(Exhausted); }
      if host.calendar.parse(draft.effectiveFrom).None? || host.calendar.parse(draft.verifiedAt).None? {
        return Err(InvalidDate);
      }
      headers := headers + [HeaderOf(draft, contentDigest, revision, id, now, host)];
      var ordinal := 0;
      var rows: seq<RateRow> := [];
      while ordinal < |draft.rates|
        invariant 0 <= ordinal <= |draft.rates| && |rows| == ordinal
        invariant rows == RowsOf(draft.tenant, revision, draft.rates, host)[..ordinal]
      {
        rows := rows + [RowOf(draft.tenant, revision, ordinal, draft.rates[ordinal], host)];
        ordinal := ordinal + 1;
      }
      rates := rates + rows;
      answer := Ok(Publication(draft.tenant, revision, contentDigest, host.calendar.show(now), draft.effectiveFrom, id));
    }
  }
}
