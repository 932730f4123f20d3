/** Which rate a request for usage is charged at. Validation at publication leaves at most one
    candidate for every request. */
module RateSelection {
  import opened Outcomes
  import opened Positions
  import opened Unicode
  import opened Decimals
  import opened RateRevision

  datatype Measure = Unmeasured | Measured(dimension: JsString, unit: JsString, value: int)

  datatype Request = Request(bucket: JsString, unit: JsString, measure: Measure)

  datatype SelectionError = Unavailable | Ambiguous | Corrupt

  predicate Applies(a: Applicability, measure: Measure) {
    match a
    case All => true
    case Range(dimension, unit, lower, upper) =>
      && measure.Measured? && dimension == measure.dimension && unit == measure.unit
      && measure.value >= Value(lower)
      && (upper.None? || measure.value < Value(upper.value))
  }

  predicate Matches(rate: Rate, request: Request) {
    rate.bucket == request.bucket && rate.unit == request.unit && Applies(rate.applicability, request.measure)
  }

  function ForBinding(rates: seq<Rate>, binding: Binding): seq<Rate> {
    Filter(rates, (rate: Rate) => rate.binding == binding)
  }

  function ForRequest(rates: seq<Rate>, request: Request): seq<Rate> {
    Filter(rates, (rate: Rate) => Matches(rate, request))
  }

  predicate OneCurrency(rates: seq<Rate>) {
    forall i, j :: 0 <= i < j < |rates| ==> rates[i].currency == rates[j].currency
  }

  /** One rate per request, or the first request's failure. */
  function Choose(rates: seq<Rate>, requests: seq<Request>): Result<seq<Rate>, SelectionError> {
    if requests == [] then Ok([])
    else
      var matches := ForRequest(rates, requests[0]);
      if |matches| == 0 then Err(Unavailable)
      else if |matches| > 1 then Err(Ambiguous)
      else
        match Choose(rates, requests[1..])
        case Err(e) => Err(e)
        case Ok(rest) => Ok([matches[0]] + rest)
  }

  function SelectRates(rates: seq<Rate>, binding: Binding, requests: seq<Request>): Result<seq<Rate>, SelectionError> {
    var bound := ForBinding(rates, binding);
    if !OneCurrency(bound) then Err(Corrupt)
    else
      match Choose(bound, requests)
      case Err(e) => Err(e)
      case Ok(chosen) => if chosen == [] || !OneCurrency(chosen) then Err(Corrupt) else Ok(chosen)
  }

  // ----- no request has two rates -----

  /** A use that both rates would charge. */
  predicate BothMatch(a: Rate, b: Rate, request: Request) {
    a.binding == b.binding && Matches(a, request) && Matches(b, request)
  }

  ghost predicate Disjoint(a: Rate, b: Rate) {
    forall request :: !BothMatch(a, b, request)
  }

  /** Two ranges measured along different dimensions or in different units. */
  predicate MixesMeasures(a: Applicability, b: Applicability) {
    a.Range? && b.Range? && (a.dimension != b.dimension || a.unit != b.unit)
  }

  /** A use at the larger of the two lower bounds. */
  function SharedUse(a: Applicability, b: Applicability): Measure {
    if a.All? && b.All? then Unmeasured
    else if a.All? then Measured(b.dimension, b.unit, Value(b.lower))
    else if b.All? then Measured(a.dimension, a.unit, Value(a.lower))
    else Measured(a.dimension, a.unit, if Value(a.lower) < Value(b.lower) then Value(b.lower) else Value(a.lower))
  }

  predicate NotEmpty(a: Applicability) {
    a.Range? && a.upper.Some? ==> Value(a.lower) < Value(a.upper.value)
  }

  lemma {:induction false} IntervalsMeet(a: Applicability, b: Applicability)
    requires NotEmpty(a) && NotEmpty(b) && !IntervalsOk(a, b) && !MixesMeasures(a, b)
    ensures Applies(a, SharedUse(a, b)) && Applies(b, SharedUse(a, b))
  {
  }

  lemma {:induction false} IntervalsApart(a: Applicability, b: Applicability, measure: Measure)
    requires IntervalsOk(a, b)
    ensures !(Applies(a, measure) && Applies(b, measure))
  {
  }

  /** The interval test refuses exactly the pairs that some use would match both of, and the
      pairs that mix measures. */
  lemma {:induction false} IntervalTestIsExact(a: Rate, b: Rate)
    requires RateOk(a) && RateOk(b) && SameGroup(a, b)
    ensures IntervalsOk(a.applicability, b.applicability)
            <==> Disjoint(a, b) && !MixesMeasures(a.applicability, b.applicability)
  {
    var x, y := a.applicability, b.applicability;
    if IntervalsOk(x, y) {
      forall request ensures !BothMatch(a, b, request) { IntervalsApart(x, y, request.measure); }
    } else if !MixesMeasures(x, y) {
      IntervalsMeet(x, y);
      assert BothMatch(a, b, Request(a.bucket, a.unit, SharedUse(x, y)));
    }
  }

  /** Given one currency per binding and one measure per group, a set of rates is accepted
      exactly when no use matches two of them. */
  lemma {:induction false} AcceptedMeansUnambiguous(rates: seq<Rate>)
    requires 1 <= |rates| <= MAX_RATES && forall i :: 0 <= i < |rates| ==> RateOk(rates[i])
    requires forall i, j :: 0 <= i < j < |rates| && rates[i].binding == rates[j].binding ==> rates[i].currency == rates[j].currency
    requires forall i, j :: 0 <= i < j < |rates| && SameGroup(rates[i], rates[j]) ==>
               !MixesMeasures(rates[i].applicability, rates[j].applicability)
    ensures RateSetOk(rates) <==> forall i, j :: 0 <= i < j < |rates| ==> Disjoint(rates[i], rates[j])
  {
    forall i, j | 0 <= i < j < |rates| ensures Compatible(rates[i], rates[j]) == Disjoint(rates[i], rates[j]) {
      CompatibleMeansDisjoint(rates[i], rates[j]);
    }
  }

  lemma {:induction false} CompatibleMeansDisjoint(a: Rate, b: Rate)
    requires RateOk(a) && RateOk(b)
    requires a.binding == b.binding ==> a.currency == b.currency
    requires SameGroup(a, b) ==> !MixesMeasures(a.applicability, b.applicability)
    ensures Compatible(a, b) <==> Disjoint(a, b)
  {
    if SameGroup(a, b) {
      IntervalTestIsExact(a, b);
      if SameKey(a, b) { assert !IntervalsOk(a.applicability, b.applicability); }
    }
  }

  /** After publication no use matches two rates, and a binding has one currency. */
  lemma {:induction false} AcceptedSetIsUnambiguous(rates: seq<Rate>, i: nat, j: nat, request: Request)
    requires RateSetOk(rates) && i < j < |rates| && rates[i].binding == rates[j].binding
    ensures !(Matches(rates[i], request) && Matches(rates[j], request))
    ensures rates[i].currency == rates[j].currency
  {
    assert Compatible(rates[i], rates[j]);
    if SameGroup(rates[i], rates[j]) {
      IntervalTestIsExact(rates[i], rates[j]);
      assert !BothMatch(rates[i], rates[j], request);
    }
  }

  // ----- selection from an accepted set -----

  /** A filter keeps the order of the rows. */
  lemma {:induction false} BoundPair(rates: seq<Rate>, binding: Binding, i: nat, j: nat) returns (p: nat, q: nat)
    requires i < j < |ForBinding(rates, binding)|
    ensures p < q < |rates| && rates[p].binding == rates[q].binding == binding
    ensures rates[p] == ForBinding(rates, binding)[i] && rates[q] == ForBinding(rates, binding)[j]
  {
    var init, last := rates[..|rates| - 1], rates[|rates| - 1];
    if j < |ForBinding(init, binding)| {
      p, q := BoundPair(init, binding, i, j);
    } else {
      FilterMember(init, (rate: Rate) => rate.binding == binding, ForBinding(init, binding)[i]);
      p :| 0 <= p < |init| && init[p] == ForBinding(init, binding)[i];
      q := |rates| - 1;
    }
  }

  lemma {:induction false} BoundRates(rates: seq<Rate>, binding: Binding, request: Request)
    requires RateSetOk(rates)
    ensures OneCurrency(ForBinding(rates, binding)) && |ForRequest(ForBinding(rates, binding), request)| <= 1
  {
    var bound := ForBinding(rates, binding);
    forall i, j | 0 <= i < j < |bound|
      ensures bound[i].currency == bound[j].currency && !(Matches(bound[i], request) && Matches(bound[j], request))
    {
      var p, q := BoundPair(rates, binding, i, j);
      AcceptedSetIsUnambiguous(rates, p, q, request);
    }
    FilterAtMostOne(bound, (rate: Rate) => Matches(rate, request));
  }

  ghost predicate Served(rates: seq<Rate>, binding: Binding, request: Request) {
    exists rate :: rate in rates && rate.binding == binding && Matches(rate, request)
  }

  lemma {:induction false} MatchesServe(rates: seq<Rate>, binding: Binding, request: Request)
    ensures var matches := ForRequest(ForBinding(rates, binding), request);
      && (matches != [] <==> Served(rates, binding, request))
      && forall rate :: rate in matches ==> rate in rates && rate.binding == binding && Matches(rate, request)
  {
    var bound := ForBinding(rates, binding);
    var matches := ForRequest(bound, request);
    forall rate ensures rate in matches <==> rate in rates && rate.binding == binding && Matches(rate, request) {
      FilterMember(bound, (r: Rate) => Matches(r, request), rate);
      FilterMember(rates, (r: Rate) => r.binding == binding, rate);
    }
    if matches != [] { assert matches[0] in matches; }
  }

  predicate Chosen(rates: seq<Rate>, binding: Binding, request: Request, rate: Rate) {
    rate in rates && rate.binding == binding && Matches(rate, request)
  }

  lemma {:induction false} ChooseFromAccepted(rates: seq<Rate>, binding: Binding, requests: seq<Request>)
    requires RateSetOk(rates)
    ensures match Choose(ForBinding(rates, binding), requests)
            case Ok(chosen) =>
              |chosen| == |requests| && forall k :: 0 <= k < |requests| ==> Chosen(rates, binding, requests[k], chosen[k])
            case Err(e) => e == Unavailable && exists k :: 0 <= k < |requests| && !Served(rates, binding, requests[k])
  {
    if requests != [] {
      var first, rest := requests[0], requests[1..];
      var bound := ForBinding(rates, binding);
      var matches := ForRequest(bound, first);
      BoundRates(rates, binding, first);
      MatchesServe(rates, binding, first);
      if matches != [] {
        assert matches[0] in matches;
        ChooseFromAccepted(rates, binding, rest);
        assert forall k :: 0 <= k < |rest| ==> rest[k] == requests[k + 1];
      }
    }
  }

  lemma {:induction false} SameBindingSameCurrency(rates: seq<Rate>, a: Rate, b: Rate)
    requires RateSetOk(rates) && a in rates && b in rates && a.binding == b.binding
    ensures a.currency == b.currency
  {
    var i :| 0 <= i < |rates| && rates[i] == a;
    var j :| 0 <= j < |rates| && rates[j] == b;
    if i < j { assert Compatible(rates[i], rates[j]); }
    if j < i { assert Compatible(rates[j], rates[i]); }
  }

  /** From an accepted set, selection serves every request with its one matching rate, or says
      that a request has none. It is never ambiguous, and corrupt only for an empty list. */
  lemma {:induction false} SelectionIsExact(rates: seq<Rate>, binding: Binding, requests: seq<Request>)
    requires RateSetOk(rates)
    ensures match SelectRates(rates, binding, requests)
            case Ok(chosen) =>
              && requests != [] && |chosen| == |requests|
              && (forall k :: 0 <= k < |requests| ==> Chosen(rates, binding, requests[k], chosen[k]))
            case Err(e) =>
              || (e == Unavailable && exists k :: 0 <= k < |requests| && !Served(rates, binding, requests[k]))
              || (e == Corrupt && requests == [])
    ensures SelectRates(rates, binding, requests).Ok? <==>
            requests != [] && forall k :: 0 <= k < |requests| ==> Served(rates, binding, requests[k])
  {
    BoundRates(rates, binding, Request([], [], Unmeasured));
    ChooseFromAccepted(rates, binding, requests);
    match Choose(ForBinding(rates, binding), requests)
    case Err(_) =>
    case Ok(chosen) =>
      forall i, j | 0 <= i < j < |chosen| ensures chosen[i].currency == chosen[j].currency {
        SameBindingSameCurrency(rates, chosen[i], chosen[j]);
      }
  }

  // ----- selection from any set -----

  /** The rate at this position could serve the request. */
  predicate Candidate(rates: seq<Rate>, binding: Binding, request: Request, i: int) {
    0 <= i < |rates| && rates[i].binding == binding && Matches(rates[i], request)
  }

  predicate Unserved(rates: seq<Rate>, binding: Binding, request: Request) {
    forall i :: 0 <= i < |rates| ==> !Candidate(rates, binding, request, i)
  }

  predicate Contested(rates: seq<Rate>, binding: Binding, request: Request) {
    exists i, j :: 0 <= i < j < |rates| && Candidate(rates, binding, request, i) && Candidate(rates, binding, request, j)
  }

  predicate MixesCurrencies(rates: seq<Rate>, binding: Binding) {
    exists i, j :: 0 <= i < |rates| && 0 <= j < |rates| && rates[i].binding == binding == rates[j].binding
                && rates[i].currency != rates[j].currency
  }

  lemma {:induction false} FilterTwice(rates: seq<Rate>, binding: Binding, request: Request)
    ensures ForRequest(ForBinding(rates, binding), request)
            == Filter(rates, (rate: Rate) => rate.binding == binding && Matches(rate, request))
  {
    if rates != [] {
      var init, last := rates[..|rates| - 1], rates[|rates| - 1];
      FilterTwice(init, binding, request);
      if last.binding == binding {
        FilterConcat(ForBinding(init, binding), [last], (rate: Rate) => Matches(rate, request));
        assert ForRequest([last], request) == if Matches(last, request) then [last] else [];
      } else {
        assert ForBinding(rates, binding) == ForBinding(init, binding);
      }
    }
  }

  /** How many rates of the binding match a request. */
  lemma {:induction false} CountCandidates(rates: seq<Rate>, binding: Binding, request: Request)
    ensures var matches := ForRequest(ForBinding(rates, binding), request);
            (|matches| == 0 <==> Unserved(rates, binding, request))
            && (|matches| > 1 <==> Contested(rates, binding, request))
  {
    var p := (rate: Rate) => rate.binding == binding && Matches(rate, request);
    FilterTwice(rates, binding, request);
    FilterTwo(rates, p);
    assert forall i :: 0 <= i < |rates| ==> p(rates[i]) == Candidate(rates, binding, request, i);
    var matches := Filter(rates, p);
    if matches == [] {
      forall i | 0 <= i < |rates| ensures !Candidate(rates, binding, request, i) {
        FilterMember(rates, p, rates[i]);
      }
    } else {
      FilterMember(rates, p, matches[0]);
      var i :| 0 <= i < |rates| && rates[i] == matches[0];
      assert Candidate(rates, binding, request, i);
    }
  }

  lemma {:induction false} BoundCurrencies(rates: seq<Rate>, binding: Binding)
    ensures OneCurrency(ForBinding(rates, binding)) <==> !MixesCurrencies(rates, binding)
  {
    var bound, p := ForBinding(rates, binding), (rate: Rate) => rate.binding == binding;
    forall i | 0 <= i < |rates| && rates[i].binding == binding ensures rates[i] in bound { FilterMember(rates, p, rates[i]); }
    forall k | 0 <= k < |bound| ensures bound[k].binding == binding && bound[k] in rates { FilterMember(rates, p, bound[k]); }
    if !MixesCurrencies(rates, binding) {
      forall k, m | 0 <= k < m < |bound| ensures bound[k].currency == bound[m].currency {
        var i :| 0 <= i < |rates| && rates[i] == bound[k];
        var j :| 0 <= j < |rates| && rates[j] == bound[m];
      }
    } else {
      var i, j :| 0 <= i < |rates| && 0 <= j < |rates| && rates[i].binding == binding == rates[j].binding
                  && rates[i].currency != rates[j].currency;
      var k :| 0 <= k < |bound| && bound[k] == rates[i];
      var m :| 0 <= m < |bound| && bound[m] == rates[j];
      assert !OneCurrency(bound) by { if k < m { assert bound[k].currency != bound[m].currency; } }
    }
  }

  /** The requests are served in turn: each before k has one candidate. */
  predicate ServedUpTo(rates: seq<Rate>, binding: Binding, requests: seq<Request>, k: nat)
    requires k <= |requests|
  {
    forall m :: 0 <= m < k ==> !Unserved(rates, binding, requests[m]) && !Contested(rates, binding, requests[m])
  }

  lemma {:induction false} ChooseExactly(rates: seq<Rate>, binding: Binding, requests: seq<Request>) returns (k: nat)
    ensures k <= |requests| && ServedUpTo(rates, binding, requests, k)
    ensures var answer := Choose(ForBinding(rates, binding), requests);
            if k == |requests| then
              answer.Ok? && |answer.value| == |requests|
              && forall m :: 0 <= m < k ==> Chosen(rates, binding, requests[m], answer.value[m])
            else if Unserved(rates, binding, requests[k]) then answer == Err(Unavailable)
            else Contested(rates, binding, requests[k]) && answer == Err(Ambiguous)
  {
    if requests == [] {
      k := 0;
    } else {
      var first, rest := requests[0], requests[1..];
      CountCandidates(rates, binding, first);
      MatchesServe(rates, binding, first);
      if Unserved(rates, binding, first) || Contested(rates, binding, first) {
        k := 0;
      } else {
        var n := ChooseExactly(rates, binding, rest);
        k := n + 1;
        assert forall m :: 0 <= m < |rest| ==> rest[m] == requests[m + 1];
        forall m | 0 <= m < k ensures !Unserved(rates, binding, requests[m]) && !Contested(rates, binding, requests[m]) {
          if m > 0 { assert requests[m] == rest[m - 1]; }
        }
      }
    }
  }

  /** Selection from any set of rates: corrupt exactly if the binding's rates mix currencies or there
      is no request; else the first request without a single candidate decides, unavailable
      without any and ambiguous with two; else each request gets its candidate. */
  lemma {:induction false} SelectionFromAny(rates: seq<Rate>, binding: Binding, requests: seq<Request>) returns (k: nat)
    ensures k <= |requests| && ServedUpTo(rates, binding, requests, k)
    ensures var answer := SelectRates(rates, binding, requests);
            if MixesCurrencies(rates, binding) || requests == [] then answer == Err(Corrupt)
            else if k == |requests| then
              answer.Ok? && |answer.value| == |requests|
              && forall m :: 0 <= m < k ==> Chosen(rates, binding, requests[m], answer.value[m])
            else if Unserved(rates, binding, requests[k]) then answer == Err(Unavailable)
            else Contested(rates, binding, requests[k]) && answer == Err(Ambiguous)
  {
    BoundCurrencies(rates, binding);
    k := ChooseExactly(rates, binding, requests);
    if !MixesCurrencies(rates, binding) && k == |requests| {
      var chosen := Choose(ForBinding(rates, binding), requests).value;
      forall i, j | 0 <= i < j < |chosen| ensures chosen[i].currency == chosen[j].currency {
        assert Chosen(rates, binding, requests[i], chosen[i]) && Chosen(rates, binding, requests[j], chosen[j]);
        var p :| 0 <= p < |rates| && rates[p] == chosen[i];
        var q :| 0 <= q < |rates| && rates[q] == chosen[j];
      }
    }
  }
}
