/** Pricing one metered attempt: a profile of buckets, the usage and the rate of each bucket,
    and exact arithmetic from quantities to whole credit micros. */
module MeteringPricing {
  import opened Outcomes
  import opened Sorting
  import opened Rationals

  const INT64_MAX: int := 9_223_372_036_854_775_807
  const MAX_BUCKETS := 64

  datatype Bucket = Bucket(key: string, unit: string, includedIn: Option<string>)

  /** An unknown quantity is None, and is not zero. */
  datatype Usage = Usage(bucket: string, unit: string, quantity: Option<int>)

  datatype Rate = Rate(bucket: string, unit: string, currencyCode: string, minorPerUnit: Rational)

  datatype PricingInput = PricingInput(
    version: string, buckets: seq<Bucket>, usage: seq<Usage>, rates: seq<Rate>,
    multiplier: Rational, currencyCode: string, creditMicrosPerMinor: Rational)

  datatype NetUsage = NetUsage(bucket: string, unit: string, quantity: int)

  datatype PricingResult = PricingResult(
    profileVersion: string, currencyCode: string, normalizedUsage: seq<NetUsage>,
    procurementCostMinor: Rational, salesCostMinor: Rational, unroundedCreditMicros: Rational,
    creditMicros: int, roundingVersion: string)

  datatype PricingError = TypeError | RangeError

  // ----- checks of single values -----

  predicate IsLetter(c: char) { 'A' <= c <= 'Z' || 'a' <= c <= 'z' }

  predicate IsIdentifier(text: string) {
    && 1 <= |text| <= 128 && IsLetter(text[0])
    && forall i :: 0 <= i < |text| ==>
         IsLetter(text[i]) || '0' <= text[i] <= '9' || text[i] == '_' || text[i] == '.' || text[i] == '-'
  }

  predicate IsCurrency(text: string) {
    |text| == 3 && forall i :: 0 <= i < |text| ==> 'A' <= text[i] <= 'Z'
  }

  predicate IsCollection(size: int) {
    1 <= size <= MAX_BUCKETS
  }

  predicate IsQuantity(q: int) {
    0 <= q <= INT64_MAX
  }

  function CheckHeader(input: PricingInput): Option<PricingError> {
    if !IsIdentifier(input.version) then Some(TypeError)
    else if !IsCollection(|input.buckets|) || !IsCollection(|input.usage|) || !IsCollection(|input.rates|)
    then Some(RangeError)
    else if !IsCurrency(input.currencyCode) then Some(TypeError)
    else if !Valid(input.multiplier) || input.multiplier.numerator == 0 then Some(RangeError)
    else if !Valid(input.creditMicrosPerMinor) || input.creditMicrosPerMinor.numerator == 0 then Some(RangeError)
    else None
  }

  // ----- rows collected under their key -----

  /** Check each row, refuse a repeated key, and keep one value under each key. */
  function Collect<T, V>(rows: seq<T>, check: T -> Option<PricingError>, key: T -> string, value: T -> V,
                         acc: map<string, V>): Result<map<string, V>, PricingError>
    decreases |rows|
  {
    if rows == [] then Ok(acc)
    else if check(rows[0]).Some? then Err(check(rows[0]).value)
    else if key(rows[0]) in acc then Err(TypeError)
    else Collect(rows[1..], check, key, value, acc[key(rows[0]) := value(rows[0])])
  }

  function BucketKey(): Bucket -> string { (b: Bucket) => b.key }
  function BucketItself(): Bucket -> Bucket { (b: Bucket) => b }

  function CheckBucket(): Bucket -> Option<PricingError> {
    (b: Bucket) =>
      if IsIdentifier(b.key) && IsIdentifier(b.unit) && (b.includedIn.Some? ==> IsIdentifier(b.includedIn.value))
      then None else Some(TypeError)
  }

  function UsageKey(): Usage -> string { (u: Usage) => u.bucket }
  function UsageValue(): Usage -> int { (u: Usage) => if u.quantity.Some? then u.quantity.value else 0 }

  function CheckUsage(buckets: map<string, Bucket>): Usage -> Option<PricingError> {
    (u: Usage) =>
      if !IsIdentifier(u.bucket) || !IsIdentifier(u.unit) || u.quantity.None? then Some(TypeError)
      else if !IsQuantity(u.quantity.value) then Some(RangeError)
      else if u.bucket !in buckets || buckets[u.bucket].unit != u.unit then Some(TypeError)
      else None
  }

  function LowestForm(r: Rational): Option<Rational> {
    if 0 <= r.numerator && 0 < r.denominator then Fraction(r.numerator, r.denominator) else None
  }

  function RateKey(): Rate -> string { (r: Rate) => r.bucket }
  function RateValue(): Rate -> Rational {
    (r: Rate) => if LowestForm(r.minorPerUnit).Some? then LowestForm(r.minorPerUnit).value else r.minorPerUnit
  }

  function CheckRate(buckets: map<string, Bucket>, currencyCode: string): Rate -> Option<PricingError> {
    (r: Rate) =>
      if !IsIdentifier(r.bucket) || !IsIdentifier(r.unit) || !IsCurrency(r.currencyCode) then Some(TypeError)
      else if !Valid(r.minorPerUnit) then Some(RangeError)
      else if r.bucket !in buckets || buckets[r.bucket].unit != r.unit || r.currencyCode != currencyCode
      then Some(TypeError)
      else if LowestForm(r.minorPerUnit).None? then Some(RangeError)
      else None
  }

  // ----- the inclusion graph -----

  /** Follow the inclusions from a bucket; refuse a missing parent, a second visit or another unit. */
  predicate Climbs(buckets: map<string, Bucket>, unit: string, seen: set<string>, parentKey: Option<string>)
    decreases buckets.Keys - seen
  {
    match parentKey
    case None => true
    case Some(p) =>
      if p !in buckets || p in seen || buckets[p].unit != unit then false
      else
        assert p in buckets.Keys - seen && p !in buckets.Keys - (seen + {p});
        Climbs(buckets, unit, seen + {p}, buckets[p].includedIn)
  }

  predicate InclusionOk(buckets: map<string, Bucket>, b: Bucket) {
    Climbs(buckets, b.unit, {b.key}, b.includedIn)
  }

  predicate AllInclusionsOk(buckets: map<string, Bucket>, rows: seq<Bucket>) {
    forall i :: 0 <= i < |rows| ==> InclusionOk(buckets, rows[i])
  }

  function QuantityIn(quantities: map<string, int>, key: string): int {
    if key in quantities then quantities[key] else 0
  }

  /** Add each bucket's reported total to the entry of the bucket that includes it. */
  function IncludedTotals(rows: seq<Bucket>, quantities: map<string, int>): map<string, int> {
    if rows == [] then map[]
    else
      var totals, b := IncludedTotals(rows[..|rows| - 1], quantities), rows[|rows| - 1];
      if b.includedIn.None? then totals
      else totals[b.includedIn.value := QuantityIn(totals, b.includedIn.value) + QuantityIn(quantities, b.key)]
  }

  // ----- costs -----

  function NetQuantity(quantities: map<string, int>, totals: map<string, int>, key: string): int {
    QuantityIn(quantities, key) - QuantityIn(totals, key)
  }

  datatype Costing = Costing(cost: Rational, usage: seq<NetUsage>)

  const ZERO := Rational(0, 1)

  /** The two operations on bounded rationals that pricing uses; None is a RangeError. */
  datatype Arithmetic = Arithmetic(
    times: (Rational, Rational) -> Option<Rational>, plus: (Rational, Rational) -> Option<Rational>)

  function Bounded(): Arithmetic {
    Arithmetic((a: Rational, b: Rational) => if Valid(a) && Valid(b) then Multiply(a, b) else None,
               (a: Rational, b: Rational) => if Valid(a) && Valid(b) then Add(a, b) else None)
  }

  function CostOne(ops: Arithmetic, c: Costing, unit: string, key: string, quantity: int, rate: Rational)
    : Result<Costing, PricingError>
  {
    if !IsQuantity(quantity) then Err(RangeError)
    else
      match ops.times(Rational(quantity, 1), rate)
      case None => Err(RangeError)
      case Some(product) =>
        match ops.plus(c.cost, product)
        case None => Err(RangeError)
        case Some(cost) => Ok(Costing(cost, c.usage + [NetUsage(key, unit, quantity)]))
  }

  /** Cost the buckets in key order, each intermediate sum within bounds. */
  function CostAll(ops: Arithmetic, keys: seq<string>, buckets: map<string, Bucket>, quantities: map<string, int>,
                   totals: map<string, int>, rates: map<string, Rational>): Result<Costing, PricingError>
  {
    if keys == [] then Ok(Costing(ZERO, []))
    else
      var key := keys[|keys| - 1];
      match CostAll(ops, keys[..|keys| - 1], buckets, quantities, totals, rates)
      case Err(e) => Err(e)
      case Ok(c) =>
        if key !in buckets || key !in quantities || key !in rates then Err(TypeError)
        else CostOne(ops, c, buckets[key].unit, key, NetQuantity(quantities, totals, key), rates[key])
  }

  function KeysOf(rows: seq<Bucket>): seq<string> {
    seq(|rows|, i requires 0 <= i < |rows| => rows[i].key)
  }

  /** The code units of a text; keys are ASCII here. */
  function CodesOf(text: string): (r: seq<int>)
    ensures |r| == |text|
  {
    seq(|text|, i requires 0 <= i < |text| => text[i] as int)
  }

  function KeyOrder(rows: seq<Bucket>): seq<string> {
    Sort(KeysOf(rows), ByText(CodesOf))
  }

  function Finish(ops: Arithmetic, input: PricingInput, c: Costing): Result<PricingResult, PricingError> {
    match ops.times(c.cost, input.multiplier)
    case None => Err(RangeError)
    case Some(sales) =>
      match ops.times(sales, input.creditMicrosPerMinor)
      case None => Err(RangeError)
      case Some(unrounded) =>
        if unrounded.denominator <= 0 || !IsQuantity(Ceiling(unrounded)) then Err(RangeError)
        else Ok(PricingResult(input.version, input.currencyCode, c.usage, c.cost, sales, unrounded,
                              Ceiling(unrounded), "attempt-ceil-v1"))
  }

  /** What one call computes, or the class of the error it throws. */
  function Price(input: PricingInput): Result<PricingResult, PricingError> {
    if CheckHeader(input).Some? then Err(CheckHeader(input).value)
    else
      match Collect(input.buckets, CheckBucket(), BucketKey(), BucketItself(), map[])
      case Err(e) => Err(e)
      case Ok(buckets) =>
        if !AllInclusionsOk(buckets, input.buckets) then Err(TypeError)
        else
          match Collect(input.usage, CheckUsage(buckets), UsageKey(), UsageValue(), map[])
          case Err(e) => Err(e)
          case Ok(quantities) =>
            match Collect(input.rates, CheckRate(buckets, input.currencyCode), RateKey(), RateValue(), map[])
            case Err(e) => Err(e)
            case Ok(rates) => PriceCollected(input, buckets, quantities, rates)
  }

  function PriceCollected(input: PricingInput, buckets: map<string, Bucket>, quantities: map<string, int>,
                          rates: map<string, Rational>): Result<PricingResult, PricingError>
  {
    if |quantities| != |buckets| || |rates| != |buckets| then Err(TypeError)
    else if exists i :: 0 <= i < |input.buckets| && input.buckets[i].key !in quantities then Err(TypeError)
    else
      var totals := IncludedTotals(input.buckets, quantities);
      match CostAll(Bounded(), KeyOrder(input.buckets), buckets, quantities, totals, rates)
      case Err(e) => Err(e)
      case Ok(c) => Finish(Bounded(), input, c)
  }

  // ----- the loops -----

  /** The validating loops over buckets, usage rows and rates. */
  method CollectRows<T, V>(rows: seq<T>, check: T -> Option<PricingError>, key: T -> string, value: T -> V)
    returns (answer: Result<map<string, V>, PricingError>)
    ensures answer == Collect(rows, check, key, value, map[])
  {
    var collected: map<string, V>, k := map[], 0;
    while k < |rows|
      invariant 0 <= k <= |rows|
      invariant Collect(rows[k..], check, key, value, collected) == Collect(rows, check, key, value, map[])
    {
      assert rows[k..][0] == rows[k] && rows[k..][1..] == rows[k + 1..];
      var failure := check(rows[k]);
      if failure.Some? { return Err(failure.value); }
      if key(rows[k]) in collected { return Err(TypeError); }
      collected := collected[key(rows[k]) := value(rows[k])];
      k := k + 1;
    }
    answer := Ok(collected);
  }

  /** The walk up from every bucket, with the set of keys seen on the way. */
  method CheckInclusions(buckets: map<string, Bucket>, rows: seq<Bucket>) returns (ok: bool)
    ensures ok == AllInclusionsOk(buckets, rows)
  {
    var k := 0;
    while k < |rows|
      invariant 0 <= k <= |rows| && forall i :: 0 <= i < k ==> InclusionOk(buckets, rows[i])
    {
      var b := rows[k];
      var seen, parentKey := {b.key}, b.includedIn;
      while parentKey.Some?
        invariant Climbs(buckets, b.unit, seen, parentKey) == InclusionOk(buckets, b)
        decreases buckets.Keys - seen
      {
        var p := parentKey.value;
        if p !in buckets || p in seen || buckets[p].unit != b.unit { return false; }
        assert p in buckets.Keys - seen && p !in buckets.Keys - (seen + {p});
        seen, parentKey := seen + {p}, buckets[p].includedIn;
      }
      k := k + 1;
    }
    ok := true;
  }

  method SumIncluded(rows: seq<Bucket>, quantities: map<string, int>) returns (totals: map<string, int>)
    ensures totals == IncludedTotals(rows, quantities)
  {
    totals := map[];
    for k := 0 to |rows|
      invariant totals == IncludedTotals(rows[..k], quantities)
    {
      assert rows[..k + 1][..k] == rows[..k];
      var b := rows[k];
      if b.includedIn.Some? {
        totals := totals[b.includedIn.value := QuantityIn(totals, b.includedIn.value) + QuantityIn(quantities, b.key)];
      }
    }
    assert rows[..|rows|] == rows;
  }

  lemma {:induction false} CostFails(ops: Arithmetic, keys: seq<string>, k: nat, buckets: map<string, Bucket>,
                                     quantities: map<string, int>, totals: map<string, int>,
                                     rates: map<string, Rational>)
    requires k <= |keys| && CostAll(ops, keys[..k], buckets, quantities, totals, rates).Err?
    ensures CostAll(ops, keys, buckets, quantities, totals, rates) == CostAll(ops, keys[..k], buckets, quantities, totals, rates)
    decreases |keys|
  {
    if k == |keys| {
      assert keys[..k] == keys;
    } else {
      assert keys[..|keys| - 1][..k] == keys[..k];
      CostFails(ops, keys[..|keys| - 1], k, buckets, quantities, totals, rates);
    }
  }

  method CostBuckets(ops: Arithmetic, keys: seq<string>, buckets: map<string, Bucket>, quantities: map<string, int>,
                     totals: map<string, int>, rates: map<string, Rational>)
    returns (answer: Result<Costing, PricingError>)
    ensures answer == CostAll(ops, keys, buckets, quantities, totals, rates)
  {
    var c, k := Costing(ZERO, []), 0;
    while k < |keys|
      invariant 0 <= k <= |keys| && CostAll(ops, keys[..k], buckets, quantities, totals, rates) == Ok(c)
    {
      assert keys[..k + 1][..k] == keys[..k];
      var key := keys[k];
      var step := if key !in buckets || key !in quantities || key !in rates then Err(TypeError)
                  else CostOne(ops, c, buckets[key].unit, key, NetQuantity(quantities, totals, key), rates[key]);
      if step.Err? {
        CostFails(ops, keys, k + 1, buckets, quantities, totals, rates);
        return step;
      }
      c := step.value;
      k := k + 1;
    }
    assert keys[..k] == keys;
    answer := Ok(c);
  }

  method PriceMeteredAttempt(input: PricingInput) returns (answer: Result<PricingResult, PricingError>)
    ensures answer == Price(input)
  {
    var header := CheckHeader(input);
    if header.Some? { return Err(header.value); }
    var buckets := CollectRows(input.buckets, CheckBucket(), BucketKey(), BucketItself());
    if buckets.Err? { return Err(buckets.error); }
    var inclusions := CheckInclusions(buckets.value, input.buckets);
    if !inclusions { return Err(TypeError); }
    var quantities := CollectRows(input.usage, CheckUsage(buckets.value), UsageKey(), UsageValue());
    if quantities.Err? { return Err(quantities.error); }
    var rates := CollectRows(input.rates, CheckRate(buckets.value, input.currencyCode), RateKey(), RateValue());
    if rates.Err? { return Err(rates.error); }
    if |quantities.value| != |buckets.value| || |rates.value| != |buckets.value| { return Err(TypeError); }
    if exists i :: 0 <= i < |input.buckets| && input.buckets[i].key !in quantities.value { return Err(TypeError); }
    var totals := SumIncluded(input.buckets, quantities.value);
    var costing := CostBuckets(Bounded(), KeyOrder(input.buckets), buckets.value, quantities.value, totals, rates.value);
    if costing.Err? { return Err(costing.error); }
    answer := Finish(Bounded(), input, costing.value);
  }
}
