/** What pricing an attempt means, in exact real arithmetic: when it succeeds, what it returns,
    and that the order of the rows does not matter. */
module PricingProof {
  import opened Outcomes
  import opened Sums
  import opened Sorting
  import opened Rationals
  import opened MeteringPricing
  import opened PricingForest

  // ----- rows collected under their key -----

  ghost predicate KeysDistinct<T>(rows: seq<T>, key: T -> string) {
    forall i, j :: 0 <= i < j < |rows| ==> key(rows[i]) != key(rows[j])
  }

  ghost predicate AllPass<T>(rows: seq<T>, check: T -> Option<PricingError>) {
    forall i :: 0 <= i < |rows| ==> check(rows[i]).None?
  }

  ghost predicate NoneIn<T, V>(rows: seq<T>, key: T -> string, acc: map<string, V>) {
    forall i :: 0 <= i < |rows| ==> key(rows[i]) !in acc
  }

  function Lookup<T>(rows: seq<T>, key: T -> string, k: string): (r: Option<T>)
    ensures r.None? <==> forall i :: 0 <= i < |rows| ==> key(rows[i]) != k
    ensures r.Some? ==> r.value in rows && key(r.value) == k
  {
    if rows == [] then None else if key(rows[0]) == k then Some(rows[0]) else Lookup(rows[1..], key, k)
  }

  /** The map holds what it held before and each row under its key. */
  ghost predicate CollectedInto<T, V>(m: map<string, V>, rows: seq<T>, key: T -> string, value: T -> V,
                                      acc: map<string, V>) {
    && |m| == |acc| + |rows|
    && forall k :: if Lookup(rows, key, k).Some? then k in m && m[k] == value(Lookup(rows, key, k).value)
                   else (k in m <==> k in acc) && (k in m ==> m[k] == acc[k])
  }

  lemma {:induction false} CollectExactly<T, V>(rows: seq<T>, check: T -> Option<PricingError>, key: T -> string,
                                                value: T -> V, acc: map<string, V>)
    ensures var r := Collect(rows, check, key, value, acc);
            && (r.Ok? <==> AllPass(rows, check) && KeysDistinct(rows, key) && NoneIn(rows, key, acc))
            && (r.Ok? ==> CollectedInto(r.value, rows, key, value, acc))
    decreases |rows|
  {
    if rows != [] {
      var row, rest := rows[0], rows[1..];
      assert forall i :: 0 <= i < |rest| ==> rest[i] == rows[i + 1];
      if check(row).None? && key(row) !in acc {
        var acc1 := acc[key(row) := value(row)];
        CollectExactly(rest, check, key, value, acc1);
        if AllPass(rows, check) && KeysDistinct(rows, key) && NoneIn(rows, key, acc) {
          assert AllPass(rest, check) && KeysDistinct(rest, key) && NoneIn(rest, key, acc1);
        }
        if Collect(rest, check, key, value, acc1).Ok? {
          assert forall i :: 0 < i < |rows| ==> rows[i] == rest[i - 1];
          assert AllPass(rows, check) && NoneIn(rows, key, acc);
          assert KeysDistinct(rows, key);
        }
      }
    }
  }

  lemma {:induction false} LookupRow<T>(rows: seq<T>, key: T -> string, i: nat)
    requires i < |rows| && KeysDistinct(rows, key)
    ensures Lookup(rows, key, key(rows[i])) == Some(rows[i])
  {
    if i > 0 {
      assert forall j :: 0 <= j < |rows[1..]| ==> rows[1..][j] == rows[j + 1];
      LookupRow(rows[1..], key, i - 1);
    }
  }

  // ----- what an attempt means -----

  function QuantityOf(input: PricingInput, k: string): int {
    match Lookup(input.usage, UsageKey(), k)
    case Some(u) => UsageValue()(u)
    case None => 0
  }

  function RateOf(input: PricingInput, k: string): real {
    match Lookup(input.rates, RateKey(), k)
    case Some(r) => if 0 < r.minorPerUnit.denominator then Value(r.minorPerUnit) else 0.0
    case None => 0.0
  }

  function UnitOf(input: PricingInput, k: string): string {
    match Lookup(input.buckets, BucketKey(), k)
    case Some(b) => b.unit
    case None => ""
  }

  /** What row b reports into bucket k. */
  function Inclusion(input: PricingInput, k: string): Bucket -> int {
    (b: Bucket) => if b.includedIn == Some(k) then QuantityOf(input, b.key) else 0
  }

  /** What a bucket reports, less what the buckets included in it report. */
  function NetOf(input: PricingInput, k: string): int {
    QuantityOf(input, k) - SumSeq(input.buckets, Inclusion(input, k))
  }

  /** The exact procurement cost of a list of buckets. */
  function CostOf(input: PricingInput, keys: seq<string>): real {
    if keys == [] then 0.0
    else
      var key := keys[|keys| - 1];
      CostOf(input, keys[..|keys| - 1]) + TermOf(input, key)
  }

  /** The exact cost of one bucket. */
  function TermOf(input: PricingInput, key: string): real {
    NetOf(input, key) as real * RateOf(input, key)
  }

  ghost predicate ProfileOk(input: PricingInput) {
    && AllPass(input.buckets, CheckBucket())
    && exists m :: IsProfile(m, input.buckets) && Forest(m)
  }

  /** The bucket that a usage or rate row names, with its unit. */
  ghost predicate Names(input: PricingInput, bucket: string, unit: string) {
    Lookup(input.buckets, BucketKey(), bucket).Some? && UnitOf(input, bucket) == unit
  }

  ghost predicate UsageRowOk(input: PricingInput, u: Usage) {
    && IsIdentifier(u.bucket) && IsIdentifier(u.unit) && u.quantity.Some? && IsQuantity(u.quantity.value)
    && Names(input, u.bucket, u.unit)
  }

  ghost predicate RateRowOk(input: PricingInput, r: Rate) {
    && IsIdentifier(r.bucket) && IsIdentifier(r.unit) && r.currencyCode == input.currencyCode
    && Valid(r.minorPerUnit) && Names(input, r.bucket, r.unit)
  }

  ghost predicate Covers<T>(input: PricingInput, rows: seq<T>, key: T -> string) {
    forall i :: 0 <= i < |input.buckets| ==> Lookup(rows, key, input.buckets[i].key).Some?
  }

  ghost predicate UsageRowsOk(input: PricingInput) {
    forall i :: 0 <= i < |input.usage| ==> UsageRowOk(input, input.usage[i])
  }

  ghost predicate RateRowsOk(input: PricingInput) {
    forall i :: 0 <= i < |input.rates| ==> RateRowOk(input, input.rates[i])
  }

  ghost predicate RowsOk(input: PricingInput) {
    && UsageRowsOk(input) && KeysDistinct(input.usage, UsageKey())
    && RateRowsOk(input) && KeysDistinct(input.rates, RateKey())
  }

  ghost predicate AllCovered(input: PricingInput) {
    Covers(input, input.usage, UsageKey()) && Covers(input, input.rates, RateKey())
  }

  /** The bucket at position k in key order, and the sum up to it, stay within the bounds. */
  ghost predicate StageOk(fits: real -> bool, input: PricingInput, keys: seq<string>, k: nat)
    requires k < |keys|
  {
    IsQuantity(NetOf(input, keys[k])) && fits(TermOf(input, keys[k])) && fits(CostOf(input, keys[..k + 1]))
  }

  function ExactCost(input: PricingInput): real {
    CostOf(input, KeyOrder(input.buckets))
  }

  function Times(x: real, y: real): real { x * y }

  function ExactSales(input: PricingInput): real
    requires CheckHeader(input).None?
  {
    Times(ExactCost(input), Value(input.multiplier))
  }

  function ExactCredit(input: PricingInput): real
    requires CheckHeader(input).None?
  {
    Times(ExactSales(input), Value(input.creditMicrosPerMinor))
  }

  ghost predicate StagesOk(fits: real -> bool, input: PricingInput, keys: seq<string>) {
    forall k: nat :: k < |keys| ==> StageOk(fits, input, keys, k)
  }

  /** What bounded rationals can represent. */
  ghost function Fitting(): real -> bool {
    (x: real) => Representable(x)
  }

  ghost predicate AllFits(input: PricingInput)
    requires CheckHeader(input).None?
  {
    && StagesOk(Fitting(), input, KeyOrder(input.buckets))
    && Representable(ExactSales(input)) && Representable(ExactCredit(input))
    && ExactCredit(input) <= INT64_MAX as real
  }

  /** An attempt has a price. */
  ghost predicate Priceable(input: PricingInput) {
    CheckHeader(input).None? && ProfileOk(input) && RowsOk(input) && AllCovered(input) && AllFits(input)
  }

  function NetUsages(input: PricingInput, keys: seq<string>): seq<NetUsage> {
    if keys == [] then []
    else
      var key := keys[|keys| - 1];
      NetUsages(input, keys[..|keys| - 1]) + [NetUsage(key, UnitOf(input, key), NetOf(input, key))]
  }

  /** The result is fixed by the input's meaning: the three stages in lowest terms, and the
      credit rounded up by less than one micro. */
  ghost predicate IsPriceOf(input: PricingInput, r: PricingResult)
    requires CheckHeader(input).None?
  {
    && r.profileVersion == input.version && r.currencyCode == input.currencyCode
    && r.roundingVersion == "attempt-ceil-v1"
    && r.normalizedUsage == NetUsages(input, KeyOrder(input.buckets))
    && Reduced(r.procurementCostMinor) && Value(r.procurementCostMinor) == ExactCost(input)
    && Reduced(r.salesCostMinor) && Value(r.salesCostMinor) == ExactSales(input)
    && Reduced(r.unroundedCreditMicros) && Value(r.unroundedCreditMicros) == ExactCredit(input)
    && (r.creditMicros - 1) as real < ExactCredit(input) <= r.creditMicros as real
  }

  // ----- the collected maps carry the meaning -----

  /** What the three maps hold once the validating loops have run. */
  ghost predicate Collected(input: PricingInput, buckets: map<string, Bucket>, quantities: map<string, int>,
                            rates: map<string, Rational>) {
    && CollectedInto(buckets, input.buckets, BucketKey(), BucketItself(), map[])
    && CollectedInto(quantities, input.usage, UsageKey(), UsageValue(), map[])
    && CollectedInto(rates, input.rates, RateKey(), RateValue(), map[])
    && RateRowsOk(input)
  }

  lemma {:induction false} ProfileIsIndexed(input: PricingInput, buckets: map<string, Bucket>)
    requires CollectedInto(buckets, input.buckets, BucketKey(), BucketItself(), map[])
    requires KeysDistinct(input.buckets, BucketKey())
    ensures IsProfile(buckets, input.buckets)
  {
    forall i | 0 <= i < |input.buckets|
      ensures input.buckets[i].key in buckets && buckets[input.buckets[i].key] == input.buckets[i]
    {
      LookupRow(input.buckets, BucketKey(), i);
      assert BucketKey()(input.buckets[i]) == input.buckets[i].key;
    }
    forall i, j | 0 <= i < j < |input.buckets| ensures input.buckets[i].key != input.buckets[j].key {
      assert BucketKey()(input.buckets[i]) != BucketKey()(input.buckets[j]);
    }
    forall k | k in buckets ensures exists i :: 0 <= i < |input.buckets| && input.buckets[i].key == k {
      assert Lookup(input.buckets, BucketKey(), k).Some?;
    }
  }

  /** A profile is determined by its rows. */
  lemma {:induction false} ProfileUnique(a: map<string, Bucket>, b: map<string, Bucket>, rows: seq<Bucket>)
    requires IsProfile(a, rows) && IsProfile(b, rows)
    ensures a == b
  {
    assert forall k :: k in a <==> k in b;
  }

  lemma {:induction false} ReducedRate(r: Rational)
    requires Valid(r)
    ensures LowestForm(r).Some? && Valid(LowestForm(r).value) && Value(LowestForm(r).value) == Value(r)
  {
    QuotientsCoprime(r.numerator, r.denominator);
    var g := Gcd(r.numerator, r.denominator);
    QuotientBound(g, r.numerator);
    QuotientBound(g, r.denominator);
    FractionValue(r.numerator, r.denominator);
  }

  lemma {:induction false} LooksUp(input: PricingInput, buckets: map<string, Bucket>, quantities: map<string, int>,
                                   rates: map<string, Rational>, k: string)
    requires Collected(input, buckets, quantities, rates)
    ensures QuantityIn(quantities, k) == QuantityOf(input, k)
    ensures k in quantities <==> Lookup(input.usage, UsageKey(), k).Some?
    ensures k in rates <==> Lookup(input.rates, RateKey(), k).Some?
    ensures k in rates ==> Valid(rates[k]) && Value(rates[k]) == RateOf(input, k)
    ensures k in buckets <==> Lookup(input.buckets, BucketKey(), k).Some?
    ensures k in buckets ==> buckets[k].unit == UnitOf(input, k)
  {
    if k in rates {
      var row := Lookup(input.rates, RateKey(), k).value;
      var i :| 0 <= i < |input.rates| && input.rates[i] == row;
      assert RateRowOk(input, input.rates[i]);
      ReducedRate(row.minorPerUnit);
      assert RateValue()(row) == LowestForm(row.minorPerUnit).value;
    }
  }

  ghost predicate QuantitiesOf(input: PricingInput, quantities: map<string, int>) {
    forall k :: QuantityIn(quantities, k) == QuantityOf(input, k)
  }

  lemma {:induction false} NetIsNet(input: PricingInput, quantities: map<string, int>, k: string)
    requires QuantitiesOf(input, quantities)
    ensures NetQuantity(quantities, IncludedTotals(input.buckets, quantities), k) == NetOf(input, k)
  {
    TotalsAreSums(input.buckets, quantities, k);
    SumSeqIsSum(input.buckets, Inclusion(input, k), IncludedWeight(input.buckets, quantities, k));
  }

  // ----- costing in exact arithmetic -----

  /** How rationals stand for reals: which reals have a bounded form, which rational denotes
      which real, and which rationals are in lowest terms. */
  datatype Meaning = Meaning(fits: real -> bool, denotes: (Rational, real) -> bool, lowest: Rational -> bool)

  /** The outcome of an operation whose true result is z. */
  ghost predicate Yields(m: Meaning, r: Option<Rational>, z: real) {
    && (r.Some? <==> m.fits(z))
    && (r.Some? ==> m.denotes(r.value, z) && m.lowest(r.value))
  }

  /** The operations are exact, and fail exactly when the true result does not fit. */
  ghost predicate LawAt(ops: Arithmetic, m: Meaning, a: Rational, x: real, b: Rational, y: real, product: real,
                        sum: real) {
    m.denotes(a, x) && m.denotes(b, y) && product == x * y && sum == x + y ==>
      Yields(m, ops.times(a, b), product) && Yields(m, ops.plus(a, b), sum)
  }

  ghost predicate WholeAt(m: Meaning, q: int) {
    IsQuantity(q) ==> m.denotes(Rational(q, 1), q as real)
  }

  /** Rounding up a rational that denotes x. */
  ghost predicate RoundAt(m: Meaning, r: Rational, x: real) {
    m.denotes(r, x) ==> 0 < r.denominator && Rounded(Ceiling(r), x)
  }

  predicate Rounded(c: int, x: real) {
    0 <= c && (c - 1) as real < x <= c as real
  }

  ghost predicate Lawful(ops: Arithmetic, m: Meaning) {
    && (forall a, x, b, y, product, sum :: LawAt(ops, m, a, x, b, y, product, sum))
    && (forall q :: WholeAt(m, q))
    && (forall r, x :: RoundAt(m, r, x))
    && m.denotes(ZERO, 0.0) && m.lowest(ZERO)
  }

  /** One bucket is costed exactly when its net quantity, its cost and the new sum are in bounds. */
  ghost predicate CostedOne(m: Meaning, x: real, usage: seq<NetUsage>, term: real, entry: NetUsage,
                            r: Result<Costing, PricingError>) {
    && (r.Ok? <==> IsQuantity(entry.quantity) && m.fits(term) && m.fits(x + term))
    && (r.Ok? ==> m.denotes(r.value.cost, x + term) && m.lowest(r.value.cost) && r.value.usage == usage + [entry])
  }

  lemma {:induction false} CostOneExactly(ops: Arithmetic, m: Meaning, c: Costing, x: real, entry: NetUsage,
                                          rate: Rational, y: real, term: real)
    requires Lawful(ops, m) && m.denotes(c.cost, x) && m.denotes(rate, y) && term == entry.quantity as real * y
    ensures CostedOne(m, x, c.usage, term, entry,
                      CostOne(ops, c, entry.unit, entry.bucket, entry.quantity, rate))
  {
    if IsQuantity(entry.quantity) {
      var q := Rational(entry.quantity, 1);
      assert WholeAt(m, entry.quantity);
      assert LawAt(ops, m, q, entry.quantity as real, rate, y, term, entry.quantity as real + y);
      var product := ops.times(q, rate);
      if product.Some? { assert LawAt(ops, m, c.cost, x, product.value, term, x * term, x + term); }
    }
  }

  ghost predicate Known(input: PricingInput, k: string) {
    && Lookup(input.buckets, BucketKey(), k).Some? && Lookup(input.usage, UsageKey(), k).Some?
    && Lookup(input.rates, RateKey(), k).Some?
  }

  lemma {:induction false} StagesSnoc(fits: real -> bool, input: PricingInput, keys: seq<string>)
    requires keys != []
    ensures StagesOk(fits, input, keys)
       <==> StagesOk(fits, input, keys[..|keys| - 1]) && StageOk(fits, input, keys, |keys| - 1)
  {
    var n := |keys| - 1;
    forall k: nat | k < n ensures StageOk(fits, input, keys, k) <==> StageOk(fits, input, keys[..n], k) {
      assert keys[..n][..k + 1] == keys[..k + 1];
    }
  }

  /** The costing of a list of buckets, in exact arithmetic. */
  ghost predicate Costed(m: Meaning, input: PricingInput, keys: seq<string>, r: Result<Costing, PricingError>) {
    && (r.Ok? <==> StagesOk(m.fits, input, keys))
    && (r.Ok? ==> m.denotes(r.value.cost, CostOf(input, keys)) && m.lowest(r.value.cost)
                  && r.value.usage == NetUsages(input, keys))
  }

  lemma {:induction false} CostedOneMore(m: Meaning, input: PricingInput, keys: seq<string>,
                                         before: Result<Costing, PricingError>, after: Result<Costing, PricingError>)
    requires keys != [] && Costed(m, input, keys[..|keys| - 1], before)
    requires before.Err? ==> after.Err?
    requires before.Ok? ==>
               var key := keys[|keys| - 1];
               CostedOne(m, CostOf(input, keys[..|keys| - 1]), before.value.usage, TermOf(input, key),
                         NetUsage(key, UnitOf(input, key), NetOf(input, key)), after)
    ensures Costed(m, input, keys, after)
  {
    var n := |keys| - 1;
    StagesSnoc(m.fits, input, keys);
    assert keys[..n + 1] == keys;
  }

  /** The maps hold for bucket k what the rows say about it. */
  ghost predicate Serves(m: Meaning, input: PricingInput, buckets: map<string, Bucket>, quantities: map<string, int>,
                         totals: map<string, int>, rates: map<string, Rational>, k: string) {
    && k in buckets && k in quantities && k in rates
    && buckets[k].unit == UnitOf(input, k) && NetQuantity(quantities, totals, k) == NetOf(input, k)
    && m.denotes(rates[k], RateOf(input, k))
  }

  ghost predicate ServesAll(m: Meaning, input: PricingInput, buckets: map<string, Bucket>, quantities: map<string, int>,
                            totals: map<string, int>, rates: map<string, Rational>, keys: seq<string>) {
    forall i :: 0 <= i < |keys| ==> Serves(m, input, buckets, quantities, totals, rates, keys[i])
  }

  lemma {:induction false} CostAllExactly(ops: Arithmetic, m: Meaning, input: PricingInput, keys: seq<string>,
                                          buckets: map<string, Bucket>, quantities: map<string, int>,
                                          totals: map<string, int>, rates: map<string, Rational>)
    requires Lawful(ops, m) && ServesAll(m, input, buckets, quantities, totals, rates, keys)
    ensures Costed(m, input, keys, CostAll(ops, keys, buckets, quantities, totals, rates))
  {
    if keys != [] {
      var n := |keys| - 1;
      var key, front := keys[n], keys[..n];
      CostAllExactly(ops, m, input, front, buckets, quantities, totals, rates);
      var before := CostAll(ops, front, buckets, quantities, totals, rates);
      if before.Ok? {
        assert Serves(m, input, buckets, quantities, totals, rates, key);
        CostOneExactly(ops, m, before.value, CostOf(input, front), NetUsage(key, UnitOf(input, key), NetOf(input, key)),
                       rates[key], RateOf(input, key), TermOf(input, key));
      }
      CostedOneMore(m, input, keys, before, CostAll(ops, keys, buckets, quantities, totals, rates));
    }
  }

  /** The last two stages, of which `sales` and `credit` are the true values. */
  ghost predicate Finished(m: Meaning, input: PricingInput, c: Costing, sales: real, credit: real,
                           r: Result<PricingResult, PricingError>) {
    && (r.Ok? <==> m.fits(sales) && m.fits(credit) && credit <= INT64_MAX as real)
    && (r.Ok? ==>
          && r.value.profileVersion == input.version && r.value.currencyCode == input.currencyCode
          && r.value.roundingVersion == "attempt-ceil-v1"
          && r.value.normalizedUsage == c.usage && r.value.procurementCostMinor == c.cost
          && m.denotes(r.value.salesCostMinor, sales) && m.lowest(r.value.salesCostMinor)
          && m.denotes(r.value.unroundedCreditMicros, credit) && m.lowest(r.value.unroundedCreditMicros)
          && 0 <= r.value.creditMicros && (r.value.creditMicros - 1) as real < credit <= r.value.creditMicros as real)
  }

  lemma {:induction false} FinishExactly(ops: Arithmetic, m: Meaning, input: PricingInput, c: Costing, x: real,
                                         y: real, z: real, sales: real, credit: real)
    requires Lawful(ops, m) && sales == x * y && credit == sales * z
    requires m.denotes(c.cost, x) && m.denotes(input.multiplier, y) && m.denotes(input.creditMicrosPerMinor, z)
    ensures Finished(m, input, c, sales, credit, Finish(ops, input, c))
  {
    assert LawAt(ops, m, c.cost, x, input.multiplier, y, sales, x + y);
    var first := ops.times(c.cost, input.multiplier);
    assert Yields(m, first, sales);
    if first.Some? {
      assert LawAt(ops, m, first.value, sales, input.creditMicrosPerMinor, z, credit, sales + z);
      var second := ops.times(first.value, input.creditMicrosPerMinor);
      assert Yields(m, second, credit);
      if second.Some? {
        assert RoundAt(m, second.value, credit);
        RoundsBelow(Ceiling(second.value), credit, INT64_MAX);
      }
    }
  }

  /** The ceiling is at most an integer bound exactly when the value is. */
  lemma {:induction false} RoundsBelow(c: int, x: real, bound: int)
    requires Rounded(c, x)
    ensures c <= bound <==> x <= bound as real
  {
  }

  // ----- bounded rationals obey the laws -----

  ghost function Exact(): Meaning {
    Meaning(Fitting(), (r: Rational, x: real) => Valid(r) && Value(r) == x, (r: Rational) => Reduced(r))
  }

  lemma {:induction false} BoundedTimes(a: Rational, x: real, b: Rational, y: real, z: real)
    requires Valid(a) && Valid(b) && Value(a) == x && Value(b) == y && z == x * y
    ensures Yields(Exact(), Bounded().times(a, b), z)
  {
    MultiplyOutcome(a, b, z);
  }

  lemma {:induction false} BoundedPlus(a: Rational, x: real, b: Rational, y: real, z: real)
    requires Valid(a) && Valid(b) && Value(a) == x && Value(b) == y && z == x + y
    ensures Yields(Exact(), Bounded().plus(a, b), z)
  {
    AddOutcome(a, b, z);
  }

  lemma {:induction false} BoundedRound(r: Rational)
    requires Valid(r)
    ensures Rounded(Ceiling(r), Value(r))
  {
    CeilingIsLeast(r);
    QuotientBound(r.denominator, r.numerator);
  }

  lemma {:induction false} BoundedLaw(a: Rational, x: real, b: Rational, y: real, product: real, sum: real)
    ensures LawAt(Bounded(), Exact(), a, x, b, y, product, sum)
  {
    if Exact().denotes(a, x) && Exact().denotes(b, y) && product == x * y && sum == x + y {
      BoundedTimes(a, x, b, y, product);
      BoundedPlus(a, x, b, y, sum);
    }
  }

  lemma {:induction false} BoundedOperations()
    ensures forall a, x, b, y, product, sum :: LawAt(Bounded(), Exact(), a, x, b, y, product, sum)
  {
    forall a, x, b, y, product, sum ensures LawAt(Bounded(), Exact(), a, x, b, y, product, sum) {
      BoundedLaw(a, x, b, y, product, sum);
    }
  }

  lemma {:induction false} BoundedRounds()
    ensures forall r, x :: RoundAt(Exact(), r, x)
  {
    forall r, x ensures RoundAt(Exact(), r, x) { if Valid(r) { BoundedRound(r); } }
  }

  lemma {:induction false} BoundedWhole()
    ensures forall q :: WholeAt(Exact(), q)
  {
    forall q ensures WholeAt(Exact(), q) { if IsQuantity(q) { WholeValue(q); } }
  }

  lemma {:induction false} BoundedIsLawful()
    ensures Lawful(Bounded(), Exact())
  {
    BoundedOperations();
    BoundedRounds();
    BoundedWhole();
    WholeValue(0);
    assert Gcd(0, 1) == Gcd(1, 0) == 1;
  }

  lemma {:induction false} WholeValue(q: int)
    requires IsQuantity(q)
    ensures Valid(Rational(q, 1)) && Value(Rational(q, 1)) == q as real
  {
    NumericIsWide();
  }

  // ----- the validating loops -----

  lemma {:induction false} UsageRowsChecked(input: PricingInput, buckets: map<string, Bucket>)
    requires CollectedInto(buckets, input.buckets, BucketKey(), BucketItself(), map[])
    ensures AllPass(input.usage, CheckUsage(buckets)) <==> UsageRowsOk(input)
  {
    forall i | 0 <= i < |input.usage|
      ensures CheckUsage(buckets)(input.usage[i]).None? <==> UsageRowOk(input, input.usage[i])
    {
      var u := input.usage[i];
      assert u.bucket in buckets <==> Lookup(input.buckets, BucketKey(), u.bucket).Some?;
    }
  }

  lemma {:induction false} RateRowsChecked(input: PricingInput, buckets: map<string, Bucket>)
    requires CollectedInto(buckets, input.buckets, BucketKey(), BucketItself(), map[])
    requires CheckHeader(input).None?
    ensures AllPass(input.rates, CheckRate(buckets, input.currencyCode)) <==> RateRowsOk(input)
  {
    forall i | 0 <= i < |input.rates|
      ensures CheckRate(buckets, input.currencyCode)(input.rates[i]).None? <==> RateRowOk(input, input.rates[i])
    {
      var r := input.rates[i];
      assert r.bucket in buckets <==> Lookup(input.buckets, BucketKey(), r.bucket).Some?;
      if Valid(r.minorPerUnit) { ReducedRate(r.minorPerUnit); }
    }
  }

  lemma {:induction false} SubsetSize(a: set<string>, b: set<string>)
    requires a <= b
    ensures |a| == |b| <==> a == b
  {
    assert b == a + (b - a);
    assert |b| == |a| + |b - a|;
  }

  // ----- success, exactly -----

  lemma {:induction false} ProfileExactly(input: PricingInput)
    ensures var r := Collect(input.buckets, CheckBucket(), BucketKey(), BucketItself(), map[]);
            && (r.Ok? && AllInclusionsOk(r.value, input.buckets) <==> ProfileOk(input))
            && (r.Ok? ==> CollectedInto(r.value, input.buckets, BucketKey(), BucketItself(), map[])
                          && IsProfile(r.value, input.buckets))
  {
    CollectExactly(input.buckets, CheckBucket(), BucketKey(), BucketItself(), map[]);
    var r := Collect(input.buckets, CheckBucket(), BucketKey(), BucketItself(), map[]);
    if r.Ok? {
      ProfileIsIndexed(input, r.value);
      WalksAcceptForests(r.value, input.buckets);
    }
    if ProfileOk(input) {
      var m :| IsProfile(m, input.buckets) && Forest(m);
      assert KeysDistinct(input.buckets, BucketKey());
      ProfileUnique(m, r.value, input.buckets);
    }
  }

  lemma {:induction false} KeysAreKnown(input: PricingInput, k: string)
    ensures k in KeyOrder(input.buckets) <==> Lookup(input.buckets, BucketKey(), k).Some?
  {
    ByTextIsWeakOrder(CodesOf);
    SortKeeps(KeysOf(input.buckets), ByText(CodesOf));
    assert k in KeyOrder(input.buckets) <==> k in KeysOf(input.buckets);
    if Lookup(input.buckets, BucketKey(), k).Some? {
      var i :| 0 <= i < |input.buckets| && input.buckets[i] == Lookup(input.buckets, BucketKey(), k).value;
      assert KeysOf(input.buckets)[i] == k;
    }
    if k in KeysOf(input.buckets) {
      var i :| 0 <= i < |input.buckets| && KeysOf(input.buckets)[i] == k;
      assert BucketKey()(input.buckets[i]) == k;
    }
  }

  ghost predicate KeysAre<T>(keys: set<string>, rows: seq<T>, key: T -> string) {
    forall k :: k in keys <==> Lookup(rows, key, k).Some?
  }

  lemma {:induction false} CollectedKeys<T, V>(m: map<string, V>, rows: seq<T>, key: T -> string, value: T -> V)
    requires CollectedInto(m, rows, key, value, map[])
    ensures KeysAre(m.Keys, rows, key)
  {
    forall k ensures k in m.Keys <==> Lookup(rows, key, k).Some? {}
  }

  ghost predicate NamesAll<T>(input: PricingInput, rows: seq<T>, key: T -> string) {
    forall i :: 0 <= i < |rows| ==> Lookup(input.buckets, BucketKey(), key(rows[i])).Some?
  }

  lemma {:induction false} KeysWithin<T>(input: PricingInput, rows: seq<T>, key: T -> string, keys: set<string>,
                                         bucketKeys: set<string>)
    requires KeysAre(keys, rows, key) && KeysAre(bucketKeys, input.buckets, BucketKey()) && NamesAll(input, rows, key)
    ensures keys <= bucketKeys
  {
    forall k | k in keys ensures k in bucketKeys {
      var row := Lookup(rows, key, k).value;
      var i :| 0 <= i < |rows| && rows[i] == row;
      assert key(rows[i]) == k;
    }
  }

  lemma {:induction false} CoversMeans<T>(input: PricingInput, rows: seq<T>, key: T -> string, keys: set<string>,
                                          bucketKeys: set<string>)
    requires KeysAre(keys, rows, key) && KeysAre(bucketKeys, input.buckets, BucketKey())
    ensures Covers(input, rows, key) <==> bucketKeys <= keys
  {
    if Covers(input, rows, key) {
      forall k | k in bucketKeys ensures k in keys {
        var b := Lookup(input.buckets, BucketKey(), k).value;
        var i :| 0 <= i < |input.buckets| && input.buckets[i] == b;
        assert input.buckets[i].key == k;
      }
    }
    if bucketKeys <= keys {
      forall i | 0 <= i < |input.buckets| ensures Lookup(rows, key, input.buckets[i].key).Some? {
        assert BucketKey()(input.buckets[i]) == input.buckets[i].key;
        assert input.buckets[i].key in bucketKeys;
      }
    }
  }

  /** Rows that all name buckets are as many as the buckets exactly when they cover them. */
  lemma {:induction false} CoversBySize<T>(input: PricingInput, rows: seq<T>, key: T -> string, keys: set<string>,
                                           bucketKeys: set<string>)
    requires KeysAre(keys, rows, key) && KeysAre(bucketKeys, input.buckets, BucketKey()) && NamesAll(input, rows, key)
    ensures |keys| == |bucketKeys| <==> Covers(input, rows, key)
  {
    KeysWithin(input, rows, key, keys, bucketKeys);
    CoversMeans(input, rows, key, keys, bucketKeys);
    SubsetSize(keys, bucketKeys);
  }

  lemma {:induction false} EverythingServes(input: PricingInput, buckets: map<string, Bucket>,
                                            quantities: map<string, int>, rates: map<string, Rational>)
    requires Collected(input, buckets, quantities, rates)
    requires AllCovered(input)
    ensures ServesAll(Exact(), input, buckets, quantities, IncludedTotals(input.buckets, quantities), rates,
                      KeyOrder(input.buckets))
  {
    var keys := KeyOrder(input.buckets);
    assert QuantitiesOf(input, quantities) by {
      forall k ensures QuantityIn(quantities, k) == QuantityOf(input, k) { LooksUp(input, buckets, quantities, rates, k); }
    }
    forall i | 0 <= i < |keys|
      ensures Serves(Exact(), input, buckets, quantities, IncludedTotals(input.buckets, quantities), rates, keys[i])
    {
      var k := keys[i];
      KeysAreKnown(input, k);
      LooksUp(input, buckets, quantities, rates, k);
      NetIsNet(input, quantities, k);
      var b := Lookup(input.buckets, BucketKey(), k).value;
      var j :| 0 <= j < |input.buckets| && input.buckets[j] == b;
      assert Lookup(input.usage, UsageKey(), input.buckets[j].key).Some?;
      assert Lookup(input.rates, RateKey(), input.buckets[j].key).Some?;
    }
  }

  /** What pricing returns once the header, the profile and the rows have been accepted. */
  ghost predicate PricedExactly(input: PricingInput, r: Result<PricingResult, PricingError>)
    requires CheckHeader(input).None?
  {
    && (r.Ok? <==> AllCovered(input) && AllFits(input))
    && (r.Ok? ==> IsPriceOf(input, r.value) && IsQuantity(r.value.creditMicros))
  }

  lemma {:induction false} SizesDecide(input: PricingInput, buckets: map<string, Bucket>,
                                       quantities: map<string, int>, rates: map<string, Rational>)
    requires Collected(input, buckets, quantities, rates)
    requires NamesAll(input, input.usage, UsageKey()) && NamesAll(input, input.rates, RateKey())
    ensures |quantities| == |buckets| && |rates| == |buckets| <==> AllCovered(input)
    ensures AllCovered(input) ==> forall i :: 0 <= i < |input.buckets| ==> input.buckets[i].key in quantities
  {
    CollectedKeys(buckets, input.buckets, BucketKey(), BucketItself());
    CollectedKeys(quantities, input.usage, UsageKey(), UsageValue());
    CollectedKeys(rates, input.rates, RateKey(), RateValue());
    CoversBySize(input, input.usage, UsageKey(), quantities.Keys, buckets.Keys);
    CoversBySize(input, input.rates, RateKey(), rates.Keys, buckets.Keys);
    assert |buckets| == |buckets.Keys| && |quantities| == |quantities.Keys| && |rates| == |rates.Keys|;
    if AllCovered(input) {
      forall i | 0 <= i < |input.buckets| ensures input.buckets[i].key in quantities {
        assert Lookup(input.usage, UsageKey(), input.buckets[i].key).Some?;
      }
    }
  }

  lemma {:induction false} RowsNameBuckets(input: PricingInput)
    requires RowsOk(input)
    ensures NamesAll(input, input.usage, UsageKey()) && NamesAll(input, input.rates, RateKey())
  {
    forall i | 0 <= i < |input.usage| ensures Lookup(input.buckets, BucketKey(), UsageKey()(input.usage[i])).Some? {
      assert UsageRowOk(input, input.usage[i]);
    }
    forall i | 0 <= i < |input.rates| ensures Lookup(input.buckets, BucketKey(), RateKey()(input.rates[i])).Some? {
      assert RateRowOk(input, input.rates[i]);
    }
  }

  lemma {:induction false} StagesGlue(input: PricingInput, costing: Result<Costing, PricingError>,
                                      r: Result<PricingResult, PricingError>)
    requires CheckHeader(input).None? && AllCovered(input)
    requires Costed(Exact(), input, KeyOrder(input.buckets), costing)
    requires costing.Err? ==> r.Err?
    requires costing.Ok? ==> Finished(Exact(), input, costing.value, ExactSales(input), ExactCredit(input), r)
    ensures PricedExactly(input, r)
  {
  }

  lemma {:induction false} LastStages(input: PricingInput, c: Costing)
    requires CheckHeader(input).None? && Valid(c.cost) && Value(c.cost) == ExactCost(input)
    ensures Finished(Exact(), input, c, ExactSales(input), ExactCredit(input), Finish(Bounded(), input, c))
  {
    BoundedIsLawful();
    FinishExactly(Bounded(), Exact(), input, c, ExactCost(input), Value(input.multiplier),
                  Value(input.creditMicrosPerMinor), ExactSales(input), ExactCredit(input));
  }

  function CostingOf(input: PricingInput, buckets: map<string, Bucket>, quantities: map<string, int>,
                     rates: map<string, Rational>): Result<Costing, PricingError> {
    CostAll(Bounded(), KeyOrder(input.buckets), buckets, quantities, IncludedTotals(input.buckets, quantities), rates)
  }

  lemma {:induction false} CostingExactly(input: PricingInput, buckets: map<string, Bucket>,
                                          quantities: map<string, int>, rates: map<string, Rational>)
    requires Collected(input, buckets, quantities, rates) && AllCovered(input)
    ensures Costed(Exact(), input, KeyOrder(input.buckets), CostingOf(input, buckets, quantities, rates))
  {
    EverythingServes(input, buckets, quantities, rates);
    BoundedIsLawful();
    CostAllExactly(Bounded(), Exact(), input, KeyOrder(input.buckets), buckets, quantities,
                   IncludedTotals(input.buckets, quantities), rates);
  }

  lemma {:induction false} CollectedUnfolds(input: PricingInput, buckets: map<string, Bucket>,
                                            quantities: map<string, int>, rates: map<string, Rational>, covered: bool)
    requires |quantities| == |buckets| && |rates| == |buckets| <==> covered
    requires covered ==> forall i :: 0 <= i < |input.buckets| ==> input.buckets[i].key in quantities
    ensures var costing, r := CostingOf(input, buckets, quantities, rates), PriceCollected(input, buckets, quantities, rates);
            if !covered then r.Err?
            else if costing.Err? then r == Err(costing.error)
            else r == Finish(Bounded(), input, costing.value)
  {
  }

  lemma {:induction false} PriceCollectedExactly(input: PricingInput, buckets: map<string, Bucket>,
                                                 quantities: map<string, int>, rates: map<string, Rational>)
    requires CheckHeader(input).None? && Collected(input, buckets, quantities, rates) && RowsOk(input)
    ensures PricedExactly(input, PriceCollected(input, buckets, quantities, rates))
  {
    RowsNameBuckets(input);
    SizesDecide(input, buckets, quantities, rates);
    CollectedUnfolds(input, buckets, quantities, rates, AllCovered(input));
    if AllCovered(input) {
      var costing := CostingOf(input, buckets, quantities, rates);
      CostingExactly(input, buckets, quantities, rates);
      if costing.Ok? { LastStages(input, costing.value); }
      StagesGlue(input, costing, PriceCollected(input, buckets, quantities, rates));
    }
  }

  /** An attempt is priced exactly when it is Priceable, and then its price is the exact one,
      rounded up by less than one micro. */
  lemma {:induction false} PricesExactly(input: PricingInput)
    ensures Price(input).Ok? <==> Priceable(input)
    ensures Price(input).Ok? ==> IsPriceOf(input, Price(input).value) && IsQuantity(Price(input).value.creditMicros)
  {
    if CheckHeader(input).None? {
      ProfileExactly(input);
      var profile := Collect(input.buckets, CheckBucket(), BucketKey(), BucketItself(), map[]);
      if ProfileOk(input) { PriceProfileExactly(input, profile.value); }
    }
  }

  lemma {:induction false} PriceProfileExactly(input: PricingInput, buckets: map<string, Bucket>)
    requires CheckHeader(input).None? && ProfileOk(input)
    requires Collect(input.buckets, CheckBucket(), BucketKey(), BucketItself(), map[]) == Ok(buckets)
    requires AllInclusionsOk(buckets, input.buckets)
    requires CollectedInto(buckets, input.buckets, BucketKey(), BucketItself(), map[])
    ensures Price(input).Ok? <==> Priceable(input)
    ensures Price(input).Ok? ==> IsPriceOf(input, Price(input).value) && IsQuantity(Price(input).value.creditMicros)
  {
    RowsExactly(input, buckets);
    var quantities := Collect(input.usage, CheckUsage(buckets), UsageKey(), UsageValue(), map[]);
    var rates := Collect(input.rates, CheckRate(buckets, input.currencyCode), RateKey(), RateValue(), map[]);
    if quantities.Ok? && rates.Ok? {
      PriceCollectedExactly(input, buckets, quantities.value, rates.value);
      PriceUnfolds(input, buckets, quantities.value, rates.value);
    }
  }

  lemma {:induction false} PriceUnfolds(input: PricingInput, buckets: map<string, Bucket>,
                                        quantities: map<string, int>, rates: map<string, Rational>)
    requires CheckHeader(input).None?
    requires Collect(input.buckets, CheckBucket(), BucketKey(), BucketItself(), map[]) == Ok(buckets)
    requires AllInclusionsOk(buckets, input.buckets)
    requires Collect(input.usage, CheckUsage(buckets), UsageKey(), UsageValue(), map[]) == Ok(quantities)
    requires Collect(input.rates, CheckRate(buckets, input.currencyCode), RateKey(), RateValue(), map[]) == Ok(rates)
    ensures Price(input) == PriceCollected(input, buckets, quantities, rates)
  {
  }

  /** The outcome of collecting rows that must satisfy `ok` and carry different keys. */
  ghost predicate CollectsWhen<T, V>(r: Result<map<string, V>, PricingError>, ok: bool, rows: seq<T>, key: T -> string,
                                     value: T -> V) {
    && (r.Ok? <==> ok && KeysDistinct(rows, key))
    && (r.Ok? ==> CollectedInto(r.value, rows, key, value, map[]))
  }

  lemma {:induction false} CollectsExactly<T, V>(rows: seq<T>, check: T -> Option<PricingError>, key: T -> string,
                                                 value: T -> V, ok: bool)
    requires AllPass(rows, check) <==> ok
    ensures CollectsWhen(Collect(rows, check, key, value, map[]), ok, rows, key, value)
  {
    CollectExactly(rows, check, key, value, map[]);
    var nothing: map<string, V> := map[];
    assert NoneIn(rows, key, nothing);
  }

  lemma {:induction false} RowsExactly(input: PricingInput, buckets: map<string, Bucket>)
    requires CheckHeader(input).None?
    requires CollectedInto(buckets, input.buckets, BucketKey(), BucketItself(), map[])
    ensures var quantities := Collect(input.usage, CheckUsage(buckets), UsageKey(), UsageValue(), map[]);
            var rates := Collect(input.rates, CheckRate(buckets, input.currencyCode), RateKey(), RateValue(), map[]);
            && (quantities.Ok? && rates.Ok? <==> RowsOk(input))
            && (quantities.Ok? && rates.Ok? ==> Collected(input, buckets, quantities.value, rates.value))
  {
    UsageRowsChecked(input, buckets);
    RateRowsChecked(input, buckets);
    CollectsExactly(input.usage, CheckUsage(buckets), UsageKey(), UsageValue(), UsageRowsOk(input));
    CollectsExactly(input.rates, CheckRate(buckets, input.currencyCode), RateKey(), RateValue(), RateRowsOk(input));
  }
}
