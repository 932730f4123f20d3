/** The price of an attempt does not depend on the order of its rows, and its net quantities
    account for exactly what the roots of the profile report. */
module PricingOrder {
  import opened Outcomes
  import opened Sums
  import opened Sorting
  import opened Rationals
  import opened MeteringPricing
  import opened PricingForest
  import opened PricingProof

  ghost predicate Shuffled(a: PricingInput, b: PricingInput) {
    && multiset(a.buckets) == multiset(b.buckets)
    && multiset(a.usage) == multiset(b.usage)
    && multiset(a.rates) == multiset(b.rates)
    && b == a.(buckets := b.buckets, usage := b.usage, rates := b.rates)
  }

  lemma {:induction false} KeysStayDistinct<T>(xs: seq<T>, ys: seq<T>, key: T -> string)
    requires multiset(xs) == multiset(ys) && KeysDistinct(xs, key)
    ensures KeysDistinct(ys, key)
  {
    assert Distinct(xs) by {
      forall i, j | 0 <= i < j < |xs| ensures xs[i] != xs[j] { assert key(xs[i]) != key(xs[j]); }
    }
    DistinctByCount(xs, ys);
    SameElements(xs, ys);
    forall i, j | 0 <= i < j < |ys| ensures key(ys[i]) != key(ys[j]) {
      assert ys[i] in xs && ys[j] in xs;
      var p :| 0 <= p < |xs| && xs[p] == ys[i];
      var q :| 0 <= q < |xs| && xs[q] == ys[j];
      if p < q { assert key(xs[p]) != key(xs[q]); }
      if q < p { assert key(xs[q]) != key(xs[p]); }
    }
  }

  lemma {:induction false} LookupStays<T>(xs: seq<T>, ys: seq<T>, key: T -> string)
    requires multiset(xs) == multiset(ys) && KeysDistinct(xs, key)
    ensures forall k :: Lookup(xs, key, k) == Lookup(ys, key, k)
  {
    KeysStayDistinct(xs, ys, key);
    SameElements(xs, ys);
    forall k ensures Lookup(xs, key, k) == Lookup(ys, key, k) {
      var x := Lookup(xs, key, k);
      if x.Some? {
        assert x.value in ys;
        var j :| 0 <= j < |ys| && ys[j] == x.value;
        LookupRow(ys, key, j);
      } else {
        forall j | 0 <= j < |ys| ensures key(ys[j]) != k {
          assert ys[j] in xs;
          var i :| 0 <= i < |xs| && xs[i] == ys[j];
        }
      }
    }
  }

  lemma {:induction false} KeysOfConcat(xs: seq<Bucket>, ys: seq<Bucket>)
    ensures KeysOf(xs + ys) == KeysOf(xs) + KeysOf(ys)
  {
  }

  lemma {:induction false} KeysShuffled(xs: seq<Bucket>, ys: seq<Bucket>)
    requires multiset(xs) == multiset(ys)
    ensures multiset(KeysOf(xs)) == multiset(KeysOf(ys))
    decreases |xs|
  {
    SameElements(xs, ys);
    if xs != [] {
      var n, x := |xs| - 1, xs[|xs| - 1];
      assert xs == xs[..n] + [x];
      assert x in multiset(xs);
      var k := TakeOut(ys, x);
      var before, after := ys[..k], ys[k + 1..];
      KeysShuffled(xs[..n], before + after);
      KeysOfConcat(xs[..n], [x]);
      KeysOfConcat(before, after);
      KeysOfConcat(before, [x] + after);
      KeysOfConcat([x], after);
    }
  }

  lemma {:induction false} CodesTellTextsApart(a: string, b: string)
    requires CodesOf(a) == CodesOf(b)
    ensures a == b
  {
    forall i | 0 <= i < |a| ensures a[i] == b[i] {
      assert CodesOf(a)[i] == CodesOf(b)[i];
    }
  }

  lemma {:induction false} KeyOrderStays(xs: seq<Bucket>, ys: seq<Bucket>)
    requires multiset(xs) == multiset(ys)
    ensures KeyOrder(xs) == KeyOrder(ys)
  {
    KeysShuffled(xs, ys);
    ByTextIsWeakOrder(CodesOf);
    forall a, b | a in KeysOf(xs) && b in KeysOf(xs) && a != b ensures CodesOf(a) != CodesOf(b) {
      if CodesOf(a) == CodesOf(b) { CodesTellTextsApart(a, b); }
    }
    ByTextSeparates(KeysOf(xs), CodesOf);
    SortIgnoresOrder(KeysOf(xs), KeysOf(ys), ByText(CodesOf));
  }

  // ----- the same rows mean the same -----

  ghost predicate SameRows(a: PricingInput, b: PricingInput) {
    && (forall k :: Lookup(a.buckets, BucketKey(), k) == Lookup(b.buckets, BucketKey(), k))
    && (forall k :: QuantityOf(a, k) == QuantityOf(b, k))
    && (forall k :: RateOf(a, k) == RateOf(b, k))
    && (forall k :: UnitOf(a, k) == UnitOf(b, k))
  }

  lemma {:induction false} RowsStay(a: PricingInput, b: PricingInput)
    requires Shuffled(a, b) && ProfileOk(a) && RowsOk(a)
    ensures SameRows(a, b) && RowsOk(b) && (AllCovered(a) ==> AllCovered(b))
  {
    assert KeysDistinct(a.buckets, BucketKey()) by {
      var m :| IsProfile(m, a.buckets) && Forest(m);
    }
    LookupStays(a.buckets, b.buckets, BucketKey());
    LookupStays(a.usage, b.usage, UsageKey());
    LookupStays(a.rates, b.rates, RateKey());
    KeysStayDistinct(a.usage, b.usage, UsageKey());
    KeysStayDistinct(a.rates, b.rates, RateKey());
    assert SameRows(a, b);
    UsageRowsStay(a, b);
    RateRowsStay(a, b);
    if AllCovered(a) { CoverageStays(a, b); }
  }

  lemma {:induction false} UsageRowsStay(a: PricingInput, b: PricingInput)
    requires Shuffled(a, b) && SameRows(a, b) && UsageRowsOk(a)
    ensures UsageRowsOk(b)
  {
    SameElements(a.usage, b.usage);
    forall i | 0 <= i < |b.usage| ensures UsageRowOk(b, b.usage[i]) {
      assert b.usage[i] in a.usage;
      var j :| 0 <= j < |a.usage| && a.usage[j] == b.usage[i];
      assert UsageRowOk(a, a.usage[j]);
    }
  }

  lemma {:induction false} RateRowsStay(a: PricingInput, b: PricingInput)
    requires Shuffled(a, b) && SameRows(a, b) && RateRowsOk(a)
    ensures RateRowsOk(b)
  {
    SameElements(a.rates, b.rates);
    forall i | 0 <= i < |b.rates| ensures RateRowOk(b, b.rates[i]) {
      assert b.rates[i] in a.rates;
      var j :| 0 <= j < |a.rates| && a.rates[j] == b.rates[i];
      assert RateRowOk(a, a.rates[j]);
    }
  }

  lemma {:induction false} CoverageStays(a: PricingInput, b: PricingInput)
    requires Shuffled(a, b) && AllCovered(a)
    requires forall k :: Lookup(a.usage, UsageKey(), k) == Lookup(b.usage, UsageKey(), k)
    requires forall k :: Lookup(a.rates, RateKey(), k) == Lookup(b.rates, RateKey(), k)
    ensures AllCovered(b)
  {
    SameElements(a.buckets, b.buckets);
    forall i | 0 <= i < |b.buckets|
      ensures Lookup(b.usage, UsageKey(), b.buckets[i].key).Some?
      ensures Lookup(b.rates, RateKey(), b.buckets[i].key).Some?
    {
      assert b.buckets[i] in a.buckets;
      var j :| 0 <= j < |a.buckets| && a.buckets[j] == b.buckets[i];
      assert Lookup(a.usage, UsageKey(), a.buckets[j].key).Some?;
      assert Lookup(a.rates, RateKey(), a.buckets[j].key).Some?;
    }
  }

  lemma {:induction false} ProfileStays(a: PricingInput, b: PricingInput)
    requires Shuffled(a, b) && ProfileOk(a)
    ensures ProfileOk(b)
  {
    SameElements(a.buckets, b.buckets);
    var m :| IsProfile(m, a.buckets) && Forest(m);
    IndexStays(m, a.buckets, b.buckets);
    forall i | 0 <= i < |b.buckets| ensures CheckBucket()(b.buckets[i]).None? {
      assert b.buckets[i] in a.buckets;
      var j :| 0 <= j < |a.buckets| && a.buckets[j] == b.buckets[i];
    }
  }

  lemma {:induction false} IndexStays(m: map<string, Bucket>, xs: seq<Bucket>, ys: seq<Bucket>)
    requires multiset(xs) == multiset(ys) && IsProfile(m, xs)
    ensures IsProfile(m, ys)
  {
    SameElements(xs, ys);
    assert KeysDistinct(xs, BucketKey());
    KeysStayDistinct(xs, ys, BucketKey());
    forall i | 0 <= i < |ys| ensures ys[i].key in m && m[ys[i].key] == ys[i] {
      assert ys[i] in xs;
      var j :| 0 <= j < |xs| && xs[j] == ys[i];
    }
    forall k | k in m ensures exists i :: 0 <= i < |ys| && ys[i].key == k {
      var j :| 0 <= j < |xs| && xs[j].key == k;
      assert xs[j] in ys;
      var i :| 0 <= i < |ys| && ys[i] == xs[j];
    }
    forall i, j | 0 <= i < j < |ys| ensures ys[i].key != ys[j].key {
      assert BucketKey()(ys[i]) != BucketKey()(ys[j]);
    }
  }

  lemma {:induction false} NetStays(a: PricingInput, b: PricingInput, k: string)
    requires Shuffled(a, b) && SameRows(a, b)
    ensures NetOf(a, k) == NetOf(b, k)
  {
    SumSeqIgnoresOrder(a.buckets, b.buckets, Inclusion(a, k));
    SumSeqSame(b.buckets, Inclusion(a, k), Inclusion(b, k));
  }

  ghost predicate SameTerm(a: PricingInput, b: PricingInput, k: string) {
    NetOf(a, k) == NetOf(b, k) && TermOf(a, k) == TermOf(b, k) && UnitOf(a, k) == UnitOf(b, k)
  }

  ghost predicate SameTerms(a: PricingInput, b: PricingInput) {
    forall k :: SameTerm(a, b, k)
  }

  lemma {:induction false} TermsStay(a: PricingInput, b: PricingInput)
    requires Shuffled(a, b) && SameRows(a, b)
    ensures SameTerms(a, b)
  {
    forall k ensures SameTerm(a, b, k) { NetStays(a, b, k); }
  }

  lemma {:induction false} CostsStay(a: PricingInput, b: PricingInput, keys: seq<string>)
    requires SameTerms(a, b)
    ensures CostOf(a, keys) == CostOf(b, keys)
  {
    if keys != [] {
      CostsStay(a, b, keys[..|keys| - 1]);
      assert SameTerm(a, b, keys[|keys| - 1]);
    }
  }

  lemma {:induction false} UsagesStay(a: PricingInput, b: PricingInput, keys: seq<string>)
    requires SameTerms(a, b)
    ensures NetUsages(a, keys) == NetUsages(b, keys)
  {
    if keys != [] {
      UsagesStay(a, b, keys[..|keys| - 1]);
      assert SameTerm(a, b, keys[|keys| - 1]);
    }
  }

  lemma {:induction false} StageStays(fits: real -> bool, a: PricingInput, b: PricingInput, keys: seq<string>, k: nat)
    requires SameTerms(a, b) && k < |keys|
    ensures StageOk(fits, a, keys, k) <==> StageOk(fits, b, keys, k)
  {
    assert SameTerm(a, b, keys[k]);
    CostsStay(a, b, keys[..k + 1]);
  }

  lemma {:induction false} StagesStay(fits: real -> bool, a: PricingInput, b: PricingInput, keys: seq<string>)
    requires SameTerms(a, b)
    ensures StagesOk(fits, a, keys) <==> StagesOk(fits, b, keys)
  {
    forall k: nat | k < |keys| ensures StageOk(fits, a, keys, k) <==> StageOk(fits, b, keys, k) {
      StageStays(fits, a, b, keys, k);
    }
  }

  lemma {:induction false} HeaderStays(a: PricingInput, b: PricingInput)
    requires Shuffled(a, b)
    ensures CheckHeader(a) == CheckHeader(b)
  {
    SameElements(a.buckets, b.buckets);
    SameElements(a.usage, b.usage);
    SameElements(a.rates, b.rates);
  }

  /** The exact figures of two inputs agree. */
  ghost predicate SameFigures(a: PricingInput, b: PricingInput)
    requires CheckHeader(a).None? && CheckHeader(b).None?
  {
    && ExactCost(a) == ExactCost(b) && ExactSales(a) == ExactSales(b) && ExactCredit(a) == ExactCredit(b)
    && NetUsages(a, KeyOrder(a.buckets)) == NetUsages(b, KeyOrder(b.buckets))
  }

  lemma {:induction false} CostStays(a: PricingInput, b: PricingInput)
    requires Shuffled(a, b) && SameTerms(a, b)
    ensures KeyOrder(a.buckets) == KeyOrder(b.buckets) && ExactCost(a) == ExactCost(b)
    ensures NetUsages(a, KeyOrder(a.buckets)) == NetUsages(b, KeyOrder(b.buckets))
  {
    KeyOrderStays(a.buckets, b.buckets);
    CostsStay(a, b, KeyOrder(a.buckets));
    UsagesStay(a, b, KeyOrder(a.buckets));
  }

  lemma {:induction false} SalesStay(a: PricingInput, b: PricingInput)
    requires CheckHeader(a).None? && CheckHeader(b).None?
    requires a.multiplier == b.multiplier && a.creditMicrosPerMinor == b.creditMicrosPerMinor && ExactCost(a) == ExactCost(b)
    ensures ExactSales(a) == ExactSales(b) && ExactCredit(a) == ExactCredit(b)
  {
  }

  lemma {:induction false} FiguresStay(a: PricingInput, b: PricingInput)
    requires Shuffled(a, b) && SameTerms(a, b) && CheckHeader(a).None?
    ensures CheckHeader(b).None? && SameFigures(a, b)
  {
    HeaderStays(a, b);
    CostStays(a, b);
    SalesStay(a, b);
  }

  lemma {:induction false} FitsStay(a: PricingInput, b: PricingInput)
    requires CheckHeader(a).None? && CheckHeader(b).None? && SameFigures(a, b) && AllFits(a)
    requires StagesOk(Fitting(), b, KeyOrder(b.buckets))
    ensures AllFits(b)
  {
  }

  lemma {:induction false} PriceableStays(a: PricingInput, b: PricingInput)
    requires Shuffled(a, b) && Priceable(a)
    ensures Priceable(b) && SameFigures(a, b)
  {
    ProfileStays(a, b);
    RowsStay(a, b);
    TermsStay(a, b);
    FiguresStay(a, b);
    KeyOrderStays(a.buckets, b.buckets);
    StagesStay(Fitting(), a, b, KeyOrder(a.buckets));
    FitsStay(a, b);
  }

  lemma {:induction false} SameRational(r: Rational, s: Rational)
    requires Reduced(r) && Reduced(s) && Value(r) == Value(s)
    ensures r == s
  {
    SameValue(r.numerator, r.denominator, s.numerator, s.denominator);
    ReducedIsUnique(r, s);
  }

  /** One meaning has one price. */
  lemma {:induction false} PriceIsUnique(a: PricingInput, b: PricingInput, r: PricingResult, t: PricingResult)
    requires CheckHeader(a).None? && CheckHeader(b).None? && Shuffled(a, b)
    requires IsPriceOf(a, r) && IsPriceOf(b, t) && SameFigures(a, b)
    ensures r == t
  {
    SameRational(r.procurementCostMinor, t.procurementCostMinor);
    SameRational(r.salesCostMinor, t.salesCostMinor);
    SameRational(r.unroundedCreditMicros, t.unroundedCreditMicros);
    SameCeiling(r.creditMicros, t.creditMicros, ExactCredit(a));
  }

  lemma {:induction false} SameCeiling(c: int, d: int, x: real)
    requires (c - 1) as real < x <= c as real && (d - 1) as real < x <= d as real
    ensures c == d
  {
  }

  /** Permuting profile buckets, usage rows or rates changes neither whether an attempt is priced
      nor any field of its price. */
  lemma {:induction false} OrderDoesNotMatter(a: PricingInput, b: PricingInput)
    requires Shuffled(a, b)
    ensures Price(a).Ok? <==> Price(b).Ok?
    ensures Price(a).Ok? ==> Price(a) == Price(b)
  {
    PricesExactly(a);
    PricesExactly(b);
    if Priceable(a) {
      PriceableStays(a, b);
      PriceIsUnique(a, b, Price(a).value, Price(b).value);
    } else if Priceable(b) {
      assert Shuffled(b, a);
      PriceableStays(b, a);
    }
  }

  // ----- nothing is counted twice or lost -----

  /** The part of an entry's net quantity that belongs to the buckets of a set. */
  function Within(keys: string -> bool): NetUsage -> int {
    (u: NetUsage) => if keys(u.bucket) then u.quantity else 0
  }

  function NetWithin(input: PricingInput, keys: string -> bool): string -> int {
    (k: string) => if keys(k) then NetOf(input, k) else 0
  }

  function RowsWithin(rows: seq<Bucket>, keys: string -> bool): nat -> bool {
    (j: nat) => j < |rows| && keys(rows[j].key)
  }

  lemma {:induction false} EntriesSumToNets(input: PricingInput, keys: seq<string>, within: string -> bool)
    ensures SumSeq(NetUsages(input, keys), Within(within)) == SumSeq(keys, NetWithin(input, within))
  {
    if keys != [] {
      var front, key := keys[..|keys| - 1], keys[|keys| - 1];
      EntriesSumToNets(input, front, within);
      SumSeqPush(NetUsages(input, front), NetUsage(key, UnitOf(input, key), NetOf(input, key)), Within(within));
    }
  }

  /** The reported quantities as a map. */
  function Quantities(input: PricingInput): map<string, int> {
    map u | u in input.usage :: u.bucket := QuantityOf(input, u.bucket)
  }

  lemma {:induction false} QuantitiesAreReported(input: PricingInput)
    ensures QuantitiesOf(input, Quantities(input))
  {
    forall k ensures QuantityIn(Quantities(input), k) == QuantityOf(input, k) {
      if Lookup(input.usage, UsageKey(), k).Some? {
        var u := Lookup(input.usage, UsageKey(), k).value;
        assert u in input.usage && u.bucket == k;
      }
    }
  }

  lemma {:induction false} KeyOrderSum(rows: seq<Bucket>, f: string -> int)
    ensures SumSeq(KeyOrder(rows), f) == SumSeq(KeysOf(rows), f)
  {
    ByTextIsWeakOrder(CodesOf);
    SortKeeps(KeysOf(rows), ByText(CodesOf));
    SumSeqIgnoresOrder(KeyOrder(rows), KeysOf(rows), f);
  }

  lemma {:induction false} NetOfRow(input: PricingInput, j: nat)
    requires j < |input.buckets|
    ensures Net(input.buckets, Quantities(input))(j) == NetOf(input, input.buckets[j].key)
  {
    QuantitiesAreReported(input);
    NetIsNet(input, Quantities(input), input.buckets[j].key);
    TotalsAreSums(input.buckets, Quantities(input), input.buckets[j].key);
  }

  /** The net quantities listed in key order, restricted to a set of buckets, as a sum over rows. */
  lemma {:induction false} EntriesAreRows(input: PricingInput, within: string -> bool)
    ensures SumSeq(NetUsages(input, KeyOrder(input.buckets)), Within(within))
         == Sum(|input.buckets|, Part(RowsWithin(input.buckets, within), Net(input.buckets, Quantities(input))))
  {
    var rows := input.buckets;
    EntriesSumToNets(input, KeyOrder(rows), within);
    KeyOrderSum(rows, NetWithin(input, within));
    var net := Part(RowsWithin(rows, within), Net(rows, Quantities(input)));
    forall i: nat | i < |KeysOf(rows)| ensures net(i) == NetWithin(input, within)(KeysOf(rows)[i]) { NetOfRow(input, i); }
    SumSeqIsSum(KeysOf(rows), NetWithin(input, within), net);
  }

  function RootReport(input: PricingInput): Bucket -> int {
    (b: Bucket) => if b.includedIn.None? then QuantityOf(input, b.key) else 0
  }

  function Anywhere(): string -> bool { (k: string) => true }

  /** The buckets that are `key` or are included in it, directly or not. */
  ghost function Subtree(m: map<string, Bucket>, key: string): string -> bool {
    (k: string) => exists i: nat :: Climb(m, k, i) == Some(key)
  }

  lemma {:induction false} RootsAccounted(input: PricingInput, m: map<string, Bucket>)
    requires IsProfile(m, input.buckets) && Forest(m)
    ensures SumSeq(NetUsages(input, KeyOrder(input.buckets)), Within(Anywhere())) == SumSeq(input.buckets, RootReport(input))
  {
    var rows, quantities := input.buckets, Quantities(input);
    EntriesAreRows(input, Anywhere());
    SumSame(|rows|, Part(RowsWithin(rows, Anywhere()), Net(rows, quantities)), Net(rows, quantities));
    NetOfProfile(m, rows, quantities);
    QuantitiesAreReported(input);
    SumSeqIsSum(rows, RootReport(input), Part(Roots(rows), Reported(rows, quantities)));
  }

  lemma {:induction false} SubtreeAccounted(input: PricingInput, m: map<string, Bucket>, r: nat)
    requires IsProfile(m, input.buckets) && Forest(m) && r < |input.buckets|
    ensures SumSeq(NetUsages(input, KeyOrder(input.buckets)), Within(Subtree(m, input.buckets[r].key)))
         == QuantityOf(input, input.buckets[r].key)
  {
    var rows, quantities := input.buckets, Quantities(input);
    var within := Subtree(m, rows[r].key);
    EntriesAreRows(input, within);
    SumSame(|rows|, Part(RowsWithin(rows, within), Net(rows, quantities)), Part(Below(m, rows, r), Net(rows, quantities)));
    NetOfSubtree(m, rows, quantities, r);
    QuantitiesAreReported(input);
  }

  lemma {:induction false} PricedProfile(input: PricingInput)
    requires Price(input).Ok?
    ensures ProfileOk(input) && Price(input).value.normalizedUsage == NetUsages(input, KeyOrder(input.buckets))
  {
    PricesExactly(input);
  }

  /** In a price, the net quantities of all buckets sum to what the roots of the profile report,
      and those of any bucket together with all it includes sum to what that bucket reports. */
  lemma {:induction false} NetUsageAccounts(input: PricingInput, m: map<string, Bucket>, r: nat)
    requires Price(input).Ok? && IsProfile(m, input.buckets) && r < |input.buckets|
    ensures SumSeq(Price(input).value.normalizedUsage, Within(Anywhere())) == SumSeq(input.buckets, RootReport(input))
    ensures SumSeq(Price(input).value.normalizedUsage, Within(Subtree(m, input.buckets[r].key)))
         == QuantityOf(input, input.buckets[r].key)
  {
    PricedProfile(input);
    var forest :| IsProfile(forest, input.buckets) && Forest(forest);
    ProfileUnique(m, forest, input.buckets);
    RootsAccounted(input, m);
    SubtreeAccounted(input, m, r);
  }
}
