/** Encoding and decoding of rate drafts undo each other, and the order of the rates does not
    matter. */
module RateRevisionProof {
  import opened Outcomes
  import opened Sums
  import opened Sorting
  import opened Unicode
  import opened AgentJson
  import opened AgentJsonCanonical
  import opened Digests
  import opened RateRevision

  // ----- the texts of tuples -----

  /** A value of well-formed strings, nulls and arrays nested at most n deep. */
  predicate Plain(v: Json, n: nat)
    decreases v
  {
    match v
    case Null => true
    case Str(s) => WellFormed(s)
    case Arr(items) => n > 0 && forall i :: 0 <= i < |items| ==> Plain(items[i], n - 1)
    case _ => false
  }

  lemma {:induction false} PlainIsPrintable(v: Json, n: nat, depth: nat, d: Dialect)
    requires Plain(v, n) && depth + n <= d.maxDepth && !d.plainText
    ensures Printable(v, depth, d)
  {
    if v.Arr? {
      forall i | 0 <= i < |v.items| ensures Printable(v.items[i], depth + 1, d) {
        PlainIsPrintable(v.items[i], n - 1, depth + 1, d);
      }
    }
  }

  lemma {:induction false} StringifyIsCanonical(v: Json, n: nat)
    requires Plain(v, n)
    ensures Stringify(v) == Canonical(v)
    decreases v, 1, 0
  {
    if v.Arr? && v.items != [] { StringifiedItems(v, 0, n); }
  }

  lemma {:induction false} StringifiedItems(v: Json, i: nat, n: nat)
    requires v.Arr? && i < |v.items| && Plain(v, n)
    ensures StringifyItems(v, i) == CanonicalItems(v, i)
    decreases v, 0, |v.items| - i
  {
    StringifyIsCanonical(v.items[i], n - 1);
    if i + 1 < |v.items| { StringifiedItems(v, i + 1, n); }
  }

  lemma {:induction false} QuotedIsWellFormed(s: JsString)
    requires WellFormed(s)
    ensures WellFormed(Quote(s))
  {
    EscapeIsWellFormed(s);
    AsciiIsWellFormed([QUOTE]);
    WellFormedConcat([QUOTE], Escape(s));
    WellFormedConcat([QUOTE] + Escape(s), [QUOTE]);
  }

  lemma {:induction false} NullIsWellFormed()
    ensures WellFormed(NullText())
  {
    AsciiIsWellFormed(NullText());
  }

  lemma {:induction false} EmptyArrayIsWellFormed()
    ensures WellFormed([OPEN_BRACKET, CLOSE_BRACKET])
  {
    AsciiIsWellFormed([OPEN_BRACKET, CLOSE_BRACKET]);
  }

  lemma {:induction false} OpenedIsWellFormed(rest: JsString)
    requires WellFormed(rest)
    ensures WellFormed([OPEN_BRACKET] + rest)
  {
    AsciiIsWellFormed([OPEN_BRACKET]);
    WellFormedConcat([OPEN_BRACKET], rest);
  }

  lemma {:induction false} StringifyIsWellFormed(v: Json, n: nat)
    requires Plain(v, n)
    ensures WellFormed(Stringify(v))
    decreases v, 1, 0
  {
    if v.Str? {
      QuotedIsWellFormed(v.s);
    } else if v.Null? {
      NullIsWellFormed();
    } else if v.items == [] {
      EmptyArrayIsWellFormed();
    } else {
      ItemsWellFormed(v, 0, n);
      OpenedIsWellFormed(StringifyItems(v, 0));
    }
  }

  lemma {:induction false} ItemsWellFormed(v: Json, i: nat, n: nat)
    requires v.Arr? && i < |v.items| && Plain(v, n)
    ensures WellFormed(StringifyItems(v, i))
    decreases v, 0, |v.items| - i
  {
    StringifyIsWellFormed(v.items[i], n - 1);
    AsciiIsWellFormed([CLOSE_BRACKET]);
    AsciiIsWellFormed([COMMA]);
    if i + 1 < |v.items| {
      ItemsWellFormed(v, i + 1, n);
      WellFormedConcat([COMMA], StringifyItems(v, i + 1));
      WellFormedConcat(Stringify(v.items[i]), [COMMA] + StringifyItems(v, i + 1));
    } else {
      WellFormedConcat(Stringify(v.items[i]), [CLOSE_BRACKET]);
    }
  }

  /** JSON.stringify tells values apart, and so do the UTF-8 bytes of its texts. */
  lemma {:induction false} StringifyIsInjective(v: Json, w: Json, n: nat)
    requires Plain(v, n) && Plain(w, n)
    requires Encode(Points(Stringify(v))) == Encode(Points(Stringify(w)))
    ensures v == w
  {
    StringifyIsWellFormed(v, n);
    StringifyIsWellFormed(w, n);
    DecodeOfEncode(Points(Stringify(v)));
    DecodeOfEncode(Points(Stringify(w)));
    UnitsOfPoints(Stringify(v));
    UnitsOfPoints(Stringify(w));
    StringifyIsCanonical(v, n);
    StringifyIsCanonical(w, n);
    var d := Dialect(n + 1, false);
    PlainIsPrintable(v, n, 1, d);
    PlainIsPrintable(w, n, 1, d);
    CanonicalIsInjective(v, w, d);
  }

  lemma {:induction false} OnlyKey(keys: seq<JsString>, key: JsString)
    requires Distinct(keys) && key in keys && forall k :: k in keys ==> k == key
    ensures keys == [key]
  {
    var second := if |keys| > 1 then keys[1] else key;
    assert keys[0] in keys && second in keys;
  }

  lemma {:induction false} TextOfIsCanonical(tuple: Json, n: nat)
    requires Plain(tuple, n)
    ensures TextOf(tuple) == Canonical(Obj(map[ValueKey() := tuple]))
  {
    var v := Obj(map[ValueKey() := tuple]);
    StringifyIsCanonical(tuple, n);
    var keys := SortedKeys(v.members.Keys);
    assert ValueKey() in v.members.Keys;
    OnlyKey(keys, ValueKey());
    assert v.members != map[];
    assert Canonical(v) == [OPEN_BRACE] + CanonicalMembers(v, keys);
  }

  lemma {:induction false} AsciiTextIsWellFormed(s: string)
    requires forall i :: 0 <= i < |s| ==> s[i] as int < 128
    ensures WellFormed(Ascii(s))
  {
    AsciiIsWellFormed(Ascii(s));
  }

  /** JSON.parse reads the tuple back. */
  lemma {:induction false} ParseOfTextOf(tuple: Json, n: nat)
    requires Plain(tuple, n) && n <= 8
    ensures ParseText(TextOf(tuple)) == Some(Obj(map[ValueKey() := tuple]))
  {
    var v := Obj(map[ValueKey() := tuple]);
    var d := Dialect(|TextOf(tuple)|, false);
    TextOfIsCanonical(tuple, n);
    assert |Quote(ValueKey())| >= 7;
    assert n + 2 <= d.maxDepth;
    PlainIsPrintable(tuple, n, 2, d);
    AsciiTextIsWellFormed("value");
    ParseOfCanonical(v, d);
  }

  // ----- the tuples of valid drafts -----

  lemma {:induction false} TextOkIsWellFormed(s: JsString, maximum: nat)
    requires TextOk(s, maximum)
    ensures WellFormed(s)
  {
    forall i | 0 <= i < |Points(s)| ensures IsScalar(Points(s)[i]) {
      PointBound(s, i);
      PointNotNegative(s, i);
    }
  }

  lemma {:induction false} PointNotNegative(s: JsString, i: nat)
    requires AllUnits(s) && i < |Points(s)|
    ensures 0 <= Points(s)[i]
    decreases |s|
  {
    var (p, n) := FirstPoint(s);
    assert IsUnit(s[0]);
    if i > 0 {
      PointNotNegative(s[n..], i - 1);
      assert Points(s)[i] == Points(s[n..])[i - 1];
    }
  }

  lemma {:induction false} BusinessKeyIsPlain(s: JsString, n: nat)
    requires BusinessKeyOk(s)
    ensures Plain(Str(s), n)
  {
    AsciiIsWellFormed(s);
  }

  lemma {:induction false} DecimalIsPlain(s: JsString, n: nat)
    requires DecimalOk(s)
    ensures Plain(Str(s), n)
  {
    AsciiIsWellFormed(s);
  }

  lemma {:induction false} CurrencyIsPlain(s: JsString, n: nat)
    requires CurrencyOk(s)
    ensures Plain(Str(s), n)
  {
    AsciiIsWellFormed(s);
  }

  lemma {:induction false} DigestIsPlain(s: JsString, n: nat)
    requires IsDigestText(s)
    ensures Plain(Str(s), n)
  {
    AsciiIsWellFormed(s);
  }

  lemma {:induction false} TextIsPlain(s: JsString, maximum: nat, n: nat)
    requires TextOk(s, maximum)
    ensures Plain(Str(s), n)
  {
    TextOkIsWellFormed(s, maximum);
  }

  lemma {:induction false} InstantIsPlain(s: JsString, calendar: Calendar, n: nat)
    requires InstantOk(s, calendar)
    ensures Plain(Str(s), n)
  {
    forall i | 0 <= i < |s| ensures 0 <= s[i] < 128 {
      assert FitsShape(s[i], INSTANT_SHAPE[i]);
      assert INSTANT_SHAPE[i] as int < 128;
    }
    AsciiIsWellFormed(s);
  }

  lemma {:induction false} WordIsPlain(s: string, n: nat)
    requires forall i :: 0 <= i < |s| ==> s[i] as int < 128
    ensures Plain(Word(s), n)
  {
    AsciiTextIsWellFormed(s);
  }

  predicate AllPlain(items: seq<Json>, n: nat) {
    forall i :: 0 <= i < |items| ==> Plain(items[i], n)
  }

  lemma {:induction false} ArrayIsPlain(items: seq<Json>, n: nat)
    requires AllPlain(items, n)
    ensures Plain(Arr(items), n + 1)
  {
  }

  lemma {:induction false} MoreIsPlain(items: seq<Json>, last: Json, n: nat)
    requires AllPlain(items, n) && Plain(last, n)
    ensures AllPlain(items + [last], n)
  {
  }

  lemma {:induction false} RangeWordIsPlain()
    ensures Plain(Word("range"), 0)
  {
    WordIsPlain("range", 0);
  }

  lemma {:induction false} ApplicabilityIsPlain(a: Applicability)
    requires ApplicabilityOk(a)
    ensures Plain(ApplicabilityTuple(a), 1)
  {
    match a
    case All =>
      WordIsPlain("all", 0);
      ArrayIsPlain([Word("all")], 0);
    case Range(dimension, unit, lower, upper) =>
      RangeWordIsPlain();
      BusinessKeyIsPlain(dimension, 0);
      BusinessKeyIsPlain(unit, 0);
      DecimalIsPlain(lower, 0);
      var last := if upper.Some? then Str(upper.value) else Null;
      assert Plain(last, 0) by { if upper.Some? { DecimalIsPlain(upper.value, 0); } }
      ArrayIsPlain([Word("range"), Str(dimension), Str(unit), Str(lower), last], 0);
  }

  lemma {:induction false} BindingIsPlain(b: Binding, n: nat)
    requires BindingOk(b)
    ensures AllPlain(BindingItems(b), n)
  {
    TextIsPlain(b.provider, 255, n);
    TextIsPlain(b.environment, 255, n);
    TextIsPlain(b.account, 255, n);
    TextIsPlain(b.model, 255, n);
    TextIsPlain(b.modelVersion, 255, n);
  }

  lemma {:induction false} KeyIsPlain(rate: Rate)
    requires RateOk(rate)
    ensures AllPlain(BindingItems(rate.binding), 1) && AllPlain(GroupItems(rate), 1) && AllPlain(KeyItems(rate), 1)
  {
    BindingIsPlain(rate.binding, 1);
    BusinessKeyIsPlain(rate.bucket, 1);
    BusinessKeyIsPlain(rate.unit, 1);
    ApplicabilityIsPlain(rate.applicability);
    GroupIsPlain(BindingItems(rate.binding), Str(rate.bucket), Str(rate.unit), 1);
    MoreIsPlain(GroupItems(rate), ApplicabilityTuple(rate.applicability), 1);
  }

  lemma {:induction false} GroupIsPlain(items: seq<Json>, a: Json, b: Json, n: nat)
    requires AllPlain(items, n) && Plain(a, n) && Plain(b, n)
    ensures AllPlain(items + [a, b], n)
  {
  }

  lemma {:induction false} RateIsPlain(rate: Rate)
    requires RateOk(rate)
    ensures Plain(RateTuple(rate), 2)
  {
    KeyIsPlain(rate);
    CurrencyIsPlain(rate.currency, 1);
    DecimalIsPlain(rate.price.numerator, 0);
    DecimalIsPlain(rate.price.denominator, 0);
    ArrayIsPlain([Str(rate.price.numerator), Str(rate.price.denominator)], 0);
    GroupIsPlain(KeyItems(rate), Str(rate.currency), PriceTuple(rate.price), 1);
    ArrayIsPlain(KeyItems(rate) + [Str(rate.currency), PriceTuple(rate.price)], 1);
  }

  lemma {:induction false} RatesArePlain(rates: seq<Rate>)
    requires forall i :: 0 <= i < |rates| ==> RateOk(rates[i])
    ensures Plain(Arr(RateTuples(rates)), 3)
  {
    forall i | 0 <= i < |rates| ensures Plain(RateTuples(rates)[i], 2) { RateIsPlain(rates[i]); }
    ArrayIsPlain(RateTuples(rates), 2);
  }

  lemma {:induction false} ReferenceIsPlain(r: Reference, n: nat)
    requires ReferenceOk(r)
    ensures Plain(ReferenceTuple(r), n + 1)
  {
    TextIsPlain(r.version, 255, n);
    DigestIsPlain(r.artifactDigest, n);
    ArrayIsPlain([Str(r.version), Str(r.artifactDigest)], n);
  }

  lemma {:induction false} EightArePlain(a: Json, b: Json, c: Json, d: Json, e: Json, f: Json, g: Json, h: Json, n: nat)
    requires Plain(a, n) && Plain(b, n) && Plain(c, n) && Plain(d, n)
    requires Plain(e, n) && Plain(f, n) && Plain(g, n) && Plain(h, n)
    ensures Plain(Arr([a, b, c, d, e, f, g, h]), n + 1)
  {
    ArrayIsPlain([a, b, c, d, e, f, g, h], n);
  }

  lemma {:induction false} DomainIsPlain(n: nat)
    ensures Plain(Word(DOMAIN), n)
  {
    WordIsPlain(DOMAIN, n);
  }

  lemma {:induction false} VersionIsPlain(n: nat)
    ensures Plain(Word("1"), n)
  {
    WordIsPlain("1", n);
  }

  lemma {:induction false} DraftIsPlain(draft: Draft, calendar: Calendar)
    requires HeaderOk(draft, calendar) && RateSetOk(draft.rates)
    ensures Plain(ContentTuple(draft), 4)
  {
    DomainIsPlain(3);
    VersionIsPlain(3);
    TextIsPlain(draft.tenant, 191, 3);
    InstantIsPlain(draft.effectiveFrom, calendar, 3);
    TextIsPlain(draft.sourceRef, 255, 3);
    InstantIsPlain(draft.verifiedAt, calendar, 3);
    ReferenceIsPlain(draft.profile, 2);
    RatesArePlain(draft.rates);
    EightArePlain(Word(DOMAIN), Word("1"), Str(draft.tenant), Str(draft.effectiveFrom), Str(draft.sourceRef),
                  Str(draft.verifiedAt), ReferenceTuple(draft.profile), Arr(RateTuples(draft.rates)), 3);
  }

  // ----- unpacking undoes packing -----

  lemma {:induction false} UnpackApplicabilityTuple(a: Applicability)
    ensures UnpackApplicability(ApplicabilityTuple(a)) == Some(a)
  {
    assert |Ascii("all")| != |Ascii("range")|;
  }

  lemma {:induction false} UnpackRateTuple(rate: Rate)
    ensures UnpackRate(RateTuple(rate)) == Some(rate)
  {
    UnpackApplicabilityTuple(rate.applicability);
    var v := RateTuple(rate);
    assert v.items == [Str(rate.binding.provider), Str(rate.binding.environment), Str(rate.binding.account),
                       Str(rate.binding.model), Str(rate.binding.modelVersion), Str(rate.bucket), Str(rate.unit),
                       ApplicabilityTuple(rate.applicability), Str(rate.currency), PriceTuple(rate.price)];
  }

  lemma {:induction false} UnpackRateTuples(rates: seq<Rate>)
    ensures UnpackRates(RateTuples(rates)) == Some(rates)
  {
    if rates != [] {
      UnpackRateTuple(rates[0]);
      UnpackRateTuples(rates[1..]);
      assert RateTuples(rates)[1..] == RateTuples(rates[1..]);
      assert RateTuples(rates)[0] == RateTuple(rates[0]);
      assert rates == [rates[0]] + rates[1..];
    }
  }

  /** A draft is rebuilt from its tuple. */
  lemma {:induction false} UnpackContentTuple(draft: Draft)
    ensures UnpackDraft(ContentTuple(draft)) == Some(draft)
  {
    UnpackRateTuples(draft.rates);
  }

  // ----- keys -----

  /** The three texts a set of rates is checked by tell groups, bindings and keys apart. */
  lemma {:induction false} TextsTellRatesApart(a: Rate, b: Rate)
    requires RateOk(a) && RateOk(b)
    ensures BindingText(a) == BindingText(b) <==> a.binding == b.binding
    ensures GroupText(a) == GroupText(b) <==> SameGroup(a, b)
    ensures KeyText(a) == KeyText(b) <==> SameKey(a, b)
    ensures KeyBytes(a) == KeyBytes(b) <==> SameKey(a, b)
  {
    KeyIsPlain(a);
    KeyIsPlain(b);
    BindingItemsTell(a.binding, b.binding);
    GroupItemsTell(a, b);
    if BindingText(a) == BindingText(b) { TextTellsItems(BindingItems(a.binding), BindingItems(b.binding)); }
    if GroupText(a) == GroupText(b) { TextTellsItems(GroupItems(a), GroupItems(b)); }
    if KeyBytes(a) == KeyBytes(b) { TextTellsItems(KeyItems(a), KeyItems(b)); }
  }

  lemma {:induction false} TextTellsItems(xs: seq<Json>, ys: seq<Json>)
    requires AllPlain(xs, 1) && AllPlain(ys, 1)
    requires Encode(Points(Stringify(Arr(xs)))) == Encode(Points(Stringify(Arr(ys))))
    ensures xs == ys
  {
    ArrayIsPlain(xs, 1);
    ArrayIsPlain(ys, 1);
    StringifyIsInjective(Arr(xs), Arr(ys), 2);
  }

  lemma {:induction false} BindingItemsTell(a: Binding, b: Binding)
    ensures BindingItems(a) == BindingItems(b) <==> a == b
  {
    if BindingItems(a) == BindingItems(b) {
      assert forall i :: 0 <= i < 5 ==> BindingItems(a)[i] == BindingItems(b)[i];
      assert BindingItems(a)[0].s == a.provider && BindingItems(a)[1].s == a.environment
             && BindingItems(a)[2].s == a.account && BindingItems(a)[3].s == a.model && BindingItems(a)[4].s == a.modelVersion;
    }
  }

  lemma {:induction false} GroupItemsTell(a: Rate, b: Rate)
    ensures GroupItems(a) == GroupItems(b) <==> SameGroup(a, b)
    ensures KeyItems(a) == KeyItems(b) <==> SameKey(a, b)
  {
    var x, y := BindingItems(a.binding), BindingItems(b.binding);
    BindingItemsTell(a.binding, b.binding);
    assert GroupItems(a)[..5] == x && GroupItems(b)[..5] == y;
    assert GroupItems(a)[5] == Str(a.bucket) && GroupItems(b)[5] == Str(b.bucket);
    assert GroupItems(a)[6] == Str(a.unit) && GroupItems(b)[6] == Str(b.unit);
    assert KeyItems(a)[..7] == GroupItems(a) && KeyItems(b)[..7] == GroupItems(b);
    assert KeyItems(a)[7] == ApplicabilityTuple(a.applicability) && KeyItems(b)[7] == ApplicabilityTuple(b.applicability);
    UnpackApplicabilityTuple(a.applicability);
    UnpackApplicabilityTuple(b.applicability);
  }

  // ----- the order of the rates -----

  lemma {:induction false} CompatibleIsSymmetric(a: Rate, b: Rate)
    ensures Compatible(a, b) == Compatible(b, a)
  {
  }

  lemma {:induction false} CompatibleRatesDiffer(a: Rate)
    ensures !Compatible(a, a)
  {
  }

  /** A set of rates is accepted in every order or in none. */
  lemma {:induction false} AnyOrderIsAccepted(xs: seq<Rate>, ys: seq<Rate>)
    requires RateSetOk(xs) && multiset(xs) == multiset(ys)
    ensures RateSetOk(ys)
  {
    SameElements(xs, ys);
    assert Distinct(xs) by {
      forall i, j | 0 <= i < j < |xs| ensures xs[i] != xs[j] { CompatibleRatesDiffer(xs[i]); }
    }
    DistinctByCount(xs, ys);
    forall i | 0 <= i < |ys| ensures RateOk(ys[i]) { assert ys[i] in xs; }
    forall i, j | 0 <= i < j < |ys| ensures Compatible(ys[i], ys[j]) {
      assert ys[i] in xs && ys[j] in xs;
      var p :| 0 <= p < |xs| && xs[p] == ys[i];
      var q :| 0 <= q < |xs| && xs[q] == ys[j];
      CompatibleIsSymmetric(xs[p], xs[q]);
      assert p != q;
      if q < p { assert Compatible(xs[q], xs[p]); }
    }
  }

  lemma {:induction false} KeysSeparate(rates: seq<Rate>)
    requires RateSetOk(rates)
    ensures Separates(rates, ByText(ByKeyBytes()))
  {
    forall a, b | a in rates && b in rates && a != b ensures ByKeyBytes()(a) != ByKeyBytes()(b) {
      var p :| 0 <= p < |rates| && rates[p] == a;
      var q :| 0 <= q < |rates| && rates[q] == b;
      assert Compatible(rates[if p < q then p else q], rates[if p < q then q else p]);
      TextsTellRatesApart(a, b);
    }
    ByTextSeparates(rates, ByKeyBytes());
  }

  lemma {:induction false} SortRatesKeeps(rates: seq<Rate>)
    ensures forall rate :: rate in SortRates(rates) <==> rate in rates
  {
    ByTextIsWeakOrder(ByKeyBytes());
    SortKeeps(rates, ByText(ByKeyBytes()));
  }

  /** Sorting the rates of a draft gives one list for all their orders. */
  lemma {:induction false} SortRatesIsStable(xs: seq<Rate>, ys: seq<Rate>)
    requires RateSetOk(xs) && multiset(xs) == multiset(ys)
    ensures SortRates(xs) == SortRates(ys) && RateSetOk(SortRates(xs)) && multiset(SortRates(xs)) == multiset(xs)
    ensures SortRates(SortRates(xs)) == SortRates(xs)
  {
    var before := ByText(ByKeyBytes());
    ByTextIsWeakOrder(ByKeyBytes());
    SortKeeps(xs, before);
    KeysSeparate(xs);
    SortIgnoresOrder(xs, ys, before);
    SortIgnoresOrder(xs, SortRates(xs), before);
    AnyOrderIsAccepted(xs, SortRates(xs));
  }

  // ----- encoding and decoding -----

  lemma {:induction false} ValidationIgnoresOrder(a: Draft, b: Draft, calendar: Calendar)
    requires a.(rates := []) == b.(rates := []) && multiset(a.rates) == multiset(b.rates)
    ensures Validated(a, calendar) == Validated(b, calendar)
  {
    if RateSetOk(a.rates) {
      AnyOrderIsAccepted(a.rates, b.rates);
      SortRatesIsStable(a.rates, b.rates);
      assert a.(rates := SortRates(a.rates)) == b.(rates := SortRates(b.rates));
    } else if RateSetOk(b.rates) {
      AnyOrderIsAccepted(b.rates, a.rates);
    }
  }

  /** The text of a draft does not depend on the order of its rates. */
  lemma {:induction false} EncodingIgnoresOrder(a: Draft, b: Draft, calendar: Calendar)
    requires a.(rates := []) == b.(rates := []) && multiset(a.rates) == multiset(b.rates)
    ensures EncodeDraft(a, calendar) == EncodeDraft(b, calendar)
  {
    ValidationIgnoresOrder(a, b, calendar);
  }

  lemma {:induction false} ValidatedTwice(draft: Draft, calendar: Calendar)
    requires Validated(draft, calendar).Some?
    ensures Validated(Validated(draft, calendar).value, calendar) == Validated(draft, calendar)
    ensures HeaderOk(Validated(draft, calendar).value, calendar) && RateSetOk(Validated(draft, calendar).value.rates)
  {
    SortRatesIsStable(draft.rates, draft.rates);
  }

  lemma {:induction false} UnpackTextOf(tuple: Json, draft: Draft)
    requires Plain(tuple, 4) && UnpackDraft(tuple) == Some(draft)
    ensures UnpackContent(TextOf(tuple)) == Some(draft)
  {
    ParseOfTextOf(tuple, 4);
    var members := map[ValueKey() := tuple];
    assert members.Keys == {ValueKey()};
  }

  lemma {:induction false} UnpackEncoded(draft: Draft, calendar: Calendar)
    requires HeaderOk(draft, calendar) && RateSetOk(draft.rates)
    ensures UnpackContent(TextOf(ContentTuple(draft))) == Some(draft)
  {
    DraftIsPlain(draft, calendar);
    UnpackContentTuple(draft);
    UnpackTextOf(ContentTuple(draft), draft);
  }

  /** Decoding an encoded draft gives the draft with its rates in key order. */
  lemma {:induction false} DecodeOfEncodeDraft(draft: Draft, calendar: Calendar)
    requires EncodeDraft(draft, calendar).Some?
    ensures DecodeDraft(EncodeDraft(draft, calendar).value, calendar) == Some(draft.(rates := SortRates(draft.rates)))
  {
    ValidatedTwice(draft, calendar);
    UnpackEncoded(Validated(draft, calendar).value, calendar);
  }

  /** Only texts that encode back to themselves are decoded. */
  lemma {:induction false} EncodeOfDecodeDraft(text: JsString, calendar: Calendar)
    requires DecodeDraft(text, calendar).Some?
    ensures EncodeDraft(DecodeDraft(text, calendar).value, calendar) == Some(text)
    ensures SortRates(DecodeDraft(text, calendar).value.rates) == DecodeDraft(text, calendar).value.rates
  {
    var unpacked := UnpackContent(text).value;
    ValidatedTwice(unpacked, calendar);
  }

  /** Two drafts have the same text exactly when they differ only in the order of their rates. */
  lemma {:induction false} SameTextSameDraft(a: Draft, b: Draft, calendar: Calendar)
    requires EncodeDraft(a, calendar).Some?
    ensures EncodeDraft(a, calendar) == EncodeDraft(b, calendar)
            <==> a.(rates := []) == b.(rates := []) && multiset(a.rates) == multiset(b.rates)
  {
    if EncodeDraft(a, calendar) == EncodeDraft(b, calendar) {
      DecodeOfEncodeDraft(a, calendar);
      DecodeOfEncodeDraft(b, calendar);
      var x, y := a.(rates := SortRates(a.rates)), b.(rates := SortRates(b.rates));
      assert x == y;
      assert a.(rates := []) == x.(rates := []) && b.(rates := []) == y.(rates := []);
      SortRatesIsStable(a.rates, a.rates);
      SortRatesIsStable(b.rates, b.rates);
    }
    if a.(rates := []) == b.(rates := []) && multiset(a.rates) == multiset(b.rates) {
      EncodingIgnoresOrder(a, b, calendar);
    }
  }
}
