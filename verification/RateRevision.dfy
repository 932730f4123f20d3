/** Rate revisions: which drafts are accepted, and their canonical text. A draft is a list of
    provider rates under a header; its text is the JSON of nested tuples, so that equal drafts
    have equal texts and digests. Texts are sequences of UTF-16 code units. */
module RateRevision {
  import opened Outcomes
  import opened Sorting
  import opened Unicode
  import opened AgentJson
  import opened Decimals
  import opened Digests
  import Rationals

  const MAX_CANONICAL_BYTES := 262_144
  const INT64_MAX := 9_223_372_036_854_775_807
  const MAX_RATES := 64

  datatype Reference = Reference(version: JsString, artifactDigest: JsString)

  datatype Price = Price(numerator: JsString, denominator: JsString)

  datatype Applicability =
    | All
    | Range(dimension: JsString, unit: JsString, lower: JsString, upper: Option<JsString>)

  datatype Binding = Binding(
    provider: JsString,
    environment: JsString,
    account: JsString,
    model: JsString,
    modelVersion: JsString
  )

  datatype Rate = Rate(
    binding: Binding,
    bucket: JsString,
    unit: JsString,
    applicability: Applicability,
    currency: JsString,
    price: Price
  )

  datatype Draft = Draft(
    tenant: JsString,
    effectiveFrom: JsString,
    sourceRef: JsString,
    verifiedAt: JsString,
    profile: Reference,
    rates: seq<Rate>
  )

  /** Date.parse and toISOString, which are not part of this model. */
  datatype Calendar = Calendar(parse: JsString -> Option<int>, show: int -> JsString)

  // ----- texts -----

  predicate TextOk(s: JsString, maximum: nat) {
    && s != [] && |s| <= 2 * maximum && AllUnits(s)
    && |Points(s)| <= maximum
    && forall i :: 0 <= i < |Points(s)| ==> Points(s)[i] != 0 && !IsSurrogate(Points(s)[i])
  }

  predicate InRange(u: int, low: char, high: char) { low as int <= u <= high as int }

  predicate IsAlphanumeric(u: int) { InRange(u, 'A', 'Z') || InRange(u, 'a', 'z') || InRange(u, '0', '9') }

  predicate IsKeyUnit(u: int) {
    IsAlphanumeric(u) || u == '.' as int || u == '_' as int || u == ':' as int || u == '-' as int
  }

  predicate BusinessKeyOk(s: JsString) {
    1 <= |s| <= 128 && IsAlphanumeric(s[0]) && forall i :: 0 < i < |s| ==> IsKeyUnit(s[i])
  }

  predicate CurrencyOk(s: JsString) {
    |s| == 3 && forall i :: 0 <= i < |s| ==> InRange(s[i], 'A', 'Z')
  }

  const INSTANT_SHAPE := "dddd-dd-ddTdd:dd:sd.dddZ"

  predicate FitsShape(u: int, c: char) {
    if c == 'd' then InRange(u, '0', '9') else if c == 's' then InRange(u, '0', '5') else u == c as int
  }

  /** A date that survives parsing and printing. */
  predicate InstantOk(s: JsString, calendar: Calendar) {
    && |s| == |INSTANT_SHAPE| && (forall i :: 0 <= i < |s| ==> FitsShape(s[i], INSTANT_SHAPE[i]))
    && s[..5] != Ascii("0000-")
    && calendar.parse(s).Some? && calendar.show(calendar.parse(s).value) == s
  }

  predicate DecimalOk(s: JsString) {
    IsNumeral(s) && |s| <= 78
  }

  predicate BoundOk(s: JsString) {
    DecimalOk(s) && Value(s) <= INT64_MAX
  }

  function NatValue(s: JsString): nat {
    if Value(s) < 0 then 0 else Value(s)
  }

  predicate PriceOk(price: Price) {
    && DecimalOk(price.numerator) && DecimalOk(price.denominator)
    && NatValue(price.denominator) > 0
    && Rationals.Gcd(NatValue(price.numerator), NatValue(price.denominator)) == 1
  }

  predicate ReferenceOk(reference: Reference) {
    TextOk(reference.version, 255) && IsDigestText(reference.artifactDigest)
  }

  predicate ApplicabilityOk(a: Applicability) {
    match a
    case All => true
    case Range(dimension, unit, lower, upper) =>
      && BusinessKeyOk(dimension) && BusinessKeyOk(unit) && BoundOk(lower)
      && (upper.Some? ==> BoundOk(upper.value) && Value(lower) < Value(upper.value))
  }

  predicate BindingOk(b: Binding) {
    && TextOk(b.provider, 255) && TextOk(b.environment, 255) && TextOk(b.account, 255)
    && TextOk(b.model, 255) && TextOk(b.modelVersion, 255)
  }

  predicate RateOk(rate: Rate) {
    && BindingOk(rate.binding) && BusinessKeyOk(rate.bucket) && BusinessKeyOk(rate.unit)
    && ApplicabilityOk(rate.applicability) && CurrencyOk(rate.currency) && PriceOk(rate.price)
  }

  // ----- which rates go together -----

  /** Intervals of the same measure that share no value. */
  predicate IntervalsOk(a: Applicability, b: Applicability) {
    && a.Range? && b.Range? && a.dimension == b.dimension && a.unit == b.unit
    && ((a.upper.Some? && Value(a.upper.value) <= Value(b.lower))
        || (b.upper.Some? && Value(b.upper.value) <= Value(a.lower)))
  }

  predicate SameGroup(a: Rate, b: Rate) {
    a.binding == b.binding && a.bucket == b.bucket && a.unit == b.unit
  }

  predicate SameKey(a: Rate, b: Rate) {
    SameGroup(a, b) && a.applicability == b.applicability
  }

  predicate Compatible(a: Rate, b: Rate) {
    && !SameKey(a, b)
    && (a.binding == b.binding ==> a.currency == b.currency)
    && (SameGroup(a, b) ==> IntervalsOk(a.applicability, b.applicability))
  }

  predicate RateSetOk(rates: seq<Rate>) {
    && 1 <= |rates| <= MAX_RATES
    && (forall i :: 0 <= i < |rates| ==> RateOk(rates[i]))
    && forall i, j :: 0 <= i < j < |rates| ==> Compatible(rates[i], rates[j])
  }

  // ----- tuples and their JSON text -----

  function Word(s: string): Json { Str(Ascii(s)) }

  function ApplicabilityTuple(a: Applicability): Json {
    match a
    case All => Arr([Word("all")])
    case Range(dimension, unit, lower, upper) =>
      Arr([Word("range"), Str(dimension), Str(unit), Str(lower), if upper.Some? then Str(upper.value) else Null])
  }

  function BindingItems(b: Binding): seq<Json> {
    [Str(b.provider), Str(b.environment), Str(b.account), Str(b.model), Str(b.modelVersion)]
  }

  function GroupItems(rate: Rate): seq<Json> {
    BindingItems(rate.binding) + [Str(rate.bucket), Str(rate.unit)]
  }

  function KeyItems(rate: Rate): seq<Json> {
    GroupItems(rate) + [ApplicabilityTuple(rate.applicability)]
  }

  function PriceTuple(price: Price): Json { Arr([Str(price.numerator), Str(price.denominator)]) }

  function RateTuple(rate: Rate): Json {
    Arr(KeyItems(rate) + [Str(rate.currency), PriceTuple(rate.price)])
  }

  function ReferenceTuple(r: Reference): Json { Arr([Str(r.version), Str(r.artifactDigest)]) }

  const DOMAIN := "kokoro.billing.metering.rate.content"

  function RateTuples(rates: seq<Rate>): seq<Json> {
    seq(|rates|, i requires 0 <= i < |rates| => RateTuple(rates[i]))
  }

  function ContentTuple(draft: Draft): Json {
    Arr([Word(DOMAIN), Word("1"), Str(draft.tenant), Str(draft.effectiveFrom), Str(draft.sourceRef),
         Str(draft.verifiedAt), ReferenceTuple(draft.profile), Arr(RateTuples(draft.rates))])
  }

  /** JSON.stringify of a value without objects and booleans. */
  function Stringify(v: Json): JsString
    decreases v, 1, 0
  {
    match v
    case Str(s) => Quote(s)
    case Arr(items) => if items == [] then [OPEN_BRACKET, CLOSE_BRACKET] else [OPEN_BRACKET] + StringifyItems(v, 0)
    case _ => NullText()
  }

  function StringifyItems(v: Json, i: nat): JsString
    requires v.Arr? && i < |v.items|
    decreases v, 0, |v.items| - i
  {
    Stringify(v.items[i]) + if i + 1 == |v.items| then [CLOSE_BRACKET] else [COMMA] + StringifyItems(v, i + 1)
  }

  function KeyText(rate: Rate): JsString { Stringify(Arr(KeyItems(rate))) }
  function GroupText(rate: Rate): JsString { Stringify(Arr(GroupItems(rate))) }
  function BindingText(rate: Rate): JsString { Stringify(Arr(BindingItems(rate.binding))) }

  /** The UTF-8 bytes of the key, by which rates are ordered. */
  function KeyBytes(rate: Rate): seq<int> { Encode(Points(KeyText(rate))) }

  function ByKeyBytes(): Rate -> seq<int> { (rate: Rate) => KeyBytes(rate) }

  function SortRates(rates: seq<Rate>): seq<Rate> { Sort(rates, ByText(ByKeyBytes())) }

  function ValueKey(): JsString { Ascii("value") }

  /** {"value": tuple} */
  function TextOf(tuple: Json): JsString {
    [OPEN_BRACE] + (Quote(ValueKey()) + [COLON] + Stringify(tuple) + [CLOSE_BRACE])
  }

  // ----- encoding -----

  predicate HeaderOk(draft: Draft, calendar: Calendar) {
    && TextOk(draft.tenant, 191) && InstantOk(draft.effectiveFrom, calendar) && TextOk(draft.sourceRef, 255)
    && InstantOk(draft.verifiedAt, calendar) && ReferenceOk(draft.profile)
  }

  /** A validated draft, with its rates in key order. */
  function Validated(draft: Draft, calendar: Calendar): Option<Draft> {
    if HeaderOk(draft, calendar) && RateSetOk(draft.rates) then Some(draft.(rates := SortRates(draft.rates))) else None
  }

  /** The text of a validated draft, unless it is too long. */
  function EncodeRates(draft: Draft): Option<JsString> {
    var text := TextOf(ContentTuple(draft));
    if |Encode(Points(text))| > MAX_CANONICAL_BYTES then None else Some(text)
  }

  function EncodeValid(valid: Option<Draft>): Option<JsString> {
    if valid.None? then None else EncodeRates(valid.value)
  }

  function EncodeDraft(draft: Draft, calendar: Calendar): Option<JsString> {
    EncodeValid(Validated(draft, calendar))
  }

  // ----- decoding -----

  function UnpackApplicability(v: Json): Option<Applicability> {
    if !v.Arr? then None
    else if v.items == [Word("all")] then Some(All)
    else if |v.items| != 5 || v.items[0] != Word("range") then None
    else if !v.items[1].Str? || !v.items[2].Str? || !v.items[3].Str? then None
    else if v.items[4] == Null then Some(Range(v.items[1].s, v.items[2].s, v.items[3].s, None))
    else if v.items[4].Str? then Some(Range(v.items[1].s, v.items[2].s, v.items[3].s, Some(v.items[4].s)))
    else None
  }

  predicate Texts(items: seq<Json>, from: nat, to: nat) {
    to <= |items| && forall i :: from <= i < to ==> items[i].Str?
  }

  function UnpackPrice(v: Json): Option<Price> {
    if v.Arr? && |v.items| == 2 && Texts(v.items, 0, 2) then Some(Price(v.items[0].s, v.items[1].s)) else None
  }

  function UnpackReference(v: Json): Option<Reference> {
    if v.Arr? && |v.items| == 2 && Texts(v.items, 0, 2) then Some(Reference(v.items[0].s, v.items[1].s)) else None
  }

  function UnpackRate(v: Json): Option<Rate> {
    if !v.Arr? || |v.items| != 10 || !Texts(v.items, 0, 7) || !v.items[8].Str? then None
    else if UnpackApplicability(v.items[7]).None? || UnpackPrice(v.items[9]).None? then None
    else Some(Rate(Binding(v.items[0].s, v.items[1].s, v.items[2].s, v.items[3].s, v.items[4].s),
                   v.items[5].s, v.items[6].s, UnpackApplicability(v.items[7]).value, v.items[8].s,
                   UnpackPrice(v.items[9]).value))
  }

  function UnpackRates(items: seq<Json>): Option<seq<Rate>> {
    if items == [] then Some([])
    else if UnpackRate(items[0]).None? || UnpackRates(items[1..]).None? then None
    else Some([UnpackRate(items[0]).value] + UnpackRates(items[1..]).value)
  }

  function UnpackDraft(v: Json): Option<Draft> {
    if !v.Arr? || |v.items| != 8 || v.items[0] != Word(DOMAIN) || v.items[1] != Word("1") then None
    else if !Texts(v.items, 2, 6) || UnpackReference(v.items[6]).None? then None
    else if !v.items[7].Arr? || UnpackRates(v.items[7].items).None? then None
    else Some(Draft(v.items[2].s, v.items[3].s, v.items[4].s, v.items[5].s,
                    UnpackReference(v.items[6]).value, UnpackRates(v.items[7].items).value))
  }

  /** JSON.parse: no depth limit and any string. */
  function ParseText(text: JsString): Option<Json> {
    Parse(text, Dialect(|text|, false))
  }

  function UnpackContent(text: JsString): Option<Draft> {
    match ParseText(text)
    case Some(Obj(members)) => if members.Keys == {ValueKey()} then UnpackDraft(members[ValueKey()]) else None
    case _ => None
  }

  function DecodeDraft(text: JsString, calendar: Calendar): Option<Draft> {
    if |Encode(Points(text))| > MAX_CANONICAL_BYTES then None
    else
      match UnpackContent(text)
      case None => None
      case Some(unpacked) =>
        match Validated(unpacked, calendar)
        case None => None
        case Some(valid) => if EncodeRates(valid) == Some(text) then Some(valid) else None
  }
}
