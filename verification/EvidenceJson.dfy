/** The usage reports exchanged with agents as typed records, and the JSON that a digest covers. */
module EvidenceJson {
  import opened Outcomes
  import opened Sums
  import opened Unicode
  import opened Decimals
  import opened AgentJson
  import opened AgentJsonCanonical

  // ----- the records of a report -----

  datatype Party = Party(kind: JsString, opaqueRef: JsString)

  datatype Lease = Lease(owner: JsString, generation: nat)

  /** The identity of a report without its event id. */
  datatype Identity = Identity(
    tenantRef: JsString, actor: Party, subject: Party, identityAssertionRef: JsString, runId: JsString, sessionId: JsString,
    callId: JsString, attemptId: JsString, attemptOrdinal: nat, lease: Lease, inputDigest: JsString, peerPath: seq<JsString>)

  datatype Planned = Planned(
    bindingVersion: JsString, model: JsString, provider: JsString, revisionId: JsString, providerModelName: JsString,
    requestModel: JsString, featureKey: JsString, revision: nat, generation: nat, tenantGeneration: nat,
    digest: JsString, labelText: Option<JsString>)

  datatype Actual =
    | UnknownActual(reason: JsString)
    | VerifiedActual(providerRef: JsString, modelRef: JsString, evidenceRef: JsString, evidenceDigest: JsString)

  datatype Authorization =
    | NotRequested
    | RequestedUnknown(requestRef: JsString)
    | Denied(requestRef: JsString)
    | Granted(requestRef: JsString, admissionRef: JsString)

  datatype Outcome = NotDispatched | Completed | Failed | Cancelled | UnknownOutcome

  datatype Execution = Execution(outcome: Outcome, seal: bool, preparedAt: JsString, dispatchStartedAt: Option<JsString>)

  datatype Count = Reported(count: nat) | Unreported | NotApplicable

  datatype CountName = InputTotal | OutputTotal | Total | InputCacheRead | InputCacheWrite | OutputReasoning

  datatype TotalsState = KnownZero | KnownNonzero | UnknownTotals

  datatype Classification = Complete | Partial | UnknownClass

  datatype Profile = Supported | Unsupported(reason: JsString)

  datatype Protocol = OpenAi | Ollama

  datatype TokenUsage = TokenUsage(
    profileId: JsString, unit: JsString, sourceProtocol: Protocol, aggregationMode: JsString,
    inputTotal: Count, outputTotal: Count, total: Count,
    inputCacheRead: Count, inputCacheWrite: Count, outputReasoning: Count,
    totalsState: TotalsState, classificationState: Classification, profileAssessment: Profile)

  datatype Usage =
    | Normalized(value: TokenUsage, rawUsageDigest: Option<JsString>)
    | Unresolved(reason: JsString, rawUsageDigest: Option<JsString>)

  datatype Predecessor = Predecessor(eventId: JsString, digest: JsString)

  datatype Evidence = Evidence(
    eventId: JsString, identity: Identity, planned: Planned, actual: Actual, authorization: Authorization,
    execution: Execution, usage: Usage, revision: nat, predecessor: Option<Predecessor>, observedAt: JsString,
    digest: JsString)

  // ----- their JSON -----

  /** Tells the property names and the words of a report apart. */
  function Tag(key: JsString): int {
    if key == [] then 0 else |key| * 0x10000 + key[0]
  }

  function Key(name: string): (r: JsString)
    requires name != ""
    ensures Tag(r) == |name| * 0x10000 + name[0] as int
  {
    Ascii(name)
  }

  function Word(name: string): Json
    requires name != ""
  {
    Str(Key(name))
  }

  function Natural(n: nat): Json { Str(Numeral(n)) }

  function Text(text: Option<JsString>): Json {
    match text
    case None => Null
    case Some(s) => Str(s)
  }

  function Texts(texts: seq<JsString>): Json {
    Arr(seq(|texts|, i requires 0 <= i < |texts| => Str(texts[i])))
  }

  function Pairs(keys: seq<JsString>, values: seq<Json>): map<JsString, Json>
    requires |keys| == |values|
  {
    if keys == [] then map[]
    else
      var n := |keys| - 1;
      Pairs(keys[..n], values[..n])[keys[n] := values[n]]
  }

  function Keys(names: seq<string>): (r: seq<JsString>)
    ensures |r| == |names|
  {
    seq(|names|, i requires 0 <= i < |names| => Ascii(names[i]))
  }

  /** An object with these properties. */
  function Record(names: seq<string>, values: seq<Json>): Json
    requires |names| == |values|
  {
    Obj(Pairs(Keys(names), values))
  }

  function PartyJson(p: Party): Json {
    Obj(map[Key("kind") := Str(p.kind), Key("opaque_ref") := Str(p.opaqueRef)])
  }

  function LeaseJson(lease: Lease): Json {
    Obj(map[Key("owner") := Str(lease.owner), Key("generation") := Natural(lease.generation)])
  }

  const IDENTITY_NAMES: seq<string> := [
    "actor", "lease", "run_id", "call_id", "subject", "event_id", "peer_path", "attempt_id", "session_id",
    "tenant_ref", "input_digest", "attempt_ordinal", "identity_assertion_ref"]

  function IdentityValues(eventId: JsString, x: Identity): (r: seq<Json>)
    ensures |r| == |IDENTITY_NAMES|
  {
    [PartyJson(x.actor), LeaseJson(x.lease), Str(x.runId), Str(x.callId), PartyJson(x.subject), Str(eventId),
     Texts(x.peerPath), Str(x.attemptId), Str(x.sessionId), Str(x.tenantRef), Str(x.inputDigest),
     Natural(x.attemptOrdinal), Str(x.identityAssertionRef)]
  }

  function IdentityJson(eventId: JsString, x: Identity): Json {
    Record(IDENTITY_NAMES, IdentityValues(eventId, x))
  }

  const PLANNED_NAMES: seq<string> := [
    "label", "model", "digest", "provider", "revision", "generation", "feature_key", "revision_id",
    "request_model", "binding_version", "tenant_generation", "provider_model_name"]

  function PlannedValues(p: Planned): (r: seq<Json>)
    ensures |r| == |PLANNED_NAMES|
  {
    [Text(p.labelText), Str(p.model), Str(p.digest), Str(p.provider), Natural(p.revision),
     Natural(p.generation), Str(p.featureKey), Str(p.revisionId), Str(p.requestModel), Str(p.bindingVersion),
     Natural(p.tenantGeneration), Str(p.providerModelName)]
  }

  function PlannedJson(p: Planned): Json {
    Record(PLANNED_NAMES, PlannedValues(p))
  }

  function ActualJson(actual: Actual): Json {
    match actual
    case UnknownActual(reason) => Obj(map[Key("state") := Word("unknown"), Key("reason") := Str(reason)])
    case VerifiedActual(provider, model, evidence, digest) =>
      Obj(map[Key("state") := Word("verified"), Key("provider_ref") := Str(provider), Key("model_ref") := Str(model),
              Key("evidence_ref") := Str(evidence), Key("evidence_digest") := Str(digest)])
  }

  function AuthorizationJson(a: Authorization): Json {
    match a
    case NotRequested => Obj(map[Key("state") := Word("not_requested")])
    case RequestedUnknown(request) => Obj(map[Key("state") := Word("requested_unknown"), Key("request_ref") := Str(request)])
    case Denied(request) => Obj(map[Key("state") := Word("denied"), Key("request_ref") := Str(request)])
    case Granted(request, admission) =>
      Obj(map[Key("state") := Word("granted"), Key("request_ref") := Str(request), Key("admission_ref") := Str(admission)])
  }

  function OutcomeJson(outcome: Outcome): Json {
    match outcome
    case NotDispatched => Word("not_dispatched")
    case Completed => Word("completed")
    case Failed => Word("failed")
    case Cancelled => Word("cancelled")
    case UnknownOutcome => Word("unknown")
  }

  function ExecutionJson(e: Execution): Json {
    Obj(map[Key("outcome") := OutcomeJson(e.outcome), Key("seal") := Bool(e.seal),
            Key("prepared_at") := Str(e.preparedAt), Key("dispatch_started_at") := Text(e.dispatchStartedAt)])
  }

  function CountJson(count: Count): Json {
    match count
    case Reported(n) => Obj(map[Key("state") := Word("reported"), Key("count") := Natural(n)])
    case Unreported => Obj(map[Key("state") := Word("unreported")])
    case NotApplicable => Obj(map[Key("state") := Word("not_applicable")])
  }

  function ProfileJson(profile: Profile): Json {
    match profile
    case Supported => Obj(map[Key("state") := Word("supported")])
    case Unsupported(reason) => Obj(map[Key("state") := Word("unsupported"), Key("reason") := Str(reason)])
  }

  function ProtocolJson(protocol: Protocol): Json {
    match protocol
    case OpenAi => Word("openai_chat_completions")
    case Ollama => Word("ollama_openai_chat_completions")
  }

  function TotalsJson(state: TotalsState): Json {
    match state
    case KnownZero => Word("known_zero")
    case KnownNonzero => Word("known_nonzero")
    case UnknownTotals => Word("unknown")
  }

  function ClassificationJson(state: Classification): Json {
    match state
    case Complete => Word("complete")
    case Partial => Word("partial")
    case UnknownClass => Word("unknown")
  }

  const TOKEN_USAGE_NAMES: seq<string> := [
    "unit", "total", "profile_id", "input_total", "output_total", "totals_state", "source_protocol",
    "aggregation_mode", "input_cache_read", "output_reasoning", "input_cache_write", "profile_assessment",
    "classification_state"]

  function TokenUsageValues(u: TokenUsage): (r: seq<Json>)
    ensures |r| == |TOKEN_USAGE_NAMES|
  {
    [Str(u.unit), CountJson(u.total), Str(u.profileId), CountJson(u.inputTotal), CountJson(u.outputTotal),
     TotalsJson(u.totalsState), ProtocolJson(u.sourceProtocol), Str(u.aggregationMode),
     CountJson(u.inputCacheRead), CountJson(u.outputReasoning), CountJson(u.inputCacheWrite),
     ProfileJson(u.profileAssessment), ClassificationJson(u.classificationState)]
  }

  function TokenUsageJson(u: TokenUsage): Json {
    Record(TOKEN_USAGE_NAMES, TokenUsageValues(u))
  }

  function UsageJson(usage: Usage): Json {
    match usage
    case Normalized(value, digest) =>
      Obj(map[Key("state") := Word("normalized"), Key("value") := TokenUsageJson(value), Key("raw_usage_digest") := Text(digest)])
    case Unresolved(reason, digest) =>
      Obj(map[Key("state") := Word("unresolved"), Key("reason") := Str(reason), Key("raw_usage_digest") := Text(digest)])
  }

  function PredecessorJson(predecessor: Option<Predecessor>): Json {
    match predecessor
    case None => Null
    case Some(p) => Obj(map[Key("event_id") := Str(p.eventId), Key("digest") := Str(p.digest)])
  }

  /** The report without its own digest. */
  const FACTS_NAMES: seq<string> := [
    "usage", "actual", "planned", "identity", "revision", "execution", "observed_at", "predecessor",
    "artifact_version", "authorization_observation"]

  function FactsValues(e: Evidence): (r: seq<Json>)
    ensures |r| == |FACTS_NAMES|
  {
    [UsageJson(e.usage), ActualJson(e.actual), PlannedJson(e.planned), IdentityJson(e.eventId, e.identity),
     Natural(e.revision), ExecutionJson(e.execution), Str(e.observedAt), PredecessorJson(e.predecessor),
     Word("2.0.0"), AuthorizationJson(e.authorization)]
  }

  function FactsJson(e: Evidence): Json {
    Record(FACTS_NAMES, FactsValues(e))
  }

  /** Everything a digest covers. */
  function Facts(e: Evidence): Evidence { e.(digest := []) }

  // ----- the JSON says everything -----

  /** Names of growing length, and by first letter among those of one length. */
  predicate Ordered(names: seq<string>) {
    && (forall i :: 0 <= i < |names| ==> names[i] != "")
    && forall i :: 0 <= i < |names| - 1 ==> Rank(names[i]) < Rank(names[i + 1])
  }

  function Rank(name: string): int {
    if name == "" then 0 else |name| * 0x10000 + name[0] as int
  }

  lemma {:induction false} RanksGrow(names: seq<string>, i: nat, j: nat)
    requires Ordered(names) && i < j < |names|
    ensures Rank(names[i]) < Rank(names[j])
    decreases j
  {
    if i < j - 1 { RanksGrow(names, i, j - 1); }
  }

  lemma {:induction false} KeysAreDistinct(names: seq<string>)
    requires Ordered(names)
    ensures Distinct(Keys(names))
  {
    forall i, j | 0 <= i < j < |names| ensures Keys(names)[i] != Keys(names)[j] {
      RanksGrow(names, i, j);
      assert Tag(Keys(names)[i]) == Rank(names[i]) && Tag(Keys(names)[j]) == Rank(names[j]);
    }
  }

  lemma {:induction false} PairsAt(keys: seq<JsString>, values: seq<Json>, i: nat)
    requires Distinct(keys) && i < |keys| == |values|
    ensures keys[i] in Pairs(keys, values) && Pairs(keys, values)[keys[i]] == values[i]
    decreases |keys|
  {
    var n := |keys| - 1;
    if i < n { PairsAt(keys[..n], values[..n], i); }
  }

  lemma {:induction false} RecordIsInjective(names: seq<string>, v: seq<Json>, w: seq<Json>)
    requires Ordered(names) && |v| == |names| == |w| && Record(names, v) == Record(names, w)
    ensures v == w
  {
    KeysAreDistinct(names);
    forall i | 0 <= i < |v| ensures v[i] == w[i] {
      PairsAt(Keys(names), v, i);
      PairsAt(Keys(names), w, i);
    }
  }

  lemma {:induction false} IdentityNamesAreOrdered()
    ensures Ordered(IDENTITY_NAMES)
  {
  }

  lemma {:induction false} PlannedNamesAreOrdered()
    ensures Ordered(PLANNED_NAMES)
  {
  }

  lemma {:induction false} TokenUsageNamesAreOrdered()
    ensures Ordered(TOKEN_USAGE_NAMES)
  {
  }

  lemma {:induction false} FactsNamesAreOrdered()
    ensures Ordered(FACTS_NAMES)
  {
  }

  lemma {:induction false} NaturalIsInjective(a: nat, b: nat)
    requires Natural(a) == Natural(b)
    ensures a == b
  {
    ValueOfNumeral(a);
    ValueOfNumeral(b);
  }

  lemma {:induction false} TextsAreInjective(a: seq<JsString>, b: seq<JsString>)
    requires Texts(a) == Texts(b)
    ensures a == b
  {
    assert |Texts(a).items| == |Texts(b).items|;
    forall i | 0 <= i < |a| ensures a[i] == b[i] { assert Texts(a).items[i] == Texts(b).items[i]; }
  }

  lemma {:induction false} PartyIsInjective(a: Party, b: Party)
    requires PartyJson(a) == PartyJson(b)
    ensures a == b
  {
    var m, n := PartyJson(a).members, PartyJson(b).members;
    assert m[Key("kind")] == n[Key("kind")];
    assert m[Key("opaque_ref")] == n[Key("opaque_ref")];
  }

  lemma {:induction false} LeaseIsInjective(a: Lease, b: Lease)
    requires LeaseJson(a) == LeaseJson(b)
    ensures a == b
  {
    var m, n := LeaseJson(a).members, LeaseJson(b).members;
    assert m[Key("owner")] == n[Key("owner")];
    assert m[Key("generation")] == n[Key("generation")];
    NaturalIsInjective(a.generation, b.generation);
  }

  lemma {:induction false} IdentityIsInjective(e: JsString, a: Identity, f: JsString, b: Identity)
    requires IdentityJson(e, a) == IdentityJson(f, b)
    ensures e == f && a == b
  {
    var v, w := IdentityValues(e, a), IdentityValues(f, b);
    IdentityNamesAreOrdered();
    RecordIsInjective(IDENTITY_NAMES, v, w);
    assert v[0] == w[0] && v[1] == w[1] && v[2] == w[2] && v[3] == w[3] && v[4] == w[4];
    assert v[5] == w[5] && v[6] == w[6] && v[7] == w[7] && v[8] == w[8] && v[9] == w[9];
    assert v[10] == w[10] && v[11] == w[11] && v[12] == w[12];
    PartyIsInjective(a.actor, b.actor);
    PartyIsInjective(a.subject, b.subject);
    NaturalIsInjective(a.attemptOrdinal, b.attemptOrdinal);
    LeaseIsInjective(a.lease, b.lease);
    TextsAreInjective(a.peerPath, b.peerPath);
  }

  lemma {:induction false} PlannedIsInjective(a: Planned, b: Planned)
    requires PlannedJson(a) == PlannedJson(b)
    ensures a == b
  {
    var v, w := PlannedValues(a), PlannedValues(b);
    PlannedNamesAreOrdered();
    RecordIsInjective(PLANNED_NAMES, v, w);
    assert v[0] == w[0] && v[1] == w[1] && v[2] == w[2] && v[3] == w[3] && v[4] == w[4];
    assert v[5] == w[5] && v[6] == w[6] && v[7] == w[7] && v[8] == w[8] && v[9] == w[9];
    assert v[10] == w[10] && v[11] == w[11];
    NaturalIsInjective(a.revision, b.revision);
    NaturalIsInjective(a.generation, b.generation);
    NaturalIsInjective(a.tenantGeneration, b.tenantGeneration);
  }

  lemma {:induction false} ActualIsInjective(a: Actual, b: Actual)
    requires ActualJson(a) == ActualJson(b)
    ensures a == b
  {
    var m, n := ActualJson(a).members, ActualJson(b).members;
    assert m[Key("state")] == n[Key("state")];
    if a.UnknownActual? {
      assert m[Key("reason")] == n[Key("reason")];
    } else {
      assert m[Key("provider_ref")] == n[Key("provider_ref")];
      assert m[Key("model_ref")] == n[Key("model_ref")];
      assert m[Key("evidence_ref")] == n[Key("evidence_ref")];
      assert m[Key("evidence_digest")] == n[Key("evidence_digest")];
    }
  }

  lemma {:induction false} AuthorizationIsInjective(a: Authorization, b: Authorization)
    requires AuthorizationJson(a) == AuthorizationJson(b)
    ensures a == b
  {
    var m, n := AuthorizationJson(a).members, AuthorizationJson(b).members;
    assert m[Key("state")] == n[Key("state")];
    if !a.NotRequested? { assert m[Key("request_ref")] == n[Key("request_ref")]; }
    if a.Granted? { assert m[Key("admission_ref")] == n[Key("admission_ref")]; }
  }

  lemma {:induction false} OutcomeIsInjective(a: Outcome, b: Outcome)
    requires OutcomeJson(a) == OutcomeJson(b)
    ensures a == b
  {
    assert Key("completed")[1] != Key("cancelled")[1];
  }

  lemma {:induction false} ExecutionIsInjective(a: Execution, b: Execution)
    requires ExecutionJson(a) == ExecutionJson(b)
    ensures a == b
  {
    var m, n := ExecutionJson(a).members, ExecutionJson(b).members;
    assert m[Key("outcome")] == n[Key("outcome")];
    assert m[Key("seal")] == n[Key("seal")];
    assert m[Key("prepared_at")] == n[Key("prepared_at")];
    assert m[Key("dispatch_started_at")] == n[Key("dispatch_started_at")];
    OutcomeIsInjective(a.outcome, b.outcome);
  }

  lemma {:induction false} CountIsInjective(a: Count, b: Count)
    requires CountJson(a) == CountJson(b)
    ensures a == b
  {
    var m, n := CountJson(a).members, CountJson(b).members;
    assert m[Key("state")] == n[Key("state")];
    if a.Reported? {
      assert m[Key("count")] == n[Key("count")];
      NaturalIsInjective(a.count, b.count);
    }
  }

  lemma {:induction false} ProfileIsInjective(a: Profile, b: Profile)
    requires ProfileJson(a) == ProfileJson(b)
    ensures a == b
  {
    var m, n := ProfileJson(a).members, ProfileJson(b).members;
    assert m[Key("state")] == n[Key("state")];
    if a.Unsupported? { assert m[Key("reason")] == n[Key("reason")]; }
  }

  lemma {:induction false} UsageValuesAreEqual(a: TokenUsage, b: TokenUsage)
    requires TokenUsageJson(a) == TokenUsageJson(b)
    ensures TokenUsageValues(a) == TokenUsageValues(b)
  {
    TokenUsageNamesAreOrdered();
    RecordIsInjective(TOKEN_USAGE_NAMES, TokenUsageValues(a), TokenUsageValues(b));
  }

  lemma {:induction false} CountsAreEqual(a: TokenUsage, b: TokenUsage)
    requires TokenUsageValues(a) == TokenUsageValues(b)
    ensures a.inputTotal == b.inputTotal && a.outputTotal == b.outputTotal && a.total == b.total
    ensures a.inputCacheRead == b.inputCacheRead && a.inputCacheWrite == b.inputCacheWrite
    ensures a.outputReasoning == b.outputReasoning
  {
    var v, w := TokenUsageValues(a), TokenUsageValues(b);
    assert v[1] == w[1] && v[3] == w[3] && v[4] == w[4] && v[7] == w[7] && v[8] == w[8] && v[9] == w[9];
    CountIsInjective(a.inputTotal, b.inputTotal);
    CountIsInjective(a.outputTotal, b.outputTotal);
    CountIsInjective(a.total, b.total);
    CountIsInjective(a.inputCacheRead, b.inputCacheRead);
    CountIsInjective(a.inputCacheWrite, b.inputCacheWrite);
    CountIsInjective(a.outputReasoning, b.outputReasoning);
  }

  lemma {:induction false} TokenUsageIsInjective(a: TokenUsage, b: TokenUsage)
    requires TokenUsageJson(a) == TokenUsageJson(b)
    ensures a == b
  {
    var v, w := TokenUsageValues(a), TokenUsageValues(b);
    UsageValuesAreEqual(a, b);
    CountsAreEqual(a, b);
    assert v[0] == w[0] && v[2] == w[2] && v[5] == w[5] && v[6] == w[6];
    assert v[10] == w[10] && v[11] == w[11] && v[12] == w[12];
    ProfileIsInjective(a.profileAssessment, b.profileAssessment);
  }

  lemma {:induction false} UsageStateIsEqual(a: Usage, b: Usage)
    requires UsageJson(a) == UsageJson(b)
    ensures a.Normalized? == b.Normalized? && a.rawUsageDigest == b.rawUsageDigest
  {
    var m, n := UsageJson(a).members, UsageJson(b).members;
    assert m[Key("state")] == n[Key("state")];
    assert m[Key("raw_usage_digest")] == n[Key("raw_usage_digest")];
  }

  lemma {:induction false} UsageIsInjective(a: Usage, b: Usage)
    requires UsageJson(a) == UsageJson(b)
    ensures a == b
  {
    UsageStateIsEqual(a, b);
    var m, n := UsageJson(a).members, UsageJson(b).members;
    if a.Normalized? {
      assert m[Key("value")] == n[Key("value")];
      TokenUsageIsInjective(a.value, b.value);
    } else {
      assert m[Key("reason")] == n[Key("reason")];
    }
  }

  lemma {:induction false} PredecessorIsInjective(a: Option<Predecessor>, b: Option<Predecessor>)
    requires PredecessorJson(a) == PredecessorJson(b)
    ensures a == b
  {
    if a.Some? && b.Some? {
      var m, n := PredecessorJson(a).members, PredecessorJson(b).members;
      assert m[Key("event_id")] == n[Key("event_id")];
      assert m[Key("digest")] == n[Key("digest")];
    }
  }

  /** Two reports with the same JSON are the same report, up to the digests they carry. */
  lemma {:induction false} FactsAreInjective(a: Evidence, b: Evidence)
    requires FactsJson(a) == FactsJson(b)
    ensures Facts(a) == Facts(b)
  {
    var v, w := FactsValues(a), FactsValues(b);
    FactsNamesAreOrdered();
    RecordIsInjective(FACTS_NAMES, v, w);
    assert v[0] == w[0] && v[1] == w[1] && v[2] == w[2] && v[3] == w[3] && v[4] == w[4];
    assert v[5] == w[5] && v[6] == w[6] && v[7] == w[7] && v[8] == w[8] && v[9] == w[9];
    IdentityIsInjective(a.eventId, a.identity, b.eventId, b.identity);
    PlannedIsInjective(a.planned, b.planned);
    ActualIsInjective(a.actual, b.actual);
    AuthorizationIsInjective(a.authorization, b.authorization);
    ExecutionIsInjective(a.execution, b.execution);
    UsageIsInjective(a.usage, b.usage);
    NaturalIsInjective(a.revision, b.revision);
    PredecessorIsInjective(a.predecessor, b.predecessor);
  }

  // ----- digests -----

  /** The text in front of the hashed JSON. */
  function Domain(): JsString { Ascii("kokoro-agent:model-usage-evidence:v2\n") }

  /** What is hashed for a JSON value, none for strings that the strict reader does not admit. */
  ghost function Sealed(v: Json, sha256: JsString -> JsString): Option<JsString> {
    if Printable(v, 1, AGENT) then Some(sha256(Domain() + Canonical(v))) else None
  }

  /** The digest of a report. */
  ghost function DigestBy(sha256: JsString -> JsString): Evidence -> Option<JsString> {
    (e: Evidence) => Sealed(FactsJson(e), sha256)
  }

  ghost predicate Separates(sha256: JsString -> JsString) {
    forall x, y :: sha256(x) == sha256(y) ==> x == y
  }

  lemma {:induction false} SealFixesJson(v: Json, w: Json, sha256: JsString -> JsString)
    requires Separates(sha256) && Sealed(v, sha256).Some? && Sealed(v, sha256) == Sealed(w, sha256)
    ensures v == w
  {
    var x, y := Canonical(v), Canonical(w);
    assert (Domain() + x)[|Domain()|..] == x && (Domain() + y)[|Domain()|..] == y;
    CanonicalIsInjective(v, w, AGENT);
  }

  /** If the hash function is injective, one digest belongs to one report: the canonical text of
      its JSON tells it apart from every other. */
  lemma {:induction false} DigestFixesFacts(a: Evidence, b: Evidence, sha256: JsString -> JsString)
    requires Separates(sha256) && DigestBy(sha256)(a).Some? && DigestBy(sha256)(a) == DigestBy(sha256)(b)
    ensures Facts(a) == Facts(b)
  {
    SealFixesJson(FactsJson(a), FactsJson(b), sha256);
    FactsAreInjective(a, b);
  }
}
