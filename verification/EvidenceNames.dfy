/** Under which property name each field of a report stands in its JSON. */
module EvidenceNames {
  import opened Unicode
  import opened AgentJson
  import opened EvidenceJson

  /** The object has this value under this name. */
  predicate Has(v: Json, name: string, value: Json) {
    v.Obj? && Ascii(name) in v.members && v.members[Ascii(name)] == value
  }

  /** Every name of the list stands for the value at its position. */
  ghost predicate HasEach(v: Json, names: seq<string>, values: seq<Json>)
    requires |names| == |values|
  {
    forall i :: 0 <= i < |names| ==> Has(v, names[i], values[i])
  }

  lemma {:induction false} RecordHas(names: seq<string>, values: seq<Json>)
    requires Ordered(names) && |names| == |values|
    ensures HasEach(Record(names, values), names, values)
  {
    KeysAreDistinct(names);
    forall i | 0 <= i < |names| ensures Has(Record(names, values), names[i], values[i]) {
      PairsAt(Keys(names), values, i);
    }
  }

  lemma {:induction false} TokenUsageNames(v: Json, values: seq<Json>)
    requires |values| == 13 && HasEach(v, TOKEN_USAGE_NAMES, values)
    ensures
      && Has(v, "unit", values[0]) && Has(v, "total", values[1]) && Has(v, "profile_id", values[2])
      && Has(v, "input_total", values[3]) && Has(v, "output_total", values[4])
      && Has(v, "totals_state", values[5]) && Has(v, "source_protocol", values[6])
      && Has(v, "aggregation_mode", values[7]) && Has(v, "input_cache_read", values[8])
      && Has(v, "output_reasoning", values[9]) && Has(v, "input_cache_write", values[10])
      && Has(v, "profile_assessment", values[11]) && Has(v, "classification_state", values[12])
  {
    var names := TOKEN_USAGE_NAMES;
    assert names[0] == "unit" && names[1] == "total" && names[2] == "profile_id" && names[3] == "input_total";
    assert names[4] == "output_total" && names[5] == "totals_state" && names[6] == "source_protocol" && names[7] == "aggregation_mode";
    assert names[8] == "input_cache_read" && names[9] == "output_reasoning" && names[10] == "input_cache_write" && names[11] == "profile_assessment";
    assert names[12] == "classification_state";
  }

  /** Each of the thirteen fields of the token usage stands under its own name. */
  lemma {:induction false} TokenUsageByName(u: TokenUsage)
    ensures var v := TokenUsageJson(u);
      && Has(v, "unit", Str(u.unit)) && Has(v, "total", CountJson(u.total))
      && Has(v, "profile_id", Str(u.profileId)) && Has(v, "input_total", CountJson(u.inputTotal))
      && Has(v, "output_total", CountJson(u.outputTotal)) && Has(v, "totals_state", TotalsJson(u.totalsState))
      && Has(v, "source_protocol", ProtocolJson(u.sourceProtocol))
      && Has(v, "aggregation_mode", Str(u.aggregationMode))
      && Has(v, "input_cache_read", CountJson(u.inputCacheRead))
      && Has(v, "output_reasoning", CountJson(u.outputReasoning))
      && Has(v, "input_cache_write", CountJson(u.inputCacheWrite))
      && Has(v, "profile_assessment", ProfileJson(u.profileAssessment))
      && Has(v, "classification_state", ClassificationJson(u.classificationState))
  {
    TokenUsageNamesAreOrdered();
    RecordHas(TOKEN_USAGE_NAMES, TokenUsageValues(u));
    TokenUsageNames(TokenUsageJson(u), TokenUsageValues(u));
  }

  /** Each of the thirteen fields of the identity, the event id among them. */
  lemma {:induction false} IdentityByName(eventId: JsString, x: Identity)
    ensures var v := IdentityJson(eventId, x);
      && Has(v, "actor", PartyJson(x.actor)) && Has(v, "lease", LeaseJson(x.lease))
      && Has(v, "run_id", Str(x.runId)) && Has(v, "call_id", Str(x.callId))
      && Has(v, "subject", PartyJson(x.subject)) && Has(v, "event_id", Str(eventId))
      && Has(v, "peer_path", Texts(x.peerPath)) && Has(v, "attempt_id", Str(x.attemptId))
      && Has(v, "session_id", Str(x.sessionId)) && Has(v, "tenant_ref", Str(x.tenantRef))
      && Has(v, "input_digest", Str(x.inputDigest)) && Has(v, "attempt_ordinal", Natural(x.attemptOrdinal))
      && Has(v, "identity_assertion_ref", Str(x.identityAssertionRef))
  {
    var names := IDENTITY_NAMES;
    IdentityNamesAreOrdered();
    RecordHas(names, IdentityValues(eventId, x));
    assert names[0] == "actor" && names[1] == "lease" && names[2] == "run_id" && names[3] == "call_id";
    assert names[4] == "subject" && names[5] == "event_id" && names[6] == "peer_path" && names[7] == "attempt_id";
    assert names[8] == "session_id" && names[9] == "tenant_ref" && names[10] == "input_digest" && names[11] == "attempt_ordinal";
    assert names[12] == "identity_assertion_ref";
  }

  /** Each of the twelve fields of the planned binding. */
  lemma {:induction false} PlannedByName(p: Planned)
    ensures var v := PlannedJson(p);
      && Has(v, "label", Text(p.labelText)) && Has(v, "model", Str(p.model)) && Has(v, "digest", Str(p.digest))
      && Has(v, "provider", Str(p.provider)) && Has(v, "revision", Natural(p.revision))
      && Has(v, "generation", Natural(p.generation)) && Has(v, "feature_key", Str(p.featureKey))
      && Has(v, "revision_id", Str(p.revisionId)) && Has(v, "request_model", Str(p.requestModel))
      && Has(v, "binding_version", Str(p.bindingVersion))
      && Has(v, "tenant_generation", Natural(p.tenantGeneration))
      && Has(v, "provider_model_name", Str(p.providerModelName))
  {
    var names := PLANNED_NAMES;
    PlannedNamesAreOrdered();
    RecordHas(names, PlannedValues(p));
    assert names[0] == "label" && names[1] == "model" && names[2] == "digest" && names[3] == "provider";
    assert names[4] == "revision" && names[5] == "generation" && names[6] == "feature_key" && names[7] == "revision_id";
    assert names[8] == "request_model" && names[9] == "binding_version" && names[10] == "tenant_generation" && names[11] == "provider_model_name";
  }

  lemma {:induction false} FactsNames(v: Json, values: seq<Json>)
    requires |values| == 10 && HasEach(v, FACTS_NAMES, values)
    ensures
      && Has(v, "usage", values[0]) && Has(v, "actual", values[1]) && Has(v, "planned", values[2])
      && Has(v, "identity", values[3]) && Has(v, "revision", values[4]) && Has(v, "execution", values[5])
      && Has(v, "observed_at", values[6]) && Has(v, "predecessor", values[7])
      && Has(v, "artifact_version", values[8]) && Has(v, "authorization_observation", values[9])
  {
    var names := FACTS_NAMES;
    assert names[0] == "usage" && names[1] == "actual" && names[2] == "planned" && names[3] == "identity";
    assert names[4] == "revision" && names[5] == "execution" && names[6] == "observed_at" && names[7] == "predecessor";
    assert names[8] == "artifact_version" && names[9] == "authorization_observation";
  }

  /** Each of the ten parts a digest covers. */
  lemma {:induction false} FactsByName(e: Evidence)
    ensures var v := FactsJson(e);
      && Has(v, "usage", UsageJson(e.usage)) && Has(v, "actual", ActualJson(e.actual))
      && Has(v, "planned", PlannedJson(e.planned)) && Has(v, "identity", IdentityJson(e.eventId, e.identity))
      && Has(v, "revision", Natural(e.revision)) && Has(v, "execution", ExecutionJson(e.execution))
      && Has(v, "observed_at", Str(e.observedAt)) && Has(v, "predecessor", PredecessorJson(e.predecessor))
      && Has(v, "artifact_version", Str(Ascii("2.0.0")))
      && Has(v, "authorization_observation", AuthorizationJson(e.authorization))
  {
    FactsNamesAreOrdered();
    RecordHas(FACTS_NAMES, FactsValues(e));
    FactsNames(FactsJson(e), FactsValues(e));
  }
}
