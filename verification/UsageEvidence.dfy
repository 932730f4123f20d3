/** Usage evidence of one model call: the checks of a single report, and the order in which a
    later report may succeed an earlier one. Reports are records that passed the reader and the
    schema; a digest is the hash of the canonical JSON of everything else in the report. */
module UsageEvidence {
  import opened Outcomes
  import opened Unicode
  import opened EvidenceJson

  // ----- one report -----

  const COUNTS := [InputTotal, OutputTotal, Total, InputCacheRead, InputCacheWrite, OutputReasoning]

  function CountOf(u: TokenUsage, name: CountName): Count {
    match name
    case InputTotal => u.inputTotal
    case OutputTotal => u.outputTotal
    case Total => u.total
    case InputCacheRead => u.inputCacheRead
    case InputCacheWrite => u.inputCacheWrite
    case OutputReasoning => u.outputReasoning
  }

  predicate TotalsKnown(u: TokenUsage) {
    u.inputTotal.Reported? && u.outputTotal.Reported? && u.total.Reported?
  }

  /** What the three totals amount to. */
  function StateOf(u: TokenUsage): TotalsState {
    if !TotalsKnown(u) then UnknownTotals else if u.total.count == 0 then KnownZero else KnownNonzero
  }

  predicate AtMost(child: Count, parent: Count) {
    child.Reported? && parent.Reported? ==> child.count <= parent.count
  }

  /** The counts of one normalized usage agree with each other and with its two states. */
  predicate UsageOk(u: TokenUsage) {
    && (forall name :: !CountOf(u, name).NotApplicable?)
    && u.inputCacheWrite.Unreported?
    && (u.sourceProtocol.Ollama? ==> u.inputCacheRead.Unreported? && u.outputReasoning.Unreported?)
    && (TotalsKnown(u) ==> u.inputTotal.count + u.outputTotal.count == u.total.count)
    && u.totalsState == StateOf(u)
    && AtMost(u.inputCacheRead, u.inputTotal) && AtMost(u.outputReasoning, u.outputTotal)
    && u.classificationState
       == if u.profileAssessment.Unsupported? || u.totalsState.UnknownTotals? then UnknownClass else Partial
  }

  /** The loops of validateUsage: every count, then the two pairs of child and parent. */
  method ValidateUsage(u: TokenUsage) returns (ok: bool)
    ensures ok == UsageOk(u)
  {
    var k := 0;
    while k < |COUNTS|
      invariant 0 <= k <= |COUNTS| && forall i :: 0 <= i < k ==> !CountOf(u, COUNTS[i]).NotApplicable?
    {
      if CountOf(u, COUNTS[k]).NotApplicable? { return false; }
      k := k + 1;
    }
    assert forall name :: !CountOf(u, name).NotApplicable? by { EveryCountListed(u); }
    if !u.inputCacheWrite.Unreported? { return false; }
    if u.sourceProtocol.Ollama? && !(u.inputCacheRead.Unreported? && u.outputReasoning.Unreported?) { return false; }
    var state := UnknownTotals;
    if u.inputTotal.Reported? && u.outputTotal.Reported? && u.total.Reported? {
      if u.inputTotal.count + u.outputTotal.count != u.total.count { return false; }
      state := if u.total.count == 0 then KnownZero else KnownNonzero;
    }
    if u.totalsState != state { return false; }
    var pairs := [(u.inputCacheRead, u.inputTotal), (u.outputReasoning, u.outputTotal)];
    k := 0;
    while k < |pairs|
      invariant 0 <= k <= 2 && forall i :: 0 <= i < k ==> AtMost(pairs[i].0, pairs[i].1)
    {
      if !AtMost(pairs[k].0, pairs[k].1) {
        assert pairs[k].0 == (if k == 0 then u.inputCacheRead else u.outputReasoning);
        return false;
      }
      k := k + 1;
    }
    assert AtMost(pairs[0].0, pairs[0].1) && AtMost(pairs[1].0, pairs[1].1);
    ok := u.classificationState
       == if u.profileAssessment.Unsupported? || state.UnknownTotals? then UnknownClass else Partial;
  }

  lemma {:induction false} EveryCountListed(u: TokenUsage)
    requires forall i :: 0 <= i < |COUNTS| ==> !CountOf(u, COUNTS[i]).NotApplicable?
    ensures forall name :: !CountOf(u, name).NotApplicable?
  {
    forall name ensures !CountOf(u, name).NotApplicable? {
      assert COUNTS[0] == InputTotal && COUNTS[1] == OutputTotal && COUNTS[2] == Total;
      assert COUNTS[3] == InputCacheRead && COUNTS[4] == InputCacheWrite && COUNTS[5] == OutputReasoning;
    }
  }

  predicate Dispatched(e: Evidence) {
    e.execution.dispatchStartedAt.Some?
  }

  /** What decoding lets through. */
  predicate Decoded(e: Evidence, digestOf: Evidence -> Option<JsString>) {
    && 1 <= e.revision
    && (e.revision == 1 <==> e.predecessor.None?)
    && (e.predecessor.Some? ==> e.predecessor.value.eventId != e.eventId && e.predecessor.value.digest != e.digest)
    && (Dispatched(e) ==> e.authorization.Granted?)
    && (e.execution.outcome.NotDispatched? ==> !Dispatched(e))
    && (e.execution.outcome.Completed? || e.execution.outcome.Failed? ==> Dispatched(e))
    && (e.usage.Normalized? ==> UsageOk(e.usage.value) && Dispatched(e))
    && digestOf(Facts(e)) == Some(e.digest)
  }

  /** The counts of a legal usage: the totals add up or one is missing, no detail exceeds its total, and
      the two states say just that. */
  lemma {:induction false} UsageExactly(u: TokenUsage)
    ensures UsageOk(u)
            <==> && NotApplicable !in {u.inputTotal, u.outputTotal, u.total, u.inputCacheRead, u.outputReasoning}
                 && u.inputCacheWrite == Unreported
                 && (u.sourceProtocol == Ollama ==> u.inputCacheRead == Unreported == u.outputReasoning)
                 && (match (u.inputTotal, u.outputTotal, u.total)
                     case (Reported(i), Reported(o), Reported(t)) =>
                       i + o == t && u.totalsState == (if t == 0 then KnownZero else KnownNonzero)
                     case _ => u.totalsState == UnknownTotals)
                 && (match (u.inputCacheRead, u.inputTotal) case (Reported(c), Reported(i)) => c <= i case _ => true)
                 && (match (u.outputReasoning, u.outputTotal) case (Reported(c), Reported(o)) => c <= o case _ => true)
                 && u.classificationState ==
                    if u.profileAssessment == Supported && u.inputTotal.Reported? && u.outputTotal.Reported? && u.total.Reported?
                    then Partial else UnknownClass
  {
    if UsageOk(u) {
      assert !CountOf(u, InputTotal).NotApplicable? && !CountOf(u, OutputTotal).NotApplicable?;
      assert !CountOf(u, Total).NotApplicable? && !CountOf(u, InputCacheRead).NotApplicable?;
      assert !CountOf(u, OutputReasoning).NotApplicable?;
    }
  }

  /** A legal report: first without a predecessor or later with another one; not dispatched and
      without counts, or dispatched under a grant; and with the digest of its facts. */
  lemma {:induction false} DecodedExactly(e: Evidence, digestOf: Evidence -> Option<JsString>)
    ensures Decoded(e, digestOf)
            <==> && (match e.predecessor
                     case None => e.revision == 1
                     case Some(p) => e.revision >= 2 && p.eventId != e.eventId && p.digest != e.digest)
                 && (match e.execution.dispatchStartedAt
                     case None => e.execution.outcome in {NotDispatched, Cancelled, UnknownOutcome} && e.usage.Unresolved?
                     case Some(_) =>
                       && e.execution.outcome in {Completed, Failed, Cancelled, UnknownOutcome} && e.authorization.Granted?
                       && (e.usage.Normalized? ==> UsageOk(e.usage.value)))
                 && digestOf(e.(digest := [])) == Some(e.digest)
  {
  }

  // ----- succession -----

  predicate CountsKept(before: TokenUsage, after: TokenUsage) {
    forall name :: CountOf(before, name).Reported? ==> CountOf(before, name) == CountOf(after, name)
  }

  predicate UsageKept(before: TokenUsage, after: TokenUsage) {
    && before.profileAssessment == after.profileAssessment
    && before.profileId == after.profileId && before.sourceProtocol == after.sourceProtocol
    && before.aggregationMode == after.aggregationMode && before.unit == after.unit
    && CountsKept(before, after)
  }

  predicate AuthorizationKept(before: Authorization, after: Authorization) {
    match before
    case NotRequested => true
    case RequestedUnknown(request) => !after.NotRequested? && after.requestRef == request
    case Denied(_) => before == after
    case Granted(_, _) => before == after
  }

  /** Whatever the earlier report knew, the later one still says. */
  predicate Kept(before: Evidence, after: Evidence) {
    && (before.usage.rawUsageDigest.Some? ==> before.usage.rawUsageDigest == after.usage.rawUsageDigest)
    && (before.actual.VerifiedActual? ==> before.actual == after.actual)
    && (!before.execution.outcome.UnknownOutcome? ==> before.execution.outcome == after.execution.outcome)
    && before.execution.preparedAt == after.execution.preparedAt
    && (Dispatched(before) ==> before.execution.dispatchStartedAt == after.execution.dispatchStartedAt)
    && (before.execution.seal ==> after.execution.seal)
    && AuthorizationKept(before.authorization, after.authorization)
    && (before.usage.Normalized? ==> after.usage.Normalized? && UsageKept(before.usage.value, after.usage.value))
  }

  /** The same, field by field. */
  predicate Remembers(a: Evidence, b: Evidence) {
    && (a.usage.rawUsageDigest.Some? ==> b.usage.rawUsageDigest == a.usage.rawUsageDigest)
    && (a.actual.VerifiedActual? ==> b.actual == a.actual)
    && (a.execution.outcome != UnknownOutcome ==> b.execution.outcome == a.execution.outcome)
    && b.execution.preparedAt == a.execution.preparedAt
    && (a.execution.dispatchStartedAt.Some? ==> b.execution.dispatchStartedAt == a.execution.dispatchStartedAt)
    && (a.execution.seal ==> b.execution.seal)
    && (a.authorization.Denied? || a.authorization.Granted? ==> b.authorization == a.authorization)
    && (a.authorization.RequestedUnknown? ==>
          || b.authorization == RequestedUnknown(a.authorization.requestRef)
          || b.authorization == Denied(a.authorization.requestRef)
          || (b.authorization.Granted? && b.authorization.requestRef == a.authorization.requestRef))
    && (a.usage.Normalized? ==>
          && b.usage.Normalized?
          && var u, w := a.usage.value, b.usage.value;
          && w.profileId == u.profileId && w.unit == u.unit && w.sourceProtocol == u.sourceProtocol
          && w.aggregationMode == u.aggregationMode && w.profileAssessment == u.profileAssessment
          && (u.inputTotal.Reported? ==> w.inputTotal == u.inputTotal)
          && (u.outputTotal.Reported? ==> w.outputTotal == u.outputTotal)
          && (u.total.Reported? ==> w.total == u.total)
          && (u.inputCacheRead.Reported? ==> w.inputCacheRead == u.inputCacheRead)
          && (u.inputCacheWrite.Reported? ==> w.inputCacheWrite == u.inputCacheWrite)
          && (u.outputReasoning.Reported? ==> w.outputReasoning == u.outputReasoning))
  }

  lemma {:induction false} CountsKeptExactly(u: TokenUsage, w: TokenUsage)
    ensures CountsKept(u, w) <==>
              && (u.inputTotal.Reported? ==> w.inputTotal == u.inputTotal)
              && (u.outputTotal.Reported? ==> w.outputTotal == u.outputTotal)
              && (u.total.Reported? ==> w.total == u.total)
              && (u.inputCacheRead.Reported? ==> w.inputCacheRead == u.inputCacheRead)
              && (u.inputCacheWrite.Reported? ==> w.inputCacheWrite == u.inputCacheWrite)
              && (u.outputReasoning.Reported? ==> w.outputReasoning == u.outputReasoning)
  {
    if CountsKept(u, w) {
      assert CountOf(u, InputTotal) == u.inputTotal && CountOf(u, OutputTotal) == u.outputTotal;
      assert CountOf(u, Total) == u.total && CountOf(u, InputCacheRead) == u.inputCacheRead;
      assert CountOf(u, InputCacheWrite) == u.inputCacheWrite && CountOf(u, OutputReasoning) == u.outputReasoning;
    }
  }

  /** The checks on knowledge, which compare by name and by state, are exactly the fields. */
  lemma {:induction false} KeptExactly(a: Evidence, b: Evidence)
    ensures Kept(a, b) <==> Remembers(a, b)
  {
    if a.usage.Normalized? && b.usage.Normalized? { CountsKeptExactly(a.usage.value, b.usage.value); }
  }

  /** verifyAgentUsageSuccessor: the incoming report repeats the previous one, or is its next revision. */
  predicate Succeeds(previous: Evidence, incoming: Evidence, digestOf: Evidence -> Option<JsString>) {
    && Decoded(previous, digestOf) && Decoded(incoming, digestOf)
    && previous.identity == incoming.identity && previous.planned == incoming.planned
    && if previous.revision == incoming.revision then previous == incoming
       else
         && incoming.revision == previous.revision + 1
         && incoming.predecessor == Some(Predecessor(previous.eventId, previous.digest))
         && incoming.eventId != previous.eventId
         && Kept(previous, incoming)
  }

  /** When a readable report is accepted after another: it is the same report, or it is the next
      revision of the same call under a new event, names the other as its predecessor and remembers
      everything the other knew. */
  lemma {:induction false} AcceptedExactly(previous: Evidence, incoming: Evidence,
                                           digestOf: Evidence -> Option<JsString>)
    requires Decoded(previous, digestOf) && Decoded(incoming, digestOf)
    ensures Succeeds(previous, incoming, digestOf) <==>
              || incoming == previous
              || (&& incoming.identity == previous.identity && incoming.planned == previous.planned
                  && incoming.revision == previous.revision + 1 && incoming.eventId != previous.eventId
                  && incoming.predecessor.Some? && incoming.predecessor.value.eventId == previous.eventId
                  && incoming.predecessor.value.digest == previous.digest
                  && Remembers(previous, incoming))
  {
    KeptExactly(previous, incoming);
  }

  // ----- what holds along a chain of accepted successors -----

  ghost predicate Chain(reports: seq<Evidence>, digestOf: Evidence -> Option<JsString>) {
    forall i :: 0 <= i < |reports| - 1 ==> Succeeds(reports[i], reports[i + 1], digestOf)
  }

  lemma {:induction false} KeptByStep(a: Evidence, b: Evidence, digestOf: Evidence -> Option<JsString>)
    requires Succeeds(a, b, digestOf)
    ensures Remembers(a, b)
  {
    AcceptedExactly(a, b, digestOf);
  }

  lemma {:induction false} KeptIsTransitive(a: Evidence, b: Evidence, c: Evidence)
    requires Remembers(a, b) && Remembers(b, c)
    ensures Remembers(a, c)
  {
  }

  /** Once the totals of a usage are known, its state never changes: known zero stays zero. */
  lemma {:induction false} TotalsStay(a: Evidence, b: Evidence, digestOf: Evidence -> Option<JsString>)
    requires Remembers(a, b) && Decoded(a, digestOf) && Decoded(b, digestOf)
    requires a.usage.Normalized? && !a.usage.value.totalsState.UnknownTotals?
    ensures b.usage.Normalized? && b.usage.value.totalsState == a.usage.value.totalsState
  {
  }

  /** The number of steps between two positions that are not mere repetitions. */
  function StrictSteps(reports: seq<Evidence>, i: nat, j: nat): nat
    requires i <= j < |reports|
    decreases j - i
  {
    if i == j then 0
    else StrictSteps(reports, i, j - 1) + if reports[j - 1].revision == reports[j].revision then 0 else 1
  }

  /** What a later report of the chain owes an earlier one. */
  ghost predicate Follows(a: Evidence, b: Evidence, steps: nat) {
    && a.identity == b.identity && a.planned == b.planned
    && b.revision == a.revision + steps && (steps == 0 ==> a == b)
    && Remembers(a, b)
    && (a.usage.Normalized? && !a.usage.value.totalsState.UnknownTotals? ==>
          b.usage.Normalized? && b.usage.value.totalsState == a.usage.value.totalsState)
    && (a.execution.outcome.NotDispatched? ==> !Dispatched(b))
  }

  /** Along any chain, between any two reports: knowledge only grows, and the revision counts
      exactly the strict steps. */
  lemma {:induction false} ChainKeepsKnowledge(reports: seq<Evidence>, i: nat, j: nat, digestOf: Evidence -> Option<JsString>)
    requires Chain(reports, digestOf) && i <= j < |reports| && Decoded(reports[i], digestOf)
    ensures Decoded(reports[j], digestOf) && Follows(reports[i], reports[j], StrictSteps(reports, i, j))
    decreases j - i
  {
    var a := reports[i];
    if i == j {
      assert Remembers(a, a);
    } else {
      ChainKeepsKnowledge(reports, i, j - 1, digestOf);
      var b, c := reports[j - 1], reports[j];
      assert Succeeds(reports[j - 1], reports[j - 1 + 1], digestOf);
      KeptByStep(b, c, digestOf);
      KeptIsTransitive(a, b, c);
      if a.usage.Normalized? && !a.usage.value.totalsState.UnknownTotals? { TotalsStay(a, c, digestOf); }
    }
  }

  /** A denied call stays undispatched: no later report has a dispatch instant, a completed or failed
      outcome, or normalized usage. */
  lemma {:induction false} DeniedIsNeverDispatched(reports: seq<Evidence>, i: nat, j: nat,
                                                   digestOf: Evidence -> Option<JsString>)
    requires Chain(reports, digestOf) && i <= j < |reports| && Decoded(reports[i], digestOf)
    requires reports[i].authorization.Denied?
    ensures reports[j].authorization == reports[i].authorization && reports[j].execution.dispatchStartedAt.None?
    ensures reports[j].execution.outcome != Completed && reports[j].execution.outcome != Failed
    ensures reports[j].usage.Unresolved?
  {
    ChainKeepsKnowledge(reports, i, j, digestOf);
  }

  // ----- the history behind a report -----

  /** One digest belongs to one report. */
  ghost predicate Injective(digestOf: Evidence -> Option<JsString>) {
    forall a, b :: digestOf(Facts(a)).Some? && digestOf(Facts(a)) == digestOf(Facts(b)) ==> Facts(a) == Facts(b)
  }

  /** Two reports that a strict successor could both have followed are the same report. */
  lemma {:induction false} PredecessorIsUnique(p: Evidence, q: Evidence, e: Evidence, digestOf: Evidence -> Option<JsString>)
    requires Injective(digestOf) && Succeeds(p, e, digestOf) && Succeeds(q, e, digestOf)
    requires p.revision != e.revision && q.revision != e.revision
    ensures p == q
  {
    assert Facts(p) == Facts(q);
    assert p == Facts(p).(digest := p.digest) && q == Facts(q).(digest := q.digest);
  }

  ghost predicate Strict(reports: seq<Evidence>) {
    forall i :: 0 <= i < |reports| - 1 ==> reports[i].revision != reports[i + 1].revision
  }

  lemma {:induction false} ChainPrefix(reports: seq<Evidence>, n: nat, digestOf: Evidence -> Option<JsString>)
    requires Chain(reports, digestOf) && Strict(reports) && n <= |reports|
    ensures Chain(reports[..n], digestOf) && Strict(reports[..n])
  {
    var short := reports[..n];
    forall i | 0 <= i < |short| - 1 ensures Succeeds(short[i], short[i + 1], digestOf) {
      assert Succeeds(reports[i], reports[i + 1], digestOf);
    }
    forall i | 0 <= i < |short| - 1 ensures short[i].revision != short[i + 1].revision {
      assert reports[i].revision != reports[i + 1].revision;
    }
  }

  lemma {:induction false} LastStep(reports: seq<Evidence>, digestOf: Evidence -> Option<JsString>)
    requires Chain(reports, digestOf) && Strict(reports) && |reports| > 1
    ensures var n := |reports| - 1;
            Succeeds(reports[n - 1], reports[n], digestOf) && reports[n - 1].revision != reports[n].revision
  {
    var k := |reports| - 2;
    assert Succeeds(reports[k], reports[k + 1], digestOf) && reports[k].revision != reports[k + 1].revision;
  }

  /** The last report fixes its whole history: two strict chains that end in the same report agree
      as far back as both go. */
  lemma {:induction false} HistoryIsUnique(a: seq<Evidence>, b: seq<Evidence>, digestOf: Evidence -> Option<JsString>)
    requires Injective(digestOf) && Chain(a, digestOf) && Chain(b, digestOf) && Strict(a) && Strict(b)
    requires 0 < |a| <= |b| && a[|a| - 1] == b[|b| - 1]
    ensures a == b[|b| - |a|..]
    decreases |a|
  {
    var m, n := |a| - 1, |b| - 1;
    if m > 0 {
      LastStep(a, digestOf);
      LastStep(b, digestOf);
      PredecessorIsUnique(a[m - 1], b[n - 1], a[m], digestOf);
      ChainPrefix(a, m, digestOf);
      ChainPrefix(b, n, digestOf);
      HistoryIsUnique(a[..m], b[..n], digestOf);
      assert a == a[..m] + [a[m]] && b == b[..n] + [b[n]];
    }
  }

  /** A strict chain that starts at a first revision has as many reports as its last revision says,
      so the last report fixes all of it. */
  lemma {:induction false} WholeHistoryIsUnique(a: seq<Evidence>, b: seq<Evidence>, digestOf: Evidence -> Option<JsString>)
    requires Injective(digestOf) && Chain(a, digestOf) && Chain(b, digestOf) && Strict(a) && Strict(b)
    requires a != [] && b != [] && a[|a| - 1] == b[|b| - 1]
    requires Decoded(a[0], digestOf) && Decoded(b[0], digestOf)
    requires a[0].predecessor.None? && b[0].predecessor.None?
    ensures a == b
  {
    ChainKeepsKnowledge(a, 0, |a| - 1, digestOf);
    ChainKeepsKnowledge(b, 0, |b| - 1, digestOf);
    StrictStepsAll(a, |a| - 1);
    StrictStepsAll(b, |b| - 1);
    HistoryIsUnique(a, b, digestOf);
    assert b[0..] == b;
  }

  lemma {:induction false} StrictStepsAll(reports: seq<Evidence>, j: nat)
    requires Strict(reports) && j < |reports|
    ensures StrictSteps(reports, 0, j) == j
  {
    if j > 0 {
      StrictStepsAll(reports, j - 1);
      assert reports[j - 1].revision != reports[j - 1 + 1].revision;
    }
  }

  // ----- the digest of the canonical JSON -----

  lemma {:induction false} DigestsAreInjective(sha256: JsString -> JsString)
    requires Separates(sha256)
    ensures Injective(DigestBy(sha256))
  {
    var digestOf := DigestBy(sha256);
    forall a, b | digestOf(Facts(a)).Some? && digestOf(Facts(a)) == digestOf(Facts(b)) ensures Facts(a) == Facts(b) {
      DigestFixesFacts(Facts(a), Facts(b), sha256);
    }
  }

  lemma {:induction false} SameDigestSameReport(a: Evidence, b: Evidence, digestOf: Evidence -> Option<JsString>)
    requires Injective(digestOf) && Decoded(a, digestOf) && Decoded(b, digestOf) && a.digest == b.digest
    ensures a == b
  {
    assert Facts(a) == Facts(b);
    assert a == Facts(a).(digest := a.digest) && b == Facts(b).(digest := b.digest);
  }

  /** With digests of the canonical JSON under an injective hash, the digest of the last report alone
      fixes every report of its history. */
  lemma {:induction false} LastDigestFixesHistory(a: seq<Evidence>, b: seq<Evidence>, sha256: JsString -> JsString)
    requires Separates(sha256) && a != [] && b != [] && a[|a| - 1].digest == b[|b| - 1].digest
    requires Chain(a, DigestBy(sha256)) && Chain(b, DigestBy(sha256)) && Strict(a) && Strict(b)
    requires Decoded(a[0], DigestBy(sha256)) && Decoded(b[0], DigestBy(sha256))
    requires a[0].predecessor.None? && b[0].predecessor.None?
    ensures a == b
  {
    DigestsAreInjective(sha256);
    FixedByDigest(a, b, DigestBy(sha256));
  }

  lemma {:induction false} FixedByDigest(a: seq<Evidence>, b: seq<Evidence>, digestOf: Evidence -> Option<JsString>)
    requires Injective(digestOf) && a != [] && b != [] && a[|a| - 1].digest == b[|b| - 1].digest
    requires Chain(a, digestOf) && Chain(b, digestOf) && Strict(a) && Strict(b)
    requires Decoded(a[0], digestOf) && Decoded(b[0], digestOf)
    requires a[0].predecessor.None? && b[0].predecessor.None?
    ensures a == b
  {
    ChainKeepsKnowledge(a, 0, |a| - 1, digestOf);
    ChainKeepsKnowledge(b, 0, |b| - 1, digestOf);
    SameDigestSameReport(a[|a| - 1], b[|b| - 1], digestOf);
    WholeHistoryIsUnique(a, b, digestOf);
  }
}
