/** The published report envelope and the invariant asserted before it is published
    (src/report-contract.ts). */
module ReportContract {
  import opened Wrappers
  import opened DepGraph
  import opened Readiness
  import opened Reconcile
  import opened ReconcileSafety

  datatype Validator = Validator(
    repository: string, revision: string, authorityModel: string,
    typespecHumanAuthored: bool, jsonSchemaHumanAuthored: bool)

  datatype Policy = Policy(
    minimumOpenHours: real, confidenceThresholdPpm: int, confidenceComparison: string,
    minimumConflictHistoryCommitsPerSide: int)

  datatype Envelope = Envelope(
    schema: string, trackingIssue: string, validator: Validator, policy: Policy, report: PassReport)

  const REPORT_SCHEMA := "ores.pr-reconcile-report/v1"
  const TRACKING_ISSUE := "DEN-3946"
  const TJSV_REPOSITORY := "ORESoftware/typespec-json-schema-validator"
  const TJSV_REVISION := "4a5d049218adc2740d4cf78f612caf7f38f6f64c"
  const CONFIDENCE_COMPARISON := "strictly-greater-than"
  const CONFLICT_CONTEXT_COMMITS_MIN := 15

  /** What the assertion throws; the last four name the offending outcome. */
  datatype Violation =
    | WrongSchema | WrongIssue | WrongValidator | RevisionNotPinned | AuthoritiesNotPeers
    | SoakDrift | ThresholdDrift | ComparisonDrift | HistoryFloor
    | DryRunMerge(id: PullId) | MergedEarly(id: PullId) | MergedUnsure(id: PullId) | MergedDisturbed(id: PullId)

  predicate LowerHex(c: char) {
    '0' <= c <= '9' || 'a' <= c <= 'f'
  }

  /** The expression `^[0-9a-f]{40}$`. */
  predicate PinnedRevision(s: string) {
    |s| == 40 && forall i :: 0 <= i < |s| ==> LowerHex(s[i])
  }

  function ThresholdPpm(): int {
    (MERGE_CONFIDENCE_THRESHOLD * 1000000.0 + 0.5).Floor
  }

  function CheckOutcome(outcome: Outcome, dryRun: bool): Option<Violation> {
    if outcome.action != Merged then None
    else if dryRun then Some(DryRunMerge(outcome.id))
    else if outcome.hoursOpen < MIN_OPEN_HOURS then Some(MergedEarly(outcome.id))
    else if !(outcome.confidence > MERGE_CONFIDENCE_THRESHOLD) then Some(MergedUnsure(outcome.id))
    else if |outcome.disturbedBy| != 0 then Some(MergedDisturbed(outcome.id))
    else None
  }

  /** The loop over the outcomes, from position `i` on: the first violation thrown, if any. */
  function CheckOutcomes(report: PassReport, i: nat): Option<Violation>
    requires i <= |report.outcomes|
    decreases |report.outcomes| - i
  {
    if i == |report.outcomes| then None
    else
      var v := CheckOutcome(report.outcomes[i], report.dryRun);
      if v.Some? then v else CheckOutcomes(report, i + 1)
  }

  function CheckHeader(e: Envelope): Option<Violation> {
    if e.schema != REPORT_SCHEMA then Some(WrongSchema)
    else if e.trackingIssue != TRACKING_ISSUE then Some(WrongIssue)
    else if e.validator.repository != TJSV_REPOSITORY then Some(WrongValidator)
    else if !PinnedRevision(e.validator.revision) then Some(RevisionNotPinned)
    else if e.validator.authorityModel != "peer" || !e.validator.typespecHumanAuthored
            || !e.validator.jsonSchemaHumanAuthored then Some(AuthoritiesNotPeers)
    else if e.policy.minimumOpenHours != MIN_OPEN_HOURS then Some(SoakDrift)
    else if e.policy.confidenceThresholdPpm != ThresholdPpm() then Some(ThresholdDrift)
    else if e.policy.confidenceComparison != CONFIDENCE_COMPARISON then Some(ComparisonDrift)
    else if e.policy.minimumConflictHistoryCommitsPerSide < 15 then Some(HistoryFloor)
    else None
  }

  /** `assertReportEnvelopeInvariant`: the first violation, if any. */
  function AssertInvariant(e: Envelope): Option<Violation> {
    var header := CheckHeader(e);
    if header.Some? then header else CheckOutcomes(e.report, 0)
  }

  function Assemble(report: PassReport): Envelope {
    Envelope(REPORT_SCHEMA, TRACKING_ISSUE,
             Validator(TJSV_REPOSITORY, TJSV_REVISION, "peer", true, true),
             Policy(MIN_OPEN_HOURS, ThresholdPpm(), CONFIDENCE_COMPARISON, CONFLICT_CONTEXT_COMMITS_MIN),
             report)
  }

  /** `buildReportEnvelope`. */
  function BuildReportEnvelope(report: PassReport): Result<Envelope, Violation> {
    var e := Assemble(report);
    var v := AssertInvariant(e);
    if v.Some? then Err(v.value) else Ok(e)
  }

  /** The assembled constants pass their own checks; in particular the revision is forty hex digits. */
  lemma AssembledHeaderPasses(report: PassReport)
    ensures CheckHeader(Assemble(report)) == None
    ensures ThresholdPpm() == 995000
  {
  }

  lemma {:induction false} OutcomesPassExactly(report: PassReport, i: nat)
    requires i <= |report.outcomes|
    ensures CheckOutcomes(report, i) == None <==>
            forall k :: i <= k < |report.outcomes| ==> Claims(report.outcomes[k], report.dryRun)
    decreases |report.outcomes| - i
  {
    if i < |report.outcomes| {
      OutcomesPassExactly(report, i + 1);
      var o := report.outcomes[i];
      assert |o.disturbedBy| == 0 <==> o.disturbedBy == {};
      assert CheckOutcome(o, report.dryRun) == None <==> Claims(o, report.dryRun);
    }
  }

  /** A report is published exactly when every merge it claims was outside a dry run, soaked, sure and
      undisturbed. */
  lemma PublishedExactly(report: PassReport)
    ensures BuildReportEnvelope(report).Ok? <==> AllClaim(report.outcomes, report.dryRun)
  {
    AssembledHeaderPasses(report);
    OutcomesPassExactly(report, 0);
    if forall k :: 0 <= k < |report.outcomes| ==> Claims(report.outcomes[k], report.dryRun) {
      assert AllClaim(report.outcomes, report.dryRun);
    }
    if AllClaim(report.outcomes, report.dryRun) {
      forall k | 0 <= k < |report.outcomes|
        ensures Claims(report.outcomes[k], report.dryRun)
      {
        assert report.outcomes[k] in report.outcomes;
      }
    }
  }

  /** The outcome may be published: it claims no merge, or one outside a dry run, after 55 hours, with more than
      99.5 percent and undisturbed. */
  predicate Publishable(o: Outcome, dryRun: bool) {
    o.action != Merged || (!dryRun && o.hoursOpen >= 55.0 && o.confidence > 0.995 && o.disturbedBy == {})
  }

  /** The complaint about an outcome that may not. */
  predicate Complains(v: Violation, o: Outcome, dryRun: bool) {
    o.action == Merged &&
    match v
    case DryRunMerge(id) => id == o.id && dryRun
    case MergedEarly(id) => id == o.id && !dryRun && o.hoursOpen < 55.0
    case MergedUnsure(id) => id == o.id && !dryRun && o.hoursOpen >= 55.0 && o.confidence <= 0.995
    case MergedDisturbed(id) => id == o.id && !dryRun && o.hoursOpen >= 55.0 && o.confidence > 0.995 && o.disturbedBy != {}
    case _ => false
  }

  lemma CheckedExactly(o: Outcome, dryRun: bool)
    ensures CheckOutcome(o, dryRun).None? <==> Publishable(o, dryRun)
    ensures CheckOutcome(o, dryRun).Some? ==> Complains(CheckOutcome(o, dryRun).value, o, dryRun)
  {
    assert |o.disturbedBy| == 0 <==> o.disturbedBy == {};
  }

  lemma {:induction false} FirstComplaint(report: PassReport, i: nat) returns (k: nat)
    requires i <= |report.outcomes|
    ensures i <= k <= |report.outcomes| && forall m :: i <= m < k ==> Publishable(report.outcomes[m], report.dryRun)
    ensures if k == |report.outcomes| then CheckOutcomes(report, i) == None
            else CheckOutcomes(report, i).Some? && Complains(CheckOutcomes(report, i).value, report.outcomes[k], report.dryRun)
    decreases |report.outcomes| - i
  {
    k := i;
    if i < |report.outcomes| {
      CheckedExactly(report.outcomes[i], report.dryRun);
      if Publishable(report.outcomes[i], report.dryRun) {
        k := FirstComplaint(report, i + 1);
      }
    }
  }

  const HEADER_ORDER := [WrongSchema, WrongIssue, WrongValidator, RevisionNotPinned, AuthoritiesNotPeers, SoakDrift,
                         ThresholdDrift, ComparisonDrift, HistoryFloor]

  /** The fact whose absence this violation reports. */
  predicate HeaderFact(e: Envelope, v: Violation) {
    match v
    case WrongSchema => e.schema == "ores.pr-reconcile-report/v1"
    case WrongIssue => e.trackingIssue == "DEN-3946"
    case WrongValidator => e.validator.repository == "ORESoftware/typespec-json-schema-validator"
    case RevisionNotPinned =>
      |e.validator.revision| == 40
      && forall i :: 0 <= i < 40 ==>
           var code := e.validator.revision[i] as int; 48 <= code <= 57 || 97 <= code <= 102
    case AuthoritiesNotPeers =>
      e.validator.authorityModel == "peer" && e.validator.typespecHumanAuthored && e.validator.jsonSchemaHumanAuthored
    case SoakDrift => e.policy.minimumOpenHours == 55.0
    case ThresholdDrift => e.policy.confidenceThresholdPpm == 995000
    case ComparisonDrift => e.policy.confidenceComparison == "strictly-greater-than"
    case HistoryFloor => e.policy.minimumConflictHistoryCommitsPerSide >= 15
    case _ => true
  }

  lemma RevisionExactly(e: Envelope)
    ensures PinnedRevision(e.validator.revision) <==> HeaderFact(e, RevisionNotPinned)
  {
    var s := e.validator.revision;
    assert forall i :: 0 <= i < |s| ==>
      (LowerHex(s[i]) <==> 48 <= s[i] as int <= 57 || 97 <= s[i] as int <= 102);
  }

  /** The header of any envelope is refused for the first of these facts that does not hold. */
  lemma HeaderExactly(e: Envelope) returns (k: nat)
    ensures k <= 9 && forall i :: 0 <= i < k ==> HeaderFact(e, HEADER_ORDER[i])
    ensures if k == 9 then CheckHeader(e) == None else !HeaderFact(e, HEADER_ORDER[k]) && CheckHeader(e) == Some(HEADER_ORDER[k])
  {
    RevisionExactly(e);
    k := 0;
    while k < 9 && HeaderFact(e, HEADER_ORDER[k])
      invariant k <= 9 && forall i :: 0 <= i < k ==> HeaderFact(e, HEADER_ORDER[i])
    {
      k := k + 1;
    }
    assert k > 0 ==> HeaderFact(e, HEADER_ORDER[0]);
    assert k > 1 ==> HeaderFact(e, HEADER_ORDER[1]);
    assert k > 2 ==> HeaderFact(e, HEADER_ORDER[2]);
    assert k > 3 ==> HeaderFact(e, HEADER_ORDER[3]);
    assert k > 4 ==> HeaderFact(e, HEADER_ORDER[4]);
    assert k > 5 ==> HeaderFact(e, HEADER_ORDER[5]);
    assert k > 6 ==> HeaderFact(e, HEADER_ORDER[6]);
    assert k > 7 ==> HeaderFact(e, HEADER_ORDER[7]);
    assert k > 8 ==> HeaderFact(e, HEADER_ORDER[8]);
  }

  /** An envelope passes exactly when its whole header does and each of its outcomes may be published. */
  lemma InvariantExactly(e: Envelope)
    ensures AssertInvariant(e) == None <==>
              (forall i :: 0 <= i < 9 ==> HeaderFact(e, HEADER_ORDER[i]))
              && forall m :: 0 <= m < |e.report.outcomes| ==> Publishable(e.report.outcomes[m], e.report.dryRun)
  {
    var k := HeaderExactly(e);
    var m := FirstComplaint(e.report, 0);
    if m < |e.report.outcomes| {
      CheckedExactly(e.report.outcomes[m], e.report.dryRun);
    }
  }

  /** The report is published with the policy it was made under, or refused for its first outcome that may not be
      published. */
  lemma EnvelopeOnTheFacts(report: PassReport) returns (k: nat)
    ensures k <= |report.outcomes| && forall m :: 0 <= m < k ==> Publishable(report.outcomes[m], report.dryRun)
    ensures k < |report.outcomes| ==>
              BuildReportEnvelope(report).Err? && Complains(BuildReportEnvelope(report).error, report.outcomes[k], report.dryRun)
    ensures k == |report.outcomes| ==>
              BuildReportEnvelope(report).Ok?
              && BuildReportEnvelope(report).value
                 == Envelope("ores.pr-reconcile-report/v1", "DEN-3946",
                             Validator("ORESoftware/typespec-json-schema-validator", "4a5d049218adc2740d4cf78f612caf7f38f6f64c",
                                       "peer", true, true),
                             Policy(55.0, 995000, "strictly-greater-than", 15), report)
  {
    AssembledHeaderPasses(report);
    k := FirstComplaint(report, 0);
  }

  /** Every report the pass returns is published, for all answers GitHub may give. */
  lemma EveryReportIsPublished(edges: seq<DepEdge>, pass: Pass, listings: seq<Listing>)
    ensures var r := Reported(pass, |listings|, Visited(edges, pass, AllVisits(listings)).result);
            r.Ok? ==> BuildReportEnvelope(r.value).Ok?
  {
    PassClaims(edges, pass, AllVisits(listings));
    var r := Reported(pass, |listings|, Visited(edges, pass, AllVisits(listings)).result);
    if r.Ok? {
      PublishedExactly(r.value);
    }
  }
}
