/**
 Review results: the conflict lane and the drift lane of one run, and the check that counts both
 again before a result is written or after it is read.
 */
module Review {
  import opened Outcomes
  import opened Sorting
  import opened JsonText
  import opened Pointers
  import opened Observations
  import opened Authority
  import opened Conflicts
  import opened Snapshots
  import opened Artifacts
  import opened DriftPolicies
  import opened Drift
  import opened Build
  import opened ComparisonFacts

  /** The verdict of a reconciliation check on one conflict result. */
  datatype Assessment = Assessment(applicable: bool, safe: bool, reason: string)

  /** A conflict result in dictionary form. */
  datatype ReportEntry = ReportEntry(subject: Json, property: string, state: string, reason: string,
    valueGroups: seq<Json>, effective: Option<Json>, winningRule: Option<Json>)

  datatype ReportDict = ReportDict(schema: string, version: string, results: seq<ReportEntry>)

  datatype ReportIdentity = ReportIdentity(content: ReportDict)

  datatype AssessmentEntry = AssessmentEntry(subject: Json, property: string, applicable: bool, safe: bool, reason: string)

  datatype ConflictSummary = ConflictSummary(propertiesAnalyzed: int, single: int, agreement: int, resolved: int,
    unresolved: int, ambiguous: int, safe: int, blocked: int, notApplicable: int)

  /** Content identities of inputs that are not part of this model are opaque labels. */
  datatype Label = Label(digest: string)

  datatype ConflictsBlock = ConflictsBlock(status: string, observationsId: Option<Label>, authorityId: Option<Label>,
    reportId: Option<ReportIdentity>, summary: ConflictSummary, report: Option<ReportDict>, assessments: seq<AssessmentEntry>)

  datatype DriftIdentity = DriftIdentity(content: DriftResult)

  datatype DriftBlock = DriftBlock(status: string, baselineId: Option<ContentIdentity<Snapshot>>,
    candidateId: Option<ContentIdentity<Snapshot>>, comparisonId: Option<ComparisonIdentity>,
    policyId: Option<PolicyIdentity>, driftResultId: Option<DriftIdentity>, summary: Option<DriftSummary>)

  datatype ReviewResult = ReviewResult(conflicts: ConflictsBlock, drift: DriftBlock, status: string, writesPerformed: int)

  const REPORT_SCHEMA := "governance-property-conflicts"
  const REPORT_VERSION := "1"
  const NO_COUNTS := ConflictSummary(0, 0, 0, 0, 0, 0, 0, 0, 0)

  // ----- dictionary forms

  function StateText(s: State): string {
    match s
    case SingleObservation => "SINGLE_OBSERVATION"
    case Agreement => "AGREEMENT"
    case ResolvedByAuthority => "RESOLVED_BY_AUTHORITY"
    case UnresolvedConflict => "UNRESOLVED_CONFLICT"
    case InvalidOrAmbiguousAuthority => "INVALID_OR_AMBIGUOUS_AUTHORITY"
  }

  function ReasonText(r: Conflicts.Reason): string {
    match r
    case OneObserved => "SINGLE_OBSERVATION"
    case AllAgree => "AGREEMENT"
    case AuthorityResolved => "RESOLVED_BY_AUTHORITY"
    case NoAuthorityRule => "NO_AUTHORITY_RULE"
    case AuthoritativeSourceNotObserved => "AUTHORITATIVE_SOURCE_NOT_OBSERVED"
    case AuthoritativeSourceConflicted => "AUTHORITATIVE_SOURCE_CONFLICTED"
    case AmbiguousAuthority => "INVALID_OR_AMBIGUOUS_AUTHORITY"
  }

  function GroupDict(o: Observation): Json {
    Obj([Member("provenance", Arr(ProvenanceDicts(o.provenance))), Member("value", o.id.value)])
  }

  function GroupDicts(groups: seq<Observation>): seq<Json> {
    if groups == [] then [] else [GroupDict(groups[0])] + GroupDicts(groups[1..])
  }

  function ResultDict(r: ConflictResult): ReportEntry {
    ReportEntry(NodeDict(r.subject), Print(r.path), StateText(r.state), ReasonText(r.reason), GroupDicts(r.valueGroups),
      r.effective, if r.winningRule.Some? then Some(RuleKeyJson(r.winningRule.value)) else None)
  }

  function ResultDicts(results: seq<ConflictResult>): (d: seq<ReportEntry>)
    ensures |d| == |results| && forall i :: 0 <= i < |d| ==> d[i] == ResultDict(results[i])
  {
    if results == [] then [] else ResultDicts(results[..|results| - 1]) + [ResultDict(results[|results| - 1])]
  }

  function ReportDictOf(results: seq<ConflictResult>): ReportDict {
    ReportDict(REPORT_SCHEMA, REPORT_VERSION, ResultDicts(results))
  }

  function AssessmentDict(r: ConflictResult, a: Assessment): AssessmentEntry {
    AssessmentEntry(NodeDict(r.subject), Print(r.path), a.applicable, a.safe, a.reason)
  }

  function AssessmentDicts(results: seq<ConflictResult>, assessments: seq<Assessment>): (d: seq<AssessmentEntry>)
    requires |results| == |assessments|
    ensures |d| == |results| && forall i :: 0 <= i < |d| ==> d[i] == AssessmentDict(results[i], assessments[i])
  {
    if results == [] then []
    else
      var n := |results| - 1;
      AssessmentDicts(results[..n], assessments[..n]) + [AssessmentDict(results[n], assessments[n])]
  }

  // ----- counting

  function StateCount(results: seq<ReportEntry>, state: string): nat {
    if results == [] then 0
    else StateCount(results[..|results| - 1], state) + if results[|results| - 1].state == state then 1 else 0
  }

  datatype Verdict = NotApplicable | Safe | Blocked

  function VerdictOf(applicable: bool, safe: bool): Verdict {
    if !applicable then NotApplicable else if safe then Safe else Blocked
  }

  function VerdictCount(assessments: seq<AssessmentEntry>, v: Verdict): nat {
    if assessments == [] then 0
    else
      var a := assessments[|assessments| - 1];
      VerdictCount(assessments[..|assessments| - 1], v) + if VerdictOf(a.applicable, a.safe) == v then 1 else 0
  }

  /** The counts of a summary are those of the entries. */
  predicate Counted(s: ConflictSummary, results: seq<ReportEntry>, assessments: seq<AssessmentEntry>) {
    && s.single == StateCount(results, "SINGLE_OBSERVATION")
    && s.agreement == StateCount(results, "AGREEMENT")
    && s.resolved == StateCount(results, "RESOLVED_BY_AUTHORITY")
    && s.unresolved == StateCount(results, "UNRESOLVED_CONFLICT")
    && s.ambiguous == StateCount(results, "INVALID_OR_AMBIGUOUS_AUTHORITY")
    && s.safe == VerdictCount(assessments, Safe)
    && s.blocked == VerdictCount(assessments, Blocked)
    && s.notApplicable == VerdictCount(assessments, NotApplicable)
  }

  function WithState(s: ConflictSummary, state: string): ConflictSummary {
    if state == "SINGLE_OBSERVATION" then s.(single := s.single + 1)
    else if state == "AGREEMENT" then s.(agreement := s.agreement + 1)
    else if state == "RESOLVED_BY_AUTHORITY" then s.(resolved := s.resolved + 1)
    else if state == "UNRESOLVED_CONFLICT" then s.(unresolved := s.unresolved + 1)
    else if state == "INVALID_OR_AMBIGUOUS_AUTHORITY" then s.(ambiguous := s.ambiguous + 1)
    else s
  }

  function WithVerdict(s: ConflictSummary, v: Verdict): ConflictSummary {
    match v
    case NotApplicable => s.(notApplicable := s.notApplicable + 1)
    case Safe => s.(safe := s.safe + 1)
    case Blocked => s.(blocked := s.blocked + 1)
  }

  lemma StateStep(results: seq<ReportEntry>, r: ReportEntry, state: string)
    ensures StateCount(results + [r], state) == StateCount(results, state) + if r.state == state then 1 else 0
  {
    assert (results + [r])[..|results|] == results;
  }

  lemma VerdictStep(assessments: seq<AssessmentEntry>, a: AssessmentEntry, v: Verdict)
    ensures VerdictCount(assessments + [a], v) == VerdictCount(assessments, v) + if VerdictOf(a.applicable, a.safe) == v then 1 else 0
  {
    assert (assessments + [a])[..|assessments|] == assessments;
  }

  lemma CountStep(s: ConflictSummary, results: seq<ReportEntry>, assessments: seq<AssessmentEntry>, r: ReportEntry, a: AssessmentEntry)
    requires Counted(s, results, assessments)
    ensures Counted(WithVerdict(WithState(s, r.state), VerdictOf(a.applicable, a.safe)), results + [r], assessments + [a])
  {
    hide StateCount, VerdictCount;
    StateStep(results, r, "SINGLE_OBSERVATION");
    StateStep(results, r, "AGREEMENT");
    StateStep(results, r, "RESOLVED_BY_AUTHORITY");
    StateStep(results, r, "UNRESOLVED_CONFLICT");
    StateStep(results, r, "INVALID_OR_AMBIGUOUS_AUTHORITY");
    VerdictStep(assessments, a, Safe);
    VerdictStep(assessments, a, Blocked);
    VerdictStep(assessments, a, NotApplicable);
  }

  lemma {:induction false} VerdictsCovered(assessments: seq<AssessmentEntry>)
    ensures VerdictCount(assessments, Safe) + VerdictCount(assessments, Blocked) + VerdictCount(assessments, NotApplicable) == |assessments|
    ensures VerdictCount(assessments, Blocked) > 0 <==> exists a :: a in assessments && a.applicable && !a.safe
  {
    if assessments != [] {
      var n := |assessments| - 1;
      assert assessments == assessments[..n] + [assessments[n]];
      VerdictsCovered(assessments[..n]);
    }
  }

  // ----- building

  function ConflictStatus(s: ConflictSummary): string {
    if s.blocked > 0 then "blocked" else if s.unresolved + s.ambiguous > 0 then "findings" else "clear"
  }

  method CountState(s: ConflictSummary, state: State) returns (t: ConflictSummary)
    ensures t == WithState(s, StateText(state)) && t.propertiesAnalyzed == s.propertiesAnalyzed
  {
    match state {
      case SingleObservation => t := s.(single := s.single + 1);
      case Agreement => t := s.(agreement := s.agreement + 1);
      case ResolvedByAuthority => t := s.(resolved := s.resolved + 1);
      case UnresolvedConflict => t := s.(unresolved := s.unresolved + 1);
      case InvalidOrAmbiguousAuthority => t := s.(ambiguous := s.ambiguous + 1);
    }
  }

  method CountVerdict(s: ConflictSummary, applicable: bool, safe: bool) returns (t: ConflictSummary)
    ensures t == WithVerdict(s, VerdictOf(applicable, safe)) && t.propertiesAnalyzed == s.propertiesAnalyzed
  {
    if !applicable {
      t := s.(notApplicable := s.notApplicable + 1);
    } else if safe {
      t := s.(safe := s.safe + 1);
    } else {
      t := s.(blocked := s.blocked + 1);
    }
  }

  /** The counting loop over results and assessments. */
  method CountBlock(results: seq<ConflictResult>, assessments: seq<Assessment>) returns (summary: ConflictSummary)
    requires |assessments| == |results|
    ensures summary.propertiesAnalyzed == |results|
    ensures Counted(summary, ResultDicts(results), AssessmentDicts(results, assessments))
  {
    hide *;
    summary := ConflictSummary(|results|, 0, 0, 0, 0, 0, 0, 0, 0);
    ghost var rs, aes := ResultDicts(results), AssessmentDicts(results, assessments);
    NothingCounted(|results|);
    for k := 0 to |results|
      invariant summary.propertiesAnalyzed == |results|
      invariant Counted(summary, rs[..k], aes[..k])
    {
      TakeSnoc(rs, k);
      TakeSnoc(aes, k);
      CountStep(summary, rs[..k], aes[..k], rs[k], aes[k]);
      EntryTexts(results[k], assessments[k]);
      summary := CountState(summary, results[k].state);
      summary := CountVerdict(summary, assessments[k].applicable, assessments[k].safe);
    }
    TakeAll(rs);
    TakeAll(aes);
  }

  method BuildConflictsBlock(results: seq<ConflictResult>, assessments: seq<Assessment>, observationsId: Label, authorityId: Label)
    returns (block: Result<ConflictsBlock>)
    ensures block.Success? <==> |assessments| == |results|
    ensures block.Success? ==> IsConflictsBlock(results, assessments, observationsId, authorityId, block.value)
  {
    hide Counted, ResultDict, AssessmentDict, ResultDicts, AssessmentDicts;
    if |assessments| != |results| {
      return Failure;
    }
    var summary := CountBlock(results, assessments);
    var findings := summary.unresolved + summary.ambiguous;
    var status := if summary.blocked > 0 then "blocked" else if findings > 0 then "findings" else "clear";
    var report := ReportDictOf(results);
    block := Success(ConflictsBlock(status, Some(observationsId), Some(authorityId), Some(ReportIdentity(report)), summary,
      Some(report), AssessmentDicts(results, assessments)));
  }

  lemma NothingCounted(n: int)
    ensures Counted(ConflictSummary(n, 0, 0, 0, 0, 0, 0, 0, 0), [], [])
  {
  }

  lemma EntryTexts(r: ConflictResult, a: Assessment)
    ensures ResultDict(r).state == StateText(r.state)
    ensures AssessmentDict(r, a).applicable == a.applicable && AssessmentDict(r, a).safe == a.safe
    ensures AssessmentDict(r, a).subject == ResultDict(r).subject && AssessmentDict(r, a).property == ResultDict(r).property
  {
  }

  ghost predicate IsConflictsBlock(results: seq<ConflictResult>, assessments: seq<Assessment>, observationsId: Label, authorityId: Label, b: ConflictsBlock) {
    && |assessments| == |results|
    && b.observationsId == Some(observationsId) && b.authorityId == Some(authorityId)
    && b.report == Some(ReportDictOf(results)) && b.reportId == Some(ReportIdentity(ReportDictOf(results)))
    && b.assessments == AssessmentDicts(results, assessments)
    && b.summary.propertiesAnalyzed == |results| && Counted(b.summary, ResultDicts(results), b.assessments)
    && b.status == ConflictStatus(b.summary)
  }

  function BuildDriftBlock(x: Artifact, r: DriftResult): DriftBlock {
    DriftBlock(r.status, Some(x.payload.baseline.contentIdentity), Some(x.payload.candidate.contentIdentity),
      Some(r.comparisonIdentity), r.policyIdentity, Some(DriftIdentity(r)), Some(r.summary))
  }

  /** The drift lane names the snapshots it compares, each on its own side, and the comparison, policy and result behind it. */
  lemma DriftBlockTold(baseline: Snapshot, candidate: Snapshot, x: Artifact, policy: Option<seq<DriftRule>>, r: DriftResult)
    requires IsBuilt(baseline, candidate, x.payload) && IsDriftResult(x, policy, r)
    ensures var d := BuildDriftBlock(x, r);
      && d.baselineId == Some(ContentIdentity(baseline)) && d.candidateId == Some(ContentIdentity(candidate))
      && d.comparisonId == Some(x.contentIdentity) && d.driftResultId == Some(DriftIdentity(r))
      && d.policyId == (if policy.Some? then Some(IdentityOfPolicy(policy.value)) else None)
      && d.status == r.status && d.summary == Some(r.summary)
  {
    hide IsBuilt, Covers, IdentityOfPolicy, SummaryFor, DeriveStatus;
    EnvelopeTold(baseline, candidate, x.payload);
  }

  const EMPTY_CONFLICTS := ConflictsBlock("not_run", None, None, None, NO_COUNTS, None, [])
  const EMPTY_DRIFT := DriftBlock("not_run", None, None, None, None, None, None)

  function DeriveReviewStatus(conflicts: ConflictsBlock, drift: DriftBlock): string {
    if conflicts.status == "blocked" || drift.status == "unexpected_drift" then "blocked" else "passed"
  }

  function BuildReviewResult(conflicts: Option<ConflictsBlock>, drift: Option<DriftBlock>): ReviewResult {
    var c := if conflicts.None? then EMPTY_CONFLICTS else conflicts.value;
    var d := if drift.None? then EMPTY_DRIFT else drift.value;
    ReviewResult(c, d, DeriveReviewStatus(c, d), 0)
  }

  // ----- the independent check

  predicate Aligned(results: seq<ReportEntry>, assessments: seq<AssessmentEntry>) {
    && |assessments| == |results|
    && forall i :: 0 <= i < |results| ==> assessments[i].subject == results[i].subject && assessments[i].property == results[i].property
  }

  predicate KnownState(state: string) {
    state in {"SINGLE_OBSERVATION", "AGREEMENT", "RESOLVED_BY_AUTHORITY", "UNRESOLVED_CONFLICT", "INVALID_OR_AMBIGUOUS_AUTHORITY"}
  }

  predicate KnownStates(results: seq<ReportEntry>) {
    forall i :: 0 <= i < |results| ==> KnownState(results[i].state)
  }

  method CountText(s: ConflictSummary, state: string) returns (known: bool, t: ConflictSummary)
    ensures known <==> KnownState(state)
    ensures t == WithState(s, state)
  {
    known, t := true, s;
    if state == "SINGLE_OBSERVATION" {
      t := s.(single := s.single + 1);
    } else if state == "AGREEMENT" {
      t := s.(agreement := s.agreement + 1);
    } else if state == "RESOLVED_BY_AUTHORITY" {
      t := s.(resolved := s.resolved + 1);
    } else if state == "UNRESOLVED_CONFLICT" {
      t := s.(unresolved := s.unresolved + 1);
    } else if state == "INVALID_OR_AMBIGUOUS_AUTHORITY" {
      t := s.(ambiguous := s.ambiguous + 1);
    } else {
      known := false;
    }
  }

  predicate ConflictsLaneOk(b: ConflictsBlock) {
    && b.observationsId.Some? && b.authorityId.Some? && b.reportId.Some? && b.report.Some?
    && var report := b.report.value;
    && report.schema == REPORT_SCHEMA && report.version == REPORT_VERSION
    && Aligned(report.results, b.assessments) && KnownStates(report.results)
    && b.summary.propertiesAnalyzed == |report.results| && Counted(b.summary, report.results, b.assessments)
    && b.status == ConflictStatus(b.summary) && b.reportId == Some(ReportIdentity(report))
  }

  /** Counts everything again from the persisted entries. */
  method AssertActiveConflicts(b: ConflictsBlock) returns (ok: bool)
    ensures ok <==> ConflictsLaneOk(b)
  {
    hide StateCount, VerdictCount, VerdictOf, Counted, ConflictStatus, WithState, WithVerdict, KnownState;
    if b.observationsId.None? || b.authorityId.None? || b.reportId.None? || b.report.None? {
      return false;
    }
    var report := b.report.value;
    if report.schema != REPORT_SCHEMA || report.version != REPORT_VERSION {
      return false;
    }
    var results, assessments := report.results, b.assessments;
    if |assessments| != |results| || b.summary.propertiesAnalyzed != |results| {
      return false;
    }
    var counts := ConflictSummary(0, 0, 0, 0, 0, 0, 0, 0, 0);
    NothingCounted(0);
    for k := 0 to |results|
      invariant Counted(counts, results[..k], assessments[..k])
      invariant forall i :: 0 <= i < k ==> assessments[i].subject == results[i].subject && assessments[i].property == results[i].property
      invariant forall i :: 0 <= i < k ==> KnownState(results[i].state)
    {
      TakeSnoc(results, k);
      TakeSnoc(assessments, k);
      CountStep(counts, results[..k], assessments[..k], results[k], assessments[k]);
      if assessments[k].subject != results[k].subject {
        return false;
      }
      if assessments[k].property != results[k].property {
        return false;
      }
      var known: bool;
      known, counts := CountText(counts, results[k].state);
      if !known {
        return false;
      }
      counts := CountVerdict(counts, assessments[k].applicable, assessments[k].safe);
    }
    TakeAll(results);
    TakeAll(assessments);
    ok := CheckCounts(b, counts);
  }

  method CheckCounts(b: ConflictsBlock, counts: ConflictSummary) returns (ok: bool)
    requires b.report.Some? && b.reportId.Some? && |b.assessments| == |b.report.value.results|
    requires Counted(counts, b.report.value.results, b.assessments)
    ensures ok <==>
      && Counted(b.summary, b.report.value.results, b.assessments)
      && b.status == ConflictStatus(b.summary) && b.reportId == Some(ReportIdentity(b.report.value))
  {
    var s := b.summary;
    if s.single != counts.single || s.agreement != counts.agreement || s.resolved != counts.resolved
      || s.unresolved != counts.unresolved || s.ambiguous != counts.ambiguous {
      return false;
    }
    if s.safe != counts.safe || s.blocked != counts.blocked || s.notApplicable != counts.notApplicable {
      return false;
    }
    VerdictsCovered(b.assessments);
    if counts.safe + counts.blocked + counts.notApplicable != |b.report.value.results| {
      return false;
    }
    if b.status != ConflictStatus(counts) {
      return false;
    }
    ok := b.reportId.value == ReportIdentity(b.report.value);
  }

  predicate DriftCountsFit(status: string, s: DriftSummary) {
    && s.affectedObjects >= 0 && s.expectedDifferences >= 0 && s.propertyDrift >= 0 && s.unexpectedDrift >= 0
    && (status == "no_difference" ==> s == DriftSummary(0, 0, 0, 0))
    && (status == "expected_difference" ==> s.expectedDifferences > 0 && s.unexpectedDrift == 0)
    && (status == "unexpected_drift" ==> s.unexpectedDrift > 0)
  }

  predicate DriftLaneOk(b: DriftBlock) {
    && b.baselineId.Some? && b.candidateId.Some? && b.comparisonId.Some? && b.driftResultId.Some? && b.summary.Some?
    && (b.status == "no_difference" || ((b.status == "expected_difference" || b.status == "unexpected_drift") && b.policyId.Some?))
    && DriftCountsFit(b.status, b.summary.value)
  }

  method AssertActiveDrift(b: DriftBlock) returns (ok: bool)
    ensures ok <==> DriftLaneOk(b)
  {
    if b.baselineId.None? || b.candidateId.None? || b.comparisonId.None? || b.driftResultId.None? || b.summary.None? {
      return false;
    }
    var s := b.summary.value;
    if b.status == "expected_difference" || b.status == "unexpected_drift" {
      if b.policyId.None? {
        return false;
      }
    } else if b.status != "no_difference" {
      return false;
    }
    if s.affectedObjects < 0 || s.expectedDifferences < 0 || s.propertyDrift < 0 || s.unexpectedDrift < 0 {
      return false;
    }
    if b.status == "no_difference" {
      ok := s.affectedObjects == 0 && s.expectedDifferences == 0 && s.propertyDrift == 0 && s.unexpectedDrift == 0;
    } else if b.status == "expected_difference" {
      ok := s.expectedDifferences > 0 && s.unexpectedDrift == 0;
    } else {
      ok := s.unexpectedDrift > 0;
    }
  }

  predicate IdleConflicts(b: ConflictsBlock) {
    && b.report.None? && b.assessments == []
    && b.observationsId.None? && b.authorityId.None? && b.reportId.None? && b.summary == NO_COUNTS
  }

  predicate IdleDrift(b: DriftBlock) {
    && b.summary.None? && b.baselineId.None? && b.candidateId.None? && b.comparisonId.None?
    && b.policyId.None? && b.driftResultId.None?
  }

  predicate LanesOk(r: ReviewResult) {
    && r.status == DeriveReviewStatus(r.conflicts, r.drift) && r.writesPerformed == 0
    && (if r.conflicts.status == "not_run" then r.conflicts == EMPTY_CONFLICTS else ConflictsLaneOk(r.conflicts))
    && (if r.drift.status == "not_run" then r.drift == EMPTY_DRIFT else DriftLaneOk(r.drift))
  }

  method AssertLaneInvariants(r: ReviewResult) returns (ok: bool)
    ensures ok <==> LanesOk(r)
  {
    hide ConflictsLaneOk, DriftLaneOk;
    if r.status != DeriveReviewStatus(r.conflicts, r.drift) || r.writesPerformed != 0 {
      return false;
    }
    if r.conflicts.status == "not_run" {
      ok := IdleConflicts(r.conflicts);
    } else {
      ok := AssertActiveConflicts(r.conflicts);
    }
    if !ok {
      return;
    }
    if r.drift.status == "not_run" {
      ok := IdleDrift(r.drift);
    } else {
      ok := AssertActiveDrift(r.drift);
    }
  }

  // ----- what is built passes

  lemma BuiltConflictsPass(results: seq<ConflictResult>, assessments: seq<Assessment>, observationsId: Label, authorityId: Label, b: ConflictsBlock)
    requires IsConflictsBlock(results, assessments, observationsId, authorityId, b)
    ensures ConflictsLaneOk(b) && b.status != "not_run"
  {
  }

  lemma BuiltDriftPasses(x: Artifact, policy: Option<seq<DriftRule>>, r: DriftResult)
    requires IsDriftResult(x, policy, r)
    ensures DriftLaneOk(BuildDriftBlock(x, r)) && r.status != "not_run"
  {
    hide Covers, IdentityOfPolicy, Total, AffectedKeys;
    CountsAddUp(r.classifiedChanges);
    if r.classifiedChanges == [] { NoDifference(); }
  }

  /** The conflict lane was run on these results, or not at all. */
  ghost predicate ConflictsLane(results: seq<ConflictResult>, assessments: seq<Assessment>, lane: Option<ConflictsBlock>) {
    lane.Some? ==> exists o, a :: IsConflictsBlock(results, assessments, o, a, lane.value)
  }

  /** The drift lane was run on this comparison and policy, or not at all. */
  ghost predicate DriftLane(x: Artifact, policy: Option<seq<DriftRule>>, r: DriftResult, lane: Option<DriftBlock>) {
    lane.Some? ==> IsDriftResult(x, policy, r) && lane.value == BuildDriftBlock(x, r)
  }

  /** Every review result that is built passes the independent check of both lanes. */
  lemma BuiltReviewPasses(results: seq<ConflictResult>, assessments: seq<Assessment>, conflicts: Option<ConflictsBlock>,
      x: Artifact, policy: Option<seq<DriftRule>>, r: DriftResult, drift: Option<DriftBlock>)
    requires ConflictsLane(results, assessments, conflicts) && DriftLane(x, policy, r, drift)
    ensures LanesOk(BuildReviewResult(conflicts, drift))
  {
    hide ConflictsLaneOk, DriftLaneOk, IsConflictsBlock, IsDriftResult;
    if conflicts.Some? {
      var o, a :| IsConflictsBlock(results, assessments, o, a, conflicts.value);
      BuiltConflictsPass(results, assessments, o, a, conflicts.value);
    }
    if drift.Some? {
      BuiltDriftPasses(x, policy, r);
    }
  }

  /** A review is blocked exactly when some applicable reconciliation is not safe, or some difference is unexpected drift. */
  lemma BlockedExactly(results: seq<ConflictResult>, assessments: seq<Assessment>, conflicts: Option<ConflictsBlock>,
      x: Artifact, policy: Option<seq<DriftRule>>, r: DriftResult, drift: Option<DriftBlock>)
    requires ConflictsLane(results, assessments, conflicts) && DriftLane(x, policy, r, drift)
    ensures BuildReviewResult(conflicts, drift).status == "blocked" <==>
      || (conflicts.Some? && exists a :: a in assessments && a.applicable && !a.safe)
      || (drift.Some? && exists c :: c in r.classifiedChanges && c.classification == UnexpectedDrift)
  {
    hide IsDriftResult, IsConflictsBlock;
    if conflicts.Some? {
      var o, a :| IsConflictsBlock(results, assessments, o, a, conflicts.value);
      BlockedConflicts(results, assessments, o, a, conflicts.value);
    }
    if drift.Some? {
      UnexpectedExactly(x, policy, r);
    }
  }

  lemma UnexpectedExactly(x: Artifact, policy: Option<seq<DriftRule>>, r: DriftResult)
    requires IsDriftResult(x, policy, r)
    ensures r.status == "unexpected_drift" <==> exists c :: c in r.classifiedChanges && c.classification == UnexpectedDrift
  {
  }

  lemma BlockedConflicts(results: seq<ConflictResult>, assessments: seq<Assessment>, o: Label, a: Label, b: ConflictsBlock)
    requires IsConflictsBlock(results, assessments, o, a, b)
    ensures b.status == "blocked" <==> exists e :: e in assessments && e.applicable && !e.safe
  {
    hide ResultDict, StateCount, VerdictCount, NodeDict, Print;
    VerdictsCovered(b.assessments);
    assert b.status == "blocked" <==> VerdictCount(b.assessments, Blocked) > 0;
    hide Counted, ConflictStatus;
    if exists e :: e in assessments && e.applicable && !e.safe {
      var e :| e in assessments && e.applicable && !e.safe;
      var i :| 0 <= i < |assessments| && assessments[i] == e;
      assert b.assessments[i] in b.assessments;
    }
    if exists e :: e in b.assessments && e.applicable && !e.safe {
      var e :| e in b.assessments && e.applicable && !e.safe;
      var i :| 0 <= i < |b.assessments| && b.assessments[i] == e;
      assert assessments[i] in assessments;
    }
  }
}
