/**
 When a clean aggregate conclusion is proven: aggregate_clean_conclusion_proof of
 public_app/semantic.py, over the assessments of app/contracts/risk_v3.py.

 The program collects reasons against it, and skips some checks on the way. Having no
 reason is the same as every condition holding for every check, skipped or not.
 */
module CleanProof {
  import opened TextOrder

  datatype Status = CALCULATED | UNSUPPORTED_SUBJECT

  datatype Overall =
    | HARD_BLOCKER_PRESENT
    | RISK_FACTORS_PRESENT
    | NO_ADVERSE_FACTORS_AFTER_MANDATORY_GATE
    | INCOMPLETE_NO_POSITIVE_CONCLUSION

  datatype Applicability = APPLICABLE | NOT_APPLICABLE | APPLICABILITY_UNKNOWN

  datatype Resolution = RESOLVED | UNRESOLVED | CONFLICTING_EVIDENCE

  datatype Execution = CHECKED | NOT_CHECKED | SOURCE_UNAVAILABLE | TIMEOUT | PARSING_ERROR

  datatype Observation = FOUND | NOT_FOUND | UNKNOWN

  datatype Scope = COMPLETE | PARTIAL | SCOPE_UNKNOWN

  datatype Temporal = CURRENT_STATE | HISTORICAL_EVENT

  datatype Freshness = CURRENT | STALE | FRESHNESS_UNKNOWN

  datatype Check = Check(
    companyId: int,
    code: string,
    applicability: Applicability,
    hasDecision: bool,
    resolution: Resolution,
    execution: Execution,
    observation: Observation,
    scope: Scope,
    temporal: Temporal,
    freshness: Freshness,
    negativeClosure: bool,
    evidenceRefs: set<string>,
    sourceRefs: set<string>,
    candidateRefs: set<string>,
    policyVersion: string)

  datatype Evidence = Evidence(companyId: int, candidateRef: string, evidenceRefs: set<string>, sourceCode: string)

  datatype Coverage = Coverage(
    applicable: set<string>,
    resolved: set<string>,
    unresolved: set<string>,
    partial: set<string>,
    unknown: set<string>,
    numerator: int,
    denominator: int,
    mandatory: set<string>,
    mandatoryResolved: set<string>,
    mandatoryNumerator: int,
    mandatoryDenominator: int,
    policyVersion: string)

  datatype Gate = Gate(
    allowed: bool,
    policyVersion: string,
    mandatory: set<string>,
    resolved: set<string>,
    blocking: seq<string>)

  datatype Assessment = Assessment(
    companyId: int,
    status: Status,
    overall: Overall,
    factors: seq<string>,
    blockingLimitations: seq<bool>,
    evidence: seq<Evidence>,
    checks: seq<Check>,
    coverage: Coverage,
    gate: Gate,
    coveragePolicy: string,
    applicabilityPolicy: string,
    resolutionPolicy: string)

  /** The stored risk: no mapping, one its contract refuses, or an assessment. */
  datatype Risk = Missing | Malformed | Parsed(assessment: Assessment)

  datatype Reason =
    | RiskContractMissing
    | RiskContractInvalid
    | AssessmentNotCalculated
    | FactorsPresent
    | OverallResultNotClean
    | BlockingLimitation
    | CoverageNotComplete
    | ApplicableChecksNotResolved
    | CoverageHasUnresolvedAxes
    | MandatoryCoverageNotComplete
    | CoveragePolicyMismatch
    | MandatoryGateNotProven
    | MandatoryGatePolicyMismatch
    | DuplicateCheckCapability
    | CoverageCheckSetMismatch
    | EvidenceSubjectMismatch
    | CheckSubjectMismatch
    | ApplicabilityNotProven
    | NotApplicableProvenanceMissing
    | ReliedCheckNotResolved
    | ReliedEvidenceNotTraceable
    | ReliedCheckNotCurrent
    | NegativeClosureNotProven
    | ResolutionPolicyMismatch

  datatype Proof = Proof(proven: bool, reasons: seq<Reason>)

  /* ---------- What is referred to ---------- */

  function Codes(checks: seq<Check>): seq<string> {
    seq(|checks|, i requires 0 <= i < |checks| => checks[i].code)
  }

  function ApplicableCodes(checks: seq<Check>): set<string> {
    set i | 0 <= i < |checks| && checks[i].applicability == APPLICABLE :: checks[i].code
  }

  function CandidateRefs(evidence: seq<Evidence>): set<string> {
    set e | e in evidence :: e.candidateRef
  }

  function EvidenceRefs(evidence: seq<Evidence>): set<string> {
    set e, r | e in evidence && r in e.evidenceRefs :: r
  }

  function SourceCodes(evidence: seq<Evidence>): set<string> {
    set e | e in evidence :: e.sourceCode
  }

  /* ---------- Conditions ---------- */

  predicate IsCovered(c: Coverage) {
    c.denominator > 0 && c.numerator == c.denominator
  }

  predicate IsMandatoryCovered(c: Coverage) {
    c.mandatoryDenominator > 0 && c.mandatoryNumerator == c.mandatoryDenominator
    && c.mandatory != {} && c.mandatoryResolved == c.mandatory
  }

  predicate IsGateProven(a: Assessment) {
    a.gate.allowed && a.gate.blocking == []
    && a.gate.mandatory == a.coverage.mandatory && a.gate.resolved == a.coverage.mandatory
  }

  predicate IsResolved(c: Check) {
    && c.resolution == RESOLVED && c.execution == CHECKED && c.observation in {FOUND, NOT_FOUND}
    && c.scope == COMPLETE && c.evidenceRefs != {} && c.sourceRefs != {} && c.candidateRefs != {}
  }

  predicate IsTraceable(c: Check, evidence: seq<Evidence>) {
    && c.candidateRefs <= CandidateRefs(evidence)
    && c.evidenceRefs <= EvidenceRefs(evidence)
    && c.sourceRefs <= SourceCodes(evidence)
  }

  predicate IsCurrentEnough(c: Check) {
    c.temporal == CURRENT_STATE ==> c.freshness == CURRENT
  }

  predicate IsClosed(c: Check) {
    c.observation == NOT_FOUND ==> c.negativeClosure
  }

  /** Reasons that the assessment as a whole gives. */
  predicate HeadFinds(a: Assessment, r: Reason) {
    match r
    case AssessmentNotCalculated => a.status != CALCULATED
    case FactorsPresent => a.factors != []
    case OverallResultNotClean => a.overall != NO_ADVERSE_FACTORS_AFTER_MANDATORY_GATE
    case BlockingLimitation => true in a.blockingLimitations
    case CoverageNotComplete => !IsCovered(a.coverage)
    case ApplicableChecksNotResolved => a.coverage.applicable == {} || a.coverage.resolved != a.coverage.applicable
    case CoverageHasUnresolvedAxes => a.coverage.unresolved != {} || a.coverage.partial != {} || a.coverage.unknown != {}
    case MandatoryCoverageNotComplete => !IsMandatoryCovered(a.coverage)
    case CoveragePolicyMismatch => a.coverage.policyVersion != a.coveragePolicy
    case MandatoryGateNotProven => !IsGateProven(a)
    case MandatoryGatePolicyMismatch => a.gate.policyVersion != a.applicabilityPolicy
    case DuplicateCheckCapability => !Distinct(Codes(a.checks))
    case CoverageCheckSetMismatch => ApplicableCodes(a.checks) != a.coverage.applicable
    case EvidenceSubjectMismatch => exists e :: e in a.evidence && e.companyId != a.companyId
    case _ => false
  }

  /** The program relies on a check once it is applicable and covered; others it leaves early. */
  predicate IsReliedOn(a: Assessment, c: Check) {
    c.applicability == APPLICABLE && c.code in a.coverage.applicable
  }

  /** Reasons that one check gives. */
  predicate CheckFinds(a: Assessment, c: Check, r: Reason) {
    match r
    case CheckSubjectMismatch => c.companyId != a.companyId
    case ApplicabilityNotProven => c.applicability == APPLICABILITY_UNKNOWN
    case NotApplicableProvenanceMissing => c.applicability == NOT_APPLICABLE && (c.resolution != RESOLVED || !c.hasDecision)
    case ReliedCheckNotResolved => IsReliedOn(a, c) && !IsResolved(c)
    case ReliedEvidenceNotTraceable => IsReliedOn(a, c) && !IsTraceable(c, a.evidence)
    case ReliedCheckNotCurrent => IsReliedOn(a, c) && !IsCurrentEnough(c)
    case NegativeClosureNotProven => IsReliedOn(a, c) && !IsClosed(c)
    case ResolutionPolicyMismatch => IsReliedOn(a, c) && c.policyVersion != a.resolutionPolicy
    case _ => false
  }

  predicate Finds(a: Assessment, r: Reason) {
    HeadFinds(a, r) || exists i :: 0 <= i < |a.checks| && CheckFinds(a, a.checks[i], r)
  }

  /* ---------- The program ---------- */

  /** Without repeats, in the order of first occurrence. */
  function Unique<T(==,!new)>(s: seq<T>): (r: seq<T>)
    ensures forall x :: x in r <==> x in s
    ensures r == [] <==> s == []
    ensures forall i, j :: 0 <= i < j < |r| ==> r[i] != r[j]
  {
    if s == [] then []
    else
      var n := |s| - 1;
      var before := Unique(s[..n]);
      assert s == s[..n] + [s[n]];
      if s[n] in before then before else before + [s[n]]
  }

  /** Reasons in the result of the assessment itself. */
  predicate IsResultReason(r: Reason) {
    r in {AssessmentNotCalculated, FactorsPresent, OverallResultNotClean, BlockingLimitation}
  }

  /** Reasons in its coverage. */
  predicate IsCoverageReason(r: Reason) {
    r in {CoverageNotComplete, ApplicableChecksNotResolved, CoverageHasUnresolvedAxes, MandatoryCoverageNotComplete,
          CoveragePolicyMismatch}
  }

  method ResultReasons(a: Assessment) returns (reasons: seq<Reason>)
    ensures forall r :: r in reasons <==> IsResultReason(r) && HeadFinds(a, r)
  {
    reasons := [];
    if a.status != CALCULATED {
      reasons := reasons + [AssessmentNotCalculated];
    }
    if a.factors != [] {
      reasons := reasons + [FactorsPresent];
    }
    if a.overall != NO_ADVERSE_FACTORS_AFTER_MANDATORY_GATE {
      reasons := reasons + [OverallResultNotClean];
    }
    if true in a.blockingLimitations {
      reasons := reasons + [BlockingLimitation];
    }
  }

  method CoverageReasons(a: Assessment) returns (reasons: seq<Reason>)
    ensures forall r :: r in reasons <==> IsCoverageReason(r) && HeadFinds(a, r)
  {
    hide IsCovered, IsMandatoryCovered;
    reasons := [];
    if !IsCovered(a.coverage) {
      reasons := reasons + [CoverageNotComplete];
    }
    if a.coverage.applicable == {} || a.coverage.resolved != a.coverage.applicable {
      reasons := reasons + [ApplicableChecksNotResolved];
    }
    if a.coverage.unresolved != {} || a.coverage.partial != {} || a.coverage.unknown != {} {
      reasons := reasons + [CoverageHasUnresolvedAxes];
    }
    if !IsMandatoryCovered(a.coverage) {
      reasons := reasons + [MandatoryCoverageNotComplete];
    }
    if a.coverage.policyVersion != a.coveragePolicy {
      reasons := reasons + [CoveragePolicyMismatch];
    }
  }

  method GateReasons(a: Assessment) returns (reasons: seq<Reason>)
    ensures forall r :: r in reasons <==> !IsResultReason(r) && !IsCoverageReason(r) && HeadFinds(a, r)
  {
    hide IsGateProven, Distinct, ApplicableCodes, Codes;
    reasons := [];
    if !IsGateProven(a) {
      reasons := reasons + [MandatoryGateNotProven];
    }
    if a.gate.policyVersion != a.applicabilityPolicy {
      reasons := reasons + [MandatoryGatePolicyMismatch];
    }
    if !Distinct(Codes(a.checks)) {
      reasons := reasons + [DuplicateCheckCapability];
    }
    if ApplicableCodes(a.checks) != a.coverage.applicable {
      reasons := reasons + [CoverageCheckSetMismatch];
    }
    if exists e :: e in a.evidence && e.companyId != a.companyId {
      reasons := reasons + [EvidenceSubjectMismatch];
    }
  }

  method CheckReasons(a: Assessment, c: Check) returns (reasons: seq<Reason>)
    ensures forall r :: r in reasons <==> CheckFinds(a, c, r)
  {
    hide IsResolved, IsTraceable, IsCurrentEnough, IsClosed;
    reasons := [];
    if c.companyId != a.companyId {
      reasons := reasons + [CheckSubjectMismatch];
    }
    if c.applicability == APPLICABILITY_UNKNOWN {
      reasons := reasons + [ApplicabilityNotProven];
      return;
    }
    if c.applicability == NOT_APPLICABLE {
      if c.resolution != RESOLVED || !c.hasDecision {
        reasons := reasons + [NotApplicableProvenanceMissing];
      }
      return;
    }
    if c.code !in a.coverage.applicable {
      return;
    }
    var relied := ReliedReasons(a, c);
    reasons := reasons + relied;
  }

  /** The last part of the loop, for a check that is relied on. */
  method ReliedReasons(a: Assessment, c: Check) returns (reasons: seq<Reason>)
    ensures forall r :: r in reasons <==>
              || (r == ReliedCheckNotResolved && !IsResolved(c))
              || (r == ReliedEvidenceNotTraceable && !IsTraceable(c, a.evidence))
              || (r == ReliedCheckNotCurrent && !IsCurrentEnough(c))
              || (r == NegativeClosureNotProven && !IsClosed(c))
              || (r == ResolutionPolicyMismatch && c.policyVersion != a.resolutionPolicy)
  {
    hide IsResolved, IsTraceable, IsCurrentEnough, IsClosed;
    reasons := [];
    if !IsResolved(c) {
      reasons := reasons + [ReliedCheckNotResolved];
    }
    if !IsTraceable(c, a.evidence) {
      reasons := reasons + [ReliedEvidenceNotTraceable];
    }
    if !IsCurrentEnough(c) {
      reasons := reasons + [ReliedCheckNotCurrent];
    }
    if !IsClosed(c) {
      reasons := reasons + [NegativeClosureNotProven];
    }
    if c.policyVersion != a.resolutionPolicy {
      reasons := reasons + [ResolutionPolicyMismatch];
    }
  }

  /** The reasons are exactly those found, each once; the conclusion is proven when there are none. */
  method AggregateCleanConclusionProof(risk: Risk) returns (proof: Proof)
    ensures proof.proven <==> IsProven(risk)
    ensures proof.proven <==> proof.reasons == []
    ensures forall i, j :: 0 <= i < j < |proof.reasons| ==> proof.reasons[i] != proof.reasons[j]
    ensures risk.Parsed? ==> forall r :: r in proof.reasons <==> Finds(risk.assessment, r)
    ensures !risk.Parsed? ==> proof.reasons == [if risk.Missing? then RiskContractMissing else RiskContractInvalid]
  {
    hide HeadFinds, CheckFinds, IsResultReason, IsCoverageReason;
    if risk.Missing? {
      return Proof(false, [RiskContractMissing]);
    }
    if risk.Malformed? {
      return Proof(false, [RiskContractInvalid]);
    }
    var a := risk.assessment;
    var result := ResultReasons(a);
    var coverage := CoverageReasons(a);
    var gate := GateReasons(a);
    var reasons := result + coverage + gate;
    for n := 0 to |a.checks|
      invariant forall r :: r in reasons <==> HeadFinds(a, r) || exists i :: 0 <= i < n && CheckFinds(a, a.checks[i], r)
    {
      var more := CheckReasons(a, a.checks[n]);
      reasons := reasons + more;
    }
    var unique := Unique(reasons);
    ProvenWithoutReason(a, unique);
    return Proof(unique == [], unique);
  }

  lemma ProvenWithoutReason(a: Assessment, reasons: seq<Reason>)
    requires forall r :: r in reasons <==> Finds(a, r)
    ensures reasons == [] <==> IsProven(Parsed(a))
  {
    hide Finds;
    if reasons != [] {
      assert reasons[0] in reasons;
    }
  }

  predicate IsProven(risk: Risk) {
    risk.Parsed? && forall r: Reason :: !Finds(risk.assessment, r)
  }

  /* ---------- What a proven conclusion means ---------- */

  /** Everything a clean conclusion rests on, check by check. */
  ghost predicate IsClean(a: Assessment) {
    IsCleanOutside(a) && forall c :: c in a.checks ==> IsSettled(a, c)
  }

  /** What it rests on outside the single checks. */
  ghost predicate IsCleanOutside(a: Assessment) {
    && a.status == CALCULATED && a.factors == [] && a.overall == NO_ADVERSE_FACTORS_AFTER_MANDATORY_GATE
    && true !in a.blockingLimitations
    && 0 < a.coverage.numerator == a.coverage.denominator
    && 0 < a.coverage.mandatoryNumerator == a.coverage.mandatoryDenominator
    && a.coverage.mandatory != {} && a.coverage.mandatoryResolved == a.coverage.mandatory
    && a.gate.allowed && a.gate.blocking == [] && a.gate.mandatory == a.gate.resolved == a.coverage.mandatory
    && a.coverage.applicable != {} && a.coverage.resolved == a.coverage.applicable
    && (forall code :: code in a.coverage.applicable <==>
          exists c :: c in a.checks && c.applicability == APPLICABLE && c.code == code)
    && a.coverage.unresolved == a.coverage.partial == a.coverage.unknown == {}
    && a.coverage.policyVersion == a.coveragePolicy && a.gate.policyVersion == a.applicabilityPolicy
    && (forall i, j :: 0 <= i < j < |a.checks| ==> a.checks[i].code != a.checks[j].code)
    && (forall e :: e in a.evidence ==> e.companyId == a.companyId)
  }

  /** A check of this company that is provably not applicable, or applicable and fully proven. */
  predicate IsSettled(a: Assessment, c: Check) {
    && c.companyId == a.companyId
    && (|| (c.applicability == NOT_APPLICABLE && c.resolution == RESOLVED && c.hasDecision)
        || (&& c.applicability == APPLICABLE && c.resolution == RESOLVED && c.execution == CHECKED && c.scope == COMPLETE
            && (c.observation == FOUND || (c.observation == NOT_FOUND && c.negativeClosure))
            && c.evidenceRefs != {} && c.sourceRefs != {} && c.candidateRefs != {}
            && (forall r :: r in c.candidateRefs ==> exists e :: e in a.evidence && e.candidateRef == r)
            && (forall r :: r in c.evidenceRefs ==> exists e :: e in a.evidence && r in e.evidenceRefs)
            && (forall r :: r in c.sourceRefs ==> exists e :: e in a.evidence && e.sourceCode == r)
            && (c.freshness == CURRENT || c.temporal == HISTORICAL_EVENT)
            && c.policyVersion == a.resolutionPolicy))
  }

  lemma DistinctCodesExactly(checks: seq<Check>)
    ensures Distinct(Codes(checks)) <==> forall i, j :: 0 <= i < j < |checks| ==> checks[i].code != checks[j].code
  {
    assert forall i :: 0 <= i < |checks| ==> Codes(checks)[i] == checks[i].code;
  }

  lemma ApplicableCodesExactly(checks: seq<Check>, code: string)
    ensures code in ApplicableCodes(checks) <==> exists c :: c in checks && c.applicability == APPLICABLE && c.code == code
  {
    if c :| c in checks && c.applicability == APPLICABLE && c.code == code {
      var i :| 0 <= i < |checks| && checks[i] == c;
    }
  }

  lemma TraceableExactly(c: Check, evidence: seq<Evidence>)
    ensures IsTraceable(c, evidence) <==>
              && (forall r :: r in c.candidateRefs ==> exists e :: e in evidence && e.candidateRef == r)
              && (forall r :: r in c.evidenceRefs ==> exists e :: e in evidence && r in e.evidenceRefs)
              && (forall r :: r in c.sourceRefs ==> exists e :: e in evidence && e.sourceCode == r)
  {
  }

  lemma HeadExactly(a: Assessment)
    ensures (forall r: Reason :: !HeadFinds(a, r)) <==> IsCleanOutside(a)
  {
    hide Distinct, ApplicableCodes, Codes;
    DistinctCodesExactly(a.checks);
    forall code ensures code in ApplicableCodes(a.checks) <==> exists c :: c in a.checks && c.applicability == APPLICABLE && c.code == code {
      ApplicableCodesExactly(a.checks, code);
    }
    if forall r: Reason :: !HeadFinds(a, r) {
      NothingAtTheHead(a);
    }
    if IsCleanOutside(a) {
      assert ApplicableCodes(a.checks) == a.coverage.applicable;
    }
  }

  lemma NothingAtTheHead(a: Assessment)
    requires forall r: Reason :: !HeadFinds(a, r)
    ensures a.status == CALCULATED && a.factors == [] && a.overall == NO_ADVERSE_FACTORS_AFTER_MANDATORY_GATE
    ensures true !in a.blockingLimitations
    ensures IsCovered(a.coverage) && IsMandatoryCovered(a.coverage) && IsGateProven(a)
    ensures a.coverage.applicable != {} && a.coverage.resolved == a.coverage.applicable == ApplicableCodes(a.checks)
    ensures a.coverage.unresolved == a.coverage.partial == a.coverage.unknown == {}
    ensures a.coverage.policyVersion == a.coveragePolicy && a.gate.policyVersion == a.applicabilityPolicy
    ensures Distinct(Codes(a.checks)) && forall e :: e in a.evidence ==> e.companyId == a.companyId
  {
    hide HeadFinds, IsCovered, IsMandatoryCovered, IsGateProven, Distinct, ApplicableCodes;
    NothingInResult(a);
    NothingInCoverage(a);
    NothingAtTheGate(a);
  }

  lemma NothingInResult(a: Assessment)
    requires forall r: Reason :: !HeadFinds(a, r)
    ensures a.status == CALCULATED && a.factors == [] && a.overall == NO_ADVERSE_FACTORS_AFTER_MANDATORY_GATE
    ensures true !in a.blockingLimitations
  {
    hide IsCovered, IsMandatoryCovered, IsGateProven, Distinct, ApplicableCodes;
    assert !HeadFinds(a, AssessmentNotCalculated) && !HeadFinds(a, FactorsPresent) && !HeadFinds(a, OverallResultNotClean);
    assert !HeadFinds(a, BlockingLimitation);
  }

  lemma NothingInCoverage(a: Assessment)
    requires forall r: Reason :: !HeadFinds(a, r)
    ensures IsCovered(a.coverage) && IsMandatoryCovered(a.coverage)
    ensures a.coverage.applicable != {} && a.coverage.resolved == a.coverage.applicable
    ensures a.coverage.unresolved == a.coverage.partial == a.coverage.unknown == {}
    ensures a.coverage.policyVersion == a.coveragePolicy
  {
    hide IsCovered, IsMandatoryCovered, IsGateProven, Distinct, ApplicableCodes;
    assert !HeadFinds(a, CoverageNotComplete) && !HeadFinds(a, ApplicableChecksNotResolved);
    assert !HeadFinds(a, CoverageHasUnresolvedAxes) && !HeadFinds(a, MandatoryCoverageNotComplete);
    assert !HeadFinds(a, CoveragePolicyMismatch);
  }

  lemma NothingAtTheGate(a: Assessment)
    requires forall r: Reason :: !HeadFinds(a, r)
    ensures IsGateProven(a) && ApplicableCodes(a.checks) == a.coverage.applicable && a.gate.policyVersion == a.applicabilityPolicy
    ensures Distinct(Codes(a.checks)) && forall e :: e in a.evidence ==> e.companyId == a.companyId
  {
    hide IsCovered, IsMandatoryCovered, IsGateProven, Distinct, ApplicableCodes;
    assert !HeadFinds(a, MandatoryGateNotProven) && !HeadFinds(a, MandatoryGatePolicyMismatch);
    assert !HeadFinds(a, DuplicateCheckCapability) && !HeadFinds(a, CoverageCheckSetMismatch);
    assert !HeadFinds(a, EvidenceSubjectMismatch);
  }

  lemma CheckIsSettled(a: Assessment, c: Check)
    requires c.applicability == APPLICABLE ==> c.code in a.coverage.applicable
    ensures (forall r: Reason :: !CheckFinds(a, c, r)) <==> IsSettled(a, c)
  {
    hide IsTraceable;
    TraceableExactly(c, a.evidence);
    if forall r: Reason :: !CheckFinds(a, c, r) {
      assert !CheckFinds(a, c, CheckSubjectMismatch) && !CheckFinds(a, c, ApplicabilityNotProven);
      assert !CheckFinds(a, c, NotApplicableProvenanceMissing) && !CheckFinds(a, c, ReliedCheckNotResolved);
      assert !CheckFinds(a, c, ReliedEvidenceNotTraceable) && !CheckFinds(a, c, ReliedCheckNotCurrent);
      assert !CheckFinds(a, c, NegativeClosureNotProven) && !CheckFinds(a, c, ResolutionPolicyMismatch);
    }
  }

  lemma ApplicableIsCovered(a: Assessment, c: Check)
    requires IsCleanOutside(a) && c in a.checks
    ensures c.applicability == APPLICABLE ==> c.code in a.coverage.applicable
  {
  }

  /**
   The conclusion is proven exactly when every condition holds for every check. No check
   escapes through the early exits of the loop.
   */
  lemma ProvenExactly(a: Assessment)
    ensures IsProven(Parsed(a)) <==> IsClean(a)
  {
    hide HeadFinds, CheckFinds, IsSettled, IsCleanOutside;
    HeadExactly(a);
    if IsProven(Parsed(a)) {
      NothingFound(a);
      forall c | c in a.checks ensures IsSettled(a, c) {
        ApplicableIsCovered(a, c);
        CheckIsSettled(a, c);
      }
    }
    if IsClean(a) {
      forall i, r | 0 <= i < |a.checks| ensures !CheckFinds(a, a.checks[i], r) {
        ApplicableIsCovered(a, a.checks[i]);
        CheckIsSettled(a, a.checks[i]);
      }
    }
  }

  lemma NothingFound(a: Assessment)
    requires IsProven(Parsed(a))
    ensures forall r: Reason :: !HeadFinds(a, r)
    ensures forall i, r :: 0 <= i < |a.checks| ==> !CheckFinds(a, a.checks[i], r)
  {
    hide HeadFinds, CheckFinds;
    forall r ensures !HeadFinds(a, r) {
      assert !Finds(a, r);
    }
    forall i, r | 0 <= i < |a.checks| ensures !CheckFinds(a, a.checks[i], r) {
      assert !Finds(a, r);
    }
  }

  /* ---------- A clean assessment ---------- */

  /** One applicable, mandatory check of company 1, looked up in one source and not found there. */
  function OneCheck(): Assessment {
    var check := Check(
      1, "REGISTRATION", APPLICABLE, true, RESOLVED, CHECKED, NOT_FOUND, COMPLETE, CURRENT_STATE, CURRENT, true,
      {"evidence"}, {"fns"}, {"candidate"}, "policy");
    var codes := {"REGISTRATION"};
    Assessment(
      1, CALCULATED, NO_ADVERSE_FACTORS_AFTER_MANDATORY_GATE, [], [],
      [Evidence(1, "candidate", {"evidence"}, "fns")], [check],
      Coverage(codes, codes, {}, {}, {}, 1, 1, codes, codes, 1, 1, "policy"),
      Gate(true, "policy", codes, codes, []),
      "policy", "policy", "policy")
  }

  /** The conditions can be met. */
  lemma OneCheckIsClean()
    ensures IsClean(OneCheck()) && IsProven(Parsed(OneCheck()))
  {
    hide IsProven;
    var a := OneCheck();
    assert a.checks[0] in a.checks && a.evidence[0] in a.evidence;
    ProvenExactly(a);
  }
}
