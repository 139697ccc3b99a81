/**
 Each reason against a clean conclusion names its own condition: spoil one thing in a clean
 assessment, and that reason and no other is found.
 */
module CleanLaws {
  import opened CleanProof
  import opened TextOrder

  ghost predicate OnlyReason(a: Assessment, reason: Reason) {
    forall r: Reason :: Finds(a, r) <==> r == reason
  }

  /** The checks are unchanged, and so is all that they are judged by. */
  predicate HasSameChecks(a: Assessment, b: Assessment) {
    && b.checks == a.checks && b.companyId == a.companyId && b.coverage.applicable == a.coverage.applicable
    && (forall e :: e in a.evidence ==> e in b.evidence) && b.resolutionPolicy == a.resolutionPolicy
  }

  lemma CleanFindsNothing(a: Assessment)
    requires IsClean(a)
    ensures forall r: Reason :: !HeadFinds(a, r)
    ensures forall i, r: Reason :: 0 <= i < |a.checks| ==> !CheckFinds(a, a.checks[i], r)
  {
    hide IsClean, HeadFinds, CheckFinds;
    ProvenExactly(a);
    NothingFound(a);
  }

  lemma TraceableWithMore(c: Check, a: Assessment, b: Assessment)
    requires HasSameChecks(a, b) && IsTraceable(c, a.evidence)
    ensures IsTraceable(c, b.evidence)
  {
    TraceableExactly(c, a.evidence);
    TraceableExactly(c, b.evidence);
  }

  lemma SameChecksFindNothing(a: Assessment, b: Assessment)
    requires IsClean(a) && HasSameChecks(a, b)
    ensures forall i, r: Reason :: 0 <= i < |b.checks| ==> !CheckFinds(b, b.checks[i], r)
  {
    hide IsClean, IsTraceable, IsResolved, IsCurrentEnough, IsClosed;
    CleanFindsNothing(a);
    forall i, r: Reason | 0 <= i < |b.checks| ensures !CheckFinds(b, b.checks[i], r) {
      assert !CheckFinds(a, a.checks[i], r);
      if r.ReliedEvidenceNotTraceable? && IsTraceable(b.checks[i], a.evidence) {
        TraceableWithMore(b.checks[i], a, b);
      }
    }
  }

  lemma OnlyAtTheHead(a: Assessment, b: Assessment, reason: Reason)
    requires IsClean(a) && HasSameChecks(a, b)
    requires forall r: Reason :: HeadFinds(b, r) <==> r == reason
    ensures OnlyReason(b, reason)
  {
    hide IsClean, HeadFinds, CheckFinds, HasSameChecks;
    SameChecksFindNothing(a, b);
  }

  /* ---------- The assessment as a whole ---------- */

  /** One thing wrong with an assessment outside its checks. */
  datatype Fault =
    | Unsupported
    | Factors(factors: seq<string>)
    | Concluded(overall: Overall)
    | Blocked(limitations: seq<bool>)
    | Numerator(count: int)
    | Denominator(count: int)
    | NothingCounted(count: int)
    | NotAllResolved(codes: set<string>)
    | Unresolved(codes: set<string>)
    | Partial(codes: set<string>)
    | Unknown(codes: set<string>)
    | CoverageByOther(policy: string)
    | MandatoryNumerator(count: int)
    | MandatoryDenominator(count: int)
    | NotAllMandatory(codes: set<string>)
    | Forbidden
    | GateBlocks(blocking: seq<string>)
    | GateForOthers(codes: set<string>)
    | GateResolvesOthers(codes: set<string>)
    | GateByOther(policy: string)
    | ForeignEvidence(item: Evidence)

  /** It is wrong: what is put in does differ from what has to be there. */
  predicate Spoils(f: Fault, a: Assessment) {
    match f
    case Unsupported => true
    case Factors(factors) => factors != []
    case Concluded(overall) => overall != a.overall
    case Blocked(limitations) => true in limitations
    case Numerator(n) => n != a.coverage.denominator
    case Denominator(n) => n != a.coverage.numerator
    case NothingCounted(n) => n <= 0
    case NotAllResolved(codes) => codes != a.coverage.applicable
    case Unresolved(codes) => codes != {}
    case Partial(codes) => codes != {}
    case Unknown(codes) => codes != {}
    case CoverageByOther(policy) => policy != a.coveragePolicy
    case MandatoryNumerator(n) => n != a.coverage.mandatoryDenominator
    case MandatoryDenominator(n) => n != a.coverage.mandatoryNumerator
    case NotAllMandatory(codes) => codes != a.coverage.mandatory
    case Forbidden => true
    case GateBlocks(blocking) => blocking != []
    case GateForOthers(codes) => codes != a.coverage.mandatory
    case GateResolvesOthers(codes) => codes != a.coverage.mandatory
    case GateByOther(policy) => policy != a.applicabilityPolicy
    case ForeignEvidence(e) => e.companyId != a.companyId
  }

  function Spoiled(a: Assessment, f: Fault): Assessment {
    match f
    case Unsupported => a.(status := UNSUPPORTED_SUBJECT)
    case Factors(factors) => a.(factors := factors)
    case Concluded(overall) => a.(overall := overall)
    case Blocked(limitations) => a.(blockingLimitations := limitations)
    case Numerator(n) => a.(coverage := a.coverage.(numerator := n))
    case Denominator(n) => a.(coverage := a.coverage.(denominator := n))
    case NothingCounted(n) => a.(coverage := a.coverage.(numerator := n, denominator := n))
    case NotAllResolved(codes) => a.(coverage := a.coverage.(resolved := codes))
    case Unresolved(codes) => a.(coverage := a.coverage.(unresolved := codes))
    case Partial(codes) => a.(coverage := a.coverage.(partial := codes))
    case Unknown(codes) => a.(coverage := a.coverage.(unknown := codes))
    case CoverageByOther(policy) => a.(coverage := a.coverage.(policyVersion := policy))
    case MandatoryNumerator(n) => a.(coverage := a.coverage.(mandatoryNumerator := n))
    case MandatoryDenominator(n) => a.(coverage := a.coverage.(mandatoryDenominator := n))
    case NotAllMandatory(codes) => a.(coverage := a.coverage.(mandatoryResolved := codes))
    case Forbidden => a.(gate := a.gate.(allowed := false))
    case GateBlocks(blocking) => a.(gate := a.gate.(blocking := blocking))
    case GateForOthers(codes) => a.(gate := a.gate.(mandatory := codes))
    case GateResolvesOthers(codes) => a.(gate := a.gate.(resolved := codes))
    case GateByOther(policy) => a.(gate := a.gate.(policyVersion := policy))
    case ForeignEvidence(e) => a.(evidence := a.evidence + [e])
  }

  function ReasonFor(f: Fault): Reason {
    match f
    case Unsupported => AssessmentNotCalculated
    case Factors(_) => FactorsPresent
    case Concluded(_) => OverallResultNotClean
    case Blocked(_) => BlockingLimitation
    case Numerator(_) => CoverageNotComplete
    case Denominator(_) => CoverageNotComplete
    case NothingCounted(_) => CoverageNotComplete
    case NotAllResolved(_) => ApplicableChecksNotResolved
    case Unresolved(_) => CoverageHasUnresolvedAxes
    case Partial(_) => CoverageHasUnresolvedAxes
    case Unknown(_) => CoverageHasUnresolvedAxes
    case CoverageByOther(_) => CoveragePolicyMismatch
    case MandatoryNumerator(_) => MandatoryCoverageNotComplete
    case MandatoryDenominator(_) => MandatoryCoverageNotComplete
    case NotAllMandatory(_) => MandatoryCoverageNotComplete
    case Forbidden => MandatoryGateNotProven
    case GateBlocks(_) => MandatoryGateNotProven
    case GateForOthers(_) => MandatoryGateNotProven
    case GateResolvesOthers(_) => MandatoryGateNotProven
    case GateByOther(_) => MandatoryGatePolicyMismatch
    case ForeignEvidence(_) => EvidenceSubjectMismatch
  }

  lemma HeadReasonIsOwn(a: Assessment, f: Fault, r: Reason)
    requires IsCleanOutside(a) && !HeadFinds(a, r) && Spoils(f, a)
    ensures HeadFinds(Spoiled(a, f), r) <==> r == ReasonFor(f)
  {
    hide *;
    if ReasonFor(f) == MandatoryCoverageNotComplete {
      MandatoryReasonIsOwn(a, f, r);
    } else if IsCoverageReason(ReasonFor(f)) {
      CoverageReasonIsOwn(a, f, r);
    } else {
      OtherReasonIsOwn(a, f, r);
    }
  }

  lemma MandatoryReasonIsOwn(a: Assessment, f: Fault, r: Reason)
    requires IsCleanOutside(a) && !HeadFinds(a, r) && Spoils(f, a) && ReasonFor(f) == MandatoryCoverageNotComplete
    ensures HeadFinds(Spoiled(a, f), r) <==> r == ReasonFor(f)
  {
    hide Distinct, Codes, ApplicableCodes;
  }

  lemma CoverageReasonIsOwn(a: Assessment, f: Fault, r: Reason)
    requires IsCleanOutside(a) && !HeadFinds(a, r) && Spoils(f, a)
    requires IsCoverageReason(ReasonFor(f)) && ReasonFor(f) != MandatoryCoverageNotComplete
    ensures HeadFinds(Spoiled(a, f), r) <==> r == ReasonFor(f)
  {
    hide Distinct, Codes, ApplicableCodes;
    var b := Spoiled(a, f);
    assert IsMandatoryCovered(b.coverage) == IsMandatoryCovered(a.coverage) && IsGateProven(b) == IsGateProven(a);
  }

  lemma OtherReasonIsOwn(a: Assessment, f: Fault, r: Reason)
    requires IsCleanOutside(a) && !HeadFinds(a, r) && Spoils(f, a) && !IsCoverageReason(ReasonFor(f))
    ensures HeadFinds(Spoiled(a, f), r) <==> r == ReasonFor(f)
  {
    hide Distinct, Codes, ApplicableCodes, IsCovered, IsMandatoryCovered;
    if f.ForeignEvidence? {
      assert Spoiled(a, f).evidence[|a.evidence|] == f.item;
    }
  }

  lemma SpoiledKeepsChecks(a: Assessment, f: Fault)
    ensures HasSameChecks(a, Spoiled(a, f))
  {
  }

  /** One fault outside the checks of a clean assessment gives its own reason and no other. */
  lemma OneFaultOneReason(a: Assessment, f: Fault)
    requires IsClean(a) && Spoils(f, a)
    ensures OnlyReason(Spoiled(a, f), ReasonFor(f))
  {
    hide HeadFinds, CheckFinds, Spoils, Spoiled, ReasonFor, IsSettled, IsCleanOutside, OnlyReason, HasSameChecks;
    CleanFindsNothing(a);
    SpoiledKeepsChecks(a, f);
    forall r: Reason ensures HeadFinds(Spoiled(a, f), r) <==> r == ReasonFor(f) {
      HeadReasonIsOwn(a, f, r);
    }
    OnlyAtTheHead(a, Spoiled(a, f), ReasonFor(f));
  }

  /* ---------- One check ---------- */

  /** The assessment with another check in one place. */
  function WithCheck(a: Assessment, i: nat, c: Check): Assessment
    requires i < |a.checks|
  {
    a.(checks := a.checks[i := c])
  }

  /** With the same code and applicability in its place, only the check itself can be faulty. */
  lemma OnlyAtTheCheck(a: Assessment, i: nat, c: Check, reason: Reason)
    requires IsClean(a) && i < |a.checks| && c.code == a.checks[i].code && c.applicability == a.checks[i].applicability
    requires forall r: Reason :: CheckFinds(a, c, r) <==> r == reason
    ensures OnlyReason(WithCheck(a, i, c), reason)
  {
    hide IsClean, IsResolved, IsTraceable, IsCurrentEnough, IsClosed;
    CleanFindsNothing(a);
    var b := WithCheck(a, i, c);
    SameCodes(a.checks, i, c);
    forall r: Reason ensures !HeadFinds(b, r) {
      assert !HeadFinds(a, r);
    }
    forall j, r: Reason | 0 <= j < |b.checks| ensures CheckFinds(b, b.checks[j], r) <==> j == i && r == reason {
      assert j != i ==> !CheckFinds(a, a.checks[j], r);
      assert CheckFinds(b, b.checks[j], r) == CheckFinds(a, b.checks[j], r);
    }
    assert b.checks[i] == c;
  }

  lemma SameCodes(checks: seq<Check>, i: nat, c: Check)
    requires i < |checks| && c.code == checks[i].code && c.applicability == checks[i].applicability
    ensures Codes(checks[i := c]) == Codes(checks) && ApplicableCodes(checks[i := c]) == ApplicableCodes(checks)
  {
    var after := checks[i := c];
    forall code ensures code in ApplicableCodes(after) <==> code in ApplicableCodes(checks) {
      if j :| 0 <= j < |checks| && checks[j].applicability == APPLICABLE && checks[j].code == code {
        assert after[j].applicability == APPLICABLE && after[j].code == code;
      }
    }
  }

  /** One thing wrong with a check. */
  datatype Doubt =
    | OtherCompany(company: int)
    | NotDecided
    | Open(resolution: Resolution)
    | NotRun(execution: Execution)
    | NothingObserved
    | NotInFull(scope: Scope)
    | NoEvidence
    | NoSource
    | NoCandidate
    | LostEvidence(ref: string)
    | LostSource(ref: string)
    | LostCandidate(ref: string)
    | Outdated(freshness: Freshness)
    | NotClosed
    | ByOther(policy: string)

  predicate Weakens(d: Doubt, a: Assessment, c: Check) {
    match d
    case OtherCompany(company) => company != a.companyId
    case NotDecided => c.applicability == NOT_APPLICABLE
    case Open(resolution) => resolution != RESOLVED
    case NotRun(execution) => c.applicability == APPLICABLE && execution != CHECKED
    case NothingObserved => c.applicability == APPLICABLE
    case NotInFull(scope) => c.applicability == APPLICABLE && scope != COMPLETE
    case NoEvidence => c.applicability == APPLICABLE
    case NoSource => c.applicability == APPLICABLE
    case NoCandidate => c.applicability == APPLICABLE
    case LostEvidence(ref) => c.applicability == APPLICABLE && forall e :: e in a.evidence ==> ref !in e.evidenceRefs
    case LostSource(ref) => c.applicability == APPLICABLE && forall e :: e in a.evidence ==> e.sourceCode != ref
    case LostCandidate(ref) => c.applicability == APPLICABLE && forall e :: e in a.evidence ==> e.candidateRef != ref
    case Outdated(freshness) => c.applicability == APPLICABLE && freshness != CURRENT
    case NotClosed => c.applicability == APPLICABLE
    case ByOther(policy) => c.applicability == APPLICABLE && policy != a.resolutionPolicy
  }

  function Weakened(c: Check, d: Doubt): Check {
    match d
    case OtherCompany(company) => c.(companyId := company)
    case NotDecided => c.(hasDecision := false)
    case Open(resolution) => c.(resolution := resolution)
    case NotRun(execution) => c.(execution := execution)
    case NothingObserved => c.(observation := UNKNOWN)
    case NotInFull(scope) => c.(scope := scope)
    case NoEvidence => c.(evidenceRefs := {})
    case NoSource => c.(sourceRefs := {})
    case NoCandidate => c.(candidateRefs := {})
    case LostEvidence(ref) => c.(evidenceRefs := c.evidenceRefs + {ref})
    case LostSource(ref) => c.(sourceRefs := c.sourceRefs + {ref})
    case LostCandidate(ref) => c.(candidateRefs := c.candidateRefs + {ref})
    case Outdated(freshness) => c.(temporal := CURRENT_STATE, freshness := freshness)
    case NotClosed => c.(observation := NOT_FOUND, negativeClosure := false)
    case ByOther(policy) => c.(policyVersion := policy)
  }

  function DoubtReason(d: Doubt, c: Check): Reason {
    match d
    case OtherCompany(_) => CheckSubjectMismatch
    case NotDecided => NotApplicableProvenanceMissing
    case Open(_) => if c.applicability == APPLICABLE then ReliedCheckNotResolved else NotApplicableProvenanceMissing
    case NotRun(_) => ReliedCheckNotResolved
    case NothingObserved => ReliedCheckNotResolved
    case NotInFull(_) => ReliedCheckNotResolved
    case NoEvidence => ReliedCheckNotResolved
    case NoSource => ReliedCheckNotResolved
    case NoCandidate => ReliedCheckNotResolved
    case LostEvidence(_) => ReliedEvidenceNotTraceable
    case LostSource(_) => ReliedEvidenceNotTraceable
    case LostCandidate(_) => ReliedEvidenceNotTraceable
    case Outdated(_) => ReliedCheckNotCurrent
    case NotClosed => NegativeClosureNotProven
    case ByOther(_) => ResolutionPolicyMismatch
  }

  lemma LostIsUntraceable(a: Assessment, c: Check, d: Doubt)
    requires Weakens(d, a, c) && (IsTraceable(c, a.evidence) || c.applicability == NOT_APPLICABLE)
    ensures c.applicability == APPLICABLE ==>
              (IsTraceable(Weakened(c, d), a.evidence) <==> !(d.LostEvidence? || d.LostSource? || d.LostCandidate?))
  {
    TraceableExactly(c, a.evidence);
    TraceableExactly(Weakened(c, d), a.evidence);
    if d.LostEvidence? {
      assert d.ref in Weakened(c, d).evidenceRefs;
    }
    if d.LostSource? {
      assert d.ref in Weakened(c, d).sourceRefs;
    }
    if d.LostCandidate? {
      assert d.ref in Weakened(c, d).candidateRefs;
    }
  }

  lemma CheckReasonIsOwn(a: Assessment, c: Check, d: Doubt, r: Reason)
    requires IsSettled(a, c) && (c.applicability == APPLICABLE ==> c.code in a.coverage.applicable) && Weakens(d, a, c)
    ensures CheckFinds(a, Weakened(c, d), r) <==> r == DoubtReason(d, c)
  {
    hide IsTraceable;
    TraceableExactly(c, a.evidence);
    LostIsUntraceable(a, c, d);
  }

  /** One doubt about one check of a clean assessment gives its own reason and no other. */
  lemma OneDoubtOneReason(a: Assessment, i: nat, d: Doubt)
    requires IsClean(a) && i < |a.checks| && Weakens(d, a, a.checks[i])
    ensures OnlyReason(WithCheck(a, i, Weakened(a.checks[i], d)), DoubtReason(d, a.checks[i]))
  {
    hide CheckFinds, Weakens, Weakened, DoubtReason, IsSettled, IsCleanOutside, OnlyReason;
    var c := a.checks[i];
    ApplicableIsCovered(a, c);
    assert Weakened(c, d).code == c.code && Weakened(c, d).applicability == c.applicability by {
      WeakenedIsSameCheck(c, d);
    }
    forall r: Reason ensures CheckFinds(a, Weakened(c, d), r) <==> r == DoubtReason(d, c) {
      CheckReasonIsOwn(a, c, d, r);
    }
    OnlyAtTheCheck(a, i, Weakened(c, d), DoubtReason(d, c));
  }

  lemma WeakenedIsSameCheck(c: Check, d: Doubt)
    ensures Weakened(c, d).code == c.code && Weakened(c, d).applicability == c.applicability
  {
  }

  /* ---------- One check more ---------- */

  /** Another check behind the others. */
  function WithMore(a: Assessment, c: Check): Assessment {
    a.(checks := a.checks + [c])
  }

  predicate HasCode(a: Assessment, code: string) {
    exists c :: c in a.checks && c.code == code
  }

  lemma MoreCodes(a: Assessment, c: Check)
    ensures Distinct(Codes(WithMore(a, c).checks)) <==> Distinct(Codes(a.checks)) && !HasCode(a, c.code)
    ensures ApplicableCodes(WithMore(a, c).checks) == ApplicableCodes(a.checks) + if c.applicability == APPLICABLE then {c.code} else {}
  {
    var checks, more := a.checks, WithMore(a, c).checks;
    DistinctCodesExactly(checks);
    DistinctCodesExactly(more);
    assert more[|checks|] == c;
    assert forall i :: 0 <= i < |checks| ==> more[i] == checks[i];
    forall code ensures code in ApplicableCodes(more) <==> code in ApplicableCodes(checks) || (c.applicability == APPLICABLE && c.code == code) {
      ApplicableCodesExactly(checks, code);
      ApplicableCodesExactly(more, code);
    }
  }

  lemma MoreFindsExactly(a: Assessment, c: Check, r: Reason)
    requires IsClean(a)
    ensures Finds(WithMore(a, c), r) <==> HeadFinds(WithMore(a, c), r) || CheckFinds(a, c, r)
  {
    hide IsClean, HeadFinds, IsResolved, IsTraceable, IsCurrentEnough, IsClosed;
    CleanFindsNothing(a);
    var b := WithMore(a, c);
    assert b.checks[|a.checks|] == c;
    assert CheckFinds(b, c, r) == CheckFinds(a, c, r);
    forall i | 0 <= i < |a.checks| ensures !CheckFinds(b, b.checks[i], r) {
      assert !CheckFinds(a, a.checks[i], r);
    }
  }

  /**
   A repeated check, an applicable one that the coverage does not know, and one whose
   applicability is unknown: each gives its own reason and no other.
   */
  lemma OneCheckMoreOneReason(a: Assessment, c: Check)
    requires IsClean(a) && c.companyId == a.companyId
    ensures c in a.checks ==> OnlyReason(WithMore(a, c), DuplicateCheckCapability)
    ensures !HasCode(a, c.code) && c.applicability == APPLICABLE ==> OnlyReason(WithMore(a, c), CoverageCheckSetMismatch)
    ensures !HasCode(a, c.code) && c.applicability == APPLICABILITY_UNKNOWN ==> OnlyReason(WithMore(a, c), ApplicabilityNotProven)
  {
    hide HeadFinds, CheckFinds, Finds, IsSettled;
    forall r: Reason
      ensures c in a.checks ==> (Finds(WithMore(a, c), r) <==> r == DuplicateCheckCapability)
      ensures !HasCode(a, c.code) && c.applicability == APPLICABLE ==> (Finds(WithMore(a, c), r) <==> r == CoverageCheckSetMismatch)
      ensures !HasCode(a, c.code) && c.applicability == APPLICABILITY_UNKNOWN ==> (Finds(WithMore(a, c), r) <==> r == ApplicabilityNotProven)
    {
      MoreFindsExactly(a, c, r);
      MoreAtTheHead(a, c, r);
      MoreAtTheCheck(a, c, r);
    }
  }

  lemma MoreAtTheHead(a: Assessment, c: Check, r: Reason)
    requires IsClean(a)
    ensures HeadFinds(WithMore(a, c), r) <==>
              || (r == DuplicateCheckCapability && HasCode(a, c.code))
              || (r == CoverageCheckSetMismatch && c.applicability == APPLICABLE && c.code !in a.coverage.applicable)
  {
    hide Distinct, Codes, ApplicableCodes, IsSettled, HasCode, CheckFinds;
    CleanFindsNothing(a);
    assert !HeadFinds(a, r) && !HeadFinds(a, DuplicateCheckCapability) && !HeadFinds(a, CoverageCheckSetMismatch);
    MoreCodes(a, c);
  }

  lemma MoreAtTheCheck(a: Assessment, c: Check, r: Reason)
    requires IsClean(a) && c.companyId == a.companyId
    ensures c in a.checks ==> !CheckFinds(a, c, r) && HasCode(a, c.code)
    ensures c in a.checks && c.applicability == APPLICABLE ==> c.code in a.coverage.applicable
    ensures c.code in a.coverage.applicable ==> HasCode(a, c.code)
    ensures !HasCode(a, c.code) && c.applicability != NOT_APPLICABLE ==>
              (CheckFinds(a, c, r) <==> r == ApplicabilityNotProven && c.applicability == APPLICABILITY_UNKNOWN)
  {
    hide IsResolved, IsTraceable, IsCurrentEnough, IsClosed, IsSettled, HeadFinds;
    CleanFindsNothing(a);
  }
}
