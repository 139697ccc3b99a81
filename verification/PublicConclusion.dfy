/**
 What the exporter says about a company: _risk_projection, _summary_projection and
 _index_eligible of scripts/export_public_release.py, and the public_conclusion and
 public_limitations of public_app/contracts.py.

 Only the first twelve raw factors are looked at, repeats and unusable ones are dropped, yet
 the clean sentence appears only for a stored risk without any raw factor or limitation and
 with a proven conclusion. The page also carries the limitations of the stored summary, which
 neither the sentence nor indexing looks at. Texts of templates are parameters.
 */
module PublicConclusion {
  import CleanProof

  const FACTOR_LIMIT := 12

  /** A stored factor; empty texts stand for absent ones, `sources` for its non-empty references. */
  datatype RawFactor = RawFactor(
    code: string,
    ref: string,
    sources: seq<string>,
    recommendation: string,
    ruleVersion: string)

  /** A stored risk; `points` are used when there are no factors. */
  datatype StoredRisk = StoredRisk(
    factors: seq<RawFactor>,
    points: seq<RawFactor>,
    limitations: seq<string>,
    preliminary: bool,
    rulesetVersion: string,
    evidence: CleanProof.Risk)

  /** Whether a factor code has a template, and the public text of a limitation code. */
  datatype Templates = Templates(hasFactor: string -> bool, limitation: string -> string)

  datatype PublicFactor = PublicFactor(meaningId: string, code: string)

  datatype PublicState =
    | FOUND
    | NOT_FOUND
    | NOT_APPLICABLE
    | NOT_CHECKED
    | SOURCE_UNAVAILABLE
    | TIMEOUT
    | PARSING_ERROR
    | STALE_DATA
    | UNKNOWN
    | PARTIAL
    | CONFLICTING_EVIDENCE

  datatype PublicRisk = PublicRisk(state: PublicState, factors: seq<PublicFactor>, limitations: seq<string>)

  datatype Conclusion = FactorsFound | Clean | Abstention

  /* ---------- Factors ---------- */

  function RawFactors(risk: StoredRisk): seq<RawFactor> {
    if risk.factors != [] then risk.factors else risk.points
  }

  function FirstRaw(risk: StoredRisk): seq<RawFactor> {
    var raw := RawFactors(risk);
    if |raw| <= FACTOR_LIMIT then raw else raw[..FACTOR_LIMIT]
  }

  predicate IsTraceable(f: RawFactor) {
    f.code != "" && f.ref != "" && f.sources != []
  }

  function RuleVersion(f: RawFactor, risk: StoredRisk): string {
    if f.ruleVersion != "" then f.ruleVersion
    else if risk.rulesetVersion != "" then risk.rulesetVersion
    else "v3"
  }

  /** The field limits of a meaning. */
  predicate FitsMeaning(f: RawFactor, risk: StoredRisk) {
    |MeaningId(f)| <= 200 && |f.code| <= 120 && |f.recommendation| <= 120 && |RuleVersion(f, risk)| <= 120
  }

  function MeaningId(f: RawFactor): string {
    "meaning:" + f.ref
  }

  predicate HasCode(factors: seq<PublicFactor>, code: string) {
    exists i :: 0 <= i < |factors| && factors[i].code == code
  }

  /** The public factors so far, and whether one could not be shown. */
  datatype Scan = Scan(factors: seq<PublicFactor>, unknown: bool)

  function Step(scan: Scan, f: RawFactor, risk: StoredRisk, t: Templates): Scan {
    if !IsTraceable(f) then scan.(unknown := true)
    else if HasCode(scan.factors, f.code) then scan
    else if !FitsMeaning(f, risk) || !t.hasFactor(f.code) then scan.(unknown := true)
    else scan.(factors := scan.factors + [PublicFactor(MeaningId(f), f.code)])
  }

  function ScanFactors(raw: seq<RawFactor>, risk: StoredRisk, t: Templates): Scan {
    if raw == [] then Scan([], false)
    else Step(ScanFactors(raw[..|raw| - 1], risk, t), raw[|raw| - 1], risk, t)
  }

  /* ---------- The projection ---------- */

  function Compiled(codes: seq<string>, t: Templates): (r: seq<string>)
    ensures |r| == |codes|
  {
    seq(|codes|, i requires 0 <= i < |codes| => t.limitation(codes[i]))
  }

  function RiskLimitations(risk: StoredRisk, scan: Scan, t: Templates): seq<string> {
    CleanProof.Unique(Compiled(risk.limitations, t)
           + (if scan.unknown then [t.limitation("")] else [])
           + (if scan.factors == [] && !CleanProof.IsProven(risk.evidence)
              then [t.limitation("AGGREGATE_CLEAN_PROOF_NOT_PROVEN")] else []))
  }

  function Project(risk: StoredRisk, t: Templates): PublicRisk {
    var scan := ScanFactors(FirstRaw(risk), risk, t);
    var limitations := RiskLimitations(risk, scan, t);
    var state :=
      if risk.preliminary || limitations != [] then PARTIAL
      else if scan.factors != [] then FOUND
      else if CleanProof.IsProven(risk.evidence) then NOT_FOUND
      else PARTIAL;
    PublicRisk(state, scan.factors, limitations)
  }

  /** The loop both projections run over stored limitation codes. */
  method CompileLimitations(codes: seq<string>, t: Templates) returns (limitations: seq<string>)
    ensures limitations == Compiled(codes, t)
  {
    limitations := [];
    for n := 0 to |codes|
      invariant limitations == Compiled(codes[..n], t)
    {
      limitations := limitations + [t.limitation(codes[n])];
    }
    assert codes[..|codes|] == codes;
  }

  method RiskProjection(risk: StoredRisk, t: Templates) returns (r: PublicRisk)
    ensures r == Project(risk, t)
  {
    hide CleanProof.IsProven;
    var raw := FirstRaw(risk);
    var factors: seq<PublicFactor>, unknown := [], false;
    for n := 0 to |raw|
      invariant Scan(factors, unknown) == ScanFactors(raw[..n], risk, t)
    {
      var f := raw[n];
      assert raw[..n + 1][..n] == raw[..n];
      if !IsTraceable(f) {
        unknown := true;
        continue;
      }
      if HasCode(factors, f.code) {
        continue;
      }
      if !FitsMeaning(f, risk) {
        unknown := true;
        continue;
      }
      if !t.hasFactor(f.code) {
        unknown := true;
        continue;
      }
      factors := factors + [PublicFactor(MeaningId(f), f.code)];
    }
    assert raw[..|raw|] == raw;
    var limitations := CompileLimitations(risk.limitations, t);
    if unknown {
      limitations := limitations + [t.limitation("")];
    }
    var proven := false;
    if factors == [] {
      var proof := CleanProof.AggregateCleanConclusionProof(risk.evidence);
      proven := proof.proven;
      if !proven {
        limitations := limitations + [t.limitation("AGGREGATE_CLEAN_PROOF_NOT_PROVEN")];
      }
    }
    assert limitations == Compiled(risk.limitations, t)
                          + (if unknown then [t.limitation("")] else [])
                          + (if factors == [] && !CleanProof.IsProven(risk.evidence)
                             then [t.limitation("AGGREGATE_CLEAN_PROOF_NOT_PROVEN")] else []);
    limitations := CleanProof.Unique(limitations);
    if risk.preliminary || limitations != [] {
      return PublicRisk(PARTIAL, factors, limitations);
    } else if factors != [] {
      return PublicRisk(FOUND, factors, limitations);
    } else if proven {
      return PublicRisk(NOT_FOUND, factors, limitations);
    }
    return PublicRisk(PARTIAL, factors, limitations);
  }

  /* ---------- The sentences ---------- */

  datatype Summary = Summary(conclusion: Conclusion, limitations: seq<string>)

  function SummaryConclusion(risk: PublicRisk): Conclusion {
    if risk.factors != [] then FactorsFound
    else if risk.state == NOT_FOUND then Clean
    else Abstention
  }

  /** The limitations of the risk and of the stored summary, each once. */
  function SummaryLimitations(codes: seq<string>, risk: PublicRisk, t: Templates): seq<string> {
    CleanProof.Unique(risk.limitations + Compiled(codes, t))
  }

  /** What the summary of a risk says when the stored one has these limitation codes. */
  function Summarized(codes: seq<string>, risk: PublicRisk, t: Templates): Summary {
    Summary(SummaryConclusion(risk), SummaryLimitations(codes, risk, t))
  }

  method SummaryProjection(codes: seq<string>, risk: PublicRisk, t: Templates) returns (r: Summary)
    ensures r == Summarized(codes, risk, t)
    ensures forall text :: text in r.limitations <==> text in risk.limitations || text in Compiled(codes, t)
    ensures forall i, j :: 0 <= i < j < |r.limitations| ==> r.limitations[i] != r.limitations[j]
  {
    var compiled := CompileLimitations(codes, t);
    var limitations := risk.limitations + compiled;
    if risk.factors != [] {
      return Summary(FactorsFound, CleanProof.Unique(limitations));
    } else if risk.state == NOT_FOUND {
      return Summary(Clean, CleanProof.Unique(limitations));
    }
    return Summary(Abstention, CleanProof.Unique(limitations));
  }

  /** The conclusion the projection model derives again when it is shown. */
  function ShownConclusion(risk: PublicRisk): Conclusion {
    if risk.factors != [] then FactorsFound
    else if risk.state == NOT_FOUND && risk.limitations == [] then Clean
    else Abstention
  }

  /** The limitations on the page: those of the risk and of the summary, each once. */
  function PageLimitations(risk: PublicRisk, summary: Summary): seq<string> {
    CleanProof.Unique(risk.limitations + summary.limitations)
  }

  predicate IsIndexEligible(ogrn: string, sources: seq<PublicState>, risk: PublicRisk) {
    && ogrn != "" && risk.state in {FOUND, NOT_FOUND} && risk.limitations == []
    && forall i :: 0 <= i < |sources| ==> sources[i] in {FOUND, NOT_FOUND}
  }

  /* ---------- What the sentences rest on ---------- */

  lemma {:induction false} EveryFactorLeavesATrace(raw: seq<RawFactor>, risk: StoredRisk, t: Templates)
    ensures raw != [] ==> ScanFactors(raw, risk, t).factors != [] || ScanFactors(raw, risk, t).unknown
  {
    if raw != [] {
      var before := ScanFactors(raw[..|raw| - 1], risk, t);
      assert HasCode(before.factors, raw[|raw| - 1].code) ==> before.factors != [];
    }
  }

  /**
   The clean sentence appears exactly for a stored risk that has no raw factor at all, no
   limitation, is not preliminary, and whose clean conclusion is proven.
   */
  lemma CleanSentenceExactly(risk: StoredRisk, t: Templates)
    ensures SummaryConclusion(Project(risk, t)) == Clean <==>
              RawFactors(risk) == [] && risk.limitations == [] && !risk.preliminary && CleanProof.IsProven(risk.evidence)
  {
    hide CleanProof.IsProven, ScanFactors;
    EveryFactorLeavesATrace(FirstRaw(risk), risk, t);
    ScanOfNothing(risk, t);
  }

  /** A page has no limitation exactly when the risk shows none and the stored summary has no code. */
  lemma PageIsUnlimitedExactly(risk: PublicRisk, codes: seq<string>, t: Templates)
    ensures PageLimitations(risk, Summarized(codes, risk, t)) == [] <==> risk.limitations == [] && codes == []
  {
    assert codes != [] ==> Compiled(codes, t) != [];
    assert risk.limitations != [] ==> risk.limitations + SummaryLimitations(codes, risk, t) != [];
  }

  /**
   A page carries the clean sentence and no limitation exactly when the sentence is justified
   and the stored summary has no limitation code; the sentence alone does not depend on those.
   */
  lemma CleanPageExactly(risk: StoredRisk, codes: seq<string>, t: Templates)
    ensures var p := Project(risk, t);
            var summary := Summarized(codes, p, t);
            && (summary.conclusion == Clean && PageLimitations(p, summary) == [] <==>
                  RawFactors(risk) == [] && risk.limitations == [] && !risk.preliminary
                  && CleanProof.IsProven(risk.evidence) && codes == [])
            && (summary.conclusion == Clean ==> (PageLimitations(p, summary) == [] <==> codes == []))
  {
    hide CleanProof.IsProven, ScanFactors, RiskLimitations, PageLimitations, SummaryLimitations;
    CleanSentenceExactly(risk, t);
    ConclusionsAgree(risk, t);
    PageIsUnlimitedExactly(Project(risk, t), codes, t);
  }

  lemma ScanOfNothing(risk: StoredRisk, t: Templates)
    ensures ScanFactors([], risk, t) == Scan([], false)
  {
  }

  /** Behind a clean sentence every condition holds, and every check is settled. */
  lemma CleanSentenceIsJustified(risk: StoredRisk, t: Templates)
    requires SummaryConclusion(Project(risk, t)) == Clean
    ensures risk.evidence.Parsed? && CleanProof.IsClean(risk.evidence.assessment)
  {
    hide CleanProof.IsClean, Project;
    CleanSentenceExactly(risk, t);
    CleanProof.ProvenExactly(risk.evidence.assessment);
  }

  /** The stored and the shown conclusion agree on every exported risk. */
  lemma ConclusionsAgree(risk: StoredRisk, t: Templates)
    ensures ShownConclusion(Project(risk, t)) == SummaryConclusion(Project(risk, t))
  {
    hide CleanProof.IsProven, ScanFactors, RiskLimitations;
  }

  /** The state of an exported risk says which conclusion it has. */
  lemma StateIsConclusion(risk: StoredRisk, t: Templates)
    ensures var p := Project(risk, t);
            && (p.state == NOT_FOUND <==> SummaryConclusion(p) == Clean)
            && (p.state == FOUND <==> p.limitations == [] && !risk.preliminary && SummaryConclusion(p) == FactorsFound)
            && p.state in {FOUND, NOT_FOUND, PARTIAL}
  {
    hide CleanProof.IsProven, ScanFactors;
  }

  /**
   A page open to search engines states factors or a justified clean conclusion, and its
   stored risk has no limitation; the page has none exactly when the stored summary has none.
   */
  lemma IndexedIsConclusive(ogrn: string, sources: seq<PublicState>, risk: StoredRisk, codes: seq<string>, t: Templates)
    requires IsIndexEligible(ogrn, sources, Project(risk, t))
    ensures risk.limitations == [] && !risk.preliminary
    ensures PageLimitations(Project(risk, t), Summarized(codes, Project(risk, t), t)) == [] <==> codes == []
    ensures SummaryConclusion(Project(risk, t)) != Abstention
    ensures RawFactors(risk) == [] ==> risk.evidence.Parsed? && CleanProof.IsClean(risk.evidence.assessment)
  {
    hide CleanProof.IsClean, CleanProof.IsProven, ScanFactors, PageLimitations, Summarized;
    StateIsConclusion(risk, t);
    PageIsUnlimitedExactly(Project(risk, t), codes, t);
    EveryFactorLeavesATrace(FirstRaw(risk), risk, t);
    ScanOfNothing(risk, t);
    if SummaryConclusion(Project(risk, t)) == Clean {
      CleanSentenceIsJustified(risk, t);
    }
  }

  /**
   With any limitation code in the stored summary, a page can carry the clean sentence, be
   open to search engines and list a limitation all the same.
   */
  lemma LimitedPageIsClean(codes: seq<string>, t: Templates)
    requires codes != []
    ensures var p := Project(StoredRisk([], [], [], false, "", CleanProof.Parsed(CleanProof.OneCheck())), t);
            var summary := Summarized(codes, p, t);
            && summary.conclusion == Clean && ShownConclusion(p) == Clean
            && IsIndexEligible("1027700132195", [NOT_FOUND, NOT_FOUND, NOT_FOUND, NOT_FOUND], p)
            && PageLimitations(p, summary) != []
  {
    hide CleanProof.IsProven, CleanProof.IsClean, ScanFactors, PageLimitations, SummaryLimitations;
    var risk := StoredRisk([], [], [], false, "", CleanProof.Parsed(CleanProof.OneCheck()));
    CleanProof.OneCheckIsClean();
    CleanSentenceExactly(risk, t);
    ConclusionsAgree(risk, t);
    StateIsConclusion(risk, t);
    PageIsUnlimitedExactly(Project(risk, t), codes, t);
  }

  /* ---------- Which factors are shown ---------- */

  /** The index of the raw factor a public one was made from. */
  predicate IsFrom(p: PublicFactor, raw: seq<RawFactor>, t: Templates) {
    exists i :: 0 <= i < |raw| && p == PublicFactor(MeaningId(raw[i]), raw[i].code) && IsTraceable(raw[i]) && t.hasFactor(raw[i].code)
  }

  /** A raw factor is shown at most once, and only when it is new, traceable and has a template. */
  lemma StepShowsOne(scan: Scan, f: RawFactor, risk: StoredRisk, t: Templates)
    ensures var after := Step(scan, f, risk, t).factors;
            || after == scan.factors
            || (after == scan.factors + [PublicFactor(MeaningId(f), f.code)]
                && IsTraceable(f) && t.hasFactor(f.code) && !HasCode(scan.factors, f.code))
  {
  }

  lemma ScanLast(raw: seq<RawFactor>, risk: StoredRisk, t: Templates)
    requires raw != []
    ensures var before := ScanFactors(raw[..|raw| - 1], risk, t);
            ScanFactors(raw, risk, t) == Step(before, raw[|raw| - 1], risk, t)
            && (before.unknown ==> ScanFactors(raw, risk, t).unknown)
  {
  }

  /** No two shown factors have the same code. */
  lemma {:induction false} ShownCodesAreDistinct(raw: seq<RawFactor>, risk: StoredRisk, t: Templates)
    ensures var factors := ScanFactors(raw, risk, t).factors;
            forall i, j :: 0 <= i < j < |factors| ==> factors[i].code != factors[j].code
  {
    hide Step;
    if raw != [] {
      var n := |raw| - 1;
      ShownCodesAreDistinct(raw[..n], risk, t);
      StepShowsOne(ScanFactors(raw[..n], risk, t), raw[n], risk, t);
      ScanLast(raw, risk, t);
    }
  }

  /** Every shown factor was made from a traceable raw factor with a template. */
  lemma {:induction false} ShownFactorsAreFaithful(raw: seq<RawFactor>, risk: StoredRisk, t: Templates)
    ensures var factors := ScanFactors(raw, risk, t).factors;
            forall i :: 0 <= i < |factors| ==> IsFrom(factors[i], raw, t)
  {
    hide Step, IsTraceable;
    if raw != [] {
      var n := |raw| - 1;
      ShownFactorsAreFaithful(raw[..n], risk, t);
      var before, after := ScanFactors(raw[..n], risk, t), ScanFactors(raw, risk, t);
      StepShowsOne(before, raw[n], risk, t);
      ScanLast(raw, risk, t);
      assert forall i :: 0 <= i < n ==> raw[..n][i] == raw[i];
      forall i | 0 <= i < |after.factors| ensures IsFrom(after.factors[i], raw, t) {
        if i < |before.factors| {
          assert IsFrom(before.factors[i], raw[..n], t);
        } else {
          assert after.factors[i] == PublicFactor(MeaningId(raw[n]), raw[n].code);
        }
      }
    }
  }

  /** Each raw factor that was looked at is shown, or another of its code is, or one could not be shown. */
  lemma {:induction false} EachIsShown(raw: seq<RawFactor>, risk: StoredRisk, t: Templates, i: nat)
    requires i < |raw| && !ScanFactors(raw, risk, t).unknown
    ensures HasCode(ScanFactors(raw, risk, t).factors, raw[i].code)
  {
    hide Step, HasCode, ScanFactors;
    var n := |raw| - 1;
    var before := ScanFactors(raw[..n], risk, t);
    ScanLast(raw, risk, t);
    if i < n {
      assert raw[..n][i] == raw[i];
      EachIsShown(raw[..n], risk, t, i);
      StepKeepsCodes(before, raw[n], risk, t, raw[i].code);
    } else {
      StepShows(before, raw[n], risk, t);
    }
  }

  lemma StepKeepsCodes(scan: Scan, f: RawFactor, risk: StoredRisk, t: Templates, code: string)
    requires HasCode(scan.factors, code)
    ensures HasCode(Step(scan, f, risk, t).factors, code)
  {
    var i :| 0 <= i < |scan.factors| && scan.factors[i].code == code;
    assert Step(scan, f, risk, t).factors[i] == scan.factors[i];
  }

  lemma StepShows(scan: Scan, f: RawFactor, risk: StoredRisk, t: Templates)
    requires !Step(scan, f, risk, t).unknown
    ensures HasCode(Step(scan, f, risk, t).factors, f.code)
  {
    var after := Step(scan, f, risk, t);
    if !HasCode(scan.factors, f.code) {
      assert after.factors[|scan.factors|].code == f.code;
    }
  }

  /** An exported risk without limitations shows the code of each of its first twelve raw factors. */
  lemma UnlimitedShowsFactors(risk: StoredRisk, t: Templates, i: nat)
    requires i < |FirstRaw(risk)| && Project(risk, t).limitations == []
    ensures HasCode(Project(risk, t).factors, FirstRaw(risk)[i].code)
  {
    hide HasCode, CleanProof.IsProven, ScanFactors, FirstRaw;
    assert !ScanFactors(FirstRaw(risk), risk, t).unknown;
    EachIsShown(FirstRaw(risk), risk, t, i);
  }

  /* ---------- What the cut to twelve drops ---------- */

  predicate ShowsEveryCode(risk: StoredRisk, t: Templates) {
    forall i :: 0 <= i < |RawFactors(risk)| ==> HasCode(Project(risk, t).factors, RawFactors(risk)[i].code)
  }

  predicate OccursEarly(risk: StoredRisk, code: string) {
    exists j :: 0 <= j < |FirstRaw(risk)| && FirstRaw(risk)[j].code == code
  }

  /**
   A risk exported without limitations shows the codes of all its raw factors exactly when
   each of them occurs among the first twelve.
   */
  lemma EveryCodeIsShownExactly(risk: StoredRisk, t: Templates)
    requires Project(risk, t).limitations == []
    ensures ShowsEveryCode(risk, t)
            <==> forall i :: 0 <= i < |RawFactors(risk)| ==> OccursEarly(risk, RawFactors(risk)[i].code)
  {
    hide HasCode, OccursEarly, Project, Step, ScanFactors, RiskLimitations, FirstRaw, RawFactors, CleanProof.IsProven;
    var raw, shown := RawFactors(risk), Project(risk, t).factors;
    forall i | 0 <= i < |raw| ensures HasCode(shown, raw[i].code) <==> OccursEarly(risk, raw[i].code) {
      CodeIsShownExactly(risk, t, raw[i].code);
    }
  }

  lemma CodeIsShownExactly(risk: StoredRisk, t: Templates, code: string)
    requires Project(risk, t).limitations == []
    ensures HasCode(Project(risk, t).factors, code) <==> OccursEarly(risk, code)
  {
    hide Step, ScanFactors, RiskLimitations, FirstRaw, CleanProof.IsProven;
    var shown := Project(risk, t).factors;
    ShownFactorsAreFaithful(FirstRaw(risk), risk, t);
    if HasCode(shown, code) {
      var i :| 0 <= i < |shown| && shown[i].code == code;
      assert shown == ScanFactors(FirstRaw(risk), risk, t).factors;
      assert IsFrom(shown[i], FirstRaw(risk), t);
    }
    if OccursEarly(risk, code) {
      var j :| 0 <= j < |FirstRaw(risk)| && FirstRaw(risk)[j].code == code;
      UnlimitedShowsFactors(risk, t, j);
    }
  }

  /** One traceable factor for each code. */
  function FactorsOf(codes: seq<string>): seq<RawFactor> {
    seq(|codes|, i requires 0 <= i < |codes| => RawFactor(codes[i], "ref", ["source"], "", ""))
  }

  lemma {:induction false} UsableAreKnown(raw: seq<RawFactor>, risk: StoredRisk, t: Templates)
    requires forall f :: f in raw ==> IsTraceable(f) && FitsMeaning(f, risk) && t.hasFactor(f.code)
    ensures !ScanFactors(raw, risk, t).unknown
  {
    hide IsTraceable, FitsMeaning, HasCode;
    if raw != [] {
      UsableAreKnown(raw[..|raw| - 1], risk, t);
      assert raw[|raw| - 1] in raw;
    }
  }

  /** Of factors with thirteen distinct codes that have templates the last is neither shown nor mentioned by a limitation. */
  lemma ThirteenthIsDropped(codes: seq<string>, evidence: CleanProof.Risk, t: Templates)
    requires |codes| == 13 && forall i :: 0 <= i < 13 ==> 0 < |codes[i]| <= 120 && t.hasFactor(codes[i])
    requires forall i, j :: 0 <= i < j < 13 ==> codes[i] != codes[j]
    ensures var shown := Project(StoredRisk(FactorsOf(codes), [], [], false, "", evidence), t);
            shown.limitations == [] && shown.state == FOUND && !HasCode(shown.factors, codes[12])
  {
    hide ScanFactors, CleanProof.IsProven, HasCode;
    var risk := StoredRisk(FactorsOf(codes), [], [], false, "", evidence);
    UsableAreKnown(FirstRaw(risk), risk, t);
    EachIsShown(FirstRaw(risk), risk, t, 0);
    SomeIsShown(ScanFactors(FirstRaw(risk), risk, t).factors, FirstRaw(risk)[0].code);
    CodeIsShownExactly(risk, t, codes[12]);
  }

  lemma SomeIsShown(factors: seq<PublicFactor>, code: string)
    requires HasCode(factors, code)
    ensures factors != []
  {
  }
}
