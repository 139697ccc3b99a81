/**
 Which factors and limitations a page shows, told by the stored risk: exactly the first
 usable factor of each code among the first twelve, and exactly the limitations that the
 stored codes, an unusable factor or a missing proof give.
 */
module ConclusionLaws {
  import CleanProof
  import opened PublicConclusion

  /* ---------- Usable factors ---------- */

  /** Traceable, within the field limits, and with a template. */
  predicate IsUsable(f: RawFactor, ruleset: string, t: Templates) {
    && f.code != "" && f.ref != "" && |f.sources| > 0
    && |f.ref| <= 192 && |f.code| <= 120 && |f.recommendation| <= 120
    && (f.ruleVersion != "" ==> |f.ruleVersion| <= 120) && (f.ruleVersion == "" ==> |ruleset| <= 120)
    && t.hasFactor(f.code)
  }

  /** A usable factor of this code stands before position `n`. */
  predicate IsCoveredBefore(raw: seq<RawFactor>, n: nat, code: string, ruleset: string, t: Templates)
    requires n <= |raw|
  {
    exists j :: 0 <= j < n && raw[j].code == code && IsUsable(raw[j], ruleset, t)
  }

  /** The factor is the first usable one of its code. */
  predicate IsFirst(raw: seq<RawFactor>, i: nat, ruleset: string, t: Templates) {
    i < |raw| && IsUsable(raw[i], ruleset, t) && !IsCoveredBefore(raw, i, raw[i].code, ruleset, t)
  }

  /** The factor cannot be traced, or cannot be shown and no factor of its code was before it. */
  predicate IsLost(raw: seq<RawFactor>, i: nat, ruleset: string, t: Templates) {
    && i < |raw|
    && (|| raw[i].code == "" || raw[i].ref == "" || raw[i].sources == []
        || (!IsUsable(raw[i], ruleset, t) && !IsCoveredBefore(raw, i, raw[i].code, ruleset, t)))
  }

  function Shown(f: RawFactor): PublicFactor {
    PublicFactor("meaning:" + f.ref, f.code)
  }

  lemma UsableExactly(f: RawFactor, risk: StoredRisk, t: Templates)
    ensures IsTraceable(f) && FitsMeaning(f, risk) && t.hasFactor(f.code) <==> IsUsable(f, risk.rulesetVersion, t)
  {
  }

  predicate IsShownFrom(p: PublicFactor, raw: seq<RawFactor>, ruleset: string, t: Templates) {
    exists i: nat :: i < |raw| && IsFirst(raw, i, ruleset, t) && p == Shown(raw[i])
  }

  predicate HasLost(raw: seq<RawFactor>, ruleset: string, t: Templates) {
    exists i: nat :: i < |raw| && IsLost(raw, i, ruleset, t)
  }

  /** What the scan knows after the factors read so far. */
  ghost predicate Knows(raw: seq<RawFactor>, scan: Scan, ruleset: string, t: Templates) {
    && (forall code :: HasCode(scan.factors, code) <==> IsCoveredBefore(raw, |raw|, code, ruleset, t))
    && (forall p :: p in scan.factors <==> IsShownFrom(p, raw, ruleset, t))
    && (scan.unknown <==> HasLost(raw, ruleset, t))
  }

  lemma {:induction false} CoveredGrows(raw: seq<RawFactor>, code: string, ruleset: string, t: Templates)
    requires raw != []
    ensures var n := |raw| - 1;
            IsCoveredBefore(raw, |raw|, code, ruleset, t) <==>
              IsCoveredBefore(raw[..n], n, code, ruleset, t) || (raw[n].code == code && IsUsable(raw[n], ruleset, t))
  {
    hide IsUsable;
    var n := |raw| - 1;
    assert forall j :: 0 <= j < n ==> raw[..n][j] == raw[j];
  }

  lemma PrefixAgrees(raw: seq<RawFactor>, n: nat, i: nat, ruleset: string, t: Templates)
    requires i < n <= |raw|
    ensures IsFirst(raw[..n], i, ruleset, t) <==> IsFirst(raw, i, ruleset, t)
    ensures IsLost(raw[..n], i, ruleset, t) <==> IsLost(raw, i, ruleset, t)
  {
    hide IsUsable;
    assert forall j :: 0 <= j <= i ==> raw[..n][j] == raw[j];
    assert IsCoveredBefore(raw[..n], i, raw[i].code, ruleset, t) <==> IsCoveredBefore(raw, i, raw[i].code, ruleset, t);
  }

  lemma LastAgrees(raw: seq<RawFactor>, ruleset: string, t: Templates)
    requires raw != []
    ensures var n := |raw| - 1;
            IsCoveredBefore(raw, n, raw[n].code, ruleset, t) <==> IsCoveredBefore(raw[..n], n, raw[n].code, ruleset, t)
  {
    hide IsUsable;
    var n := |raw| - 1;
    assert forall j :: 0 <= j < n ==> raw[..n][j] == raw[j];
  }

  lemma {:induction false} ScanKnows(raw: seq<RawFactor>, risk: StoredRisk, t: Templates)
    ensures Knows(raw, ScanFactors(raw, risk, t), risk.rulesetVersion, t)
  {
    hide Step, IsUsable, IsFirst, IsLost;
    if raw != [] {
      var n := |raw| - 1;
      ScanKnows(raw[..n], risk, t);
      StepKnows(raw, ScanFactors(raw[..n], risk, t), risk, t);
    }
  }

  lemma ShownGrows(raw: seq<RawFactor>, p: PublicFactor, ruleset: string, t: Templates)
    requires raw != []
    ensures var n := |raw| - 1;
            IsShownFrom(p, raw, ruleset, t) <==>
              IsShownFrom(p, raw[..n], ruleset, t) || (IsFirst(raw, n, ruleset, t) && p == Shown(raw[n]))
  {
    hide IsFirst;
    var n := |raw| - 1;
    forall i: nat | i < n ensures (IsFirst(raw[..n], i, ruleset, t) <==> IsFirst(raw, i, ruleset, t)) && raw[..n][i] == raw[i] {
      PrefixAgrees(raw, n, i, ruleset, t);
    }
  }

  lemma LostGrows(raw: seq<RawFactor>, ruleset: string, t: Templates)
    requires raw != []
    ensures var n := |raw| - 1;
            HasLost(raw, ruleset, t) <==> HasLost(raw[..n], ruleset, t) || IsLost(raw, n, ruleset, t)
  {
    hide IsLost;
    var n := |raw| - 1;
    forall i: nat | i < n ensures IsLost(raw[..n], i, ruleset, t) <==> IsLost(raw, i, ruleset, t) {
      PrefixAgrees(raw, n, i, ruleset, t);
    }
  }

  lemma StepKnows(raw: seq<RawFactor>, before: Scan, risk: StoredRisk, t: Templates)
    requires raw != [] && Knows(raw[..|raw| - 1], before, risk.rulesetVersion, t)
    ensures Knows(raw, Step(before, raw[|raw| - 1], risk, t), risk.rulesetVersion, t)
  {
    hide Step, IsUsable, IsFirst, IsLost, IsCoveredBefore, HasCode, IsShownFrom, HasLost;
    var n, ruleset := |raw| - 1, risk.rulesetVersion;
    var after := Step(before, raw[n], risk, t);
    StepDoes(before, raw[n], risk, t);
    LastAgrees(raw, ruleset, t);
    LastIs(raw, ruleset, t);
    LostGrows(raw, ruleset, t);
    forall code ensures HasCode(after.factors, code) <==> IsCoveredBefore(raw, |raw|, code, ruleset, t) {
      CoveredGrows(raw, code, ruleset, t);
      CodesGrow(before.factors, Shown(raw[n]), code);
    }
    forall p ensures p in after.factors <==> IsShownFrom(p, raw, ruleset, t) {
      ShownGrows(raw, p, ruleset, t);
    }
  }

  lemma CodesGrow(factors: seq<PublicFactor>, p: PublicFactor, code: string)
    ensures HasCode(factors + [p], code) <==> HasCode(factors, code) || p.code == code
  {
    if i :| 0 <= i < |factors| && factors[i].code == code {
      assert (factors + [p])[i].code == code;
    }
    assert (factors + [p])[|factors|] == p;
  }

  /** What one step of the scan does with a factor. */
  lemma StepDoes(scan: Scan, f: RawFactor, risk: StoredRisk, t: Templates)
    ensures var usable := IsUsable(f, risk.rulesetVersion, t);
            var untraceable := f.code == "" || f.ref == "" || f.sources == [];
            Step(scan, f, risk, t) ==
              if usable && !HasCode(scan.factors, f.code) then scan.(factors := scan.factors + [Shown(f)])
              else if untraceable || (!usable && !HasCode(scan.factors, f.code)) then scan.(unknown := true)
              else scan
  {
    UsableExactly(f, risk, t);
  }

  lemma LastIs(raw: seq<RawFactor>, ruleset: string, t: Templates)
    requires raw != []
    ensures var n := |raw| - 1;
            var covered := IsCoveredBefore(raw, n, raw[n].code, ruleset, t);
            && (IsFirst(raw, n, ruleset, t) <==> IsUsable(raw[n], ruleset, t) && !covered)
            && (IsLost(raw, n, ruleset, t) <==>
                  raw[n].code == "" || raw[n].ref == "" || raw[n].sources == [] || (!IsUsable(raw[n], ruleset, t) && !covered))
            && (IsUsable(raw[n], ruleset, t) ==> raw[n].code != "" && raw[n].ref != "" && raw[n].sources != [])
  {
  }

  /* ---------- What the page shows ---------- */

  /** The factors the exporter looks at: the first twelve, or of the points when there are none. */
  function LookedAt(risk: StoredRisk): seq<RawFactor> {
    var raw := if |risk.factors| > 0 then risk.factors else risk.points;
    if |raw| > 12 then raw[..12] else raw
  }

  /** A page shows exactly the first usable factor of each code among those looked at. */
  lemma FactorsShownExactly(risk: StoredRisk, t: Templates, p: PublicFactor)
    ensures p in Project(risk, t).factors <==> IsShownFrom(p, LookedAt(risk), risk.rulesetVersion, t)
  {
    hide ScanFactors, IsShownFrom, RiskLimitations, CleanProof.IsProven;
    assert LookedAt(risk) == FirstRaw(risk);
    ScanKnows(FirstRaw(risk), risk, t);
  }

  /** Every stored limitation code becomes its own public text. */
  lemma CompiledIs(codes: seq<string>, t: Templates, text: string)
    ensures text in Compiled(codes, t) <==> exists i :: 0 <= i < |codes| && text == t.limitation(codes[i])
  {
    assert forall i :: 0 <= i < |codes| ==> Compiled(codes, t)[i] == t.limitation(codes[i]);
  }

  /**
   A page lists exactly the texts of the stored codes, the general one when a factor was lost,
   and the one for a missing proof when no factor is shown.
   */
  lemma LimitationsAreExactly(risk: StoredRisk, t: Templates, text: string)
    ensures text in Project(risk, t).limitations <==>
              || (exists i :: 0 <= i < |risk.limitations| && text == t.limitation(risk.limitations[i]))
              || (HasLost(LookedAt(risk), risk.rulesetVersion, t) && text == t.limitation(""))
              || (Project(risk, t).factors == [] && !CleanProof.IsProven(risk.evidence)
                  && text == t.limitation("AGGREGATE_CLEAN_PROOF_NOT_PROVEN"))
  {
    hide ScanFactors, IsShownFrom, HasLost, CleanProof.IsProven, Compiled;
    assert LookedAt(risk) == FirstRaw(risk);
    ScanKnows(FirstRaw(risk), risk, t);
    CompiledIs(risk.limitations, t, text);
  }

  /** The summary's own codes are compiled the same way and shown besides those of the risk. */
  lemma PageListsExactly(risk: PublicRisk, codes: seq<string>, t: Templates, text: string)
    ensures text in PageLimitations(risk, Summarized(codes, risk, t)) <==>
              text in risk.limitations || exists i :: 0 <= i < |codes| && text == t.limitation(codes[i])
  {
    hide Compiled;
    CompiledIs(codes, t, text);
  }

  /** A page is open to search engines exactly when it states something and no part of it is limited. */
  lemma IndexedExactly(ogrn: string, sources: seq<PublicState>, risk: StoredRisk, t: Templates)
    ensures IsIndexEligible(ogrn, sources, Project(risk, t)) <==>
              && ogrn != "" && (forall s :: s in sources ==> s == FOUND || s == NOT_FOUND)
              && !risk.preliminary && risk.limitations == [] && !HasLost(LookedAt(risk), risk.rulesetVersion, t)
              && (LookedAt(risk) == [] ==> CleanProof.IsProven(risk.evidence))
  {
    hide ScanFactors, HasLost, CleanProof.IsProven, RiskLimitations;
    assert LookedAt(risk) == FirstRaw(risk);
    ScanKnows(FirstRaw(risk), risk, t);
    EveryFactorLeavesATrace(FirstRaw(risk), risk, t);
    ScanOfNothing(risk, t);
    UnlimitedExactly(risk, t);
    StateIs(risk, t);
    assert forall i :: 0 <= i < |sources| ==> sources[i] in sources;
  }

  lemma UnlimitedExactly(risk: StoredRisk, t: Templates)
    ensures var scan := ScanFactors(FirstRaw(risk), risk, t);
            Project(risk, t).limitations == [] <==>
              risk.limitations == [] && !scan.unknown && (scan.factors == [] ==> CleanProof.IsProven(risk.evidence))
  {
    hide ScanFactors, CleanProof.IsProven;
  }

  /** The state of a risk: partial when anything limits it, else found or not found. */
  lemma StateIs(risk: StoredRisk, t: Templates)
    ensures var p := Project(risk, t);
            p.state == if risk.preliminary || p.limitations != [] then PARTIAL
                       else if p.factors != [] then FOUND
                       else NOT_FOUND
  {
    hide ScanFactors, CleanProof.IsProven, RiskLimitations;
    UnlimitedExactly(risk, t);
  }
}
