/**
 The verdict on QA attestations of scripts/qa_attestation.py.

 A pull request passes exactly when one current attestation says so and nothing trusted
 contradicts it. Comments by anyone else never matter, and their order never decides the
 state. The parser of a comment, case folding, time stamps and addresses are parameters.
 */
module QaAttestation {
  import opened Formats
  import opened Wrappers

  datatype Test = Test(name: string, command: string, result: string, passed: int, failed: int, skipped: int, total: int)

  datatype Evidence = Evidence(kind: string, id: string, sha256: Option<string>, url: Option<string>)

  datatype Issuer = Issuer(login: string, source: string, role: string)

  datatype Reviewer = Reviewer(login: Option<string>, role: string, independence: string)

  datatype Payload = Payload(
    schemaVersion: string,
    taskId: string,
    repository: string,
    prNumber: int,
    baseSha: string,
    headSha: string,
    verdict: string,
    testedAt: string,
    tests: seq<Test>,
    evidence: seq<Evidence>,
    mergeAllowed: bool,
    deployAllowed: bool,
    issuer: Issuer,
    reviewer: Reviewer)

  datatype Comment =
    | NotAnObject
    | Comment(id: string, author: Option<string>, association: Option<string>, body: Option<string>)

  /** What the text of a comment holds: no block, a malformed one, or one payload. */
  datatype Block = NoBlock | BadBlock | Block(payload: Payload)

  datatype Tools = Tools(
    parse: string -> Block,
    fold: string -> string,
    isTimestamp: string -> bool,
    isHttpsUrl: string -> bool)

  datatype Policy = Policy(
    version: string,
    issuers: seq<string>,
    owners: seq<string>,
    requireCurrentBase: bool,
    requireIndependence: bool)

  datatype Snapshot = Snapshot(repository: string, prNumber: int, baseSha: string, headSha: string, comments: seq<Comment>)

  const ESTABLISHED := "INDEPENDENT_REVIEWER_ESTABLISHED"
  const NOT_ESTABLISHED := "INDEPENDENT_REVIEWER_NOT_ESTABLISHED"

  /* ---------- Formats ---------- */

  predicate IsText(s: string, limit: nat) {
    0 < |s| <= limit
  }

  predicate IsSha(s: string) {
    |s| == 40 && IsHex(s)
  }

  predicate IsName(s: string) {
    s != "" && forall c :: c in s ==> IsAlphanumeric(c) || c in "_.-"
  }

  /** Owner and name around one slash. */
  predicate IsRepository(s: string) {
    exists i :: 0 <= i < |s| && s[i] == '/' && IsName(s[..i]) && IsName(s[i + 1..])
  }

  predicate IsLogin(s: string) {
    1 <= |s| <= 39 && IsAlphanumeric(s[0]) && forall c :: c in s ==> IsAlphanumeric(c) || c == '-'
  }

  predicate IsRole(s: string) {
    s in ["OWNER", "MEMBER", "COLLABORATOR", "EXTERNAL", "UNKNOWN"]
  }

  function CommentRole(association: Option<string>): string {
    if association.Some? && association.value in ["OWNER", "MEMBER", "COLLABORATOR"] then association.value
    else if association.Some? && association.value != "" then "EXTERNAL"
    else "UNKNOWN"
  }

  /* ---------- One attestation ---------- */

  predicate IsTest(t: Test) {
    && IsText(t.name, 200) && IsText(t.command, 2000) && t.result in ["PASS", "FAIL"]
    && t.passed >= 0 && t.failed >= 0 && t.skipped >= 0 && t.total >= 0
    && t.total == t.passed + t.failed + t.skipped
    && (t.result == "PASS" ==> t.failed == 0)
  }

  predicate IsEvidence(e: Evidence, tools: Tools) {
    && e.kind in ["ARTIFACT", "HASH", "LOG", "REPORT", "RUN", "URL", "OTHER"] && IsText(e.id, 500)
    && (e.sha256.Some? ==> IsDigest(e.sha256.value))
    && (e.url.Some? ==> IsText(e.url.value, 2000) && tools.isHttpsUrl(e.url.value))
  }

  predicate HasValidHead(p: Payload, tools: Tools) {
    && p.schemaVersion == "1.0" && IsText(p.taskId, 200)
    && IsText(p.repository, 200) && IsRepository(p.repository) && p.prNumber >= 1
    && IsSha(p.baseSha) && IsSha(p.headSha) && p.verdict in ["PASS", "FAIL"]
    && IsText(p.testedAt, 100) && tools.isTimestamp(p.testedAt)
  }

  predicate HasValidIssuer(p: Payload, author: string, association: Option<string>, tools: Tools) {
    && IsText(p.issuer.login, 100) && tools.fold(p.issuer.login) == tools.fold(author)
    && p.issuer.source == "GITHUB_COMMENT_AUTHOR"
    && IsRole(p.issuer.role) && p.issuer.role == CommentRole(association)
  }

  /** The reviewer is neither the author nor an owner. */
  predicate IsSomeoneElse(r: Reviewer, author: string, policy: Policy, tools: Tools) {
    && !(r.login.Some? && tools.fold(r.login.value) == tools.fold(author))
    && r.role != "OWNER"
    && !(r.login.Some? && IsListed(r.login.value, policy.owners, tools))
  }

  predicate HasValidReviewer(p: Payload, author: string, policy: Policy, tools: Tools) {
    var r := p.reviewer;
    && (r.login.Some? ==> IsText(r.login.value, 100) && IsLogin(r.login.value))
    && IsRole(r.role) && r.independence in [ESTABLISHED, NOT_ESTABLISHED]
    && (r.login.None? ==> r.role == "UNKNOWN" && r.independence == NOT_ESTABLISHED)
    && (r.independence == ESTABLISHED ==> IsSomeoneElse(r, author, policy, tools))
  }

  predicate IsValid(p: Payload, author: string, association: Option<string>, policy: Policy, tools: Tools) {
    && HasValidHead(p, tools)
    && p.tests != [] && (forall i :: 0 <= i < |p.tests| ==> IsTest(p.tests[i]))
    && (p.verdict == "PASS" ==> forall i :: 0 <= i < |p.tests| ==> p.tests[i].result == "PASS")
    && p.evidence != [] && (forall i :: 0 <= i < |p.evidence| ==> IsEvidence(p.evidence[i], tools))
    && HasValidIssuer(p, author, association, tools)
    && HasValidReviewer(p, author, policy, tools)
  }

  method ValidateAttestation(p: Payload, author: string, association: Option<string>, policy: Policy, tools: Tools)
    returns (ok: bool)
    ensures ok <==> IsValid(p, author, association, policy, tools)
  {
    hide HasValidHead, HasValidIssuer, HasValidReviewer, IsTest, IsEvidence;
    if !HasValidHead(p, tools) || p.tests == [] {
      return false;
    }
    for n := 0 to |p.tests|
      invariant forall i :: 0 <= i < n ==> IsTest(p.tests[i])
    {
      if !IsTest(p.tests[n]) {
        return false;
      }
    }
    if p.verdict == "PASS" && exists i :: 0 <= i < |p.tests| && p.tests[i].result != "PASS" {
      return false;
    }
    if p.evidence == [] {
      return false;
    }
    for n := 0 to |p.evidence|
      invariant forall i :: 0 <= i < n ==> IsEvidence(p.evidence[i], tools)
    {
      if !IsEvidence(p.evidence[n], tools) {
        return false;
      }
    }
    return HasValidIssuer(p, author, association, tools) && HasValidReviewer(p, author, policy, tools);
  }

  /* ---------- Sorting the comments ---------- */

  predicate IsListed(login: string, logins: seq<string>, tools: Tools) {
    exists i :: 0 <= i < |logins| && tools.fold(logins[i]) == tools.fold(login)
  }

  datatype Kind = Ignored | Invalid | Foreign | StaleHead | StaleBase | Current

  predicate IsTrusted(c: Comment, policy: Policy, tools: Tools) {
    c.Comment? && c.author.Some? && IsListed(c.author.value, policy.issuers, tools)
  }

  function KindOf(c: Comment, s: Snapshot, policy: Policy, tools: Tools): Kind {
    if c.NotAnObject? then Invalid
    else if !IsTrusted(c, policy, tools) then Ignored
    else if c.body.None? then Invalid
    else
      var block := tools.parse(c.body.value);
      if block.NoBlock? then Ignored
      else if block.BadBlock? || !IsValid(block.payload, c.author.value, c.association, policy, tools) then Invalid
      else
        var p := block.payload;
        if tools.fold(p.repository) != tools.fold(s.repository) || p.prNumber != s.prNumber then Foreign
        else if p.headSha != s.headSha then StaleHead
        else if policy.requireCurrentBase && p.baseSha != s.baseSha then StaleBase
        else Current
  }

  /** The payload of a comment that has a valid one. */
  function PayloadOf(c: Comment, s: Snapshot, policy: Policy, tools: Tools): Payload
    requires KindOf(c, s, policy, tools) !in {Ignored, Invalid}
  {
    tools.parse(c.body.value).payload
  }

  function Select(comments: seq<Comment>, kinds: set<Kind>, s: Snapshot, policy: Policy, tools: Tools): (r: seq<Comment>)
    ensures forall c :: c in r ==> KindOf(c, s, policy, tools) in kinds
  {
    if comments == [] then []
    else
      var n := |comments| - 1;
      Select(comments[..n], kinds, s, policy, tools)
      + (if KindOf(comments[n], s, policy, tools) in kinds then [comments[n]] else [])
  }

  /* ---------- The verdict ---------- */

  datatype State = MISSING | STALE | FAIL | PASS

  datatype Reason =
    | NoTrustedAttestation
    | HeadShaMismatch
    | BaseShaMismatch
    | MalformedTrustedAttestation
    | AttestationContextMismatch
    | DuplicateCurrentAttestations
    | IndependentReviewerRequired
    | QaVerdictNotPass
    | MergeNotAllowed
    | CurrentHeadAccepted

  /** `diagnostics` names the comments reported, `baseDiffers` is the warning. */
  datatype Verdict = Verdict(
    state: State,
    reason: Reason,
    attested: Option<Comment>,
    payload: Option<Payload>,
    baseDiffers: bool,
    diagnostics: seq<Comment>)

  function Judge(c: Comment, s: Snapshot, policy: Policy, tools: Tools): Verdict
    requires KindOf(c, s, policy, tools) == Current
  {
    var p := PayloadOf(c, s, policy, tools);
    var (state, reason) :=
      if policy.requireIndependence && p.reviewer.independence != ESTABLISHED then (FAIL, IndependentReviewerRequired)
      else if p.verdict != "PASS" then (FAIL, QaVerdictNotPass)
      else if !p.mergeAllowed then (FAIL, MergeNotAllowed)
      else (PASS, CurrentHeadAccepted);
    Verdict(state, reason, Some(c), Some(p), p.baseSha != s.baseSha, [])
  }

  function Evaluation(s: Snapshot, policy: Policy, tools: Tools): Verdict {
    var invalid := Select(s.comments, {Invalid}, s, policy, tools);
    var foreign := Select(s.comments, {Foreign}, s, policy, tools);
    var stale := Select(s.comments, {StaleHead, StaleBase}, s, policy, tools);
    var current := Select(s.comments, {Current}, s, policy, tools);
    if invalid != [] then Verdict(FAIL, MalformedTrustedAttestation, None, None, false, invalid)
    else if foreign != [] then Verdict(FAIL, AttestationContextMismatch, None, None, false, foreign)
    else if |current| > 1 then Verdict(FAIL, DuplicateCurrentAttestations, None, None, false, current)
    else if |current| == 1 then assert current[0] in current; Judge(current[0], s, policy, tools)
    else if stale != [] then
      var reason := if KindOf(stale[|stale| - 1], s, policy, tools) == StaleHead then HeadShaMismatch else BaseShaMismatch;
      Verdict(STALE, reason, None, None, false, stale)
    else Verdict(MISSING, NoTrustedAttestation, None, None, false, [])
  }

  predicate IsValidInput(s: Snapshot, policy: Policy) {
    && IsRepository(s.repository) && s.prNumber >= 1 && IsSha(s.baseSha) && IsSha(s.headSha)
    && policy.version == "1.0" && policy.issuers != [] && policy.owners != []
    && (forall i :: 0 <= i < |policy.issuers| ==> IsLogin(policy.issuers[i]))
    && (forall i :: 0 <= i < |policy.owners| ==> IsLogin(policy.owners[i]))
  }

  method Classify(c: Comment, s: Snapshot, policy: Policy, tools: Tools) returns (kind: Kind)
    ensures kind == KindOf(c, s, policy, tools)
  {
    hide IsValid, IsListed;
    if c.NotAnObject? {
      return Invalid;
    }
    if !IsTrusted(c, policy, tools) {
      return Ignored;
    }
    if c.body.None? {
      return Invalid;
    }
    var block := tools.parse(c.body.value);
    if block.NoBlock? {
      return Ignored;
    }
    if block.BadBlock? {
      return Invalid;
    }
    var ok := ValidateAttestation(block.payload, c.author.value, c.association, policy, tools);
    if !ok {
      return Invalid;
    }
    var p := block.payload;
    if tools.fold(p.repository) != tools.fold(s.repository) || p.prNumber != s.prNumber {
      return Foreign;
    } else if p.headSha != s.headSha {
      return StaleHead;
    } else if policy.requireCurrentBase && p.baseSha != s.baseSha {
      return StaleBase;
    }
    return Current;
  }

  /** The comments of each kind, in their order. */
  ghost predicate AreSelected(
    invalid: seq<Comment>, foreign: seq<Comment>, stale: seq<Comment>, current: seq<Comment>,
    comments: seq<Comment>, s: Snapshot, policy: Policy, tools: Tools)
  {
    && invalid == Select(comments, {Invalid}, s, policy, tools)
    && foreign == Select(comments, {Foreign}, s, policy, tools)
    && stale == Select(comments, {StaleHead, StaleBase}, s, policy, tools)
    && current == Select(comments, {Current}, s, policy, tools)
  }

  lemma SelectOne(comments: seq<Comment>, c: Comment, kinds: set<Kind>, s: Snapshot, policy: Policy, tools: Tools)
    ensures Select(comments + [c], kinds, s, policy, tools)
            == Select(comments, kinds, s, policy, tools) + (if KindOf(c, s, policy, tools) in kinds then [c] else [])
  {
    hide KindOf;
    assert (comments + [c])[..|comments|] == comments;
  }

  lemma OneMoreSelected(
    invalid: seq<Comment>, foreign: seq<Comment>, stale: seq<Comment>, current: seq<Comment>,
    comments: seq<Comment>, c: Comment, s: Snapshot, policy: Policy, tools: Tools)
    requires AreSelected(invalid, foreign, stale, current, comments, s, policy, tools)
    ensures var kind := KindOf(c, s, policy, tools);
            AreSelected(
              if kind == Invalid then invalid + [c] else invalid,
              if kind == Foreign then foreign + [c] else foreign,
              if kind == StaleHead || kind == StaleBase then stale + [c] else stale,
              if kind == Current then current + [c] else current,
              comments + [c], s, policy, tools)
  {
    hide KindOf;
    SelectOne(comments, c, {Invalid}, s, policy, tools);
    SelectOne(comments, c, {Foreign}, s, policy, tools);
    SelectOne(comments, c, {StaleHead, StaleBase}, s, policy, tools);
    SelectOne(comments, c, {Current}, s, policy, tools);
  }

  method SortComments(s: Snapshot, policy: Policy, tools: Tools)
    returns (invalid: seq<Comment>, foreign: seq<Comment>, stale: seq<Comment>, current: seq<Comment>)
    ensures AreSelected(invalid, foreign, stale, current, s.comments, s, policy, tools)
  {
    hide KindOf, AreSelected;
    invalid, foreign, stale, current := [], [], [], [];
    NothingSelected(s, policy, tools);
    for n := 0 to |s.comments|
      invariant AreSelected(invalid, foreign, stale, current, s.comments[..n], s, policy, tools)
    {
      var c := s.comments[n];
      OneMoreSelected(invalid, foreign, stale, current, s.comments[..n], c, s, policy, tools);
      assert s.comments[..n + 1] == s.comments[..n] + [c];
      var kind := Classify(c, s, policy, tools);
      match kind
      case Ignored =>
      case Invalid => invalid := invalid + [c];
      case Foreign => foreign := foreign + [c];
      case StaleHead => stale := stale + [c];
      case StaleBase => stale := stale + [c];
      case Current => current := current + [c];
    }
    assert s.comments[..|s.comments|] == s.comments;
  }

  lemma NothingSelected(s: Snapshot, policy: Policy, tools: Tools)
    ensures AreSelected([], [], [], [], s.comments[..0], s, policy, tools)
  {
  }

  method EvaluateAttestations(s: Snapshot, policy: Policy, tools: Tools) returns (r: Option<Verdict>)
    ensures r == if IsValidInput(s, policy) then Some(Evaluation(s, policy, tools)) else None
  {
    hide IsValidInput, KindOf, Select, Judge;
    if !IsValidInput(s, policy) {
      return None;
    }
    var invalid, foreign, stale, current := SortComments(s, policy, tools);
    if invalid != [] {
      return Some(Verdict(FAIL, MalformedTrustedAttestation, None, None, false, invalid));
    }
    if foreign != [] {
      return Some(Verdict(FAIL, AttestationContextMismatch, None, None, false, foreign));
    }
    if |current| > 1 {
      return Some(Verdict(FAIL, DuplicateCurrentAttestations, None, None, false, current));
    }
    if current == [] {
      if stale != [] {
        var last := stale[|stale| - 1];
        var reason := if KindOf(last, s, policy, tools) == StaleHead then HeadShaMismatch else BaseShaMismatch;
        return Some(Verdict(STALE, reason, None, None, false, stale));
      }
      return Some(Verdict(MISSING, NoTrustedAttestation, None, None, false, []));
    }
    assert current[0] in current;
    return Some(Judge(current[0], s, policy, tools));
  }

  /* ---------- Whose comments matter ---------- */

  /** An object by someone who is not an allowed issuer. */
  predicate IsUntrusted(c: Comment, policy: Policy, tools: Tools) {
    c.Comment? && !IsTrusted(c, policy, tools)
  }

  function WithoutUntrusted(comments: seq<Comment>, policy: Policy, tools: Tools): seq<Comment> {
    if comments == [] then []
    else
      var n := |comments| - 1;
      WithoutUntrusted(comments[..n], policy, tools) + (if IsUntrusted(comments[n], policy, tools) then [] else [comments[n]])
  }

  lemma {:induction false} SelectIgnoresUntrusted(comments: seq<Comment>, kinds: set<Kind>, s: Snapshot, policy: Policy, tools: Tools)
    requires Ignored !in kinds
    ensures Select(WithoutUntrusted(comments, policy, tools), kinds, s, policy, tools) == Select(comments, kinds, s, policy, tools)
  {
    hide KindOf, IsUntrusted;
    if comments != [] {
      var n := |comments| - 1;
      SelectIgnoresUntrusted(comments[..n], kinds, s, policy, tools);
      var front := WithoutUntrusted(comments[..n], policy, tools);
      assert front + [] == front && (front + [comments[n]])[..|front|] == front;
      UntrustedIsIgnored(comments[n], s, policy, tools);
    }
  }

  lemma UntrustedIsIgnored(c: Comment, s: Snapshot, policy: Policy, tools: Tools)
    ensures IsUntrusted(c, policy, tools) ==> KindOf(c, s, policy, tools) == Ignored
  {
    hide IsValid, IsListed;
  }

  /**
   Two pull requests that differ only in comments by others, wherever these are inserted,
   removed or moved, have the same verdict.
   */
  lemma UntrustedNeverMatter(s: Snapshot, t: Snapshot, policy: Policy, tools: Tools)
    requires t == s.(comments := t.comments)
    requires WithoutUntrusted(s.comments, policy, tools) == WithoutUntrusted(t.comments, policy, tools)
    ensures Evaluation(s, policy, tools) == Evaluation(t, policy, tools)
  {
    forall kinds: set<Kind> | Ignored !in kinds
      ensures Select(s.comments, kinds, s, policy, tools) == Select(t.comments, kinds, t, policy, tools)
    {
      SelectIgnoresUntrusted(s.comments, kinds, s, policy, tools);
      SelectIgnoresUntrusted(t.comments, kinds, s, policy, tools);
      KindIgnoresComments(t.comments, kinds, s, t, policy, tools);
    }
    SameSelections(s, t, policy, tools);
  }

  lemma {:induction false} KindIgnoresComments(
    comments: seq<Comment>, kinds: set<Kind>, s: Snapshot, t: Snapshot, policy: Policy, tools: Tools)
    requires t == s.(comments := t.comments)
    ensures Select(comments, kinds, s, policy, tools) == Select(comments, kinds, t, policy, tools)
  {
    hide IsValid, IsListed;
    if comments != [] {
      KindIgnoresComments(comments[..|comments| - 1], kinds, s, t, policy, tools);
    }
  }

  lemma SameSelections(s: Snapshot, t: Snapshot, policy: Policy, tools: Tools)
    requires t == s.(comments := t.comments)
    requires forall kinds: set<Kind> :: Ignored !in kinds ==>
               Select(s.comments, kinds, s, policy, tools) == Select(t.comments, kinds, t, policy, tools)
    ensures Evaluation(s, policy, tools) == Evaluation(t, policy, tools)
  {
    hide IsValid, IsListed, Select;
    assert forall c :: KindOf(c, s, policy, tools) == KindOf(c, t, policy, tools);
  }

  /* ---------- The order of comments ---------- */

  lemma {:induction false} SelectCounts(comments: seq<Comment>, kinds: set<Kind>, s: Snapshot, policy: Policy, tools: Tools, c: Comment)
    ensures multiset(Select(comments, kinds, s, policy, tools))[c] ==
            if KindOf(c, s, policy, tools) in kinds then multiset(comments)[c] else 0
  {
    hide KindOf;
    if comments != [] {
      var n := |comments| - 1;
      SelectCounts(comments[..n], kinds, s, policy, tools, c);
      assert comments == comments[..n] + [comments[n]];
    }
  }

  lemma SelectPermutes(a: seq<Comment>, b: seq<Comment>, kinds: set<Kind>, s: Snapshot, policy: Policy, tools: Tools)
    requires multiset(a) == multiset(b)
    ensures var x, y := Select(a, kinds, s, policy, tools), Select(b, kinds, s, policy, tools);
            multiset(x) == multiset(y) && |x| == |y| && (|x| == 1 ==> x == y)
  {
    hide KindOf, Select;
    var x, y := Select(a, kinds, s, policy, tools), Select(b, kinds, s, policy, tools);
    forall c ensures multiset(x)[c] == multiset(y)[c] {
      SelectCounts(a, kinds, s, policy, tools, c);
      SelectCounts(b, kinds, s, policy, tools, c);
    }
    assert |multiset(x)| == |x| && |multiset(y)| == |y|;
    if |x| == 1 {
      assert x[0] in multiset(y);
    }
  }

  /**
   Reordering all comments keeps the state and what is attested. Only the reason given for a
   stale verdict follows the order, and which comment diagnostics list first.
   */
  lemma OrderNeverDecides(s: Snapshot, t: Snapshot, policy: Policy, tools: Tools)
    requires t == s.(comments := t.comments) && multiset(s.comments) == multiset(t.comments)
    ensures var v, w := Evaluation(s, policy, tools), Evaluation(t, policy, tools);
            && v.state == w.state && v.attested == w.attested && v.payload == w.payload
            && multiset(v.diagnostics) == multiset(w.diagnostics)
            && (v.state != STALE ==> v.reason == w.reason) && (v.state == PASS ==> v == w)
  {
    hide KindOf, Select;
    KindIgnoresComments(t.comments, {Invalid}, s, t, policy, tools);
    KindIgnoresComments(t.comments, {Foreign}, s, t, policy, tools);
    KindIgnoresComments(t.comments, {StaleHead, StaleBase}, s, t, policy, tools);
    KindIgnoresComments(t.comments, {Current}, s, t, policy, tools);
    SelectPermutes(s.comments, t.comments, {Invalid}, s, policy, tools);
    SelectPermutes(s.comments, t.comments, {Foreign}, s, policy, tools);
    SelectPermutes(s.comments, t.comments, {StaleHead, StaleBase}, s, policy, tools);
    SelectPermutes(s.comments, t.comments, {Current}, s, policy, tools);
  }

  /* ---------- What a pass means ---------- */

  predicate Accepts(p: Payload, policy: Policy) {
    p.verdict == "PASS" && p.mergeAllowed && (policy.requireIndependence ==> p.reviewer.independence == ESTABLISHED)
  }

  lemma {:induction false} SelectedNone(comments: seq<Comment>, kinds: set<Kind>, s: Snapshot, policy: Policy, tools: Tools)
    ensures Select(comments, kinds, s, policy, tools) == [] <==>
              forall j :: 0 <= j < |comments| ==> KindOf(comments[j], s, policy, tools) !in kinds
  {
    hide KindOf;
    if comments != [] {
      SelectedNone(comments[..|comments| - 1], kinds, s, policy, tools);
    }
  }

  lemma {:induction false} SelectedOne(comments: seq<Comment>, kinds: set<Kind>, s: Snapshot, policy: Policy, tools: Tools, i: nat)
    ensures IsOnly(comments, i, kinds, s, policy, tools) ==> Select(comments, kinds, s, policy, tools) == [comments[i]]
  {
    hide KindOf;
    if IsOnly(comments, i, kinds, s, policy, tools) {
      var n := |comments| - 1;
      if i == n {
        SelectedNone(comments[..n], kinds, s, policy, tools);
      } else {
        assert comments[..n][i] == comments[i];
        SelectedOne(comments[..n], kinds, s, policy, tools, i);
      }
    }
  }

  lemma {:induction false} OneSelected(comments: seq<Comment>, kinds: set<Kind>, s: Snapshot, policy: Policy, tools: Tools)
    returns (i: nat)
    requires |Select(comments, kinds, s, policy, tools)| == 1
    ensures IsOnly(comments, i, kinds, s, policy, tools)
  {
    hide KindOf;
    var n := |comments| - 1;
    if KindOf(comments[n], s, policy, tools) in kinds {
      i := n;
      SelectedNone(comments[..n], kinds, s, policy, tools);
      assert forall j :: 0 <= j < n ==> comments[..n][j] == comments[j];
    } else {
      i := OneSelected(comments[..n], kinds, s, policy, tools);
      assert forall j :: 0 <= j < n ==> comments[..n][j] == comments[j];
    }
  }

  predicate IsOnly(comments: seq<Comment>, i: nat, kinds: set<Kind>, s: Snapshot, policy: Policy, tools: Tools) {
    i < |comments| && forall j :: 0 <= j < |comments| ==> (KindOf(comments[j], s, policy, tools) in kinds <==> j == i)
  }

  /**
   The state is PASS exactly when no trusted comment is malformed or for another pull
   request, and exactly one is a current attestation, which passes, allows the merge and has
   the required independence.
   */
  lemma PassExactly(s: Snapshot, policy: Policy, tools: Tools)
    ensures Evaluation(s, policy, tools).state == PASS <==>
              && (forall j :: 0 <= j < |s.comments| ==> KindOf(s.comments[j], s, policy, tools) !in {Invalid, Foreign})
              && exists i: nat :: i < |s.comments| && IsOnly(s.comments, i, {Current}, s, policy, tools)
                                  && Accepts(PayloadOf(s.comments[i], s, policy, tools), policy)
  {
    hide KindOf, Select;
    SelectedNone(s.comments, {Invalid}, s, policy, tools);
    SelectedNone(s.comments, {Foreign}, s, policy, tools);
    var current := Select(s.comments, {Current}, s, policy, tools);
    if |current| == 1 {
      var i := OneSelected(s.comments, {Current}, s, policy, tools);
      SelectedOne(s.comments, {Current}, s, policy, tools, i);
      forall k: nat | k < |s.comments| && IsOnly(s.comments, k, {Current}, s, policy, tools) ensures k == i {
        assert KindOf(s.comments[k], s, policy, tools) in {Current};
      }
    } else {
      forall k: nat | k < |s.comments| ensures !IsOnly(s.comments, k, {Current}, s, policy, tools) {
        SelectedOne(s.comments, {Current}, s, policy, tools, k);
      }
    }
  }

  /** A pass rests on one valid attestation, posted by its issuer, for this pull request and head commit. */
  lemma PassIsAttested(s: Snapshot, policy: Policy, tools: Tools)
    requires Evaluation(s, policy, tools).state == PASS
    ensures var v := Evaluation(s, policy, tools);
            && v.attested.Some? && v.attested.value in s.comments && v.payload.Some?
            && IsTrusted(v.attested.value, policy, tools)
            && IsValid(v.payload.value, v.attested.value.author.value, v.attested.value.association, policy, tools)
            && tools.fold(v.payload.value.issuer.login) == tools.fold(v.attested.value.author.value)
            && tools.fold(v.payload.value.repository) == tools.fold(s.repository) && v.payload.value.prNumber == s.prNumber
            && v.payload.value.headSha == s.headSha
            && (policy.requireCurrentBase ==> v.payload.value.baseSha == s.baseSha)
            && (v.baseDiffers <==> v.payload.value.baseSha != s.baseSha)
            && v.payload.value.verdict == "PASS" && v.payload.value.mergeAllowed
  {
    hide IsListed, HasValidHead, HasValidReviewer, IsTest, IsEvidence;
    var current := Select(s.comments, {Current}, s, policy, tools);
    assert current[0] in current;
    SelectedAreComments(s.comments, {Current}, s, policy, tools);
  }

  lemma {:induction false} SelectedAreComments(comments: seq<Comment>, kinds: set<Kind>, s: Snapshot, policy: Policy, tools: Tools)
    ensures forall c :: c in Select(comments, kinds, s, policy, tools) ==> c in comments
  {
    hide KindOf;
    if comments != [] {
      SelectedAreComments(comments[..|comments| - 1], kinds, s, policy, tools);
    }
  }

  /** After a pass every listed test passed without a failure, and its counts add up. */
  lemma PassMeansTestsPass(s: Snapshot, policy: Policy, tools: Tools, i: nat)
    requires Evaluation(s, policy, tools).state == PASS
    requires Evaluation(s, policy, tools).payload.Some? && i < |Evaluation(s, policy, tools).payload.value.tests|
    ensures var test := Evaluation(s, policy, tools).payload.value.tests[i];
            test.result == "PASS" && test.failed == 0 && test.total == test.passed + test.skipped
  {
    hide Evaluation;
    PassIsAttested(s, policy, tools);
  }

  /** When independence is required, a pass has a named reviewer who is neither its author nor an owner. */
  lemma PassIsIndependent(s: Snapshot, policy: Policy, tools: Tools)
    requires Evaluation(s, policy, tools).state == PASS && policy.requireIndependence
    ensures var v := Evaluation(s, policy, tools);
            && v.attested.Some? && v.attested.value.Comment? && v.attested.value.author.Some?
            && v.payload.Some? && v.payload.value.reviewer.login.Some?
            && var login := v.payload.value.reviewer.login.value;
            && tools.fold(login) != tools.fold(v.attested.value.author.value)
            && tools.fold(login) != tools.fold(v.payload.value.issuer.login)
            && v.payload.value.reviewer.role != "OWNER" && !IsListed(login, policy.owners, tools)
  {
    hide IsListed, IsTest, IsEvidence, KindOf, Select;
    PassIsAttested(s, policy, tools);
    assert |NOT_ESTABLISHED| != |ESTABLISHED|;
  }
}
