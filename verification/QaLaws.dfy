/**
 What an attestation is and what it decides, told by the fields of the comments: which are
 malformed, for another pull request, stale or current, and the verdict each case has.
 */
module QaLaws {
  import opened Formats
  import opened QaAttestation
  import opened Wrappers

  /* ---------- What an attestation is ---------- */

  predicate IsBetween(s: string, limit: nat) {
    1 <= |s| <= limit
  }

  predicate IsOneOf(s: string, names: set<string>) {
    s in names
  }

  predicate IsCommit(s: string) {
    |s| == 40 && forall k :: 0 <= k < |s| ==> '0' <= s[k] <= '9' || 'a' <= s[k] <= 'f'
  }

  /** A test run: its counts add up, and it did not pass with a failure. */
  predicate IsRun(t: Test) {
    && IsBetween(t.name, 200) && IsBetween(t.command, 2000) && IsOneOf(t.result, {"PASS", "FAIL"})
    && 0 <= t.passed && 0 <= t.failed && 0 <= t.skipped && t.total == t.passed + t.failed + t.skipped
    && !(t.result == "PASS" && t.failed > 0)
  }

  predicate IsProof(e: Evidence, tools: Tools) {
    && IsOneOf(e.kind, {"ARTIFACT", "HASH", "LOG", "REPORT", "RUN", "URL", "OTHER"}) && IsBetween(e.id, 500)
    && (e.sha256.Some? ==> IsDigest(e.sha256.value))
    && (e.url.Some? ==> IsBetween(e.url.value, 2000) && tools.isHttpsUrl(e.url.value))
  }

  /** What it is about. */
  predicate IsAbout(p: Payload, tools: Tools) {
    && p.schemaVersion == "1.0" && IsBetween(p.taskId, 200) && IsBetween(p.repository, 200) && IsRepository(p.repository)
    && p.prNumber > 0 && IsCommit(p.baseSha) && IsCommit(p.headSha)
    && IsOneOf(p.verdict, {"PASS", "FAIL"}) && IsBetween(p.testedAt, 100) && tools.isTimestamp(p.testedAt)
  }

  /** What it rests on: a pass only on tests that all pass. */
  predicate IsFounded(p: Payload, tools: Tools) {
    && |p.tests| > 0 && (forall t :: t in p.tests ==> IsRun(t) && (p.verdict == "PASS" ==> t.result == "PASS"))
    && |p.evidence| > 0 && (forall e :: e in p.evidence ==> IsProof(e, tools))
  }

  /** The issuer is who posted the comment, in the role the forge reports. */
  predicate IsIssuedBy(p: Payload, author: string, association: Option<string>, tools: Tools) {
    && IsBetween(p.issuer.login, 100) && tools.fold(p.issuer.login) == tools.fold(author)
    && p.issuer.source == "GITHUB_COMMENT_AUTHOR"
    && p.issuer.role == match association
                        case None => "UNKNOWN"
                        case Some(a) =>
                          if a == "OWNER" || a == "MEMBER" || a == "COLLABORATOR" then a
                          else if a == "" then "UNKNOWN"
                          else "EXTERNAL"
  }

  /** An unnamed reviewer is unknown and not independent; an independent one is neither the author nor an owner. */
  predicate IsReviewed(p: Payload, author: string, policy: Policy, tools: Tools) {
    var r := p.reviewer;
    && IsOneOf(r.role, {"OWNER", "MEMBER", "COLLABORATOR", "EXTERNAL", "UNKNOWN"})
    && (r.independence == ESTABLISHED || r.independence == NOT_ESTABLISHED)
    && match r.login
       case None => r.role == "UNKNOWN" && r.independence == NOT_ESTABLISHED
       case Some(login) =>
         && IsBetween(login, 100) && IsLogin(login)
         && (r.independence == ESTABLISHED ==>
               && tools.fold(login) != tools.fold(author) && r.role != "OWNER"
               && forall k :: 0 <= k < |policy.owners| ==> tools.fold(policy.owners[k]) != tools.fold(login))
  }

  /** The payload is a valid attestation when `author` posts it. */
  predicate IsAttestation(p: Payload, author: string, association: Option<string>, policy: Policy, tools: Tools) {
    IsAbout(p, tools) && IsFounded(p, tools) && IsIssuedBy(p, author, association, tools) && IsReviewed(p, author, policy, tools)
  }

  lemma CommitExactly(s: string)
    ensures IsSha(s) <==> IsCommit(s)
  {
    assert forall k :: 0 <= k < |s| ==> s[k] in s;
    if IsCommit(s) {
      forall c | c in s ensures IsDigit(c) || 'a' <= c <= 'f' {
        var k :| 0 <= k < |s| && s[k] == c;
      }
    }
  }

  lemma AboutExactly(p: Payload, tools: Tools)
    ensures HasValidHead(p, tools) <==> IsAbout(p, tools)
  {
    hide IsRepository, IsSha, IsCommit;
    CommitExactly(p.baseSha);
    CommitExactly(p.headSha);
  }

  lemma RunExactly(t: Test)
    ensures IsTest(t) <==> IsRun(t)
  {
  }

  lemma ProofExactly(e: Evidence, tools: Tools)
    ensures IsEvidence(e, tools) <==> IsProof(e, tools)
  {
    hide IsDigest;
  }

  lemma IssuerExactly(p: Payload, author: string, association: Option<string>, tools: Tools)
    ensures HasValidIssuer(p, author, association, tools) <==> IsIssuedBy(p, author, association, tools)
  {
  }

  lemma ReviewerExactly(p: Payload, author: string, policy: Policy, tools: Tools)
    ensures HasValidReviewer(p, author, policy, tools) <==> IsReviewed(p, author, policy, tools)
  {
    hide IsLogin;
    assert |NOT_ESTABLISHED| != |ESTABLISHED|;
  }

  /** The program accepts exactly the valid attestations. */
  lemma ValidExactly(p: Payload, author: string, association: Option<string>, policy: Policy, tools: Tools)
    ensures IsValid(p, author, association, policy, tools) <==> IsAttestation(p, author, association, policy, tools)
  {
    hide HasValidHead, HasValidIssuer, HasValidReviewer, IsAbout, IsIssuedBy, IsReviewed, IsTest, IsRun, IsEvidence, IsProof;
    AboutExactly(p, tools);
    IssuerExactly(p, author, association, tools);
    ReviewerExactly(p, author, policy, tools);
    forall t ensures IsTest(t) <==> IsRun(t) { RunExactly(t); }
    forall e ensures IsEvidence(e, tools) <==> IsProof(e, tools) { ProofExactly(e, tools); }
    assert forall i :: 0 <= i < |p.tests| ==> p.tests[i] in p.tests;
    assert forall i :: 0 <= i < |p.evidence| ==> p.evidence[i] in p.evidence;
  }

  /* ---------- What a comment says ---------- */

  /** A comment by one of the allowed issuers. */
  predicate IsByIssuer(c: Comment, policy: Policy, tools: Tools) {
    c.Comment? && c.author.Some?
    && exists k :: 0 <= k < |policy.issuers| && tools.fold(policy.issuers[k]) == tools.fold(c.author.value)
  }

  /** An allowed issuer attests `p` in the comment. */
  predicate Attests(c: Comment, p: Payload, policy: Policy, tools: Tools) {
    && IsByIssuer(c, policy, tools) && c.body.Some? && tools.parse(c.body.value) == Block(p)
    && IsAttestation(p, c.author.value, c.association, policy, tools)
  }

  /** Not an object, or an issuer's comment without a text or with a block that is no attestation. */
  predicate IsMalformed(c: Comment, policy: Policy, tools: Tools) {
    || c.NotAnObject?
    || (&& IsByIssuer(c, policy, tools)
        && (|| c.body.None?
            || tools.parse(c.body.value).BadBlock?
            || (tools.parse(c.body.value).Block? && !Attests(c, tools.parse(c.body.value).payload, policy, tools))))
  }

  /** The attestation is for this repository and pull request. */
  predicate IsForThis(p: Payload, s: Snapshot, tools: Tools) {
    tools.fold(p.repository) == tools.fold(s.repository) && p.prNumber == s.prNumber
  }

  /** It covers the current head, and the current base if that is required. */
  predicate IsUpToDate(p: Payload, s: Snapshot, policy: Policy) {
    p.headSha == s.headSha && (policy.requireCurrentBase ==> p.baseSha == s.baseSha)
  }

  predicate IsForeign(c: Comment, s: Snapshot, policy: Policy, tools: Tools) {
    c.Comment? && c.body.Some? && tools.parse(c.body.value).Block?
    && var p := tools.parse(c.body.value).payload;
       Attests(c, p, policy, tools) && !IsForThis(p, s, tools)
  }

  predicate IsStale(c: Comment, s: Snapshot, policy: Policy, tools: Tools) {
    c.Comment? && c.body.Some? && tools.parse(c.body.value).Block?
    && var p := tools.parse(c.body.value).payload;
       Attests(c, p, policy, tools) && IsForThis(p, s, tools) && !IsUpToDate(p, s, policy)
  }

  predicate IsCurrent(c: Comment, s: Snapshot, policy: Policy, tools: Tools) {
    c.Comment? && c.body.Some? && tools.parse(c.body.value).Block?
    && var p := tools.parse(c.body.value).payload;
       Attests(c, p, policy, tools) && IsForThis(p, s, tools) && IsUpToDate(p, s, policy)
  }

  lemma KindExactly(c: Comment, s: Snapshot, policy: Policy, tools: Tools)
    ensures KindOf(c, s, policy, tools) == Invalid <==> IsMalformed(c, policy, tools)
    ensures KindOf(c, s, policy, tools) == Foreign <==> IsForeign(c, s, policy, tools)
    ensures KindOf(c, s, policy, tools) in {StaleHead, StaleBase} <==> IsStale(c, s, policy, tools)
    ensures KindOf(c, s, policy, tools) == StaleHead ==> tools.parse(c.body.value).payload.headSha != s.headSha
    ensures KindOf(c, s, policy, tools) == StaleBase ==> tools.parse(c.body.value).payload.headSha == s.headSha
    ensures KindOf(c, s, policy, tools) == Current <==> IsCurrent(c, s, policy, tools)
  {
    hide IsValid, IsAttestation;
    if c.Comment? && c.author.Some? && c.body.Some? && tools.parse(c.body.value).Block? {
      ValidExactly(tools.parse(c.body.value).payload, c.author.value, c.association, policy, tools);
    }
  }

  /** An account name: letters, digits and hyphens, not starting with a hyphen. */
  predicate IsAccount(s: string) {
    1 <= |s| <= 39 && s[0] != '-'
    && forall k :: 0 <= k < |s| ==> '0' <= s[k] <= '9' || 'a' <= s[k] <= 'z' || 'A' <= s[k] <= 'Z' || s[k] == '-'
  }

  lemma AccountExactly(s: string)
    ensures IsLogin(s) <==> IsAccount(s)
  {
    assert forall k :: 0 <= k < |s| ==> s[k] in s;
    if IsAccount(s) {
      forall c | c in s ensures IsAlphanumeric(c) || c == '-' {
        var k :| 0 <= k < |s| && s[k] == c;
      }
    }
  }

  /** A snapshot or a policy that is not well formed gets no verdict at all. */
  lemma InputExactly(s: Snapshot, policy: Policy)
    ensures IsValidInput(s, policy) <==>
              && IsRepository(s.repository) && s.prNumber > 0 && IsCommit(s.baseSha) && IsCommit(s.headSha)
              && policy.version == "1.0" && |policy.issuers| > 0 && |policy.owners| > 0
              && (forall login :: login in policy.issuers || login in policy.owners ==> IsAccount(login))
  {
    hide IsRepository, IsLogin, IsAccount, IsCommit, IsSha;
    CommitExactly(s.baseSha);
    CommitExactly(s.headSha);
    forall login ensures IsLogin(login) <==> IsAccount(login) { AccountExactly(login); }
    assert forall i :: 0 <= i < |policy.issuers| ==> policy.issuers[i] in policy.issuers;
    assert forall i :: 0 <= i < |policy.owners| ==> policy.owners[i] in policy.owners;
  }

  /* ---------- The verdict ---------- */

  lemma SelectedAre(comments: seq<Comment>, kinds: set<Kind>, s: Snapshot, policy: Policy, tools: Tools)
    ensures forall c :: c in Select(comments, kinds, s, policy, tools) <==> c in comments && KindOf(c, s, policy, tools) in kinds
  {
    hide KindOf, Select;
    forall c ensures c in Select(comments, kinds, s, policy, tools) <==> c in comments && KindOf(c, s, policy, tools) in kinds {
      SelectCounts(comments, kinds, s, policy, tools, c);
      assert c in Select(comments, kinds, s, policy, tools) <==> c in multiset(Select(comments, kinds, s, policy, tools));
      assert c in comments <==> c in multiset(comments);
    }
  }

  lemma {:induction false} SelectedTwice(comments: seq<Comment>, kinds: set<Kind>, s: Snapshot, policy: Policy, tools: Tools)
    ensures |Select(comments, kinds, s, policy, tools)| > 0 <==>
              exists i :: 0 <= i < |comments| && KindOf(comments[i], s, policy, tools) in kinds
    ensures |Select(comments, kinds, s, policy, tools)| > 1 <==>
              exists i, j :: 0 <= i < j < |comments| && KindOf(comments[i], s, policy, tools) in kinds
                             && KindOf(comments[j], s, policy, tools) in kinds
  {
    hide KindOf;
    if comments != [] {
      var n := |comments| - 1;
      SelectedTwice(comments[..n], kinds, s, policy, tools);
      assert forall i :: 0 <= i < n ==> comments[..n][i] == comments[i];
    }
  }

  lemma {:induction false} LastSelected(comments: seq<Comment>, kinds: set<Kind>, s: Snapshot, policy: Policy, tools: Tools)
    returns (i: nat)
    requires Select(comments, kinds, s, policy, tools) != []
    ensures var r := Select(comments, kinds, s, policy, tools);
            && i < |comments| && comments[i] == r[|r| - 1] && KindOf(comments[i], s, policy, tools) in kinds
            && forall j :: i < j < |comments| ==> KindOf(comments[j], s, policy, tools) !in kinds
  {
    hide KindOf;
    var n := |comments| - 1;
    if KindOf(comments[n], s, policy, tools) in kinds {
      i := n;
    } else {
      i := LastSelected(comments[..n], kinds, s, policy, tools);
      assert forall j :: 0 <= j < n ==> comments[..n][j] == comments[j];
    }
  }

  /** The decision on the only current attestation, in the order of the rules. */
  predicate IsDecision(v: Verdict, p: Payload, policy: Policy) {
    if policy.requireIndependence && p.reviewer.independence != ESTABLISHED then
      v.state == FAIL && v.reason == IndependentReviewerRequired
    else if p.verdict != "PASS" then v.state == FAIL && v.reason == QaVerdictNotPass
    else if !p.mergeAllowed then v.state == FAIL && v.reason == MergeNotAllowed
    else v.state == PASS && v.reason == CurrentHeadAccepted
  }

  /** Any malformed trusted comment fails the pull request, and exactly these are reported. */
  lemma MalformedFails(s: Snapshot, policy: Policy, tools: Tools)
    requires exists c :: c in s.comments && IsMalformed(c, policy, tools)
    ensures var v := Evaluation(s, policy, tools);
            && v.state == FAIL && v.reason == MalformedTrustedAttestation && v.attested.None?
            && forall c :: c in v.diagnostics <==> c in s.comments && IsMalformed(c, policy, tools)
  {
    hide KindOf, Select, IsMalformed, IsForeign, IsStale, IsCurrent;
    SelectedAre(s.comments, {Invalid}, s, policy, tools);
    forall c ensures KindOf(c, s, policy, tools) == Invalid <==> IsMalformed(c, policy, tools) {
      KindExactly(c, s, policy, tools);
    }
    var c :| c in s.comments && IsMalformed(c, policy, tools);
    assert c in Select(s.comments, {Invalid}, s, policy, tools);
  }

  /** Otherwise an attestation for another repository or pull request fails it. */
  lemma ForeignFails(s: Snapshot, policy: Policy, tools: Tools)
    requires forall c :: c in s.comments ==> !IsMalformed(c, policy, tools)
    requires exists c :: c in s.comments && IsForeign(c, s, policy, tools)
    ensures var v := Evaluation(s, policy, tools);
            && v.state == FAIL && v.reason == AttestationContextMismatch && v.attested.None?
            && forall c :: c in v.diagnostics <==> c in s.comments && IsForeign(c, s, policy, tools)
  {
    hide KindOf, Select, IsMalformed, IsForeign, IsStale, IsCurrent;
    KindsAre(s, policy, tools);
    SelectedAre(s.comments, {Invalid}, s, policy, tools);
    SelectedAre(s.comments, {Foreign}, s, policy, tools);
    NothingInvalid(s, policy, tools);
    var c :| c in s.comments && IsForeign(c, s, policy, tools);
    assert c in Select(s.comments, {Foreign}, s, policy, tools);
  }

  lemma KindsAre(s: Snapshot, policy: Policy, tools: Tools)
    ensures forall c :: KindOf(c, s, policy, tools) == Invalid <==> IsMalformed(c, policy, tools)
    ensures forall c :: KindOf(c, s, policy, tools) == Foreign <==> IsForeign(c, s, policy, tools)
    ensures forall c :: KindOf(c, s, policy, tools) in {StaleHead, StaleBase} <==> IsStale(c, s, policy, tools)
    ensures forall c :: KindOf(c, s, policy, tools) == Current <==> IsCurrent(c, s, policy, tools)
  {
    hide KindOf, IsMalformed, IsForeign, IsStale, IsCurrent;
    forall c
      ensures KindOf(c, s, policy, tools) == Invalid <==> IsMalformed(c, policy, tools)
      ensures KindOf(c, s, policy, tools) == Foreign <==> IsForeign(c, s, policy, tools)
      ensures KindOf(c, s, policy, tools) in {StaleHead, StaleBase} <==> IsStale(c, s, policy, tools)
      ensures KindOf(c, s, policy, tools) == Current <==> IsCurrent(c, s, policy, tools)
    {
      KindExactly(c, s, policy, tools);
    }
  }

  lemma NothingInvalid(s: Snapshot, policy: Policy, tools: Tools)
    ensures (forall c :: c in s.comments ==> !IsMalformed(c, policy, tools)) ==> Select(s.comments, {Invalid}, s, policy, tools) == []
    ensures (forall c :: c in s.comments ==> !IsForeign(c, s, policy, tools)) ==> Select(s.comments, {Foreign}, s, policy, tools) == []
  {
    hide KindOf, Select, IsMalformed, IsForeign, IsStale, IsCurrent;
    KindsAre(s, policy, tools);
    SelectedNone(s.comments, {Invalid}, s, policy, tools);
    SelectedNone(s.comments, {Foreign}, s, policy, tools);
    assert forall j :: 0 <= j < |s.comments| ==> s.comments[j] in s.comments;
  }

  /** Two current attestations fail it, whatever they say. */
  lemma DuplicatesFail(s: Snapshot, policy: Policy, tools: Tools, i: nat, j: nat)
    requires forall c :: c in s.comments ==> !IsMalformed(c, policy, tools) && !IsForeign(c, s, policy, tools)
    requires i < j < |s.comments| && IsCurrent(s.comments[i], s, policy, tools) && IsCurrent(s.comments[j], s, policy, tools)
    ensures var v := Evaluation(s, policy, tools);
            && v.state == FAIL && v.reason == DuplicateCurrentAttestations && v.attested.None?
            && forall c :: c in v.diagnostics <==> c in s.comments && IsCurrent(c, s, policy, tools)
  {
    hide KindOf, Select, IsMalformed, IsForeign, IsStale, IsCurrent;
    KindsAre(s, policy, tools);
    NothingInvalid(s, policy, tools);
    SelectedAre(s.comments, {Current}, s, policy, tools);
    assert KindOf(s.comments[i], s, policy, tools) in {Current} && KindOf(s.comments[j], s, policy, tools) in {Current};
    SelectedTwice(s.comments, {Current}, s, policy, tools);
  }

  /** The only current attestation decides by its own verdict. */
  lemma OnlyCurrentDecides(s: Snapshot, policy: Policy, tools: Tools, i: nat)
    requires forall c :: c in s.comments ==> !IsMalformed(c, policy, tools) && !IsForeign(c, s, policy, tools)
    requires i < |s.comments| && IsCurrent(s.comments[i], s, policy, tools)
    requires forall j :: 0 <= j < |s.comments| && j != i ==> !IsCurrent(s.comments[j], s, policy, tools)
    ensures var v := Evaluation(s, policy, tools);
            var p := tools.parse(s.comments[i].body.value).payload;
            && v.attested == Some(s.comments[i]) && v.payload == Some(p) && v.diagnostics == []
            && (v.baseDiffers <==> p.baseSha != s.baseSha) && IsDecision(v, p, policy)
  {
    hide KindOf, Select, IsMalformed, IsForeign, IsStale, IsCurrent;
    KindsAre(s, policy, tools);
    NothingInvalid(s, policy, tools);
    assert IsOnly(s.comments, i, {Current}, s, policy, tools);
    SelectedOne(s.comments, {Current}, s, policy, tools, i);
    CurrentHasPayload(s.comments[i], s, policy, tools);
  }

  lemma CurrentHasPayload(c: Comment, s: Snapshot, policy: Policy, tools: Tools)
    requires IsCurrent(c, s, policy, tools)
    ensures c.Comment? && c.body.Some? && tools.parse(c.body.value).Block?
  {
  }

  /** Without a current attestation the verdict is stale, for the reason of the last stale one, or missing. */
  lemma NoCurrentIsStaleOrMissing(s: Snapshot, policy: Policy, tools: Tools)
    requires forall c :: c in s.comments ==>
               !IsMalformed(c, policy, tools) && !IsForeign(c, s, policy, tools) && !IsCurrent(c, s, policy, tools)
    ensures var v := Evaluation(s, policy, tools);
            && v.attested.None? && v.payload.None? && !v.baseDiffers
            && (forall c :: c in v.diagnostics <==> c in s.comments && IsStale(c, s, policy, tools))
            && (v.state == MISSING <==> forall c :: c in s.comments ==> !IsStale(c, s, policy, tools))
            && (v.state == MISSING ==> v.reason == NoTrustedAttestation)
            && (v.state != MISSING ==> v.state == STALE && exists i :: IsLastStale(s, policy, tools, i) && v.reason == StaleReason(s, tools, i))
  {
    hide KindOf, Select, IsMalformed, IsForeign, IsStale, IsCurrent;
    KindsAre(s, policy, tools);
    NothingInvalid(s, policy, tools);
    SelectedNone(s.comments, {Current}, s, policy, tools);
    assert forall j :: 0 <= j < |s.comments| ==> s.comments[j] in s.comments;
    SelectedAre(s.comments, {StaleHead, StaleBase}, s, policy, tools);
    var stale := Select(s.comments, {StaleHead, StaleBase}, s, policy, tools);
    if stale != [] {
      var i := LastSelected(s.comments, {StaleHead, StaleBase}, s, policy, tools);
      StaleHasReason(s, policy, tools, i);
      assert stale[|stale| - 1] in stale;
    }
  }

  /** No comment behind this stale one is stale. */
  predicate IsLastStale(s: Snapshot, policy: Policy, tools: Tools, i: nat) {
    i < |s.comments| && IsStale(s.comments[i], s, policy, tools)
    && forall j :: i < j < |s.comments| ==> !IsStale(s.comments[j], s, policy, tools)
  }

  function StaleReason(s: Snapshot, tools: Tools, i: nat): Reason {
    if i < |s.comments| && s.comments[i].Comment? && s.comments[i].body.Some?
       && tools.parse(s.comments[i].body.value).Block?
       && tools.parse(s.comments[i].body.value).payload.headSha != s.headSha
    then HeadShaMismatch
    else BaseShaMismatch
  }

  lemma StaleHasReason(s: Snapshot, policy: Policy, tools: Tools, i: nat)
    requires i < |s.comments| && KindOf(s.comments[i], s, policy, tools) in {StaleHead, StaleBase}
    ensures StaleReason(s, tools, i) == if KindOf(s.comments[i], s, policy, tools) == StaleHead then HeadShaMismatch else BaseShaMismatch
  {
    hide KindOf;
    KindExactly(s.comments[i], s, policy, tools);
  }
}
