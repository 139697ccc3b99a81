/**
 Release bundles: their checksum file, the consistency of the manifest's transition lists
 with its counts, and what loading a bundle therefore guarantees about its members.

 Hashing and the parsing of manifest and companies are functions of the file contents that
 stay unspecified: they are the parameters `Tools`.
 */
module ReleaseBundle {
  import opened Formats
  import opened Wrappers
  import opened TextOrder
  import ReleaseModel

  datatype TransitionKind = Unchanged | Updated | Added | Withdrawn

  datatype Transition = Transition(
    inn: string,
    kind: TransitionKind,
    previousHash: Option<string>,
    currentHash: Option<string>)

  datatype Manifest = Manifest(
    releaseId: string,
    schemaVersion: string,
    sourceSha: string,
    previous: Option<string>,
    recordCount: nat,
    transitional: bool,
    changedCount: nat,
    changedCompanies: seq<string>,
    parentCount: Option<nat>,
    unchangedCount: nat,
    unchangedCompanies: seq<Transition>,
    updatedCount: nat,
    updatedCompanies: seq<Transition>,
    addedCount: nat,
    addedCompanies: seq<Transition>,
    withdrawnCount: nat,
    withdrawnCompanies: seq<Transition>,
    artifactHashes: map<string, string>)

  datatype Projection = Projection(inn: string, payloadSha: string, releaseId: string, schemaVersion: string)

  datatype Tools = Tools(
    sha: string -> string,
    manifest: string -> Option<Manifest>,
    companies: string -> Option<seq<Projection>>)

  datatype Error =
    | ChecksumsMissing
    | InvalidChecksumLine
    | UnsafeFilename
    | WrongInventory
    | ChecksumMismatch
    | InvalidManifest
    | InvalidCompanies
    | CountMismatch
    | ArtifactHash
    | DuplicateInns
    | OutsideCohort
    | MembershipMismatch
    | WithdrawnPresent
    | ReleaseMismatch
    | SchemaMismatch

  /* ---------- The checksum file ---------- */

  const MANIFEST := "manifest.json"
  const COMPANIES := "companies.jsonl.gz"
  const CHECKSUMS := "checksums.sha256"

  const SCHEMA_VERSION := "public-projection-v1"

  predicate IsBreak(c: char) {
    c == '\n' || c == '\U{0B}' || c == '\U{0C}' || c == '\r' || '\U{1C}' <= c <= '\U{1E}'
  }

  /** The lines of a text; `line` is what has been read of the current one. */
  function Lines(text: string, line: string): seq<string> {
    if text == "" then if line == "" then [] else [line]
    else if "\r\n" <= text then [line] + Lines(text[2..], "")
    else if IsBreak(text[0]) then [line] + Lines(text[1..], "")
    else Lines(text[1..], line + [text[0]])
  }

  /** Position of the first pair of spaces. */
  function FirstGap(line: string): (r: Option<nat>)
    ensures r.Some? ==> r.value + 2 <= |line|
  {
    if |line| < 2 then None
    else if line[0] == ' ' && line[1] == ' ' then Some(0)
    else
      var rest := FirstGap(line[1..]);
      if rest.None? then None else Some(rest.value + 1)
  }

  predicate IsSafeName(name: string) {
    '/' !in name && name != "."
  }

  function ReadInventory(lines: seq<string>): Result<map<string, string>, Error> {
    if lines == [] then Ok(map[])
    else
      var before := ReadInventory(lines[..|lines| - 1]);
      if before.Err? then before else AddLine(before.value, lines[|lines| - 1])
  }

  function AddLine(observed: map<string, string>, line: string): Result<map<string, string>, Error> {
    var gap := FirstGap(line);
    if gap != Some(64) then Err(InvalidChecksumLine)
    else
      var digest, name := line[..64], line[66..];
      if name in observed || !IsSafeName(name) then Err(UnsafeFilename)
      else Ok(observed[name := digest])
  }

  type Directory = map<string, string>

  predicate Matches(dir: Directory, name: string, digest: string, tools: Tools) {
    name in dir && tools.sha(dir[name]) == digest
  }

  function CheckFiles(dir: Directory, tools: Tools): Result<map<string, string>, Error> {
    if CHECKSUMS !in dir then Err(ChecksumsMissing)
    else
      var observed := ReadInventory(Lines(dir[CHECKSUMS], ""));
      if observed.Err? then observed
      else if observed.value.Keys != {MANIFEST, COMPANIES} then Err(WrongInventory)
      else if exists name :: name in observed.value && !Matches(dir, name, observed.value[name], tools)
      then Err(ChecksumMismatch)
      else observed
  }

  method VerifyChecksums(dir: Directory, tools: Tools) returns (r: Result<map<string, string>, Error>)
    ensures r == CheckFiles(dir, tools)
  {
    if CHECKSUMS !in dir {
      return Err(ChecksumsMissing);
    }
    var observed: map<string, string> := map[];
    var lines := Lines(dir[CHECKSUMS], "");
    for n := 0 to |lines|
      invariant ReadInventory(lines[..n]) == Ok(observed)
    {
      assert lines[..n + 1][..n] == lines[..n];
      var next := AddLine(observed, lines[n]);
      if next.Err? {
        InventoryStopsAtFirstError(lines, n + 1, next.error);
        return next;
      }
      observed := next.value;
    }
    assert lines[..|lines|] == lines;
    if observed.Keys != {MANIFEST, COMPANIES} {
      return Err(WrongInventory);
    }
    var names := observed.Keys;
    while names != {}
      invariant names <= observed.Keys
      invariant forall name :: name in observed && name !in names ==> Matches(dir, name, observed[name], tools)
    {
      var name :| name in names;
      if !Matches(dir, name, observed[name], tools) {
        return Err(ChecksumMismatch);
      }
      names := names - {name};
    }
    return Ok(observed);
  }

  lemma {:induction false} InventoryStopsAtFirstError(lines: seq<string>, n: nat, error: Error)
    requires n <= |lines| && ReadInventory(lines[..n]) == Err(error)
    ensures ReadInventory(lines) == Err(error)
    decreases |lines|
  {
    if n < |lines| {
      var front := lines[..|lines| - 1];
      assert front[..n] == lines[..n];
      InventoryStopsAtFirstError(front, n, error);
    } else {
      assert lines[..n] == lines;
    }
  }

  function ChecksumText(dir: Directory, tools: Tools): string
    requires MANIFEST in dir && COMPANIES in dir
  {
    tools.sha(dir[COMPANIES]) + "  " + COMPANIES + "\n" + (tools.sha(dir[MANIFEST]) + "  " + MANIFEST + "\n")
  }

  /** Writes the checksum file for the two bundle files, in the order of their names. */
  function WriteChecksums(dir: Directory, tools: Tools): Directory
    requires MANIFEST in dir && COMPANIES in dir
  {
    dir[CHECKSUMS := ChecksumText(dir, tools)]
  }

  lemma {:induction false} LineReadsBack(content: string, line: string, rest: string)
    requires forall c :: c in content ==> !IsBreak(c)
    ensures Lines(content + "\n" + rest, line) == [line + content] + Lines(rest, "")
  {
    var text := content + "\n" + rest;
    if content == "" {
      assert text[0] == '\n' && text[1..] == rest;
      assert line + content == line;
    } else {
      assert text[0] == content[0] && content[0] in content;
      assert text[1..] == content[1..] + "\n" + rest;
      LineReadsBack(content[1..], line + [content[0]], rest);
      assert (line + [content[0]]) + content[1..] == line + content;
    }
  }

  lemma {:induction false} GapAfterDigest(digest: string, name: string)
    requires forall c :: c in digest ==> c != ' '
    ensures FirstGap(digest + "  " + name) == Some(|digest|)
  {
    var line := digest + "  " + name;
    if digest == "" {
    } else {
      assert line[0] == digest[0] && digest[0] in digest;
      assert line[1..] == digest[1..] + "  " + name;
      assert forall c :: c in digest[1..] ==> c in digest;
      GapAfterDigest(digest[1..], name);
    }
  }

  lemma EntryReadsBack(observed: map<string, string>, digest: string, name: string)
    requires IsDigest(digest) && name !in observed && IsSafeName(name)
    ensures AddLine(observed, digest + "  " + name) == Ok(observed[name := digest])
  {
    GapAfterDigest(digest, name);
    var line := digest + "  " + name;
    assert line[..64] == digest && line[66..] == name;
  }

  /** A bundle always passes the verification of the checksums written for it. */
  lemma WrittenChecksumsVerify(dir: Directory, tools: Tools)
    requires MANIFEST in dir && COMPANIES in dir
    requires forall content :: IsDigest(tools.sha(content))
    ensures CheckFiles(WriteChecksums(dir, tools), tools)
            == Ok(map[COMPANIES := tools.sha(dir[COMPANIES]), MANIFEST := tools.sha(dir[MANIFEST])])
  {
    hide Lines, FirstGap, AddLine;
    var c, m := tools.sha(dir[COMPANIES]), tools.sha(dir[MANIFEST]);
    var first, second := c + "  " + COMPANIES, m + "  " + MANIFEST;
    assert IsDigest(c) && IsDigest(m);
    NamesHaveNoBreak();
    LineReadsBack(first, "", second + "\n");
    LineReadsBack(second, "", "");
    var text := ChecksumText(dir, tools);
    assert text == first + "\n" + (second + "\n");
    assert second + "\n" + "" == second + "\n";
    assert Lines("", "") == [] by { EmptyHasNoLines(); }
    assert "" + first == first && "" + second == second;
    assert Lines(text, "") == [first, second];
    EntryReadsBack(map[], c, COMPANIES);
    EntryReadsBack(map[COMPANIES := c], m, MANIFEST);
    TwoEntries(first, second);
    var written := WriteChecksums(dir, tools);
    assert written[COMPANIES] == dir[COMPANIES] && written[MANIFEST] == dir[MANIFEST];
  }

  lemma TwoEntries(first: string, second: string)
    ensures ReadInventory([first, second]) ==
            var one := AddLine(map[], first);
            if one.Err? then one else AddLine(one.value, second)
  {
    assert [first, second][..1] == [first] && [first][..0] == [];
    assert ReadInventory([]) == Ok(map[]);
    assert ReadInventory([first]) == AddLine(map[], first);
  }

  lemma EmptyHasNoLines()
    ensures Lines("", "") == []
  {
  }

  lemma NamesHaveNoBreak()
    ensures forall c :: c in COMPANIES || c in MANIFEST ==> !IsBreak(c)
    ensures IsSafeName(COMPANIES) && IsSafeName(MANIFEST) && COMPANIES != MANIFEST
    ensures CHECKSUMS != COMPANIES && CHECKSUMS != MANIFEST
  {
    assert |MANIFEST| == 13 && |COMPANIES| == 18 && |CHECKSUMS| == 16;
  }

  /** Verification pins the contents: a file whose hash changed is always noticed. */
  lemma ChangedFileIsNoticed(dir: Directory, changed: Directory, name: string, tools: Tools)
    requires CheckFiles(dir, tools).Ok? && name in {MANIFEST, COMPANIES}
    requires CHECKSUMS in changed && changed[CHECKSUMS] == dir[CHECKSUMS]
    requires name !in changed || tools.sha(changed[name]) != tools.sha(dir[name])
    ensures CheckFiles(changed, tools) == Err(ChecksumMismatch)
  {
    hide Lines, ReadInventory;
    var observed := ReadInventory(Lines(dir[CHECKSUMS], "")).value;
    assert Matches(dir, name, observed[name], tools);
    assert !Matches(changed, name, observed[name], tools);
  }

  /* ---------- The manifest ---------- */

  /** Which of its two hashes a transition must and must not carry. */
  predicate HashesMatch(t: Transition) {
    match t.kind
    case Added => t.previousHash.None? && t.currentHash.Some?
    case Withdrawn => t.previousHash.Some? && t.currentHash.None?
    case Updated => t.previousHash.Some? && t.currentHash.Some?
    case Unchanged => t.previousHash.Some? && t.currentHash == t.previousHash
  }

  function Inns(items: seq<Transition>): (r: seq<string>)
    ensures |r| == |items|
  {
    seq(|items|, i requires 0 <= i < |items| => items[i].inn)
  }

  /** One of the four transition lists with the kind and the count it must have. */
  datatype Group = Group(kind: TransitionKind, count: nat, items: seq<Transition>)

  predicate GroupIsConsistent(g: Group) {
    g.count == |g.items| && (forall t :: t in g.items ==> t.kind == g.kind) && Sorted(Inns(g.items))
  }

  function Groups(m: Manifest): seq<Group> {
    [Group(Unchanged, m.unchangedCount, m.unchangedCompanies),
     Group(Updated, m.updatedCount, m.updatedCompanies),
     Group(Added, m.addedCount, m.addedCompanies),
     Group(Withdrawn, m.withdrawnCount, m.withdrawnCompanies)]
  }

  function AllInns(groups: seq<Group>): seq<string> {
    if groups == [] then [] else AllInns(groups[..|groups| - 1]) + Inns(groups[|groups| - 1].items)
  }

  predicate ArtifactsAreDigests(hashes: map<string, string>) {
    hashes.Keys <= {COMPANIES} && forall name :: name in hashes ==> IsDigest(hashes[name])
  }

  /** Every transition carries the hashes its kind must have. */
  predicate TransitionsMatch(m: Manifest) {
    forall t :: t in m.unchangedCompanies + m.updatedCompanies + m.addedCompanies + m.withdrawnCompanies ==> HashesMatch(t)
  }

  function Counts(m: Manifest): set<nat> {
    {m.changedCount, m.unchangedCount, m.updatedCount, m.addedCount, m.withdrawnCount}
    + if m.parentCount.Some? then {m.parentCount.value} else {}
  }

  /** The limits of the single fields. */
  predicate FieldsFit(m: Manifest) {
    && IsSafeRelease(m.releaseId) && m.schemaVersion == SCHEMA_VERSION && |m.sourceSha| == 40 && IsHex(m.sourceSha)
    && (m.previous.Some? ==> |m.previous.value| <= 120)
    && ReleaseModel.IsAdmittedCount(m.recordCount)
    && (forall n :: n in Counts(m) ==> n <= ReleaseModel.MAX_RECORDS)
    && (forall inn :: inn in m.changedCompanies ==> IsLegalInn(inn))
    && (forall t :: t in m.unchangedCompanies + m.updatedCompanies + m.addedCompanies + m.withdrawnCompanies ==> IsLegalInn(t.inn))
  }

  /** The transition lists, their counts and the changed list tell one story. */
  predicate IsConsistent(m: Manifest) {
    && m.changedCount == |m.changedCompanies| && Distinct(m.changedCompanies)
    && (m.transitional ==>
          && (forall g :: g in Groups(m) ==> GroupIsConsistent(g))
          && Distinct(AllInns(Groups(m)))
          && m.parentCount == Some(m.unchangedCount + m.updatedCount + m.withdrawnCount)
          && m.recordCount == m.unchangedCount + m.updatedCount + m.addedCount
          && m.changedCount == m.updatedCount + m.addedCount
          && m.changedCompanies == Inns(m.updatedCompanies) + Inns(m.addedCompanies)
          && ArtifactsAreDigests(m.artifactHashes))
  }

  method ChangedSummaryMatchesCount(m: Manifest) returns (ok: bool)
    ensures ok == IsConsistent(m)
  {
    if m.changedCount != |m.changedCompanies| || !Distinct(m.changedCompanies) {
      return false;
    }
    if !m.transitional {
      return true;
    }
    var groups := Groups(m);
    var inns: seq<string> := [];
    for n := 0 to |groups|
      invariant inns == AllInns(groups[..n])
      invariant forall k :: 0 <= k < n ==> GroupIsConsistent(groups[k])
    {
      if !GroupIsConsistent(groups[n]) {
        assert groups[n] in groups;
        return false;
      }
      assert groups[..n + 1][..n] == groups[..n];
      inns := inns + Inns(groups[n].items);
    }
    assert groups[..|groups|] == groups;
    return
      && Distinct(inns)
      && m.parentCount == Some(m.unchangedCount + m.updatedCount + m.withdrawnCount)
      && m.recordCount == m.unchangedCount + m.updatedCount + m.addedCount
      && m.changedCount == m.updatedCount + m.addedCount
      && m.changedCompanies == Inns(m.updatedCompanies) + Inns(m.addedCompanies)
      && ArtifactsAreDigests(m.artifactHashes);
  }

  /* ---------- Loading ---------- */

  datatype Loaded = Loaded(manifest: Manifest, projections: seq<Projection>, manifestSha: string)

  function ProjectionInns(projections: seq<Projection>): (r: seq<string>)
    ensures |r| == |projections|
  {
    seq(|projections|, i requires 0 <= i < |projections| => projections[i].inn)
  }

  function TargetInns(m: Manifest): set<string> {
    Members(Inns(m.unchangedCompanies)) + Members(Inns(m.updatedCompanies)) + Members(Inns(m.addedCompanies))
  }

  /** The loader's own checks, in its order, on a parsed manifest and parsed projections. */
  function CheckContents(dir: Directory, m: Manifest, projections: seq<Projection>, tools: Tools): Option<Error>
    requires COMPANIES in dir
  {
    var inns := ProjectionInns(projections);
    var artifact := if COMPANIES in m.artifactHashes then m.artifactHashes[COMPANIES] else "";
    if |projections| != m.recordCount then Some(CountMismatch)
    else if m.transitional && artifact == "" then Some(ArtifactHash)
    else if artifact != "" && tools.sha(dir[COMPANIES]) != artifact then Some(ArtifactHash)
    else if |Members(inns)| != |inns| then Some(DuplicateInns)
    else if !(Members(m.changedCompanies) <= Members(inns)) then Some(OutsideCohort)
    else if m.transitional && TargetInns(m) != Members(inns) then Some(MembershipMismatch)
    else if m.transitional && Members(Inns(m.withdrawnCompanies)) * Members(inns) != {} then Some(WithdrawnPresent)
    else if exists p :: p in projections && p.releaseId != m.releaseId then Some(ReleaseMismatch)
    else if exists p :: p in projections && p.schemaVersion != m.schemaVersion then Some(SchemaMismatch)
    else None
  }

  lemma CheckedFilesExist(dir: Directory, tools: Tools)
    requires CheckFiles(dir, tools).Ok?
    ensures MANIFEST in dir && COMPANIES in dir
  {
    hide Lines, ReadInventory;
    var observed := CheckFiles(dir, tools).value;
    assert Matches(dir, MANIFEST, observed[MANIFEST], tools);
    assert Matches(dir, COMPANIES, observed[COMPANIES], tools);
  }

  /** Loading a bundle: checksums, manifest model, projections, then the contents checks. */
  function Load(dir: Directory, tools: Tools): Result<Loaded, Error> {
    var checked := CheckFiles(dir, tools);
    if checked.Err? then Err(checked.error)
    else
      CheckedFilesExist(dir, tools);
      var m := tools.manifest(dir[MANIFEST]);
      if m.None? || !FieldsFit(m.value) || !TransitionsMatch(m.value) || !IsConsistent(m.value) then Err(InvalidManifest)
      else
        var projections := tools.companies(dir[COMPANIES]);
        if projections.None? || exists p :: p in projections.value && !IsLegalInn(p.inn) then Err(InvalidCompanies)
        else
          var failed := CheckContents(dir, m.value, projections.value, tools);
          if failed.Some? then Err(failed.value)
          else Ok(Loaded(m.value, projections.value, tools.sha(dir[MANIFEST])))
  }

  method LoadBundle(dir: Directory, tools: Tools) returns (r: Result<Loaded, Error>)
    ensures r == Load(dir, tools)
  {
    hide CheckFiles, IsConsistent, CheckContents, TransitionsMatch, FieldsFit, IsLegalInn;
    var verified := VerifyChecksums(dir, tools);
    if verified.Err? {
      return Err(verified.error);
    }
    CheckedFilesExist(dir, tools);
    var m := tools.manifest(dir[MANIFEST]);
    if m.None? || !FieldsFit(m.value) || !TransitionsMatch(m.value) {
      return Err(InvalidManifest);
    }
    var consistent := ChangedSummaryMatchesCount(m.value);
    if !consistent {
      return Err(InvalidManifest);
    }
    var projections := tools.companies(dir[COMPANIES]);
    if projections.None? || exists p :: p in projections.value && !IsLegalInn(p.inn) {
      return Err(InvalidCompanies);
    }
    var failed := CheckContents(dir, m.value, projections.value, tools);
    if failed.Some? {
      return Err(failed.value);
    }
    return Ok(Loaded(m.value, projections.value, tools.sha(dir[MANIFEST])));
  }

  /* ---------- Conservation ---------- */

  lemma {:induction false} DistinctHalves(a: seq<string>, b: seq<string>)
    requires Distinct(a + b)
    ensures Distinct(a) && Distinct(b) && Members(a) !! Members(b)
    ensures |Members(a)| == |a| && |Members(b)| == |b|
  {
    forall i, j | 0 <= i < j < |a| ensures a[i] != a[j] { assert (a + b)[i] != (a + b)[j]; }
    forall i, j | 0 <= i < j < |b| ensures b[i] != b[j] { assert (a + b)[|a| + i] != (a + b)[|a| + j]; }
    forall i, j | 0 <= i < |a| && 0 <= j < |b| ensures a[i] != b[j] { assert (a + b)[i] != (a + b)[|a| + j]; }
    DistinctMembers(a);
    DistinctMembers(b);
  }

  lemma FourLists(m: Manifest)
    ensures AllInns(Groups(m)) ==
            Inns(m.unchangedCompanies) + Inns(m.updatedCompanies)
            + Inns(m.addedCompanies) + Inns(m.withdrawnCompanies)
  {
    var g := Groups(m);
    AllInnsStep([], g[0]);
    AllInnsStep([g[0]], g[1]);
    AllInnsStep([g[0], g[1]], g[2]);
    AllInnsStep([g[0], g[1], g[2]], g[3]);
    assert [] + [g[0]] == [g[0]] && [g[0]] + [g[1]] == [g[0], g[1]];
    assert [g[0], g[1]] + [g[2]] == [g[0], g[1], g[2]] && [g[0], g[1], g[2]] + [g[3]] == g;
  }

  lemma AllInnsStep(groups: seq<Group>, g: Group)
    ensures AllInns(groups + [g]) == AllInns(groups) + Inns(g.items)
  {
    assert (groups + [g])[..|groups|] == groups;
  }

  /**
   Members of an accepted transition-aware bundle: the unchanged, the updated and the added
   companies, without overlap; none of the withdrawn; as many as the parent had, less the
   withdrawn, plus the added; and the changed list is the updated followed by the added.
   */
  lemma MembersAreConserved(dir: Directory, tools: Tools)
    requires Load(dir, tools).Ok? && Load(dir, tools).value.manifest.transitional
    ensures var Loaded(m, projections, _) := Load(dir, tools).value;
            var inns := Members(ProjectionInns(projections));
            var kept, updated := Members(Inns(m.unchangedCompanies)), Members(Inns(m.updatedCompanies));
            var added, withdrawn := Members(Inns(m.addedCompanies)), Members(Inns(m.withdrawnCompanies));
            && inns == kept + updated + added
            && kept !! updated && kept !! added && updated !! added && inns !! withdrawn
            && m.parentCount.Some? && |inns| == m.parentCount.value - |withdrawn| + |added|
            && |inns| == m.recordCount
            && m.changedCompanies == Inns(m.updatedCompanies) + Inns(m.addedCompanies)
            && Members(m.changedCompanies) == updated + added
  {
    hide CheckFiles, IsConsistent, TransitionsMatch, FieldsFit, IsLegalInn, TargetInns;
    var m := Load(dir, tools).value.manifest;
    var inns := Members(ProjectionInns(Load(dir, tools).value.projections));
    assert TargetInns(m) == inns && Members(Inns(m.withdrawnCompanies)) * inns == {};
    assert |ProjectionInns(Load(dir, tools).value.projections)| == |inns| == m.recordCount;
    ManifestConserves(m);
  }

  lemma ManifestConserves(m: Manifest)
    requires IsConsistent(m) && m.transitional
    ensures var kept, updated := Members(Inns(m.unchangedCompanies)), Members(Inns(m.updatedCompanies));
            var added, withdrawn := Members(Inns(m.addedCompanies)), Members(Inns(m.withdrawnCompanies));
            && TargetInns(m) == kept + updated + added
            && kept !! updated && kept !! added && updated !! added
            && m.parentCount.Some? && |withdrawn| == m.withdrawnCount && |added| == m.addedCount
            && m.parentCount.value - m.withdrawnCount + m.addedCount == m.recordCount
            && m.changedCompanies == Inns(m.updatedCompanies) + Inns(m.addedCompanies)
            && Members(m.changedCompanies) == updated + added
  {
    FourLists(m);
    GroupCounts(m);
    var a, b := Inns(m.unchangedCompanies), Inns(m.updatedCompanies);
    var c, d := Inns(m.addedCompanies), Inns(m.withdrawnCompanies);
    hide GroupIsConsistent, AllInns, Groups, Distinct, ArtifactsAreDigests;
    DistinctHalves(a + b + c, d);
    DistinctHalves(a + b, c);
    DistinctHalves(a, b);
    MembersOfBoth(a, b);
    MembersOfBoth(b, c);
  }

  lemma MembersOfBoth(a: seq<string>, b: seq<string>)
    ensures Members(a + b) == Members(a) + Members(b)
  {
    assert forall x :: x in a + b <==> x in a || x in b;
  }

  /** How many transitions carry a previous, or else a current, hash. */
  function CountSide(items: seq<Transition>, previous: bool): nat {
    if items == [] then 0
    else CountSide(items[1..], previous)
         + (if (if previous then items[0].previousHash else items[0].currentHash).Some? then 1 else 0)
  }

  lemma {:induction false} SideOfGroup(items: seq<Transition>, kind: TransitionKind, previous: bool)
    requires forall t :: t in items ==> t.kind == kind && HashesMatch(t)
    ensures CountSide(items, previous) ==
            if kind == (if previous then Added else Withdrawn) then 0 else |items|
  {
    if items != [] {
      assert items[0] in items;
      SideOfGroup(items[1..], kind, previous);
    }
  }

  /**
   In an accepted transition-aware bundle the transitions with a previous hash are as many as
   the parent had records, and those with a current hash as many as the bundle has.
   */
  lemma HashesCountBothSides(dir: Directory, tools: Tools)
    requires Load(dir, tools).Ok? && Load(dir, tools).value.manifest.transitional
    ensures var m := Load(dir, tools).value.manifest;
            && Some(CountSide(m.unchangedCompanies, true) + CountSide(m.updatedCompanies, true)
                    + CountSide(m.addedCompanies, true) + CountSide(m.withdrawnCompanies, true)) == m.parentCount
            && CountSide(m.unchangedCompanies, false) + CountSide(m.updatedCompanies, false)
               + CountSide(m.addedCompanies, false) + CountSide(m.withdrawnCompanies, false) == m.recordCount
  {
    hide CheckFiles, CheckContents, FieldsFit, IsLegalInn;
    var m := Load(dir, tools).value.manifest;
    GroupCounts(m);
    SidesOfManifest(m, true);
    SidesOfManifest(m, false);
  }

  lemma SidesOfManifest(m: Manifest, previous: bool)
    requires IsConsistent(m) && TransitionsMatch(m) && m.transitional
    ensures CountSide(m.unchangedCompanies, previous) == |m.unchangedCompanies|
    ensures CountSide(m.updatedCompanies, previous) == |m.updatedCompanies|
    ensures CountSide(m.addedCompanies, previous) == if previous then 0 else |m.addedCompanies|
    ensures CountSide(m.withdrawnCompanies, previous) == if previous then |m.withdrawnCompanies| else 0
  {
    hide HashesMatch, AllInns, ArtifactsAreDigests;
    var g := Groups(m);
    assert g[0] in g && g[1] in g && g[2] in g && g[3] in g;
    SideOfGroup(m.unchangedCompanies, Unchanged, previous);
    SideOfGroup(m.updatedCompanies, Updated, previous);
    SideOfGroup(m.addedCompanies, Added, previous);
    SideOfGroup(m.withdrawnCompanies, Withdrawn, previous);
  }

  lemma GroupCounts(m: Manifest)
    requires IsConsistent(m) && m.transitional
    ensures m.unchangedCount == |m.unchangedCompanies| && m.updatedCount == |m.updatedCompanies|
    ensures m.withdrawnCount == |m.withdrawnCompanies| && m.addedCount == |m.addedCompanies|
  {
    hide AllInns, Distinct, ArtifactsAreDigests;
    var g := Groups(m);
    assert g[0] in g && g[1] in g && g[2] in g && g[3] in g;
  }

  function ToRelease(l: Loaded): ReleaseModel.Bundle {
    ReleaseModel.Bundle(
      l.manifest.releaseId, l.manifest.schemaVersion, l.manifest.sourceSha, l.manifest.previous,
      l.manifest.recordCount, l.manifestSha,
      seq(|l.projections|, i requires 0 <= i < |l.projections| =>
        ReleaseModel.Record(
          l.projections[i].inn,
          ReleaseModel.Row(l.projections[i].payloadSha, l.projections[i].releaseId))))
  }

  /** Every bundle the loader returns is one the release protocol relies on. */
  lemma LoadedBundlesAreReliable(dir: Directory, tools: Tools)
    requires Load(dir, tools).Ok?
    ensures ReleaseModel.IsLoaded(ToRelease(Load(dir, tools).value))
  {
    hide IsConsistent, CheckFiles, TransitionsMatch, IsSafeRelease, Weighted;
    var l := Load(dir, tools).value;
    DistinctMembers(ProjectionInns(l.projections));
    var records := ToRelease(l).records;
    forall i, j | 0 <= i < j < |records| ensures records[i].inn != records[j].inn {
      assert ProjectionInns(l.projections)[i] != ProjectionInns(l.projections)[j];
    }
    forall r | r in records ensures r.row.releaseId == l.manifest.releaseId && IsInn(r.inn) {
      var i :| 0 <= i < |records| && records[i] == r;
      assert l.projections[i] in l.projections;
    }
  }
}
