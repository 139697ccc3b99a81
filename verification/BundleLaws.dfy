/**
 Exactly which bundles load, told by their files: the checksum file names the two files with
 their digests, the manifest tells how one set of published hashes became another, and the
 companies are the ones it announces.
 */
module BundleLaws {
  import opened Formats
  import opened ReleaseBundle
  import opened TextOrder
  import opened Wrappers
  import ReleaseModel

  /* ---------- The checksum file ---------- */

  function Line(digest: string, name: string): string {
    digest + "  " + name
  }

  lemma {:induction false} GapIsGap(line: string)
    requires FirstGap(line).Some?
    ensures var g := FirstGap(line).value; line[g] == ' ' && line[g + 1] == ' '
  {
    if !(line[0] == ' ' && line[1] == ' ') {
      GapIsGap(line[1..]);
    }
  }

  lemma AddedLine(observed: map<string, string>, line: string)
    requires AddLine(observed, line).Ok?
    ensures |line| >= 66 && line == Line(line[..64], line[66..]) && line[66..] !in observed
    ensures AddLine(observed, line) == Ok(observed[line[66..] := line[..64]])
  {
    GapIsGap(line);
    assert line == line[..64] + line[64..66] + line[66..];
    assert line[64..66] == "  ";
  }

  /** Every line of an inventory is an entry of its own. */
  lemma {:induction false} InventoryIsLines(lines: seq<string>)
    requires ReadInventory(lines).Ok?
    ensures |ReadInventory(lines).value| == |lines|
    ensures forall i :: 0 <= i < |lines| ==> IsEntryOf(lines[i], ReadInventory(lines).value)
    ensures forall i, j :: 0 <= i < j < |lines| ==> lines[i] != lines[j]
  {
    hide AddLine, IsEntryOf;
    if lines != [] {
      var n := |lines| - 1;
      var before := ReadInventory(lines[..n]).value;
      InventoryIsLines(lines[..n]);
      AddedLine(before, lines[n]);
      forall i | 0 <= i < n ensures IsEntryOf(lines[i], ReadInventory(lines).value) && lines[i] != lines[n] {
        assert lines[..n][i] == lines[i];
        EntryStays(lines[i], before, lines[n][66..], lines[n][..64]);
      }
      EntryIsNew(lines[n], before);
      assert forall i :: 0 <= i < n ==> lines[..n][i] == lines[i];
    }
  }

  predicate IsEntryOf(line: string, observed: map<string, string>) {
    |line| >= 66 && line[66..] in observed && line == Line(observed[line[66..]], line[66..])
  }

  lemma EntryStays(line: string, before: map<string, string>, name: string, digest: string)
    requires IsEntryOf(line, before) && name !in before
    ensures IsEntryOf(line, before[name := digest]) && line[66..] != name
  {
  }

  lemma EntryIsNew(line: string, before: map<string, string>)
    requires |line| >= 66 && line == Line(line[..64], line[66..])
    ensures IsEntryOf(line, before[line[66..] := line[..64]])
  {
  }

  lemma TwoFiles(observed: map<string, string>, lines: seq<string>)
    requires observed.Keys == {MANIFEST, COMPANIES} && |observed| == |lines|
    requires forall i :: 0 <= i < |lines| ==> IsEntryOf(lines[i], observed)
    requires forall i, j :: 0 <= i < j < |lines| ==> lines[i] != lines[j]
    ensures var c, m := Line(observed[COMPANIES], COMPANIES), Line(observed[MANIFEST], MANIFEST);
            lines == [c, m] || lines == [m, c]
  {
    NamesHaveNoBreak();
    hide MANIFEST, COMPANIES;
    assert |observed.Keys| == 2;
    assert IsEntryOf(lines[0], observed) && IsEntryOf(lines[1], observed);
    assert lines[0] != lines[1];
    assert lines[0][66..] in observed.Keys && lines[1][66..] in observed.Keys;
  }

  /** A bundle's files pass exactly when the checksum file is these two lines, in either order. */
  lemma ChecksumsExactly(dir: Directory, tools: Tools)
    requires forall content :: IsDigest(tools.sha(content))
    ensures CheckFiles(dir, tools).Ok? <==>
              && CHECKSUMS in dir && MANIFEST in dir && COMPANIES in dir
              && var c, m := Line(tools.sha(dir[COMPANIES]), COMPANIES), Line(tools.sha(dir[MANIFEST]), MANIFEST);
                 Lines(dir[CHECKSUMS], "") == [c, m] || Lines(dir[CHECKSUMS], "") == [m, c]
  {
    hide Lines, FirstGap, AddLine, ReadInventory, IsEntryOf, IsDigest, Line;
    if CheckFiles(dir, tools).Ok? {
      var observed := CheckFiles(dir, tools).value;
      var lines := Lines(dir[CHECKSUMS], "");
      InventoryIsLines(lines);
      TwoFiles(observed, lines);
      assert Matches(dir, MANIFEST, observed[MANIFEST], tools) && Matches(dir, COMPANIES, observed[COMPANIES], tools);
    }
    if CHECKSUMS in dir && MANIFEST in dir && COMPANIES in dir {
      BothOrdersRead(tools.sha(dir[COMPANIES]), tools.sha(dir[MANIFEST]));
      NamesHaveNoBreak();
    }
  }

  lemma BothOrdersRead(c: string, m: string)
    requires IsDigest(c) && IsDigest(m)
    ensures ReadInventory([Line(c, COMPANIES), Line(m, MANIFEST)]) == Ok(map[COMPANIES := c, MANIFEST := m])
    ensures ReadInventory([Line(m, MANIFEST), Line(c, COMPANIES)]) == Ok(map[COMPANIES := c, MANIFEST := m])
  {
    NamesHaveNoBreak();
    hide MANIFEST, COMPANIES, AddLine, ReadInventory, IsDigest;
    TwoEntries(Line(c, COMPANIES), Line(m, MANIFEST));
    TwoEntries(Line(m, MANIFEST), Line(c, COMPANIES));
    EntryReadsBack(map[], c, COMPANIES);
    EntryReadsBack(map[COMPANIES := c], m, MANIFEST);
    EntryReadsBack(map[], m, MANIFEST);
    EntryReadsBack(map[MANIFEST := m], c, COMPANIES);
    assert map[MANIFEST := m][COMPANIES := c] == map[COMPANIES := c, MANIFEST := m];
  }

  /* ---------- The manifest ---------- */

  /** In the order of their INNs, each once. */
  predicate IsAscending(items: seq<Transition>) {
    forall i, j :: 0 <= i < j < |items| ==> Leq(items[i].inn, items[j].inn) && items[i].inn != items[j].inn
  }

  predicate IsUnchanged(t: Transition, parent: map<string, string>, current: map<string, string>, touched: set<string>) {
    && t.kind == Unchanged && t.inn in parent && t.inn in current && t.inn !in touched
    && parent[t.inn] == current[t.inn] && t.previousHash == Some(parent[t.inn]) && t.currentHash == Some(current[t.inn])
  }

  predicate IsUpdated(t: Transition, parent: map<string, string>, current: map<string, string>, touched: set<string>) {
    && t.kind == Updated && t.inn in parent && t.inn in current && t.inn in touched
    && t.previousHash == Some(parent[t.inn]) && t.currentHash == Some(current[t.inn])
  }

  predicate IsAdded(t: Transition, parent: map<string, string>, current: map<string, string>) {
    t.kind == Added && t.inn !in parent && t.inn in current && t.previousHash == None && t.currentHash == Some(current[t.inn])
  }

  predicate IsWithdrawn(t: Transition, parent: map<string, string>, current: map<string, string>) {
    t.kind == Withdrawn && t.inn in parent && t.inn !in current && t.previousHash == Some(parent[t.inn]) && t.currentHash == None
  }

  /**
   The manifest tells how the parent's hashes became the current ones. A company in both is
   updated when it was touched, and must be when its hash differs.
   */
  ghost predicate Describes(m: Manifest, parent: map<string, string>, current: map<string, string>, touched: set<string>) {
    && touched <= parent.Keys * current.Keys
    && (forall inn :: inn in parent && inn in current && parent[inn] != current[inn] ==> inn in touched)
    && IsAscending(m.unchangedCompanies) && IsAscending(m.updatedCompanies)
    && IsAscending(m.addedCompanies) && IsAscending(m.withdrawnCompanies)
    && (forall t :: t in m.unchangedCompanies <==> IsUnchanged(t, parent, current, touched))
    && (forall t :: t in m.updatedCompanies <==> IsUpdated(t, parent, current, touched))
    && (forall t :: t in m.addedCompanies <==> IsAdded(t, parent, current))
    && (forall t :: t in m.withdrawnCompanies <==> IsWithdrawn(t, parent, current))
    && m.unchangedCount == |m.unchangedCompanies| && m.updatedCount == |m.updatedCompanies|
    && m.addedCount == |m.addedCompanies| && m.withdrawnCount == |m.withdrawnCompanies|
    && m.parentCount == Some(|parent|) && m.recordCount == |current|
    && m.changedCompanies == Inns(m.updatedCompanies) + Inns(m.addedCompanies) && m.changedCount == |m.changedCompanies|
  }

  /** The four lists one after the other. */
  function AllOf(m: Manifest): seq<Transition> {
    m.unchangedCompanies + m.updatedCompanies + m.addedCompanies + m.withdrawnCompanies
  }

  lemma AllInnsAre(m: Manifest)
    ensures AllInns(Groups(m)) == Inns(AllOf(m))
  {
    FourLists(m);
    hide AllInns, Groups;
    var a, b := m.unchangedCompanies, m.updatedCompanies;
    var c, d := m.addedCompanies, m.withdrawnCompanies;
    InnsAppend(a, b);
    InnsAppend(a + b, c);
    InnsAppend(a + b + c, d);
  }

  lemma InnsAppend(a: seq<Transition>, b: seq<Transition>)
    ensures Inns(a + b) == Inns(a) + Inns(b)
  {
  }

  /** No company has two transitions. */
  predicate InnsAreUnique(items: seq<Transition>) {
    forall i, j :: 0 <= i < j < |items| ==> items[i].inn != items[j].inn
  }

  lemma UniqueExactly(items: seq<Transition>)
    ensures Distinct(Inns(items)) <==> InnsAreUnique(items)
  {
    assert forall i :: 0 <= i < |items| ==> Inns(items)[i] == items[i].inn;
  }

  lemma UniqueMeansSame(items: seq<Transition>, t: Transition, u: Transition)
    requires InnsAreUnique(items) && t in items && u in items && t.inn == u.inn
    ensures t == u
  {
    var i :| 0 <= i < |items| && items[i] == t;
    var j :| 0 <= j < |items| && items[j] == u;
    assert i == j;
  }

  /** What is asked of every list on its own. */
  predicate ListsFit(m: Manifest) {
    && (forall t :: t in m.unchangedCompanies ==> t.kind == Unchanged && t.previousHash.Some? && t.currentHash == t.previousHash)
    && (forall t :: t in m.updatedCompanies ==> t.kind == Updated && t.previousHash.Some? && t.currentHash.Some?)
    && (forall t :: t in m.addedCompanies ==> t.kind == Added && t.previousHash.None? && t.currentHash.Some?)
    && (forall t :: t in m.withdrawnCompanies ==> t.kind == Withdrawn && t.previousHash.Some? && t.currentHash.None?)
    && Sorted(Inns(m.unchangedCompanies)) && Sorted(Inns(m.updatedCompanies))
    && Sorted(Inns(m.addedCompanies)) && Sorted(Inns(m.withdrawnCompanies))
    && m.unchangedCount == |m.unchangedCompanies| && m.updatedCount == |m.updatedCompanies|
    && m.addedCount == |m.addedCompanies| && m.withdrawnCount == |m.withdrawnCompanies|
  }

  lemma ListsExactly(m: Manifest)
    ensures TransitionsMatch(m) && (forall g :: g in Groups(m) ==> GroupIsConsistent(g)) <==> ListsFit(m)
  {
    hide Sorted;
    var g := Groups(m);
    assert g[0] in g && g[1] in g && g[2] in g && g[3] in g;
    InAllOf(m);
    if ListsFit(m) {
      forall x | x in g ensures GroupIsConsistent(x) {
        assert x == g[0] || x == g[1] || x == g[2] || x == g[3];
      }
    }
  }

  lemma InAllOf(m: Manifest)
    ensures forall t :: t in AllOf(m) <==>
              t in m.unchangedCompanies || t in m.updatedCompanies || t in m.addedCompanies || t in m.withdrawnCompanies
  {
  }

  /** A manifest of the transition model is consistent exactly when its lists fit and its numbers add up. */
  lemma ConsistentExactly(m: Manifest)
    requires m.transitional
    ensures TransitionsMatch(m) && IsConsistent(m) <==>
              && ListsFit(m) && InnsAreUnique(AllOf(m)) && ArtifactsAreDigests(m.artifactHashes)
              && m.parentCount == Some(m.unchangedCount + m.updatedCount + m.withdrawnCount)
              && m.recordCount == m.unchangedCount + m.updatedCount + m.addedCount
              && m.changedCompanies == Inns(m.updatedCompanies) + Inns(m.addedCompanies) && m.changedCount == |m.changedCompanies|
  {
    hide TransitionsMatch, GroupIsConsistent, Groups, AllInns, Inns, InnsAreUnique, ArtifactsAreDigests, AllOf, Distinct;
    ListsExactly(m);
    AllInnsAre(m);
    UniqueExactly(AllOf(m));
    if ListsFit(m) && InnsAreUnique(AllOf(m)) && m.changedCompanies == Inns(m.updatedCompanies) + Inns(m.addedCompanies) {
      ChangedIsDistinct(m);
      SizesOfInns(m);
    }
    if IsConsistent(m) {
      SizesOfInns(m);
    }
  }

  lemma SizesOfInns(m: Manifest)
    ensures |Inns(m.updatedCompanies) + Inns(m.addedCompanies)| == |m.updatedCompanies| + |m.addedCompanies|
  {
  }

  lemma ChangedIsDistinct(m: Manifest)
    requires InnsAreUnique(AllOf(m))
    ensures Distinct(Inns(m.updatedCompanies) + Inns(m.addedCompanies))
  {
    var n, all := |m.unchangedCompanies|, AllOf(m);
    var changed := Inns(m.updatedCompanies) + Inns(m.addedCompanies);
    forall i | 0 <= i < |changed| ensures changed[i] == all[n + i].inn {
    }
  }

  /* ---------- From the manifest to the hashes ---------- */

  function HashOf(t: Transition, previous: bool): Option<string> {
    if previous then t.previousHash else t.currentHash
  }

  /** The hashes that the transitions have on one side. */
  function SideOf(items: seq<Transition>, previous: bool): map<string, string>
    requires InnsAreUnique(items)
  {
    UniqueInPairs(items);
    map t | t in items && HashOf(t, previous).Some? :: t.inn := HashOf(t, previous).value
  }

  lemma UniqueInPairs(items: seq<Transition>)
    requires InnsAreUnique(items)
    ensures forall t, u :: t in items && u in items && t.inn == u.inn ==> t == u
  {
    forall t, u | t in items && u in items && t.inn == u.inn ensures t == u {
      UniqueMeansSame(items, t, u);
    }
  }

  predicate HasHash(items: seq<Transition>, previous: bool, inn: string, hash: string) {
    exists t :: t in items && t.inn == inn && HashOf(t, previous) == Some(hash)
  }

  predicate MapsTo(m: map<string, string>, inn: string, hash: string) {
    inn in m && m[inn] == hash
  }

  lemma InSide(items: seq<Transition>, previous: bool, inn: string, hash: string)
    requires InnsAreUnique(items)
    ensures MapsTo(SideOf(items, previous), inn, hash) <==> HasHash(items, previous, inn, hash)
  {
    hide InnsAreUnique;
    UniqueInPairs(items);
  }

  lemma HasHashHead(items: seq<Transition>, previous: bool, inn: string, hash: string)
    requires items != []
    ensures HasHash(items, previous, inn, hash) <==>
              HasHash(items[1..], previous, inn, hash) || (items[0].inn == inn && HashOf(items[0], previous) == Some(hash))
  {
    assert items == [items[0]] + items[1..];
  }

  lemma TailIsUnique(items: seq<Transition>, previous: bool)
    requires items != [] && InnsAreUnique(items)
    ensures InnsAreUnique(items[1..]) && items[0].inn !in SideOf(items[1..], previous)
  {
    var rest := items[1..];
    assert InnsAreUnique(rest);
    forall t | t in rest ensures t.inn != items[0].inn {
      var i :| 0 <= i < |rest| && rest[i] == t;
      assert items[i + 1] == t;
    }
  }

  lemma {:induction false} SideSize(items: seq<Transition>, previous: bool)
    requires InnsAreUnique(items)
    ensures |SideOf(items, previous)| == CountSide(items, previous)
  {
    hide InnsAreUnique, HasHash, SideOf;
    if items == [] {
      NoSide(previous);
    } else {
      TailIsUnique(items, previous);
      var side, whole := SideOf(items[1..], previous), SideOf(items, previous);
      SideSize(items[1..], previous);
      var expected := if HashOf(items[0], previous).Some? then side[items[0].inn := HashOf(items[0], previous).value] else side;
      forall inn, hash ensures MapsTo(whole, inn, hash) <==> MapsTo(expected, inn, hash) {
        InSide(items, previous, inn, hash);
        InSide(items[1..], previous, inn, hash);
        HasHashHead(items, previous, inn, hash);
      }
      SameMap(whole, expected);
    }
  }

  lemma NoSide(previous: bool)
    ensures SideOf([], previous) == map[]
  {
  }

  lemma SameMap(a: map<string, string>, b: map<string, string>)
    requires forall inn, hash :: MapsTo(a, inn, hash) <==> MapsTo(b, inn, hash)
    ensures a == b
  {
    assert forall inn :: inn in a ==> MapsTo(a, inn, a[inn]);
    assert forall inn :: inn in b ==> MapsTo(b, inn, b[inn]);
  }

  lemma {:induction false} CountAppends(a: seq<Transition>, b: seq<Transition>, previous: bool)
    ensures CountSide(a + b, previous) == CountSide(a, previous) + CountSide(b, previous)
  {
    if a == [] {
      assert a + b == b;
    } else {
      CountAppends(a[1..], b, previous);
      assert (a + b)[1..] == a[1..] + b;
    }
  }

  lemma SizeOfAll(m: Manifest, previous: bool)
    requires m.transitional && TransitionsMatch(m) && IsConsistent(m) && InnsAreUnique(AllOf(m))
    ensures |SideOf(AllOf(m), previous)| ==
            |m.unchangedCompanies| + |m.updatedCompanies| + if previous then |m.withdrawnCompanies| else |m.addedCompanies|
  {
    hide TransitionsMatch, IsConsistent, InnsAreUnique, CountSide, SideOf;
    SideSize(AllOf(m), previous);
    SidesOfManifest(m, previous);
    CountAppends(m.unchangedCompanies, m.updatedCompanies, previous);
    CountAppends(m.unchangedCompanies + m.updatedCompanies, m.addedCompanies, previous);
    CountAppends(m.unchangedCompanies + m.updatedCompanies + m.addedCompanies, m.withdrawnCompanies, previous);
  }

  lemma AscendingPart(items: seq<Transition>, part: seq<Transition>, from: nat)
    requires InnsAreUnique(items) && from + |part| <= |items| && part == items[from..from + |part|] && Sorted(Inns(part))
    ensures IsAscending(part)
  {
    forall i, j | 0 <= i < j < |part| ensures Leq(part[i].inn, part[j].inn) && part[i].inn != part[j].inn {
      assert part[i] == items[from + i] && part[j] == items[from + j];
      assert Leq(Inns(part)[i], Inns(part)[j]);
    }
  }

  lemma PartsAscend(m: Manifest)
    requires ListsFit(m) && InnsAreUnique(AllOf(m))
    ensures IsAscending(m.unchangedCompanies) && IsAscending(m.updatedCompanies)
    ensures IsAscending(m.addedCompanies) && IsAscending(m.withdrawnCompanies)
  {
    hide InnsAreUnique, IsAscending, Sorted, Inns;
    var a, b, c := |m.unchangedCompanies|, |m.updatedCompanies|, |m.addedCompanies|;
    var all := AllOf(m);
    assert m.unchangedCompanies == all[0..0 + a] && m.updatedCompanies == all[a..a + b];
    assert m.addedCompanies == all[a + b..a + b + c] && m.withdrawnCompanies == all[a + b + c..a + b + c + |m.withdrawnCompanies|];
    AscendingPart(all, m.unchangedCompanies, 0);
    AscendingPart(all, m.updatedCompanies, a);
    AscendingPart(all, m.addedCompanies, a + b);
    AscendingPart(all, m.withdrawnCompanies, a + b + c);
  }

  /** Which list a transition is in follows from what is known of its company. */
  lemma PlaceOf(m: Manifest, t: Transition, touched: set<string>)
    requires ListsFit(m) && InnsAreUnique(AllOf(m)) && touched == Members(Inns(m.updatedCompanies))
    ensures var parent, current := SideOf(AllOf(m), true), SideOf(AllOf(m), false);
            && (t in m.unchangedCompanies <==> IsUnchanged(t, parent, current, touched))
            && (t in m.updatedCompanies <==> IsUpdated(t, parent, current, touched))
            && (t in m.addedCompanies <==> IsAdded(t, parent, current))
            && (t in m.withdrawnCompanies <==> IsWithdrawn(t, parent, current))
  {
    hide Sorted, InnsAreUnique, AllOf;
    var all := AllOf(m);
    InAllOf(m);
    UniqueInPairs(all);
    TouchedAre(m, t.inn);
    var parent, current := SideOf(all, true), SideOf(all, false);
    if t.inn in parent {
      var u :| u in all && u.inn == t.inn && HashOf(u, true).Some?;
      assert parent[t.inn] == HashOf(u, true).value;
    }
    if t.inn in current {
      var u :| u in all && u.inn == t.inn && HashOf(u, false).Some?;
      assert current[t.inn] == HashOf(u, false).value;
    }
    if t in all {
      assert HashOf(t, true).Some? ==> t.inn in parent && parent[t.inn] == HashOf(t, true).value;
      assert HashOf(t, false).Some? ==> t.inn in current && current[t.inn] == HashOf(t, false).value;
    }
  }

  lemma TouchedAre(m: Manifest, inn: string)
    ensures inn in Members(Inns(m.updatedCompanies)) <==> exists u :: u in m.updatedCompanies && u.inn == inn
  {
    var inns := Inns(m.updatedCompanies);
    if inn in inns {
      var i :| 0 <= i < |inns| && inns[i] == inn;
      assert m.updatedCompanies[i] in m.updatedCompanies;
    }
    if u :| u in m.updatedCompanies && u.inn == inn {
      var i :| 0 <= i < |inns| && m.updatedCompanies[i] == u;
      assert inns[i] == inn;
    }
  }

  /** Every accepted manifest of the transition model tells such a story. */
  lemma AcceptedIsDescribed(m: Manifest) returns (parent: map<string, string>, current: map<string, string>, touched: set<string>)
    requires m.transitional && TransitionsMatch(m) && IsConsistent(m)
    ensures Describes(m, parent, current, touched)
  {
    hide TransitionsMatch, IsConsistent, Inns, Members, SideOf, InnsAreUnique, AllOf, IsAscending, Sorted;
    hide IsUnchanged, IsUpdated, IsAdded, IsWithdrawn;
    ConsistentExactly(m);
    parent, current, touched := SideOf(AllOf(m), true), SideOf(AllOf(m), false), Members(Inns(m.updatedCompanies));
    SizeOfAll(m, true);
    SizeOfAll(m, false);
    PartsAscend(m);
    forall t: Transition
      ensures t in m.unchangedCompanies <==> IsUnchanged(t, parent, current, touched)
      ensures t in m.updatedCompanies <==> IsUpdated(t, parent, current, touched)
      ensures t in m.addedCompanies <==> IsAdded(t, parent, current)
      ensures t in m.withdrawnCompanies <==> IsWithdrawn(t, parent, current)
    {
      PlaceOf(m, t, touched);
    }
    TouchedFit(m, parent, current, touched);
  }

  lemma TouchedFit(m: Manifest, parent: map<string, string>, current: map<string, string>, touched: set<string>)
    requires InnsAreUnique(AllOf(m)) && ListsFit(m)
    requires parent == SideOf(AllOf(m), true) && current == SideOf(AllOf(m), false) && touched == Members(Inns(m.updatedCompanies))
    ensures touched <= parent.Keys * current.Keys
    ensures forall inn :: inn in parent && inn in current && parent[inn] != current[inn] ==> inn in touched
  {
    hide Inns, Members, InnsAreUnique, AllOf, Sorted;
    UniqueInPairs(AllOf(m));
    InAllOf(m);
    forall inn
      ensures inn in touched ==> inn in parent && inn in current
      ensures inn in parent && inn in current && parent[inn] != current[inn] ==> inn in touched
    {
      TouchedAre(m, inn);
    }
  }

  /* ---------- From the hashes to the manifest ---------- */

  /** Two entries of a described manifest about one company are the same transition. */
  lemma DescribedIsUnique(m: Manifest, parent: map<string, string>, current: map<string, string>, touched: set<string>)
    requires Describes(m, parent, current, touched)
    ensures InnsAreUnique(AllOf(m))
  {
    var all := AllOf(m);
    var a, b, c := |m.unchangedCompanies|, |m.updatedCompanies|, |m.addedCompanies|;
    forall i, j | 0 <= i < j < |all| ensures all[i].inn != all[j].inn {
      DescribedPlace(m, parent, current, touched, i);
      DescribedPlace(m, parent, current, touched, j);
      if j < a {
        assert m.unchangedCompanies[i].inn != m.unchangedCompanies[j].inn;
      } else if a <= i && j < a + b {
        assert m.updatedCompanies[i - a].inn != m.updatedCompanies[j - a].inn;
      } else if a + b <= i && j < a + b + c {
        assert m.addedCompanies[i - a - b].inn != m.addedCompanies[j - a - b].inn;
      } else if a + b + c <= i {
        assert m.withdrawnCompanies[i - a - b - c].inn != m.withdrawnCompanies[j - a - b - c].inn;
      }
    }
  }

  /** Where the places of the joined lists come from. */
  lemma PlaceInAll(m: Manifest, i: nat)
    requires i < |AllOf(m)|
    ensures var a, b, c := |m.unchangedCompanies|, |m.updatedCompanies|, |m.addedCompanies|;
            var t := AllOf(m)[i];
            if i < a then t == m.unchangedCompanies[i] && t in m.unchangedCompanies
            else if i < a + b then t == m.updatedCompanies[i - a] && t in m.updatedCompanies
            else if i < a + b + c then t == m.addedCompanies[i - a - b] && t in m.addedCompanies
            else i - a - b - c < |m.withdrawnCompanies| && t == m.withdrawnCompanies[i - a - b - c] && t in m.withdrawnCompanies
  {
  }

  lemma DescribedPlace(m: Manifest, parent: map<string, string>, current: map<string, string>, touched: set<string>, i: nat)
    requires Describes(m, parent, current, touched) && i < |AllOf(m)|
    ensures var a, b, c := |m.unchangedCompanies|, |m.updatedCompanies|, |m.addedCompanies|;
            var t := AllOf(m)[i];
            if i < a then t == m.unchangedCompanies[i] && t.inn in parent && t.inn in current && t.inn !in touched
            else if i < a + b then t == m.updatedCompanies[i - a] && t.inn in touched && t.inn in current && t.inn in parent
            else if i < a + b + c then t == m.addedCompanies[i - a - b] && t.inn !in parent
            else
              i - a - b - c < |m.withdrawnCompanies| && t == m.withdrawnCompanies[i - a - b - c]
              && t.inn in parent && t.inn !in current
  {
    hide IsAscending, Inns, AllOf;
    PlaceInAll(m, i);
  }

  lemma AscendingIsSorted(items: seq<Transition>)
    requires IsAscending(items)
    ensures Sorted(Inns(items)) && |Members(Inns(items))| == |items|
  {
    assert forall i :: 0 <= i < |items| ==> Inns(items)[i] == items[i].inn;
    DistinctMembers(Inns(items));
  }

  lemma ListsOfDescribed(m: Manifest, parent: map<string, string>, current: map<string, string>, touched: set<string>)
    requires Describes(m, parent, current, touched)
    ensures ListsFit(m)
  {
    hide IsAscending, Sorted, Inns;
    AscendingIsSorted(m.unchangedCompanies);
    AscendingIsSorted(m.updatedCompanies);
    AscendingIsSorted(m.addedCompanies);
    AscendingIsSorted(m.withdrawnCompanies);
  }

  lemma InnOf(items: seq<Transition>, inn: string)
    ensures inn in Members(Inns(items)) <==> exists t :: t in items && t.inn == inn
  {
    if inn in Inns(items) {
      var i :| 0 <= i < |items| && Inns(items)[i] == inn;
      assert items[i] in items;
    }
    if t :| t in items && t.inn == inn {
      var i :| 0 <= i < |items| && items[i] == t;
      assert Inns(items)[i] == inn;
    }
  }

  lemma UnchangedOfDescribed(m: Manifest, parent: map<string, string>, current: map<string, string>, touched: set<string>, inn: string)
    requires Describes(m, parent, current, touched)
    ensures inn in Members(Inns(m.unchangedCompanies)) <==> inn in parent && inn in current && inn !in touched
    ensures inn in Members(Inns(m.updatedCompanies)) <==> inn in touched
  {
    hide IsAscending, Inns, Members;
    InnOf(m.unchangedCompanies, inn);
    InnOf(m.updatedCompanies, inn);
    if inn in parent && inn in current {
      assert inn !in touched ==>
        IsUnchanged(Transition(inn, Unchanged, Some(parent[inn]), Some(current[inn])), parent, current, touched);
      assert inn in touched ==>
        IsUpdated(Transition(inn, Updated, Some(parent[inn]), Some(current[inn])), parent, current, touched);
    }
  }

  lemma AddedOfDescribed(m: Manifest, parent: map<string, string>, current: map<string, string>, touched: set<string>, inn: string)
    requires Describes(m, parent, current, touched)
    ensures inn in Members(Inns(m.addedCompanies)) <==> inn !in parent && inn in current
    ensures inn in Members(Inns(m.withdrawnCompanies)) <==> inn in parent && inn !in current
  {
    hide IsAscending, Inns, Members;
    InnOf(m.addedCompanies, inn);
    InnOf(m.withdrawnCompanies, inn);
    if inn !in parent && inn in current {
      assert IsAdded(Transition(inn, Added, None, Some(current[inn])), parent, current);
    } else if inn in parent && inn !in current {
      assert IsWithdrawn(Transition(inn, Withdrawn, Some(parent[inn]), None), parent, current);
    }
  }

  /** The companies of each side are those of its three lists. */
  lemma SidesOfDescribed(m: Manifest, parent: map<string, string>, current: map<string, string>, touched: set<string>)
    requires Describes(m, parent, current, touched)
    ensures var u, p := Members(Inns(m.unchangedCompanies)), Members(Inns(m.updatedCompanies));
            var a, w := Members(Inns(m.addedCompanies)), Members(Inns(m.withdrawnCompanies));
            parent.Keys == u + p + w && current.Keys == u + p + a && u !! p && u !! w && p !! w && u !! a && p !! a
  {
    hide Describes, Inns, Members;
    var u, p := Members(Inns(m.unchangedCompanies)), Members(Inns(m.updatedCompanies));
    var a, w := Members(Inns(m.addedCompanies)), Members(Inns(m.withdrawnCompanies));
    assert touched <= parent.Keys * current.Keys by { TouchedIsShared(m, parent, current, touched); }
    forall inn
      ensures inn in u <==> inn in parent && inn in current && inn !in touched
      ensures inn in p <==> inn in touched
      ensures inn in a <==> inn !in parent && inn in current
      ensures inn in w <==> inn in parent && inn !in current
    {
      UnchangedOfDescribed(m, parent, current, touched, inn);
      AddedOfDescribed(m, parent, current, touched, inn);
    }
  }

  lemma TouchedIsShared(m: Manifest, parent: map<string, string>, current: map<string, string>, touched: set<string>)
    requires Describes(m, parent, current, touched)
    ensures touched <= parent.Keys * current.Keys
  {
    hide IsAscending;
  }

  /** Every manifest that tells such a story is accepted. */
  lemma DescribedIsAccepted(m: Manifest, parent: map<string, string>, current: map<string, string>, touched: set<string>)
    requires m.transitional && ArtifactsAreDigests(m.artifactHashes) && Describes(m, parent, current, touched)
    ensures TransitionsMatch(m) && IsConsistent(m)
  {
    hide TransitionsMatch, IsConsistent, Inns, Members, InnsAreUnique, AllOf, IsAscending, Sorted, ArtifactsAreDigests;
    hide IsUnchanged, IsUpdated, IsAdded, IsWithdrawn;
    DescribedIsUnique(m, parent, current, touched);
    ListsOfDescribed(m, parent, current, touched);
    SidesOfDescribed(m, parent, current, touched);
    AscendingIsSorted(m.unchangedCompanies);
    AscendingIsSorted(m.updatedCompanies);
    AscendingIsSorted(m.addedCompanies);
    AscendingIsSorted(m.withdrawnCompanies);
    assert |parent| == |parent.Keys| && |current| == |current.Keys|;
    ConsistentExactly(m);
  }

  /* ---------- The whole bundle ---------- */

  /** Every field of the manifest is within its limits. */
  predicate IsWithinLimits(m: Manifest) {
    && 8 <= |m.releaseId| <= 120 && IsSafeRelease(m.releaseId) && m.schemaVersion == "public-projection-v1"
    && |m.sourceSha| == 40 && (forall k :: 0 <= k < 40 ==> '0' <= m.sourceSha[k] <= '9' || 'a' <= m.sourceSha[k] <= 'f')
    && (m.previous.Some? ==> |m.previous.value| <= 120)
    && 1 <= m.recordCount <= 10000 && m.changedCount <= 10000 && m.unchangedCount <= 10000 && m.updatedCount <= 10000
    && m.addedCount <= 10000 && m.withdrawnCount <= 10000 && (m.parentCount.Some? ==> m.parentCount.value <= 10000)
    && (forall inn :: inn in m.changedCompanies ==> IsLegalInn(inn))
    && (forall t :: t in AllOf(m) ==> IsLegalInn(t.inn))
  }

  predicate HasCompany(projections: seq<ReleaseBundle.Projection>, inn: string) {
    exists p :: p in projections && p.inn == inn
  }

  predicate HasTransition(items: seq<Transition>, inn: string) {
    exists t :: t in items && t.inn == inn
  }

  /** The companies are the ones the manifest announces. */
  ghost predicate IsAnnounced(content: string, m: Manifest, projections: seq<ReleaseBundle.Projection>, tools: ReleaseBundle.Tools) {
    && |projections| == m.recordCount
    && (forall i, j :: 0 <= i < j < |projections| ==> projections[i].inn != projections[j].inn)
    && (forall p :: p in projections ==> IsLegalInn(p.inn) && p.releaseId == m.releaseId && p.schemaVersion == m.schemaVersion)
    && (COMPANIES in m.artifactHashes && m.artifactHashes[COMPANIES] != "" ==> tools.sha(content) == m.artifactHashes[COMPANIES])
    && (forall inn :: inn in m.changedCompanies ==> HasCompany(projections, inn))
    && (m.transitional ==>
          && COMPANIES in m.artifactHashes && m.artifactHashes[COMPANIES] != ""
          && (forall inn :: HasCompany(projections, inn) <==>
                HasTransition(m.unchangedCompanies, inn) || HasTransition(m.updatedCompanies, inn) || HasTransition(m.addedCompanies, inn))
          && (forall inn :: HasCompany(projections, inn) ==> !HasTransition(m.withdrawnCompanies, inn)))
  }

  lemma LimitsExactly(m: Manifest)
    ensures FieldsFit(m) <==> IsWithinLimits(m)
  {
    hide IsLegalInn;
    assert (forall n :: n in Counts(m) ==> n <= 10000) <==>
             && m.changedCount <= 10000 && m.unchangedCount <= 10000 && m.updatedCount <= 10000
             && m.addedCount <= 10000 && m.withdrawnCount <= 10000 && (m.parentCount.Some? ==> m.parentCount.value <= 10000) by {
      assert m.changedCount in Counts(m) && m.unchangedCount in Counts(m) && m.updatedCount in Counts(m);
      assert m.addedCount in Counts(m) && m.withdrawnCount in Counts(m) && (m.parentCount.Some? ==> m.parentCount.value in Counts(m));
    }
    HexExactly(m.sourceSha);
  }

  lemma HexExactly(s: string)
    ensures IsHex(s) <==> forall k :: 0 <= k < |s| ==> '0' <= s[k] <= '9' || 'a' <= s[k] <= 'f'
  {
    assert forall k :: 0 <= k < |s| ==> s[k] in s;
  }

  lemma CompanyExactly(projections: seq<ReleaseBundle.Projection>, inn: string)
    ensures inn in Members(ProjectionInns(projections)) <==> HasCompany(projections, inn)
  {
    var inns := ProjectionInns(projections);
    if inn in inns {
      var i :| 0 <= i < |inns| && inns[i] == inn;
      assert projections[i] in projections;
    }
    if p :| p in projections && p.inn == inn {
      var i :| 0 <= i < |projections| && projections[i] == p;
      assert inns[i] == inn;
    }
  }

  lemma DistinctCompanies(projections: seq<ReleaseBundle.Projection>)
    ensures |Members(ProjectionInns(projections))| == |ProjectionInns(projections)| <==>
              forall i, j :: 0 <= i < j < |projections| ==> projections[i].inn != projections[j].inn
  {
    DistinctMembers(ProjectionInns(projections));
    assert forall i :: 0 <= i < |projections| ==> ProjectionInns(projections)[i] == projections[i].inn;
  }

  lemma TargetsExactly(m: Manifest, projections: seq<ReleaseBundle.Projection>)
    ensures TargetInns(m) == Members(ProjectionInns(projections)) <==>
              forall inn :: HasCompany(projections, inn) <==>
                HasTransition(m.unchangedCompanies, inn) || HasTransition(m.updatedCompanies, inn) || HasTransition(m.addedCompanies, inn)
    ensures Members(Inns(m.withdrawnCompanies)) * Members(ProjectionInns(projections)) == {} <==>
              forall inn :: HasCompany(projections, inn) ==> !HasTransition(m.withdrawnCompanies, inn)
  {
    hide HasCompany, HasTransition, Members, Inns, ProjectionInns;
    var inns, withdrawn := Members(ProjectionInns(projections)), Members(Inns(m.withdrawnCompanies));
    forall inn
      ensures inn in inns <==> HasCompany(projections, inn)
      ensures inn in TargetInns(m) <==>
                HasTransition(m.unchangedCompanies, inn) || HasTransition(m.updatedCompanies, inn) || HasTransition(m.addedCompanies, inn)
      ensures inn in withdrawn <==> HasTransition(m.withdrawnCompanies, inn)
    {
      CompanyExactly(projections, inn);
      TransitionExactly(m.unchangedCompanies, inn);
      TransitionExactly(m.updatedCompanies, inn);
      TransitionExactly(m.addedCompanies, inn);
      TransitionExactly(m.withdrawnCompanies, inn);
    }
    assert withdrawn * inns == {} <==> forall inn :: inn in inns ==> inn !in withdrawn by {
      assert forall inn :: inn in withdrawn * inns <==> inn in withdrawn && inn in inns;
    }
  }

  lemma TransitionExactly(items: seq<Transition>, inn: string)
    ensures inn in Members(Inns(items)) <==> HasTransition(items, inn)
  {
    hide Inns, Members;
    InnOf(items, inn);
  }

  lemma ContentsExactly(dir: Directory, m: Manifest, projections: seq<ReleaseBundle.Projection>, tools: ReleaseBundle.Tools)
    requires COMPANIES in dir
    ensures CheckContents(dir, m, projections, tools).None? && (forall p :: p in projections ==> IsLegalInn(p.inn)) <==>
              IsAnnounced(dir[COMPANIES], m, projections, tools)
  {
    hide IsLegalInn, HasCompany, HasTransition, TargetInns, Inns, ProjectionInns;
    DistinctCompanies(projections);
    TargetsExactly(m, projections);
    forall inn ensures inn in Members(ProjectionInns(projections)) <==> HasCompany(projections, inn) {
      CompanyExactly(projections, inn);
    }
  }

  /**
   A bundle loads exactly when its files have their checksums, its manifest is within its
   limits and consistent, and its companies are the ones the manifest announces.
   */
  lemma LoadedExactly(dir: Directory, tools: ReleaseBundle.Tools)
    ensures Load(dir, tools).Ok? <==>
              && CheckFiles(dir, tools).Ok? && MANIFEST in dir && COMPANIES in dir
              && var m, projections := tools.manifest(dir[MANIFEST]), tools.companies(dir[COMPANIES]);
                 && m.Some? && IsWithinLimits(m.value) && TransitionsMatch(m.value) && IsConsistent(m.value)
                 && projections.Some? && IsAnnounced(dir[COMPANIES], m.value, projections.value, tools)
  {
    hide CheckFiles, FieldsFit, IsWithinLimits, TransitionsMatch, IsConsistent, CheckContents, IsAnnounced, IsLegalInn;
    if CheckFiles(dir, tools).Ok? {
      CheckedFilesExist(dir, tools);
      var m, projections := tools.manifest(dir[MANIFEST]), tools.companies(dir[COMPANIES]);
      if m.Some? && projections.Some? {
        LimitsExactly(m.value);
        ContentsExactly(dir, m.value, projections.value, tools);
      }
    }
  }
}
