/**
 The heads of the migration graph, as migration_heads of scripts/project_status.py finds them.

 In a graph without cycles there is a head, every revision is an ancestor of one, and a
 single head has every revision behind it. Parsing of the files is left to the caller.
 */
module MigrationHeads {
  import opened Wrappers
  import opened TextOrder

  /** The down_revision of a file; Other stands for a value that names no revision. */
  datatype Down = One(parent: string) | Many(parents: seq<string>) | Other

  /** An empty revision stands for a file without one. */
  datatype File = File(revision: string, down: Down)

  type Graph = map<string, Down>

  function Parents(down: Down): set<string> {
    match down
    case One(parent) => {parent}
    case Many(parents) => set p | p in parents && p != ""
    case Other => {}
  }

  /** The revisions by name; a later file replaces an earlier one of the same name. */
  function Revisions(files: seq<File>): Graph {
    if files == [] then map[]
    else
      var before, last := Revisions(files[..|files| - 1]), files[|files| - 1];
      if last.revision == "" then before else before[last.revision := last.down]
  }

  predicate IsChild(g: Graph, parent: string, child: string) {
    child in g && parent in Parents(g[child])
  }

  predicate IsHead(g: Graph, r: string) {
    r in g && forall s :: s in g ==> !IsChild(g, r, s)
  }

  /* ---------- The program ---------- */

  method Referenced(g: Graph) returns (referenced: set<string>)
    ensures forall r :: r in referenced <==> exists s :: s in g && IsChild(g, r, s)
  {
    referenced := {};
    var left := g.Keys;
    while left != {}
      invariant left <= g.Keys
      invariant forall r :: r in referenced <==> exists s :: s in g && s !in left && IsChild(g, r, s)
      decreases left
    {
      var s :| s in left;
      referenced := referenced + Parents(g[s]);
      left := left - {s};
    }
  }

  /** The members of a set of texts in their order. */
  method Arrange(texts: set<string>) returns (sorted: seq<string>)
    ensures Sorted(sorted) && Distinct(sorted) && Members(sorted) == texts
  {
    sorted := [];
    var left := texts;
    while left != {}
      invariant left <= texts && Sorted(sorted) && Distinct(sorted)
      invariant Members(sorted) == texts - left
      decreases left
    {
      var t :| t in left;
      var i := 0;
      while i < |sorted| && Leq(sorted[i], t)
        invariant 0 <= i <= |sorted|
        invariant forall k :: 0 <= k < i ==> Leq(sorted[k], t)
      {
        i := i + 1;
      }
      assert t !in Members(sorted);
      PlaceKeepsOrder(sorted, i, t);
      sorted := sorted[..i] + [t] + sorted[i..];
      left := left - {t};
    }
  }

  lemma PlaceKeepsOrder(sorted: seq<string>, i: nat, t: string)
    requires Sorted(sorted) && Distinct(sorted) && i <= |sorted| && t !in sorted
    requires forall k :: 0 <= k < i ==> Leq(sorted[k], t)
    requires i < |sorted| ==> !Leq(sorted[i], t)
    ensures var r := sorted[..i] + [t] + sorted[i..];
            Sorted(r) && Distinct(r) && Members(r) == Members(sorted) + {t}
  {
    forall k | i <= k < |sorted| ensures Leq(t, sorted[k]) {
      LeqIsTotal(sorted[i], t);
      if i < k {
        LeqIsTransitive(t, sorted[i], sorted[k]);
      }
    }
    assert sorted == sorted[..i] + sorted[i..];
  }

  /** The heads in order; None is the error that there are none. */
  method FindHeads(files: seq<File>) returns (r: Option<seq<string>>)
    ensures r.None? <==> forall h :: !IsHead(Revisions(files), h)
    ensures r.Some? ==> Sorted(r.value) && Distinct(r.value) && forall h :: h in r.value <==> IsHead(Revisions(files), h)
  {
    var g: Graph := map[];
    for n := 0 to |files|
      invariant g == Revisions(files[..n])
    {
      assert files[..n + 1][..n] == files[..n];
      if files[n].revision != "" {
        g := g[files[n].revision := files[n].down];
      }
    }
    assert files[..|files|] == files;
    var referenced := Referenced(g);
    var heads := Arrange(g.Keys - referenced);
    forall h ensures h in heads <==> IsHead(g, h) {
      assert h in heads <==> h in Members(heads);
    }
    if heads == [] {
      return None;
    }
    assert heads[0] in heads;
    return Some(heads);
  }

  /* ---------- Heads, told by the files ---------- */

  /** The last file of its revision is the one that counts. */
  predicate Counts(files: seq<File>, i: nat) {
    i < |files| && files[i].revision != "" && forall k :: i < k < |files| ==> files[k].revision != files[i].revision
  }

  predicate NamesAsParent(down: Down, parent: string) {
    down == One(parent) || (down.Many? && parent != "" && parent in down.parents)
  }

  ghost predicate IsNamedAsParent(files: seq<File>, parent: string) {
    exists i: nat :: Counts(files, i) && NamesAsParent(files[i].down, parent)
  }

  lemma {:induction false} RevisionsExactly(files: seq<File>, r: string)
    ensures r in Revisions(files) <==> exists i: nat :: Counts(files, i) && files[i].revision == r
    ensures forall i: nat :: Counts(files, i) && files[i].revision == r ==> r in Revisions(files) && Revisions(files)[r] == files[i].down
  {
    if files != [] {
      var n := |files| - 1;
      RevisionsExactly(files[..n], r);
      forall i: nat | i < n ensures Counts(files, i) <==> Counts(files[..n], i) && files[i].revision != files[n].revision {
        FrontCounts(files, i);
      }
      assert Counts(files, n) <==> files[n].revision != "";
    }
  }

  lemma FrontCounts(files: seq<File>, i: nat)
    requires i < |files| - 1
    ensures Counts(files, i) <==> Counts(files[..|files| - 1], i) && files[i].revision != files[|files| - 1].revision
  {
    var front := files[..|files| - 1];
    assert forall k :: 0 <= k < |front| ==> front[k] == files[k];
  }

  /** A head is a revision that some file has, and that no file which counts names as parent. */
  lemma HeadExactly(files: seq<File>, h: string)
    ensures IsHead(Revisions(files), h) <==> h != "" && (exists f :: f in files && f.revision == h) && !IsNamedAsParent(files, h)
  {
    hide Revisions, Counts;
    RevisionsExactly(files, h);
    RevisionCounts(files, h);
    forall i: nat ensures Counts(files, i) ==> i < |files| {
      CountedIsFile(files, i);
    }
    forall s
      ensures s in Revisions(files) <==> exists i: nat :: Counts(files, i) && files[i].revision == s
      ensures forall i: nat :: Counts(files, i) && files[i].revision == s ==> s in Revisions(files) && Revisions(files)[s] == files[i].down
    {
      RevisionsExactly(files, s);
    }
    forall i: nat | Counts(files, i) ensures NamesAsParent(files[i].down, h) == IsChild(Revisions(files), h, files[i].revision) {
    }
    if !IsNamedAsParent(files, h) {
      forall s | s in Revisions(files) ensures !IsChild(Revisions(files), h, s) {
        var i: nat :| Counts(files, i) && files[i].revision == s;
      }
    }
  }

  lemma CountedIsFile(files: seq<File>, i: nat)
    ensures Counts(files, i) ==> i < |files|
  {
  }

  /** The last file of a revision counts. */
  lemma {:induction false} RevisionCounts(files: seq<File>, r: string)
    ensures (exists i: nat :: Counts(files, i) && files[i].revision == r) <==> r != "" && exists f :: f in files && f.revision == r
  {
    if files != [] {
      var n := |files| - 1;
      RevisionCounts(files[..n], r);
      assert files == files[..n] + [files[n]];
      forall i: nat | i < n ensures Counts(files, i) <==> Counts(files[..n], i) && files[i].revision != files[n].revision {
        FrontCounts(files, i);
      }
      assert Counts(files, n) <==> files[n].revision != "";
      if r == files[n].revision && r != "" {
        assert Counts(files, n);
      }
    }
  }

  /* ---------- Ancestors ---------- */

  /** Revisions of the graph, each a parent of the next. */
  predicate IsPath(g: Graph, p: seq<string>) {
    p != [] && (forall i :: 0 <= i < |p| ==> p[i] in g)
    && forall i :: 0 <= i < |p| - 1 ==> IsChild(g, p[i], p[i + 1])
  }

  predicate Leads(g: Graph, p: seq<string>, from: string, to: string) {
    IsPath(g, p) && p[0] == from && p[|p| - 1] == to
  }

  ghost predicate IsAncestor(g: Graph, from: string, to: string) {
    exists p :: Leads(g, p, from, to)
  }

  ghost predicate IsAcyclic(g: Graph) {
    forall p :: IsPath(g, p) && |p| >= 2 ==> p[0] != p[|p| - 1]
  }

  lemma PathsDoNotRepeat(g: Graph, p: seq<string>)
    requires IsAcyclic(g) && IsPath(g, p)
    ensures Distinct(p) && |p| <= |g|
  {
    forall i, j | 0 <= i < j < |p| ensures p[i] != p[j] {
      var cycle := p[i..j + 1];
      assert IsPath(g, cycle);
    }
    DistinctMembers(p);
    InSet(Members(p), g.Keys);
  }

  lemma {:induction false} InSet(a: set<string>, b: set<string>)
    requires a <= b
    ensures |a| <= |b|
  {
    if a != {} {
      var x :| x in a;
      InSet(a - {x}, b - {x});
    }
  }

  /** A path can be continued until it reaches a head. */
  lemma {:induction false} PathReachesHead(g: Graph, p: seq<string>) returns (q: seq<string>)
    requires IsAcyclic(g) && IsPath(g, p)
    ensures IsPath(g, q) && q[0] == p[0] && IsHead(g, q[|q| - 1])
    decreases |g| - |p|
  {
    PathsDoNotRepeat(g, p);
    var last := p[|p| - 1];
    if IsHead(g, last) {
      q := p;
    } else {
      var s :| s in g && IsChild(g, last, s);
      PathsDoNotRepeat(g, p + [s]);
      q := PathReachesHead(g, p + [s]);
    }
  }

  lemma EveryRevisionIsBehindAHead(g: Graph, r: string) returns (h: string)
    requires IsAcyclic(g) && r in g
    ensures IsHead(g, h) && IsAncestor(g, r, h)
  {
    assert IsPath(g, [r]);
    var q := PathReachesHead(g, [r]);
    h := q[|q| - 1];
    assert Leads(g, q, r, h);
  }

  /** In a graph without cycles the error occurs only when there is no revision at all. */
  lemma HeadsExist(g: Graph)
    requires IsAcyclic(g)
    ensures g != map[] <==> exists h :: IsHead(g, h)
  {
    if g != map[] {
      var r :| r in g;
      var h := EveryRevisionIsBehindAHead(g, r);
    }
  }

  lemma StartIsNoHead(g: Graph, p: seq<string>)
    requires IsPath(g, p)
    ensures |p| >= 2 ==> !IsHead(g, p[0])
  {
    assert |p| >= 2 ==> IsChild(g, p[0], p[1]);
  }

  /** A head is an ancestor of itself only. */
  lemma HeadHasNoDescendants(g: Graph, h: string, to: string)
    requires IsHead(g, h) && IsAncestor(g, h, to)
    ensures h == to
  {
    var p :| Leads(g, p, h, to);
    StartIsNoHead(g, p);
  }

  /**
   A revision is the only head exactly when every revision is its ancestor: a single head
   has the whole history behind it.
   */
  lemma OnlyHeadDominates(g: Graph, h: string)
    requires IsAcyclic(g) && h in g
    ensures (forall k :: IsHead(g, k) <==> k == h) <==> (forall r :: r in g ==> IsAncestor(g, r, h))
  {
    if forall k :: IsHead(g, k) <==> k == h {
      forall r | r in g ensures IsAncestor(g, r, h) {
        var k := EveryRevisionIsBehindAHead(g, r);
      }
    }
    if forall r :: r in g ==> IsAncestor(g, r, h) {
      forall k | IsHead(g, k) ensures k == h {
        HeadHasNoDescendants(g, k, h);
      }
      var k := EveryRevisionIsBehindAHead(g, h);
      HeadHasNoDescendants(g, k, h);
    }
  }

  /** Two revisions that name each other have no head: the graph must not have cycles. */
  lemma CycleHasNoHead(a: string, b: string)
    requires a != b
    ensures var g: Graph := map[a := One(b), b := One(a)];
            !IsAcyclic(g) && forall h :: !IsHead(g, h)
  {
    var g: Graph := map[a := One(b), b := One(a)];
    assert IsChild(g, a, b) && IsChild(g, b, a);
    assert IsPath(g, [a, b, a]);
  }
}
