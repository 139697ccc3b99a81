/**
 Counting element paths: the streaming inspector of scripts/inspect_erknm_open_data.py
 against the recursive one of scripts/inspect_fns_paytax_zip.py.

 The streaming form stops after a given number of elements. It counts exactly the paths of
 the first so many elements in post-order, and without an early stop it agrees with the
 recursive form. Counters are multisets of paths.
 */
module XmlPaths {
  import opened Wrappers

  /** An element by its local name; XML names are never empty. */
  datatype Tree = Node(name: string, children: seq<Tree>)

  datatype Event = Start(name: string) | End

  predicate IsNamed(t: Tree) {
    t.name != "" && forall i :: 0 <= i < |t.children| ==> IsNamed(t.children[i])
  }

  predicate AreNamed(ts: seq<Tree>) {
    forall i :: 0 <= i < |ts| ==> IsNamed(ts[i])
  }

  /* ---------- The recursive form ---------- */

  function Extend(parent: string, name: string): string {
    if parent != "" then parent + "/" + name else name
  }

  /** The paths of a tree in post-order. */
  function Paths(t: Tree, parent: string): seq<string>
    decreases t, 1
  {
    AllPaths(t.children, Extend(parent, t.name)) + [Extend(parent, t.name)]
  }

  function AllPaths(ts: seq<Tree>, parent: string): seq<string>
    decreases ts, 0
  {
    if ts == [] then [] else Paths(ts[0], parent) + AllPaths(ts[1..], parent)
  }

  lemma {:induction false} AllPathsGrow(ts: seq<Tree>, n: nat, parent: string)
    requires n < |ts|
    ensures AllPaths(ts[..n + 1], parent) == AllPaths(ts[..n], parent) + Paths(ts[n], parent)
  {
    if n == 0 {
      assert ts[..1] == [ts[0]] && ts[..1][1..] == [];
    } else {
      AllPathsGrow(ts[1..], n - 1, parent);
      assert ts[..n + 1][1..] == ts[1..][..n] && ts[..n][1..] == ts[1..][..n - 1];
    }
  }

  method CollectPaths(t: Tree, parent: string, result: multiset<string>) returns (r: multiset<string>)
    ensures r == result + multiset(Paths(t, parent))
    decreases t
  {
    var path := Extend(parent, t.name);
    r := result + multiset{path};
    for n := 0 to |t.children|
      invariant r == result + multiset{path} + multiset(AllPaths(t.children[..n], path))
    {
      r := CollectPaths(t.children[n], path, r);
      AllPathsGrow(t.children, n, path);
    }
    assert t.children[..|t.children|] == t.children;
  }

  /* ---------- The streaming form ---------- */

  function Join(stack: seq<string>): string {
    if stack == [] then ""
    else if |stack| == 1 then stack[0]
    else Join(stack[..|stack| - 1]) + "/" + stack[|stack| - 1]
  }

  function Push(stack: seq<string>, e: Event): seq<string> {
    match e
    case Start(name) => stack + [name]
    case End => if stack != [] then stack[..|stack| - 1] else stack
  }

  function Stack(events: seq<Event>, stack: seq<string>): seq<string> {
    if events == [] then stack else Stack(events[1..], Push(stack, events[0]))
  }

  /** The path current at each end event. */
  function EndPaths(events: seq<Event>, stack: seq<string>): seq<string> {
    if events == [] then []
    else (if events[0].End? then [Join(stack)] else []) + EndPaths(events[1..], Push(stack, events[0]))
  }

  function Min(a: int, b: int): int {
    if a < b then a else b
  }

  datatype Inspection = Inspection(rootTag: Option<string>, inspected: nat, pathCounts: multiset<string>)

  lemma NextEvent(events: seq<Event>, i: nat, stack: seq<string>)
    requires i < |events|
    ensures EndPaths(events[i..], stack) ==
            (if events[i].End? then [Join(stack)] else []) + EndPaths(events[i + 1..], Push(stack, events[i]))
  {
    assert events[i..][1..] == events[i + 1..];
  }

  /** Fails only for a limit below one. */
  method InspectXmlStream(events: seq<Event>, maxElements: int) returns (r: Option<Inspection>)
    ensures r.None? <==> maxElements < 1
    ensures r.Some? ==>
              var paths := EndPaths(events, []);
              && r.value.inspected == Min(maxElements, |paths|)
              && r.value.pathCounts == multiset(paths[..Min(maxElements, |paths|)])
              && (events != [] && events[0].Start? ==> r.value.rootTag == Some(events[0].name))
  {
    hide EndPaths, Join;
    if maxElements < 1 {
      return None;
    }
    var counts: multiset<string>, ended, root: Option<string> := multiset{}, 0, None;
    var stack: seq<string> := [];
    ghost var seen: seq<string> := [];
    for i := 0 to |events|
      invariant ended == |seen| < maxElements && counts == multiset(seen)
      invariant EndPaths(events, []) == seen + EndPaths(events[i..], stack)
      invariant i == 0 ==> root == None
      invariant i > 0 && events[0].Start? ==> root == Some(events[0].name)
    {
      NextEvent(events, i, stack);
      if events[i].Start? {
        stack := stack + [events[i].name];
        if root.None? {
          root := Some(events[i].name);
        }
        continue;
      }
      SeenMore(seen, Join(stack), EndPaths(events[i + 1..], Push(stack, End)));
      counts := counts + multiset{Join(stack)};
      seen := seen + [Join(stack)];
      ended := ended + 1;
      if stack != [] {
        stack := stack[..|stack| - 1];
      }
      if ended >= maxElements {
        FirstOf(seen, EndPaths(events[i + 1..], stack));
        return Some(Inspection(root, ended, counts));
      }
    }
    NoMoreEvents(stack);
    assert events[|events|..] == [];
    FirstOf(seen, []);
    return Some(Inspection(root, ended, counts));
  }

  lemma SeenMore(seen: seq<string>, path: string, rest: seq<string>)
    ensures seen + ([path] + rest) == (seen + [path]) + rest
  {
  }

  lemma FirstOf(seen: seq<string>, rest: seq<string>)
    ensures |seen + rest| == |seen| + |rest| && (seen + rest)[..|seen|] == seen && (rest == [] ==> seen + rest == seen)
  {
  }

  lemma NoMoreEvents(stack: seq<string>)
    ensures EndPaths([], stack) == []
  {
  }

  /* ---------- The events of a tree ---------- */

  function Events(t: Tree): seq<Event>
    decreases t, 1
  {
    [Start(t.name)] + AllEvents(t.children) + [End]
  }

  function AllEvents(ts: seq<Tree>): seq<Event>
    decreases ts, 0
  {
    if ts == [] then [] else Events(ts[0]) + AllEvents(ts[1..])
  }

  function Size(t: Tree): nat
    decreases t, 1
  {
    1 + AllSize(t.children)
  }

  function AllSize(ts: seq<Tree>): nat
    decreases ts, 0
  {
    if ts == [] then 0 else Size(ts[0]) + AllSize(ts[1..])
  }

  lemma {:induction false} StacksAppend(a: seq<Event>, b: seq<Event>, stack: seq<string>)
    ensures Stack(a + b, stack) == Stack(b, Stack(a, stack))
  {
    hide Push;
    if a == [] {
      assert a + b == b;
    } else {
      assert (a + b)[1..] == a[1..] + b;
      StacksAppend(a[1..], b, Push(stack, a[0]));
    }
  }

  lemma {:induction false} EndPathsAppend(a: seq<Event>, b: seq<Event>, stack: seq<string>)
    ensures EndPaths(a + b, stack) == EndPaths(a, stack) + EndPaths(b, Stack(a, stack))
  {
    hide Push, Join;
    if a == [] {
      assert a + b == b;
    } else {
      assert (a + b)[1..] == a[1..] + b;
      EndPathsAppend(a[1..], b, Push(stack, a[0]));
    }
  }

  lemma StackAppends(a: seq<Event>, b: seq<Event>, stack: seq<string>)
    ensures Stack(a + b, stack) == Stack(b, Stack(a, stack))
    ensures EndPaths(a + b, stack) == EndPaths(a, stack) + EndPaths(b, Stack(a, stack))
  {
    hide *;
    StacksAppend(a, b, stack);
    EndPathsAppend(a, b, stack);
  }

  lemma {:induction false} JoinNamed(stack: seq<string>)
    requires forall i :: 0 <= i < |stack| ==> stack[i] != ""
    ensures Join(stack) == "" <==> stack == []
  {
  }

  lemma JoinExtends(stack: seq<string>, name: string)
    requires forall i :: 0 <= i < |stack| ==> stack[i] != ""
    ensures Join(stack + [name]) == Extend(Join(stack), name)
  {
    JoinNamed(stack);
    assert (stack + [name])[..|stack|] == stack;
  }

  /** A tree's events leave the stack as it was, and end the tree's paths in post-order. */
  lemma {:induction false} TreeEvents(t: Tree, stack: seq<string>)
    requires IsNamed(t) && forall i :: 0 <= i < |stack| ==> stack[i] != ""
    ensures Stack(Events(t), stack) == stack
    ensures EndPaths(Events(t), stack) == Paths(t, Join(stack))
    decreases t, 1
  {
    hide Stack, EndPaths, Join, Extend;
    var inner := stack + [t.name];
    ForestEvents(t.children, inner);
    JoinExtends(stack, t.name);
    StackAppends([Start(t.name)], AllEvents(t.children), stack);
    StackAppends([Start(t.name)] + AllEvents(t.children), [End], stack);
    OneEvent(Start(t.name), stack);
    OneEvent(End, inner);
    assert inner[..|inner| - 1] == stack;
  }

  lemma OneEvent(e: Event, stack: seq<string>)
    ensures Stack([e], stack) == Push(stack, e)
    ensures EndPaths([e], stack) == if e.End? then [Join(stack)] else []
  {
    assert [e][1..] == [];
    assert Stack([], Push(stack, e)) == Push(stack, e) && EndPaths([], Push(stack, e)) == [];
  }

  lemma {:induction false} ForestEvents(ts: seq<Tree>, stack: seq<string>)
    requires AreNamed(ts) && forall i :: 0 <= i < |stack| ==> stack[i] != ""
    ensures Stack(AllEvents(ts), stack) == stack
    ensures EndPaths(AllEvents(ts), stack) == AllPaths(ts, Join(stack))
    decreases ts, 0
  {
    if ts != [] {
      TreeEvents(ts[0], stack);
      ForestEvents(ts[1..], stack);
      StackAppends(Events(ts[0]), AllEvents(ts[1..]), stack);
    }
  }

  lemma {:induction false} PathsPerElement(t: Tree, parent: string)
    ensures |Paths(t, parent)| == Size(t)
    decreases t, 1
  {
    PathsPerForest(t.children, Extend(parent, t.name));
  }

  lemma {:induction false} PathsPerForest(ts: seq<Tree>, parent: string)
    ensures |AllPaths(ts, parent)| == AllSize(ts)
    decreases ts, 0
  {
    if ts != [] {
      PathsPerElement(ts[0], parent);
      PathsPerForest(ts[1..], parent);
    }
  }

  /**
   For every tree and limit, the inspector counts the first elements in post-order: their
   number is the smaller of the limit and the size of the tree.
   */
  method InspectTree(t: Tree, maxElements: int) returns (streamed: Inspection, recursive: multiset<string>)
    requires IsNamed(t) && maxElements >= 1
    ensures streamed.inspected == |streamed.pathCounts| == Min(maxElements, Size(t))
    ensures streamed.inspected <= |Paths(t, "")|
    ensures streamed.pathCounts == multiset(Paths(t, "")[..streamed.inspected])
    ensures streamed.rootTag == Some(t.name)
    ensures streamed.pathCounts <= recursive
    ensures Size(t) <= maxElements <==> streamed.pathCounts == recursive
  {
    TreeEvents(t, []);
    PathsPerElement(t, "");
    var r := InspectXmlStream(Events(t), maxElements);
    streamed := r.value;
    recursive := CollectPaths(t, "", multiset{});
    var all, n := Paths(t, ""), streamed.inspected;
    assert all == all[..n] + all[n..];
    assert |multiset(all[..n])| == n && |multiset(all)| == |all|;
  }

  /* ---------- The stack ---------- */

  predicate IsChain(chain: seq<Tree>, t: Tree) {
    chain != [] ==> chain[0] == t && forall i :: 0 < i < |chain| ==> IsChild(chain[i - 1], chain[i])
  }

  predicate IsChild(parent: Tree, child: Tree) {
    child in parent.children
  }

  function Names(chain: seq<Tree>): (r: seq<string>)
    ensures |r| == |chain|
  {
    seq(|chain|, i requires 0 <= i < |chain| => chain[i].name)
  }

  /** At every moment of the stream the stack spells a path of the tree from its root. */
  lemma {:induction false} StackIsRootPath(t: Tree, i: nat, stack: seq<string>) returns (chain: seq<Tree>)
    requires IsNamed(t) && i <= |Events(t)| && forall k :: 0 <= k < |stack| ==> stack[k] != ""
    ensures IsChain(chain, t)
    ensures Stack(Events(t)[..i], stack) == stack + Names(chain)
    ensures 0 < i < |Events(t)| ==> chain != []
    decreases t, 1
  {
    var events := Events(t);
    if i == 0 {
      chain := [];
      assert events[..0] == [];
      assert stack + Names([]) == stack;
    } else if i == |events| {
      chain := [];
      assert events[..i] == events;
      TreeEvents(t, stack);
      assert stack + Names([]) == stack;
    } else {
      var below := ForestStack(t.children, i - 1, stack + [t.name], t);
      chain := [t] + below;
      assert events[..i] == [Start(t.name)] + AllEvents(t.children)[..i - 1];
      StackAppends([Start(t.name)], AllEvents(t.children)[..i - 1], stack);
      OneEvent(Start(t.name), stack);
      assert Names(chain) == [t.name] + Names(below);
      assert stack + [t.name] + Names(below) == stack + Names(chain);
    }
  }

  lemma {:induction false} ForestStack(ts: seq<Tree>, i: nat, stack: seq<string>, parent: Tree) returns (below: seq<Tree>)
    requires AreNamed(ts) && i <= |AllEvents(ts)| && forall k :: 0 <= k < |stack| ==> stack[k] != ""
    requires forall k :: 0 <= k < |ts| ==> ts[k] in parent.children
    ensures below != [] ==> below[0] in parent.children && IsChain(below, below[0])
    ensures Stack(AllEvents(ts)[..i], stack) == stack + Names(below)
    decreases ts, 0
  {
    if ts == [] {
      below := [];
      assert stack + Names([]) == stack;
    } else if i <= |Events(ts[0])| {
      below := StackIsRootPath(ts[0], i, stack);
      assert AllEvents(ts)[..i] == Events(ts[0])[..i];
    } else {
      var n := |Events(ts[0])|;
      below := ForestStack(ts[1..], i - n, stack, parent);
      assert AllEvents(ts)[..i] == Events(ts[0]) + AllEvents(ts[1..])[..i - n];
      StackAppends(Events(ts[0]), AllEvents(ts[1..])[..i - n], stack);
      TreeEvents(ts[0], stack);
    }
  }
}
