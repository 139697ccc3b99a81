/** The order of strings by their characters, as sorting uses it. */
module TextOrder {
  predicate Leq(a: string, b: string) {
    a == "" || (b != "" && (a[0] < b[0] || (a[0] == b[0] && Leq(a[1..], b[1..]))))
  }

  lemma {:induction false} LeqIsTotal(a: string, b: string)
    ensures Leq(a, b) || Leq(b, a)
  {
    if a != "" && b != "" && a[0] == b[0] {
      LeqIsTotal(a[1..], b[1..]);
    }
  }

  lemma {:induction false} LeqIsAntisymmetric(a: string, b: string)
    requires Leq(a, b) && Leq(b, a)
    ensures a == b
  {
    if a != "" {
      LeqIsAntisymmetric(a[1..], b[1..]);
      assert a == [a[0]] + a[1..] && b == [b[0]] + b[1..];
    }
  }

  lemma {:induction false} LeqIsTransitive(a: string, b: string, c: string)
    requires Leq(a, b) && Leq(b, c)
    ensures Leq(a, c)
  {
    if a != "" && b[0] == a[0] && b[0] == c[0] {
      LeqIsTransitive(a[1..], b[1..], c[1..]);
    }
  }

  predicate Sorted(texts: seq<string>) {
    forall i, j :: 0 <= i < j < |texts| ==> Leq(texts[i], texts[j])
  }

  predicate Distinct(texts: seq<string>) {
    forall i, j :: 0 <= i < j < |texts| ==> texts[i] != texts[j]
  }

  function Members(texts: seq<string>): set<string> {
    set t | t in texts
  }

  lemma {:induction false} DistinctMembers(texts: seq<string>)
    ensures |Members(texts)| <= |texts|
    ensures Distinct(texts) <==> |Members(texts)| == |texts|
  {
    if texts != [] {
      var n := |texts| - 1;
      DistinctMembers(texts[..n]);
      var front := Members(texts[..n]);
      assert texts == texts[..n] + [texts[n]];
      assert Members(texts) == front + {texts[n]};
      if texts[n] in front {
        assert Members(texts) == front;
        var i :| 0 <= i < n && texts[i] == texts[n];
      } else {
        assert forall i :: 0 <= i < n ==> texts[i] == texts[..n][i] && texts[i] in front;
      }
    }
  }

  /** Two sorted sequences without repeats that have the same members are equal. */
  lemma {:induction false} SortedIsUnique(a: seq<string>, b: seq<string>)
    requires Sorted(a) && Sorted(b) && Distinct(a) && Distinct(b) && Members(a) == Members(b)
    ensures a == b
  {
    DistinctMembers(a);
    DistinctMembers(b);
    if a != [] {
      assert a[0] in Members(b) && b[0] in Members(a);
      var i :| 0 <= i < |b| && b[i] == a[0];
      var j :| 0 <= j < |a| && a[j] == b[0];
      if i != 0 && j != 0 {
        LeqIsAntisymmetric(a[0], b[0]);
      }
      assert a[0] == b[0];
      assert Members(a[1..]) == Members(a) - {a[0]};
      assert Members(b[1..]) == Members(b) - {b[0]};
      SortedIsUnique(a[1..], b[1..]);
      assert a == [a[0]] + a[1..] && b == [b[0]] + b[1..];
    }
  }
}
