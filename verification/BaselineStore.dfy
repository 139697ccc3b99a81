/**
 Applying the reconciliation plan to the operational table, one compare-and-swap update per
 mismatch, followed by the program's own post-checks.

 The effect is exact: every retained published row gets its trusted hash, nothing else
 changes, and none of the post-checks can ever fail.
 */
module BaselineStore {
  import opened BaselinePlan
  import opened Formats
  import opened TextOrder
  import opened Wrappers

  function Published(rows: seq<Publication>): seq<Publication> {
    if rows == [] then []
    else (if rows[0].isPublished then [rows[0]] else []) + Published(rows[1..])
  }

  /** The published parent as the store returns it: in the order of the INNs. */
  function Parent(rows: seq<Publication>): seq<Publication> {
    SortByInn(Published(rows))
  }

  /** The row with this INN, if any. */
  function RowOf(rows: seq<Publication>, inn: string): (r: Option<Publication>)
    ensures r.Some? ==> r.value in rows && r.value.inn == inn
    ensures r.None? ==> inn !in InnsOf(rows)
  {
    if rows == [] then None
    else if rows[0].inn == inn then Some(rows[0])
    else RowOf(rows[1..], inn)
  }

  predicate UniqueIds(rows: seq<Publication>) {
    forall i, j :: 0 <= i < j < |rows| ==> rows[i].companyId != rows[j].companyId
  }

  /** The condition of the compare-and-swap update. */
  predicate Hit(x: Publication, item: Item, row: Publication) {
    && x.companyId == row.companyId && x.hash == item.oldHash
    && x.projectionVersion == row.projectionVersion && x.hashVersion == row.hashVersion
    && x.isPublished && x.releaseId == row.releaseId
  }

  function Swap(rows: seq<Publication>, item: Item, row: Publication): (r: seq<Publication>)
    ensures |r| == |rows|
  {
    seq(|rows|, i requires 0 <= i < |rows| =>
      if Hit(rows[i], item, row) then rows[i].(hash := item.newHash) else rows[i])
  }

  function Hits(rows: seq<Publication>, item: Item, row: Publication): nat {
    if rows == [] then 0 else (if Hit(rows[0], item, row) then 1 else 0) + Hits(rows[1..], item, row)
  }

  /** The table with the given hashes in its published rows. */
  function Repaired(rows: seq<Publication>, hashes: map<string, string>): (r: seq<Publication>)
    ensures |r| == |rows|
  {
    seq(|rows|, i requires 0 <= i < |rows| => if rows[i].isPublished then Fix(rows[i], hashes) else rows[i])
  }

  datatype Report = Report(applied: bool, plan: Plan, updateCount: nat)

  class OperationalStore {
    var rows: seq<Publication>

    constructor (rows: seq<Publication>)
      requires UniqueIds(rows)
      ensures this.rows == rows && Valid()
    {
      this.rows := rows;
    }

    /** The primary key of the table. */
    predicate Valid()
      reads this
    {
      UniqueIds(rows)
    }

    method ReadPublishedParent() returns (parent: seq<Publication>)
      ensures parent == Parent(rows)
    {
      return Parent(rows);
    }

    method UpdateHash(item: Item, row: Publication) returns (count: nat)
      modifies this
      ensures rows == Swap(old(rows), item, row) && count == Hits(old(rows), item, row)
    {
      count := Hits(rows, item, row);
      rows := Swap(rows, item, row);
    }

    /** Plans, and applies the plan when asked to. */
    method ReconcileBaseline(e: Expectations, tools: Tools, apply: bool) returns (r: Result<Report, Blocked>)
      requires Valid() && forall payload :: IsDigest(tools.semanticHash(payload))
      modifies this
      ensures Valid()
      ensures var plan := BuildPlan(Parent(old(rows)), e, tools, true);
              && (r.Ok? <==> Validate(e, apply).None? && plan.Ok?)
              && (r.Err? ==> r.error == if Validate(e, apply).Some? then Validate(e, apply).value else plan.error)
              && (r.Ok? && e.mismatches.Some? ==> r.value.plan.mismatchCount == e.mismatches.value)
              && (r.Ok? ==> r.value == Report(apply, plan.value, if apply then plan.value.mismatchCount else 0))
              && rows == if r.Ok? && apply then Repaired(old(rows), TrustedHashes(plan.value.items)) else old(rows)
    {
      hide BuildPlan, Validate, Swap, Repaired, Fix, SortByInn, TrustedHashes, Updates, IsDigest, RowOf, UniqueIds;
      var invalid := Validate(e, apply);
      if invalid.Some? {
        return Err(invalid.value);
      }
      var before := ReadPublishedParent();
      var planned := BuildReconciliationPlan(before, e, tools, true);
      if planned.Err? {
        return Err(planned.error);
      }
      var plan := planned.value;
      var updates := Updates(plan.items);
      PlanCountsUpdates(before, e, tools);
      if e.mismatches.Some? {
        MismatchesAreAuthorised(before, e, tools);
      }
      if !apply {
        return Ok(Report(false, plan, 0));
      }
      NothingRepairedYet(rows);
      for n := 0 to |updates|
        invariant rows == Repaired(old(rows), TrustedHashes(updates[..n]))
      {
        var row := RowOf(before, updates[n].inn);
        UpdateIsExact(old(rows), e, tools, n);
        var count := UpdateHash(updates[n], row.value);
        if count != 1 {
          assert false;
        }
      }
      assert updates[..|updates|] == updates;
      UpdatesAreEnough(old(rows), e, tools);
      RepairKeepsIds(old(rows), TrustedHashes(plan.items));

      var after := ReadPublishedParent();
      ParentAfterRepair(old(rows), TrustedHashes(plan.items));
      RepairedPlanIsClean(before, e, tools, true, None);
      var again := BuildReconciliationPlan(after, e.(mismatches := None), tools, false);
      if again.Err? || again.value.mismatchCount != 0 {
        assert false;
      }
      WithdrawnIsKept(old(rows), e, tools);
      if RowOf(after, e.withdrawnInn) != RowOf(before, e.withdrawnInn) {
        assert false;
      }
      for n := 0 to |plan.items|
        invariant rows == Repaired(old(rows), TrustedHashes(plan.items)) && UniqueIds(rows)
      {
        OnlyHashesChange(old(rows), e, tools, n);
        var previous := RowOf(before, plan.items[n].inn);
        var current := RowOf(after, plan.items[n].inn);
        if current.None? || current.value.(hash := previous.value.hash) != previous.value {
          assert false;
        }
      }
      return Ok(Report(true, plan, |updates|));
    }
  }

  /* ---------- Lemmas on the table ---------- */

  lemma NothingRepairedYet(rows: seq<Publication>)
    ensures Repaired(rows, TrustedHashes([])) == rows
  {
  }

  lemma RepairKeepsIds(rows: seq<Publication>, hashes: map<string, string>)
    requires UniqueIds(rows)
    ensures UniqueIds(Repaired(rows, hashes))
  {
    var r := Repaired(rows, hashes);
    assert forall i :: 0 <= i < |r| ==> r[i].companyId == rows[i].companyId;
  }

  lemma {:induction false} PublishedAfterRepair(rows: seq<Publication>, hashes: map<string, string>)
    ensures Published(Repaired(rows, hashes)) == FixAll(Published(rows), hashes)
  {
    if rows != [] {
      assert Repaired(rows, hashes)[1..] == Repaired(rows[1..], hashes);
      PublishedAfterRepair(rows[1..], hashes);
      var head, tail := if rows[0].isPublished then [rows[0]] else [], Published(rows[1..]);
      assert FixAll(head + tail, hashes) == FixAll(head, hashes) + FixAll(tail, hashes);
    }
  }

  lemma ParentAfterRepair(rows: seq<Publication>, hashes: map<string, string>)
    ensures Parent(Repaired(rows, hashes)) == FixAll(Parent(rows), hashes)
  {
    PublishedAfterRepair(rows, hashes);
    FixAndSort(Published(rows), hashes);
  }

  lemma {:induction false} PublishedRows(rows: seq<Publication>, x: Publication)
    ensures x in Published(rows) <==> x in rows && x.isPublished
  {
    if rows != [] {
      PublishedRows(rows[1..], x);
    }
  }

  lemma ParentRows(rows: seq<Publication>, x: Publication)
    ensures x in Parent(rows) <==> x in rows && x.isPublished
  {
    PublishedRows(rows, x);
    SortSorts(Published(rows));
    assert x in multiset(Parent(rows)) <==> x in multiset(Published(rows));
  }

  lemma {:induction false} RetainedRows(rows: seq<Publication>, withdrawn: string, x: Publication)
    ensures x in Retained(rows, withdrawn) <==> x in rows && x.inn != withdrawn
  {
    if rows != [] {
      RetainedRows(rows[1..], withdrawn, x);
    }
  }

  lemma {:induction false} RetainedDistinct(rows: seq<Publication>, withdrawn: string)
    requires Distinct(InnsOf(rows))
    ensures Distinct(InnsOf(Retained(rows, withdrawn)))
  {
    if rows != [] {
      assert forall i :: 0 <= i < |rows[1..]| ==> InnsOf(rows[1..])[i] == InnsOf(rows)[i + 1];
      RetainedDistinct(rows[1..], withdrawn);
      var tail := Retained(rows[1..], withdrawn);
      forall k | 0 <= k < |tail| ensures tail[k].inn != rows[0].inn {
        RetainedRows(rows[1..], withdrawn, tail[k]);
        var j :| 0 <= j < |rows[1..]| && rows[1..][j] == tail[k];
        assert InnsOf(rows)[0] != InnsOf(rows)[j + 1];
      }
    }
  }

  lemma {:induction false} UpdatesAreItems(items: seq<Item>, u: Item)
    ensures u in Updates(items) <==> u in items && NeedsUpdate(u)
  {
    if items != [] {
      UpdatesAreItems(items[1..], u);
    }
  }

  predicate DistinctItems(items: seq<Item>) {
    forall i, j :: 0 <= i < j < |items| ==> items[i].inn != items[j].inn
  }

  lemma {:induction false} UpdatesDistinct(items: seq<Item>)
    requires DistinctItems(items)
    ensures DistinctItems(Updates(items))
  {
    if items != [] {
      UpdatesDistinct(items[1..]);
      var tail := Updates(items[1..]);
      forall k | 0 <= k < |tail| ensures tail[k].inn != items[0].inn {
        UpdatesAreItems(items[1..], tail[k]);
        var j :| 0 <= j < |items[1..]| && items[1..][j] == tail[k];
        assert items[0].inn != items[j + 1].inn;
      }
    }
  }

  lemma {:induction false} HashesAreNamed(items: seq<Item>)
    ensures forall inn :: inn in TrustedHashes(items) <==> exists i :: 0 <= i < |items| && items[i].inn == inn
  {
    if items != [] {
      var n := |items| - 1;
      HashesAreNamed(items[..n]);
      assert forall i :: 0 <= i < n ==> items[..n][i] == items[i];
    }
  }

  lemma {:induction false} HashOfItem(items: seq<Item>, i: nat)
    requires DistinctItems(items) && i < |items|
    ensures items[i].inn in TrustedHashes(items) && TrustedHashes(items)[items[i].inn] == items[i].newHash
  {
    var n := |items| - 1;
    if i < n {
      assert items[..n][i] == items[i];
      HashOfItem(items[..n], i);
    }
  }

  lemma HashesOfItems(items: seq<Item>)
    requires DistinctItems(items)
    ensures forall inn :: inn in TrustedHashes(items) <==> exists i :: 0 <= i < |items| && items[i].inn == inn
    ensures forall i :: 0 <= i < |items| ==> items[i].inn in TrustedHashes(items) && TrustedHashes(items)[items[i].inn] == items[i].newHash
  {
    hide TrustedHashes;
    HashesAreNamed(items);
    forall i | 0 <= i < |items|
      ensures items[i].inn in TrustedHashes(items) && TrustedHashes(items)[items[i].inn] == items[i].newHash
    {
      HashOfItem(items, i);
    }
  }

  /** Facts about a plan for a table: where each item comes from. */
  lemma PlanFacts(rows: seq<Publication>, e: Expectations, tools: Tools)
    requires BuildPlan(Parent(rows), e, tools, true).Ok?
    ensures var items := BuildPlan(Parent(rows), e, tools, true).value.items;
            && DistinctItems(items) && Distinct(InnsOf(Parent(rows)))
            && (forall i :: 0 <= i < |items| ==>
                  items[i].inn != e.withdrawnInn
                  && exists x :: x in rows && x.isPublished && x.inn == items[i].inn && x.hash == items[i].oldHash)
  {
    hide SortByInn, Retained, TrustedMap, IsLegalInn, RowFits, BuildPlan;
    var parent := Parent(rows);
    var retained, payloads := PlanParts(parent, e, tools, true);
    SortSorts(parent);
    SameRowsSameInns(parent, SortByInn(parent));
    RetainedDistinct(SortByInn(parent), e.withdrawnInn);
    var items := Items(retained, payloads, tools);
    forall i | 0 <= i < |items|
      ensures items[i].inn != e.withdrawnInn
      ensures exists x :: x in rows && x.isPublished && x.inn == items[i].inn && x.hash == items[i].oldHash
    {
      var x := retained[i];
      RetainedRows(SortByInn(parent), e.withdrawnInn, x);
      assert x in multiset(parent);
      ParentRows(rows, x);
    }
    forall i, j | 0 <= i < j < |items| ensures items[i].inn != items[j].inn {
      assert InnsOf(retained)[i] != InnsOf(retained)[j];
    }
  }

  lemma PlanCountsUpdates(parent: seq<Publication>, e: Expectations, tools: Tools)
    requires BuildPlan(parent, e, tools, true).Ok?
    ensures var plan := BuildPlan(parent, e, tools, true).value; plan.mismatchCount == |Updates(plan.items)|
  {
    hide Normalize, Retained, TrustedMap, Updates, Items;
  }

  lemma SameInnSameRow(rows: seq<Publication>, x: Publication, y: Publication)
    requires Distinct(InnsOf(rows)) && x in rows && y in rows && x.inn == y.inn
    ensures x == y
  {
    var i :| 0 <= i < |rows| && rows[i] == x;
    var j :| 0 <= j < |rows| && rows[j] == y;
    assert InnsOf(rows)[i] == InnsOf(rows)[j];
  }

  lemma {:induction false} OneHit(rows: seq<Publication>, item: Item, row: Publication, at: nat)
    requires at < |rows| && forall i :: 0 <= i < |rows| ==> (Hit(rows[i], item, row) <==> i == at)
    ensures Hits(rows, item, row) == 1
  {
    if at == 0 {
      NoHits(rows[1..], item, row);
    } else {
      OneHit(rows[1..], item, row, at - 1);
    }
  }

  lemma {:induction false} NoHits(rows: seq<Publication>, item: Item, row: Publication)
    requires forall i :: 0 <= i < |rows| ==> !Hit(rows[i], item, row)
    ensures Hits(rows, item, row) == 0
  {
    if rows != [] {
      NoHits(rows[1..], item, row);
    }
  }

  /** Each compare-and-swap hits exactly the row it was planned for. */
  lemma UpdateIsExact(rows: seq<Publication>, e: Expectations, tools: Tools, n: nat)
    requires UniqueIds(rows) && BuildPlan(Parent(rows), e, tools, true).Ok?
    requires n < |Updates(BuildPlan(Parent(rows), e, tools, true).value.items)|
    ensures var updates := Updates(BuildPlan(Parent(rows), e, tools, true).value.items);
            var row := RowOf(Parent(rows), updates[n].inn);
            var now := Repaired(rows, TrustedHashes(updates[..n]));
            && row.Some? && Hits(now, updates[n], row.value) == 1
            && Swap(now, updates[n], row.value) == Repaired(rows, TrustedHashes(updates[..n + 1]))
  {
    hide BuildPlan, SortByInn, TrustedHashes, Updates, RowOf;
    var items := BuildPlan(Parent(rows), e, tools, true).value.items;
    var updates := Updates(items);
    PlanFacts(rows, e, tools);
    var u := updates[n];
    UpdatesAreItems(items, u);
    UpdatesDistinct(items);
    var i :| 0 <= i < |items| && items[i] == u;
    var x :| x in rows && x.isPublished && x.inn == u.inn && x.hash == u.oldHash;
    ParentRows(rows, x);
    var found := RowOf(Parent(rows), u.inn);
    RowIsFound(Parent(rows), x);
    var at :| 0 <= at < |rows| && rows[at] == x;
    HashesOfItems(updates[..n]);
    var hashes := TrustedHashes(updates[..n]);
    assert u.inn !in hashes;
    var now := Repaired(rows, hashes);
    OnlyOneSuchRow(rows, hashes, u, x, at);
    OneHit(now, u, x, at);
    assert TrustedHashes(updates[..n + 1]) == hashes[u.inn := u.newHash] by {
      TrustedHashesGrow(updates, n);
    }
    OnlyPublishedRow(rows, x, at);
    SwapIsRepair(rows, hashes, u, x, at);
  }

  lemma OnlyPublishedRow(rows: seq<Publication>, x: Publication, at: nat)
    requires UniqueIds(rows) && Distinct(InnsOf(Parent(rows))) && at < |rows| && rows[at] == x && x.isPublished
    ensures forall i :: 0 <= i < |rows| && rows[i].isPublished && rows[i].inn == x.inn ==> i == at
  {
    hide SortByInn;
    ParentRows(rows, x);
    forall i | 0 <= i < |rows| && rows[i].isPublished && rows[i].inn == x.inn ensures i == at {
      ParentRows(rows, rows[i]);
      SameInnSameRow(Parent(rows), rows[i], x);
    }
  }

  lemma TrustedHashesGrow(items: seq<Item>, n: nat)
    requires n < |items|
    ensures TrustedHashes(items[..n + 1]) == TrustedHashes(items[..n])[items[n].inn := items[n].newHash]
  {
    assert items[..n + 1][..n] == items[..n];
  }

  lemma RowIsFound(rows: seq<Publication>, x: Publication)
    requires Distinct(InnsOf(rows)) && x in rows
    ensures RowOf(rows, x.inn) == Some(x)
  {
    var i :| 0 <= i < |rows| && rows[i] == x;
    assert InnsOf(rows)[i] == x.inn && x.inn in InnsOf(rows);
    SameInnSameRow(rows, x, RowOf(rows, x.inn).value);
  }

  /** Row `at` is the only one the update for `x` can hit. */
  lemma OnlyOneSuchRow(rows: seq<Publication>, hashes: map<string, string>, u: Item, x: Publication, at: nat)
    requires UniqueIds(rows) && at < |rows| && rows[at] == x && x.isPublished
    requires x.inn == u.inn && x.hash == u.oldHash && u.inn !in hashes
    ensures var now := Repaired(rows, hashes);
            forall i :: 0 <= i < |now| ==> (Hit(now[i], u, x) <==> i == at)
  {
    var now := Repaired(rows, hashes);
    forall i | 0 <= i < |now| ensures Hit(now[i], u, x) <==> i == at {
      assert now[i].companyId == rows[i].companyId;
    }
  }

  lemma SwapIsRepair(rows: seq<Publication>, hashes: map<string, string>, u: Item, x: Publication, at: nat)
    requires at < |rows| && rows[at] == x && x.isPublished && x.inn == u.inn && u.inn !in hashes
    requires forall i :: 0 <= i < |rows| ==> (Hit(Repaired(rows, hashes)[i], u, x) <==> i == at)
    requires forall i :: 0 <= i < |rows| && rows[i].isPublished && rows[i].inn == u.inn ==> i == at
    ensures Swap(Repaired(rows, hashes), u, x) == Repaired(rows, hashes[u.inn := u.newHash])
  {
  }

  lemma {:induction false} RowOfFixed(rows: seq<Publication>, hashes: map<string, string>, inn: string)
    ensures RowOf(FixAll(rows, hashes), inn) ==
            var row := RowOf(rows, inn);
            if row.None? then None else Some(Fix(row.value, hashes))
  {
    if rows != [] {
      assert FixAll(rows, hashes)[1..] == FixAll(rows[1..], hashes);
      RowOfFixed(rows[1..], hashes, inn);
    }
  }

  /** The item that plans for a published row records the hash the row has. */
  lemma ItemOfRow(rows: seq<Publication>, e: Expectations, tools: Tools, x: Publication, i: nat)
    requires BuildPlan(Parent(rows), e, tools, true).Ok? && x in rows && x.isPublished
    requires i < |BuildPlan(Parent(rows), e, tools, true).value.items|
    requires BuildPlan(Parent(rows), e, tools, true).value.items[i].inn == x.inn
    ensures BuildPlan(Parent(rows), e, tools, true).value.items[i].oldHash == x.hash
  {
    hide BuildPlan, SortByInn;
    PlanFacts(rows, e, tools);
    var item := BuildPlan(Parent(rows), e, tools, true).value.items[i];
    var y :| y in rows && y.isPublished && y.inn == item.inn && y.hash == item.oldHash;
    ParentRows(rows, x);
    ParentRows(rows, y);
    SameInnSameRow(Parent(rows), x, y);
  }

  /** The updates carry the hashes of those items that need one. */
  lemma HashesOfUpdates(items: seq<Item>, inn: string)
    requires DistinctItems(items)
    ensures inn in TrustedHashes(Updates(items)) <==> exists i :: 0 <= i < |items| && items[i].inn == inn && NeedsUpdate(items[i])
    ensures inn in TrustedHashes(Updates(items)) ==>
              inn in TrustedHashes(items) && TrustedHashes(Updates(items))[inn] == TrustedHashes(items)[inn]
  {
    hide TrustedHashes, Updates;
    var updates := Updates(items);
    UpdatesDistinct(items);
    HashesOfItems(items);
    HashesOfItems(updates);
    if j :| 0 <= j < |updates| && updates[j].inn == inn {
      UpdatesAreItems(items, updates[j]);
      var i :| 0 <= i < |items| && items[i] == updates[j];
    }
    if i :| 0 <= i < |items| && items[i].inn == inn && NeedsUpdate(items[i]) {
      UpdatesAreItems(items, items[i]);
      var j :| 0 <= j < |updates| && updates[j] == items[i];
    }
  }

  /** Rows without an update already have their trusted hash. */
  lemma UpdatesAreEnough(rows: seq<Publication>, e: Expectations, tools: Tools)
    requires BuildPlan(Parent(rows), e, tools, true).Ok?
    ensures var items := BuildPlan(Parent(rows), e, tools, true).value.items;
            Repaired(rows, TrustedHashes(Updates(items))) == Repaired(rows, TrustedHashes(items))
  {
    hide BuildPlan, SortByInn, TrustedHashes, Updates;
    var items := BuildPlan(Parent(rows), e, tools, true).value.items;
    PlanFacts(rows, e, tools);
    HashesOfItems(items);
    var some, every := TrustedHashes(Updates(items)), TrustedHashes(items);
    forall k | 0 <= k < |rows| && rows[k].isPublished ensures Fix(rows[k], some) == Fix(rows[k], every) {
      HashesOfUpdates(items, rows[k].inn);
      if rows[k].inn in every {
        var i :| 0 <= i < |items| && items[i].inn == rows[k].inn;
        ItemOfRow(rows, e, tools, rows[k], i);
      }
    }
  }

  lemma WithdrawnIsKept(rows: seq<Publication>, e: Expectations, tools: Tools)
    requires BuildPlan(Parent(rows), e, tools, true).Ok?
    ensures var hashes := TrustedHashes(BuildPlan(Parent(rows), e, tools, true).value.items);
            && e.withdrawnInn !in hashes
            && RowOf(Parent(Repaired(rows, hashes)), e.withdrawnInn) == RowOf(Parent(rows), e.withdrawnInn)
  {
    hide BuildPlan, SortByInn, RowOf;
    var items := BuildPlan(Parent(rows), e, tools, true).value.items;
    PlanFacts(rows, e, tools);
    HashesOfItems(items);
    ParentAfterRepair(rows, TrustedHashes(items));
    RowOfFixed(Parent(rows), TrustedHashes(items), e.withdrawnInn);
  }

  lemma OnlyHashesChange(rows: seq<Publication>, e: Expectations, tools: Tools, n: nat)
    requires BuildPlan(Parent(rows), e, tools, true).Ok?
    requires n < |BuildPlan(Parent(rows), e, tools, true).value.items|
    ensures var items := BuildPlan(Parent(rows), e, tools, true).value.items;
            var previous := RowOf(Parent(rows), items[n].inn);
            var current := RowOf(Parent(Repaired(rows, TrustedHashes(items))), items[n].inn);
            previous.Some? && current.Some? && current.value.(hash := previous.value.hash) == previous.value
  {
    hide BuildPlan, SortByInn, RowOf;
    var items := BuildPlan(Parent(rows), e, tools, true).value.items;
    PlanFacts(rows, e, tools);
    ParentAfterRepair(rows, TrustedHashes(items));
    RowOfFixed(Parent(rows), TrustedHashes(items), items[n].inn);
    var x :| x in rows && x.isPublished && x.inn == items[n].inn;
    ParentRows(rows, x);
    RowIsFound(Parent(rows), x);
  }

  /* ---------- What applying achieves ---------- */

  /** What the trusted reader answers when asked for every published company but the withdrawn one. */
  function TrustedAnswer(rows: seq<Publication>, e: Expectations, tools: Tools): Option<map<string, string>> {
    var answer := tools.read(e.releaseId, InnsOf(Retained(SortByInn(Parent(rows)), e.withdrawnInn)));
    if answer.None? || answer.value.projections.None? then None else Payloads(answer.value.projections.value)
  }

  /**
   After the repair every published row but the withdrawn one carries the semantic hash of the
   payload that the trusted reader answers for it, which belongs to it and to the release. The
   withdrawn and the unpublished rows are untouched; of the others only the hash can change.
   */
  lemma RepairIsExact(rows: seq<Publication>, e: Expectations, tools: Tools, i: nat)
    requires BuildPlan(Parent(rows), e, tools, true).Ok? && i < |rows|
    ensures var plan := BuildPlan(Parent(rows), e, tools, true).value;
            var after := Repaired(rows, TrustedHashes(plan.items));
            && after[i] == rows[i].(hash := after[i].hash)
            && (!rows[i].isPublished || rows[i].inn == e.withdrawnInn ==> after[i] == rows[i])
            && (rows[i].isPublished && rows[i].inn != e.withdrawnInn ==>
                  var answer := TrustedAnswer(rows, e, tools);
                  && answer.Some? && rows[i].inn in answer.value
                  && tools.validate(answer.value[rows[i].inn]) == Some(Projection(rows[i].inn, e.releaseId))
                  && after[i].hash == tools.semanticHash(answer.value[rows[i].inn]))
  {
    hide BuildPlan, SortByInn, Retained, TrustedHashes, Items, IsLegalInn, MembersFit, Payloads, Parent, InnsOf;
    var parent := Parent(rows);
    var plan := BuildPlan(parent, e, tools, true).value;
    var retained, payloads := PlanParts(parent, e, tools, true);
    WithdrawnIsKept(rows, e, tools);
    TrustedHashesAre(retained, payloads, tools);
    var x := rows[i];
    if x.isPublished && x.inn != e.withdrawnInn {
      ParentRows(rows, x);
      SortSorts(parent);
      assert x in multiset(SortByInn(parent));
      RetainedRows(SortByInn(parent), e.withdrawnInn, x);
      var k :| 0 <= k < |retained| && retained[k] == x;
      InMembers(retained, k);
      assert ProjectionFits(x.inn, payloads[x.inn], e, tools);
    }
  }

  /** Applying again, expecting no mismatch, succeeds and changes nothing. */
  lemma SecondApplyIsNoOp(rows: seq<Publication>, e: Expectations, tools: Tools)
    requires BuildPlan(Parent(rows), e, tools, true).Ok? && Validate(e, true).None?
    requires forall payload :: IsDigest(tools.semanticHash(payload))
    ensures var after := Repaired(rows, TrustedHashes(BuildPlan(Parent(rows), e, tools, true).value.items));
            var again := BuildPlan(Parent(after), e.(mismatches := Some(0)), tools, true);
            && Validate(e.(mismatches := Some(0)), true).None?
            && again.Ok? && again.value.mismatchCount == 0
            && Repaired(after, TrustedHashes(again.value.items)) == after
  {
    hide BuildPlan, SortByInn, TrustedHashes, IsDigest, IsLegalInn, Repaired;
    var hashes := TrustedHashes(BuildPlan(Parent(rows), e, tools, true).value.items);
    var after := Repaired(rows, hashes);
    ParentAfterRepair(rows, hashes);
    RepairedPlanIsClean(Parent(rows), e, tools, true, Some(0));
    UpdatesAreEnough(after, e.(mismatches := Some(0)), tools);
    NothingRepairedYet(after);
  }
}
