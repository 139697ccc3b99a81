/**
 The plan that reconciles published hashes with one trusted release.

 The plan is a function of the published rows and of what the trusted reader answers. It
 does not depend on the order of the rows, and once its updates are applied the plan built
 again finds nothing to do.
 */
module BaselinePlan {
  import opened Formats
  import opened TextOrder
  import opened Wrappers

  const PROJECTION_VERSION := "public-projection-v1.company-view-v1"
  const HASH_ALGORITHM_VERSION := "sha256-canonical-json-v2"

  datatype Expectations = Expectations(
    releaseId: string,
    parentCount: int,
    retainedCount: int,
    withdrawnInn: string,
    controlInn: string,
    mismatches: Option<int>)

  /** A published company; `rest` stands for the columns this command never reads. */
  datatype Publication = Publication(
    companyId: int,
    inn: string,
    hash: string,
    projectionVersion: string,
    hashVersion: string,
    isPublished: bool,
    releaseId: string,
    rest: string)

  datatype Item = Item(companyId: int, inn: string, oldHash: string, newHash: string)

  datatype Plan = Plan(releaseId: string, parentCount: int, retainedCount: int, mismatchCount: nat, items: seq<Item>)

  datatype Entry = Malformed | Entry(inn: string, payload: string)

  /** The trusted answer; absent parts are those of the wrong type. */
  datatype Trusted = Trusted(
    releaseId: string,
    recordCount: Option<int>,
    members: seq<string>,
    projections: Option<seq<Entry>>)

  datatype Projection = Projection(inn: string, releaseId: string)

  /** The reader and the projection model; a reader that raises answers None. */
  datatype Tools = Tools(
    read: (string, seq<string>) -> Option<Trusted>,
    validate: string -> Option<Projection>,
    semanticHash: string -> string)

  datatype Blocked =
    | InvalidRelease
    | InvalidCounts
    | InvalidInn
    | InvalidMismatchCount
    | ApplyNeedsMismatchCount
    | ParentCount
    | ParentMembership
    | MissingMember
    | BadRow
    | RetainedCount
    | AmbiguousVersion
    | ReadFailed
    | TrustedRelease
    | TrustedCount
    | TrustedMembership
    | TrustedEntries
    | TrustedRetained
    | InvalidProjection
    | MembershipDiffers
    | MismatchCountDiffers

  /* ---------- Expectations ---------- */

  function Validate(e: Expectations, apply: bool): Option<Blocked> {
    if !IsSafeRelease(e.releaseId) then Some(InvalidRelease)
    else if e.parentCount < 1 || e.retainedCount != e.parentCount - 1 then Some(InvalidCounts)
    else if !IsLegalInn(e.withdrawnInn) || !IsLegalInn(e.controlInn) || e.controlInn == e.withdrawnInn then Some(InvalidInn)
    else if e.mismatches.Some? && !(0 <= e.mismatches.value <= e.retainedCount) then Some(InvalidMismatchCount)
    else if apply && e.mismatches.None? then Some(ApplyNeedsMismatchCount)
    else None
  }

  /* ---------- Operational rows ---------- */

  function InnsOf(rows: seq<Publication>): (r: seq<string>)
    ensures |r| == |rows|
    ensures forall i :: 0 <= i < |rows| ==> r[i] == rows[i].inn
  {
    seq(|rows|, i requires 0 <= i < |rows| => rows[i].inn)
  }

  function Insert(row: Publication, rows: seq<Publication>): seq<Publication> {
    if rows == [] || Leq(row.inn, rows[0].inn) then [row] + rows
    else [rows[0]] + Insert(row, rows[1..])
  }

  /** The rows in the order of their INN. */
  function SortByInn(rows: seq<Publication>): seq<Publication> {
    if rows == [] then [] else Insert(rows[0], SortByInn(rows[1..]))
  }

  predicate RowFits(row: Publication, e: Expectations) {
    row.isPublished && row.releaseId == e.releaseId && IsDigest(row.hash)
  }

  function Normalize(rows: seq<Publication>, e: Expectations): Result<seq<Publication>, Blocked> {
    var sorted := SortByInn(rows);
    var inns := InnsOf(sorted);
    if |sorted| != e.parentCount then Err(ParentCount)
    else if !Distinct(inns) || (exists i :: 0 <= i < |inns| && !IsLegalInn(inns[i])) then Err(ParentMembership)
    else if e.withdrawnInn !in inns || e.controlInn !in inns then Err(MissingMember)
    else if exists i :: 0 <= i < |sorted| && !RowFits(sorted[i], e) then Err(BadRow)
    else Ok(sorted)
  }

  method NormalizeRows(rows: seq<Publication>, e: Expectations) returns (r: Result<seq<Publication>, Blocked>)
    ensures r == Normalize(rows, e)
  {
    hide IsLegalInn, SortByInn, IsDigest;
    var sorted := SortByInn(rows);
    var inns := InnsOf(sorted);
    if |sorted| != e.parentCount {
      return Err(ParentCount);
    }
    if !Distinct(inns) || (exists i :: 0 <= i < |inns| && !IsLegalInn(inns[i])) {
      return Err(ParentMembership);
    }
    if e.withdrawnInn !in inns || e.controlInn !in inns {
      return Err(MissingMember);
    }
    for n := 0 to |sorted|
      invariant forall i :: 0 <= i < n ==> RowFits(sorted[i], e)
    {
      if !RowFits(sorted[n], e) {
        return Err(BadRow);
      }
    }
    return Ok(sorted);
  }

  function Retained(rows: seq<Publication>, withdrawn: string): seq<Publication> {
    if rows == [] then []
    else (if rows[0].inn != withdrawn then [rows[0]] else []) + Retained(rows[1..], withdrawn)
  }

  /* ---------- The trusted answer ---------- */

  function Payloads(entries: seq<Entry>): Option<map<string, string>> {
    if entries == [] then Some(map[])
    else
      var before, last := Payloads(entries[..|entries| - 1]), entries[|entries| - 1];
      if before.None? || last.Malformed? || last.inn in before.value then None
      else Some(before.value[last.inn := last.payload])
  }

  predicate ProjectionFits(inn: string, payload: string, e: Expectations, tools: Tools) {
    tools.validate(payload) == Some(Projection(inn, e.releaseId))
  }

  predicate MembersFit(members: seq<string>, e: Expectations) {
    Sorted(members) && |members| == e.parentCount && Distinct(members)
    && forall i :: 0 <= i < |members| ==> IsLegalInn(members[i])
  }

  /** The payload of each retained company, once every part of the answer has been checked. */
  function TrustedMap(trusted: Trusted, retained: seq<string>, e: Expectations, tools: Tools): Result<map<string, string>, Blocked> {
    if trusted.releaseId != e.releaseId then Err(TrustedRelease)
    else if trusted.recordCount != Some(e.parentCount) then Err(TrustedCount)
    else if !MembersFit(trusted.members, e) then Err(TrustedMembership)
    else if trusted.projections.None? then Err(TrustedEntries)
    else
      var payloads := Payloads(trusted.projections.value);
      if payloads.None? then Err(TrustedEntries)
      else if payloads.value.Keys != Members(retained) then Err(TrustedRetained)
      else if exists inn :: inn in payloads.value && !ProjectionFits(inn, payloads.value[inn], e, tools) then Err(InvalidProjection)
      else Ok(payloads.value)
  }

  method TrustedProjectionMap(trusted: Trusted, retained: seq<string>, e: Expectations, tools: Tools)
    returns (r: Result<map<string, string>, Blocked>)
    ensures r == TrustedMap(trusted, retained, e, tools)
  {
    hide MembersFit, ProjectionFits;
    if trusted.releaseId != e.releaseId {
      return Err(TrustedRelease);
    }
    if trusted.recordCount != Some(e.parentCount) {
      return Err(TrustedCount);
    }
    if !MembersFit(trusted.members, e) {
      return Err(TrustedMembership);
    }
    if trusted.projections.None? {
      return Err(TrustedEntries);
    }
    var entries := trusted.projections.value;
    var payloads: map<string, string> := map[];
    for n := 0 to |entries|
      invariant Payloads(entries[..n]) == Some(payloads)
    {
      assert entries[..n + 1][..n] == entries[..n];
      if entries[n].Malformed? || entries[n].inn in payloads {
        PayloadsStay(entries, n + 1);
        return Err(TrustedEntries);
      }
      payloads := payloads[entries[n].inn := entries[n].payload];
    }
    assert entries[..|entries|] == entries;
    if payloads.Keys != Members(retained) {
      return Err(TrustedRetained);
    }
    for n := 0 to |retained|
      invariant forall i :: 0 <= i < n ==> ProjectionFits(retained[i], payloads[retained[i]], e, tools)
    {
      assert retained[n] in Members(retained);
      if !ProjectionFits(retained[n], payloads[retained[n]], e, tools) {
        return Err(InvalidProjection);
      }
    }
    return Ok(payloads);
  }

  lemma {:induction false} PayloadsStay(entries: seq<Entry>, n: nat)
    requires n <= |entries| && Payloads(entries[..n]).None?
    ensures Payloads(entries).None?
    decreases |entries|
  {
    if n < |entries| {
      assert entries[..|entries| - 1][..n] == entries[..n];
      PayloadsStay(entries[..|entries| - 1], n);
    } else {
      assert entries[..n] == entries;
    }
  }

  /* ---------- The plan ---------- */

  predicate VersionsFit(row: Publication) {
    row.projectionVersion == PROJECTION_VERSION && row.hashVersion == HASH_ALGORITHM_VERSION
  }

  function Items(rows: seq<Publication>, payloads: map<string, string>, tools: Tools): (r: seq<Item>)
    requires Members(InnsOf(rows)) <= payloads.Keys
    ensures |r| == |rows|
  {
    seq(|rows|, i requires 0 <= i < |rows| =>
      InMembers(rows, i);
      Item(rows[i].companyId, rows[i].inn, rows[i].hash, tools.semanticHash(payloads[rows[i].inn])))
  }

  lemma InMembers(rows: seq<Publication>, i: nat)
    requires i < |rows|
    ensures rows[i].inn in Members(InnsOf(rows))
  {
    assert InnsOf(rows)[i] in InnsOf(rows);
  }

  predicate NeedsUpdate(item: Item) {
    item.oldHash != item.newHash
  }

  function Updates(items: seq<Item>): seq<Item> {
    if items == [] then []
    else (if NeedsUpdate(items[0]) then [items[0]] else []) + Updates(items[1..])
  }

  function BuildPlan(rows: seq<Publication>, e: Expectations, tools: Tools, enforce: bool): Result<Plan, Blocked> {
    if Validate(e, false).Some? then Err(Validate(e, false).value)
    else
      var parent := Normalize(rows, e);
      if parent.Err? then Err(parent.error)
      else
        var retained := Retained(parent.value, e.withdrawnInn);
        if |retained| != e.retainedCount then Err(RetainedCount)
        else if exists i :: 0 <= i < |retained| && !VersionsFit(retained[i]) then Err(AmbiguousVersion)
        else
          var trusted := tools.read(e.releaseId, InnsOf(retained));
          if trusted.None? then Err(ReadFailed)
          else
            var payloads := TrustedMap(trusted.value, InnsOf(retained), e, tools);
            if payloads.Err? then Err(payloads.error)
            else if trusted.value.members != InnsOf(parent.value) then Err(MembershipDiffers)
            else
              var items := Items(retained, payloads.value, tools);
              var count := |Updates(items)|;
              if enforce && e.mismatches.Some? && count != e.mismatches.value then Err(MismatchCountDiffers)
              else Ok(Plan(e.releaseId, e.parentCount, e.retainedCount, count, items))
  }

  method BuildReconciliationPlan(rows: seq<Publication>, e: Expectations, tools: Tools, enforce: bool)
    returns (r: Result<Plan, Blocked>)
    ensures r == BuildPlan(rows, e, tools, enforce)
  {
    hide Normalize, TrustedMap, VersionsFit, Validate, Retained;
    var invalid := Validate(e, false);
    if invalid.Some? {
      return Err(invalid.value);
    }
    var parent := NormalizeRows(rows, e);
    if parent.Err? {
      return Err(parent.error);
    }
    var retained := Retained(parent.value, e.withdrawnInn);
    if |retained| != e.retainedCount {
      return Err(RetainedCount);
    }
    for n := 0 to |retained|
      invariant forall i :: 0 <= i < n ==> VersionsFit(retained[i])
    {
      if !VersionsFit(retained[n]) {
        return Err(AmbiguousVersion);
      }
    }
    var inns := InnsOf(retained);
    var trusted := tools.read(e.releaseId, inns);
    if trusted.None? {
      return Err(ReadFailed);
    }
    var payloads := TrustedProjectionMap(trusted.value, inns, e, tools);
    if payloads.Err? {
      return Err(payloads.error);
    }
    if trusted.value.members != InnsOf(parent.value) {
      return Err(MembershipDiffers);
    }
    TrustedCovers(trusted.value, inns, e, tools);
    var items: seq<Item> := [];
    for n := 0 to |retained|
      invariant items == Items(retained, payloads.value, tools)[..n]
    {
      InMembers(retained, n);
      var row := retained[n];
      items := items + [Item(row.companyId, row.inn, row.hash, tools.semanticHash(payloads.value[row.inn]))];
    }
    assert items == Items(retained, payloads.value, tools);
    var count := |Updates(items)|;
    if enforce && e.mismatches.Some? && count != e.mismatches.value {
      return Err(MismatchCountDiffers);
    }
    return Ok(Plan(e.releaseId, e.parentCount, e.retainedCount, count, items));
  }

  lemma TrustedCovers(trusted: Trusted, retained: seq<string>, e: Expectations, tools: Tools)
    requires TrustedMap(trusted, retained, e, tools).Ok?
    ensures TrustedMap(trusted, retained, e, tools).value.Keys == Members(retained)
  {
  }

  /* ---------- Sorting ---------- */

  predicate Ordered(rows: seq<Publication>) {
    Sorted(InnsOf(rows))
  }

  lemma ConsIsOrdered(head: Publication, tail: seq<Publication>)
    requires Ordered(tail) && forall row :: row in tail ==> Leq(head.inn, row.inn)
    ensures Ordered([head] + tail)
  {
    var r := [head] + tail;
    forall i, j | 0 <= i < j < |r| ensures Leq(InnsOf(r)[i], InnsOf(r)[j]) {
      if i > 0 {
        assert Leq(InnsOf(tail)[i - 1], InnsOf(tail)[j - 1]);
      } else {
        assert tail[j - 1] in tail;
      }
    }
  }

  lemma HeadIsLeast(rows: seq<Publication>)
    requires rows != [] && Ordered(rows)
    ensures forall row :: row in rows[1..] ==> Leq(rows[0].inn, row.inn)
  {
    forall row | row in rows[1..] ensures Leq(rows[0].inn, row.inn) {
      var k :| 1 <= k < |rows| && rows[k] == row;
      assert Leq(InnsOf(rows)[0], InnsOf(rows)[k]);
    }
  }

  lemma {:induction false} InsertAdds(row: Publication, rows: seq<Publication>)
    ensures multiset(Insert(row, rows)) == multiset{row} + multiset(rows)
  {
    if rows != [] && !Leq(row.inn, rows[0].inn) {
      assert rows == [rows[0]] + rows[1..];
      InsertAdds(row, rows[1..]);
    }
  }

  lemma InsertMembers(row: Publication, rows: seq<Publication>, x: Publication)
    requires x in Insert(row, rows)
    ensures x == row || x in rows
  {
    InsertAdds(row, rows);
    assert x in multiset(Insert(row, rows));
  }

  lemma {:induction false} InsertKeepsOrder(row: Publication, rows: seq<Publication>)
    requires Ordered(rows)
    ensures Ordered(Insert(row, rows))
  {
    if rows == [] {
    } else if Leq(row.inn, rows[0].inn) {
      HeadIsLeast(rows);
      forall x | x in rows ensures Leq(row.inn, x.inn) {
        if x in rows[1..] { LeqIsTransitive(row.inn, rows[0].inn, x.inn); }
      }
      ConsIsOrdered(row, rows);
    } else {
      LeqIsTotal(row.inn, rows[0].inn);
      HeadIsLeast(rows);
      TailIsOrdered(rows);
      InsertKeepsOrder(row, rows[1..]);
      forall x | x in Insert(row, rows[1..]) ensures Leq(rows[0].inn, x.inn) {
        InsertMembers(row, rows[1..], x);
      }
      ConsIsOrdered(rows[0], Insert(row, rows[1..]));
    }
  }

  lemma TailIsOrdered(rows: seq<Publication>)
    requires rows != [] && Ordered(rows)
    ensures Ordered(rows[1..])
  {
    forall i, j | 0 <= i < j < |rows[1..]| ensures Leq(InnsOf(rows[1..])[i], InnsOf(rows[1..])[j]) {
      assert Leq(InnsOf(rows)[i + 1], InnsOf(rows)[j + 1]);
    }
  }

  lemma {:induction false} SortSorts(rows: seq<Publication>)
    ensures Ordered(SortByInn(rows)) && multiset(SortByInn(rows)) == multiset(rows)
    ensures |SortByInn(rows)| == |rows|
  {
    if rows != [] {
      SortSorts(rows[1..]);
      InsertKeepsOrder(rows[0], SortByInn(rows[1..]));
      InsertAdds(rows[0], SortByInn(rows[1..]));
      assert rows == [rows[0]] + rows[1..];
      assert |SortByInn(rows)| == |multiset(SortByInn(rows))|;
    }
  }

  lemma SameRowsSameInns(a: seq<Publication>, b: seq<Publication>)
    requires multiset(a) == multiset(b)
    ensures |a| == |b| && Members(InnsOf(a)) == Members(InnsOf(b))
    ensures Distinct(InnsOf(a)) <==> Distinct(InnsOf(b))
  {
    assert |a| == |multiset(a)| && |b| == |multiset(b)|;
    InnsFollowRows(a, b);
    InnsFollowRows(b, a);
    DistinctMembers(InnsOf(a));
    DistinctMembers(InnsOf(b));
  }

  lemma InnsFollowRows(a: seq<Publication>, b: seq<Publication>)
    requires multiset(a) == multiset(b)
    ensures Members(InnsOf(a)) <= Members(InnsOf(b))
  {
    forall x | x in Members(InnsOf(a)) ensures x in Members(InnsOf(b)) {
      var i :| 0 <= i < |a| && InnsOf(a)[i] == x;
      assert a[i] in multiset(b);
      var j :| 0 <= j < |b| && b[j] == a[i];
      assert InnsOf(b)[j] == x;
    }
  }

  /** Sorting rows with distinct INNs does not depend on the order they come in. */
  lemma SortIgnoresOrder(a: seq<Publication>, b: seq<Publication>)
    requires multiset(a) == multiset(b) && Distinct(InnsOf(a))
    ensures SortByInn(a) == SortByInn(b)
  {
    hide SortByInn;
    SortSorts(a);
    SortSorts(b);
    var x, y := SortByInn(a), SortByInn(b);
    SameRowsSameInns(a, x);
    SameRowsSameInns(x, y);
    SortedIsUnique(InnsOf(x), InnsOf(y));
    InnsTellRows(x, y);
  }

  lemma InnsTellRows(x: seq<Publication>, y: seq<Publication>)
    requires multiset(x) == multiset(y) && InnsOf(x) == InnsOf(y) && Distinct(InnsOf(y))
    ensures x == y
  {
    assert |InnsOf(x)| == |x| && |InnsOf(y)| == |y|;
    forall i | 0 <= i < |x| ensures x[i] == y[i] {
      assert x[i] in multiset(y);
      var j :| 0 <= j < |y| && y[j] == x[i];
      assert InnsOf(y)[j] == InnsOf(x)[i] == InnsOf(y)[i];
    }
  }

  /** The plan, and every refusal to make one, depends only on which rows there are. */
  lemma PlanIgnoresOrder(a: seq<Publication>, b: seq<Publication>, e: Expectations, tools: Tools, enforce: bool)
    requires multiset(a) == multiset(b)
    ensures BuildPlan(a, e, tools, enforce) == BuildPlan(b, e, tools, enforce)
  {
    hide SortByInn, IsLegalInn, RowFits, Validate, Retained, TrustedMap, Items, Updates;
    SortSorts(a);
    SortSorts(b);
    SameRowsSameInns(a, SortByInn(a));
    SameRowsSameInns(b, SortByInn(b));
    if Distinct(InnsOf(a)) {
      SortIgnoresOrder(a, b);
    } else {
      SameRowsSameInns(a, b);
    }
    assert Normalize(a, e) == Normalize(b, e);
  }

  /* ---------- After the repair ---------- */

  /** A row whose hash has been set to the trusted one, when it has one. */
  function Fix(row: Publication, trusted: map<string, string>): Publication {
    if row.inn in trusted then row.(hash := trusted[row.inn]) else row
  }

  function FixAll(rows: seq<Publication>, trusted: map<string, string>): (r: seq<Publication>)
    ensures |r| == |rows|
  {
    seq(|rows|, i requires 0 <= i < |rows| => Fix(rows[i], trusted))
  }

  lemma FixAllKeepsInns(rows: seq<Publication>, trusted: map<string, string>)
    ensures InnsOf(FixAll(rows, trusted)) == InnsOf(rows)
  {
  }

  lemma {:induction false} FixAndInsert(row: Publication, rows: seq<Publication>, trusted: map<string, string>)
    ensures FixAll(Insert(row, rows), trusted) == Insert(Fix(row, trusted), FixAll(rows, trusted))
  {
    if rows == [] || Leq(row.inn, rows[0].inn) {
      assert FixAll([row] + rows, trusted) == [Fix(row, trusted)] + FixAll(rows, trusted);
    } else {
      FixAndInsert(row, rows[1..], trusted);
      assert FixAll(rows, trusted)[1..] == FixAll(rows[1..], trusted);
      assert FixAll([rows[0]] + Insert(row, rows[1..]), trusted)
          == [Fix(rows[0], trusted)] + FixAll(Insert(row, rows[1..]), trusted);
    }
  }

  lemma {:induction false} FixAndSort(rows: seq<Publication>, trusted: map<string, string>)
    ensures SortByInn(FixAll(rows, trusted)) == FixAll(SortByInn(rows), trusted)
  {
    if rows != [] {
      assert FixAll(rows, trusted)[1..] == FixAll(rows[1..], trusted);
      FixAndSort(rows[1..], trusted);
      FixAndInsert(rows[0], SortByInn(rows[1..]), trusted);
    }
  }

  lemma FixAppends(a: seq<Publication>, b: seq<Publication>, trusted: map<string, string>)
    ensures FixAll(a + b, trusted) == FixAll(a, trusted) + FixAll(b, trusted)
  {
    hide Fix;
  }

  lemma {:induction false} FixAndRetain(rows: seq<Publication>, withdrawn: string, trusted: map<string, string>)
    ensures Retained(FixAll(rows, trusted), withdrawn) == FixAll(Retained(rows, withdrawn), trusted)
  {
    if rows != [] {
      FixKeepsInn(rows[0], trusted);
      hide Fix;
      var head, tail := if rows[0].inn != withdrawn then [rows[0]] else [], Retained(rows[1..], withdrawn);
      assert FixAll(rows, trusted)[1..] == FixAll(rows[1..], trusted);
      FixAndRetain(rows[1..], withdrawn, trusted);
      FixAppends(head, tail, trusted);
      assert FixAll([rows[0]], trusted) == [Fix(rows[0], trusted)];
    }
  }

  lemma FixKeepsInn(row: Publication, trusted: map<string, string>)
    ensures Fix(row, trusted).inn == row.inn
  {
  }

  /** The trusted hash of every retained company, as the plan has it. */
  function TrustedHashes(items: seq<Item>): map<string, string> {
    if items == [] then map[]
    else TrustedHashes(items[..|items| - 1])[items[|items| - 1].inn := items[|items| - 1].newHash]
  }

  lemma {:induction false} TrustedHashesAre(rows: seq<Publication>, payloads: map<string, string>, tools: Tools)
    requires Members(InnsOf(rows)) <= payloads.Keys
    ensures TrustedHashes(Items(rows, payloads, tools)).Keys == Members(InnsOf(rows))
    ensures forall inn :: inn in Members(InnsOf(rows)) ==>
              TrustedHashes(Items(rows, payloads, tools))[inn] == tools.semanticHash(payloads[inn])
  {
    if rows != [] {
      var n := |rows| - 1;
      assert forall x :: x in InnsOf(rows) <==> x in InnsOf(rows[..n]) || x == rows[n].inn by {
        assert InnsOf(rows) == InnsOf(rows[..n]) + [rows[n].inn];
      }
      TrustedHashesAre(rows[..n], payloads, tools);
      assert Items(rows, payloads, tools)[..n] == Items(rows[..n], payloads, tools);
    }
  }

  lemma {:induction false} NothingToUpdate(items: seq<Item>)
    requires forall i :: 0 <= i < |items| ==> !NeedsUpdate(items[i])
    ensures Updates(items) == []
  {
    if items != [] {
      NothingToUpdate(items[1..]);
    }
  }

  lemma NormalizeAfterFix(rows: seq<Publication>, e: Expectations, trusted: map<string, string>)
    requires Normalize(rows, e).Ok?
    requires forall inn :: inn in trusted ==> IsDigest(trusted[inn])
    ensures Normalize(FixAll(rows, trusted), e) == Ok(FixAll(SortByInn(rows), trusted))
  {
    hide SortByInn, IsDigest, IsLegalInn;
    FixAndSort(rows, trusted);
    FixAllKeepsInns(SortByInn(rows), trusted);
  }

  /** What a successful plan is made of. */
  lemma PlanParts(rows: seq<Publication>, e: Expectations, tools: Tools, enforce: bool)
    returns (retained: seq<Publication>, payloads: map<string, string>)
    requires BuildPlan(rows, e, tools, enforce).Ok?
    ensures Normalize(rows, e) == Ok(SortByInn(rows))
    ensures retained == Retained(SortByInn(rows), e.withdrawnInn)
    ensures tools.read(e.releaseId, InnsOf(retained)).Some?
    ensures TrustedMap(tools.read(e.releaseId, InnsOf(retained)).value, InnsOf(retained), e, tools) == Ok(payloads)
    ensures payloads.Keys == Members(InnsOf(retained))
    ensures BuildPlan(rows, e, tools, enforce).value.items == Items(retained, payloads, tools)
    ensures forall i :: 0 <= i < |retained| ==> VersionsFit(retained[i])
  {
    hide SortByInn, Retained, IsLegalInn, RowFits, MembersFit, ProjectionFits, Payloads, Items, Updates;
    retained := Retained(SortByInn(rows), e.withdrawnInn);
    var trusted := tools.read(e.releaseId, InnsOf(retained)).value;
    payloads := TrustedMap(trusted, InnsOf(retained), e, tools).value;
    TrustedCovers(trusted, InnsOf(retained), e, tools);
  }

  /** Once every planned hash is in place, planning again, even for zero mismatches, finds none. */
  lemma RepairedPlanIsClean(rows: seq<Publication>, e: Expectations, tools: Tools, enforce: bool, expected: Option<int>)
    requires BuildPlan(rows, e, tools, enforce).Ok?
    requires forall payload :: IsDigest(tools.semanticHash(payload))
    requires expected == None || expected == Some(0)
    ensures var plan := BuildPlan(rows, e, tools, enforce).value;
            var again := BuildPlan(FixAll(rows, TrustedHashes(plan.items)), e.(mismatches := expected), tools, expected.Some?);
            again.Ok? && again.value.mismatchCount == 0 && Updates(again.value.items) == []
  {
    hide SortByInn, Retained, IsLegalInn, RowFits, MembersFit, ProjectionFits, Payloads, Items, Updates, IsDigest, TrustedHashes;
    var plan := BuildPlan(rows, e, tools, enforce).value;
    var retained, payloads := PlanParts(rows, e, tools, enforce);
    var hashes := TrustedHashes(plan.items);
    TrustedHashesAre(retained, payloads, tools);
    var fixed := FixAll(rows, hashes);
    NormalizeAfterFix(rows, e, hashes);
    MismatchIsNotNormalized(fixed, e, expected);
    FixAndRetain(SortByInn(rows), e.withdrawnInn, hashes);
    var kept := FixAll(retained, hashes);
    FixAllKeepsInns(retained, hashes);
    FixAllKeepsInns(SortByInn(rows), hashes);
    MismatchIsNotTrusted(tools.read(e.releaseId, InnsOf(retained)).value, InnsOf(retained), e, tools, expected);
    FixedNeedNothing(retained, payloads, hashes, tools);
    NothingToUpdate(Items(kept, payloads, tools));
  }

  lemma MismatchIsNotNormalized(rows: seq<Publication>, e: Expectations, expected: Option<int>)
    ensures Normalize(rows, e.(mismatches := expected)) == Normalize(rows, e)
  {
    hide SortByInn, IsLegalInn;
    assert forall row :: RowFits(row, e.(mismatches := expected)) == RowFits(row, e);
  }

  lemma MismatchIsNotTrusted(
    trusted: Trusted, retained: seq<string>, e: Expectations, tools: Tools, expected: Option<int>)
    ensures TrustedMap(trusted, retained, e.(mismatches := expected), tools) == TrustedMap(trusted, retained, e, tools)
  {
    hide Payloads, IsLegalInn;
    assert forall inn, payload :: ProjectionFits(inn, payload, e.(mismatches := expected), tools) == ProjectionFits(inn, payload, e, tools);
  }

  lemma FixedNeedNothing(retained: seq<Publication>, payloads: map<string, string>, hashes: map<string, string>, tools: Tools)
    requires payloads.Keys == Members(InnsOf(retained)) == hashes.Keys
    requires forall inn :: inn in hashes ==> hashes[inn] == tools.semanticHash(payloads[inn])
    ensures InnsOf(FixAll(retained, hashes)) == InnsOf(retained)
    ensures var items := Items(FixAll(retained, hashes), payloads, tools);
            forall i :: 0 <= i < |items| ==> !NeedsUpdate(items[i])
  {
    FixAllKeepsInns(retained, hashes);
    forall i | 0 <= i < |retained| ensures retained[i].inn in hashes {
      InMembers(retained, i);
    }
  }

  lemma {:induction false} RetainedKeepsOthers(rows: seq<Publication>, withdrawn: string)
    requires Distinct(InnsOf(rows))
    ensures |Retained(rows, withdrawn)| == |rows| - (if withdrawn in InnsOf(rows) then 1 else 0)
  {
    if rows != [] {
      var rest := rows[1..];
      assert forall i :: 0 <= i < |rest| ==> InnsOf(rest)[i] == InnsOf(rows)[i + 1];
      assert InnsOf(rows) == [rows[0].inn] + InnsOf(rest);
      RetainedKeepsOthers(rest, withdrawn);
    }
  }

  /** The count of retained companies cannot fail: expectations that hold make it one less than the parent. */
  lemma RetainedCountNeverFails(rows: seq<Publication>, e: Expectations, tools: Tools, enforce: bool)
    ensures BuildPlan(rows, e, tools, enforce) != Err(RetainedCount)
  {
    hide SortByInn, IsLegalInn, TrustedMap, RowFits, Items, Retained, IsSafeRelease;
    var parent := Normalize(rows, e);
    if Validate(e, false).None? && parent.Ok? {
      RetainedKeepsOthers(parent.value, e.withdrawnInn);
    }
    TrustedMapErrors(rows, e, tools);
  }

  lemma TrustedMapErrors(rows: seq<Publication>, e: Expectations, tools: Tools)
    ensures Normalize(rows, e) != Err(RetainedCount) && Validate(e, false) != Some(RetainedCount)
    ensures forall trusted, retained :: TrustedMap(trusted, retained, e, tools) != Err(RetainedCount)
  {
    hide SortByInn, IsLegalInn, RowFits, IsSafeRelease, MembersFit, Payloads, ProjectionFits;
  }

  /**
   A plan is made only for the number of mismatches the operator expects; with any other
   number the answer is that refusal.
   */
  lemma MismatchesAreAuthorised(rows: seq<Publication>, e: Expectations, tools: Tools)
    requires e.mismatches.Some?
    ensures var plan, free := BuildPlan(rows, e, tools, true), BuildPlan(rows, e, tools, false);
            && (plan.Ok? ==> plan.value.mismatchCount == e.mismatches.value)
            && (free.Ok? ==> plan == if free.value.mismatchCount == e.mismatches.value then free else Err(MismatchCountDiffers))
            && (free.Err? ==> plan == free)
  {
    hide Normalize, TrustedMap, VersionsFit, Validate, Retained, Items, Updates;
  }
}
