/**
 Exactly when a reconciliation plan exists and what it holds, told by the published rows and
 by what the trusted reader answers, and that no plan with another number of mismatches than
 the operator authorised is ever made.
 */
module BaselineLaws {
  import opened BaselinePlan
  import opened BaselineStore
  import opened Formats
  import opened TextOrder
  import opened Wrappers

  /* ---------- What a plan needs ---------- */

  /** The operator's expectations fit each other. */
  predicate IsExpectation(e: Expectations) {
    && IsSafeRelease(e.releaseId) && 1 <= e.parentCount == e.retainedCount + 1
    && IsLegalInn(e.withdrawnInn) && IsLegalInn(e.controlInn) && e.withdrawnInn != e.controlInn
    && (e.mismatches.Some? ==> 0 <= e.mismatches.value <= e.retainedCount)
  }

  /** The rows are the expected parent: one published row of the release for each company. */
  predicate IsParent(rows: seq<Publication>, e: Expectations) {
    && |rows| == e.parentCount
    && (forall i, j :: 0 <= i < j < |rows| ==> rows[i].inn != rows[j].inn)
    && (forall x :: x in rows ==> IsLegalInn(x.inn) && x.isPublished && x.releaseId == e.releaseId && IsDigest(x.hash))
    && (exists x :: x in rows && x.inn == e.withdrawnInn)
    && (exists x :: x in rows && x.inn == e.controlInn)
  }

  predicate IsRetained(x: Publication, rows: seq<Publication>, e: Expectations) {
    x in rows && x.inn != e.withdrawnInn
  }

  ghost predicate HasVersions(rows: seq<Publication>, e: Expectations) {
    forall x :: IsRetained(x, rows, e) ==>
      x.projectionVersion == PROJECTION_VERSION && x.hashVersion == HASH_ALGORITHM_VERSION
  }

  /** The companies the trusted reader is asked for. */
  function Asked(rows: seq<Publication>, e: Expectations): seq<string> {
    InnsOf(Retained(SortByInn(rows), e.withdrawnInn))
  }

  predicate IsRetainedInn(inn: string, rows: seq<Publication>, e: Expectations) {
    exists x :: x in rows && x.inn == inn && inn != e.withdrawnInn
  }

  predicate HasEntry(entries: seq<Entry>, inn: string) {
    exists i :: 0 <= i < |entries| && entries[i].Entry? && entries[i].inn == inn
  }

  /** Well-formed entries, one for each company. */
  predicate AreEntries(entries: seq<Entry>) {
    && (forall i :: 0 <= i < |entries| ==> entries[i].Entry?)
    && (forall i, j :: 0 <= i < j < |entries| ==> entries[i].inn != entries[j].inn)
  }

  /** The answer lists the parent's members and has one entry for each retained company. */
  ghost predicate IsAnswer(t: Trusted, rows: seq<Publication>, e: Expectations, tools: Tools) {
    && t.releaseId == e.releaseId && t.recordCount == Some(e.parentCount)
    && Sorted(t.members) && Distinct(t.members) && (forall inn :: inn in t.members <==> exists x :: x in rows && x.inn == inn)
    && t.projections.Some?
    && var entries := t.projections.value;
       && AreEntries(entries)
       && (forall inn :: HasEntry(entries, inn) <==> IsRetainedInn(inn, rows, e))
       && (forall i :: 0 <= i < |entries| ==> tools.validate(entries[i].payload) == Some(Projection(entries[i].inn, e.releaseId)))
  }

  /* ---------- The parent ---------- */

  lemma SortedRows(rows: seq<Publication>)
    ensures forall x :: x in SortByInn(rows) <==> x in rows
    ensures |SortByInn(rows)| == |rows| && Sorted(InnsOf(SortByInn(rows)))
    ensures Distinct(InnsOf(SortByInn(rows))) <==> Distinct(InnsOf(rows))
  {
    hide SortByInn;
    SortSorts(rows);
    SameRowsSameInns(rows, SortByInn(rows));
    forall x ensures x in SortByInn(rows) <==> x in rows {
      assert x in multiset(SortByInn(rows)) <==> x in multiset(rows);
    }
  }

  lemma InnIn(rows: seq<Publication>, inn: string)
    ensures inn in InnsOf(rows) <==> exists x :: x in rows && x.inn == inn
  {
    if inn in InnsOf(rows) {
      var i :| 0 <= i < |rows| && InnsOf(rows)[i] == inn;
      assert rows[i] in rows;
    }
    if x :| x in rows && x.inn == inn {
      var i :| 0 <= i < |rows| && rows[i] == x;
      assert InnsOf(rows)[i] == inn;
    }
  }

  lemma DistinctInnsAre(rows: seq<Publication>)
    ensures Distinct(InnsOf(rows)) <==> forall i, j :: 0 <= i < j < |rows| ==> rows[i].inn != rows[j].inn
  {
    assert forall i :: 0 <= i < |rows| ==> InnsOf(rows)[i] == rows[i].inn;
  }

  lemma ParentExactly(rows: seq<Publication>, e: Expectations)
    ensures Normalize(rows, e).Ok? <==> IsParent(rows, e)
  {
    hide SortByInn, IsLegalInn, IsDigest, Distinct;
    var sorted := SortByInn(rows);
    SortedRows(rows);
    DistinctInnsAre(rows);
    InnIn(sorted, e.withdrawnInn);
    InnIn(sorted, e.controlInn);
    assert (forall i :: 0 <= i < |sorted| ==> IsLegalInn(InnsOf(sorted)[i])) <==> (forall x :: x in rows ==> IsLegalInn(x.inn)) by {
      AllLegal(sorted);
    }
    assert (forall i :: 0 <= i < |sorted| ==> RowFits(sorted[i], e)) <==> (forall x :: x in rows ==> RowFits(x, e)) by {
      AllFit(sorted, e);
    }
  }

  lemma AllLegal(rows: seq<Publication>)
    ensures (forall i :: 0 <= i < |rows| ==> IsLegalInn(InnsOf(rows)[i])) <==> (forall x :: x in rows ==> IsLegalInn(x.inn))
  {
    hide IsLegalInn;
    assert forall i :: 0 <= i < |rows| ==> InnsOf(rows)[i] == rows[i].inn && rows[i] in rows;
  }

  lemma AllFit(rows: seq<Publication>, e: Expectations)
    ensures (forall i :: 0 <= i < |rows| ==> RowFits(rows[i], e)) <==> (forall x :: x in rows ==> RowFits(x, e))
  {
    hide RowFits;
    assert forall i :: 0 <= i < |rows| ==> rows[i] in rows;
  }

  lemma RetainedMembers(rows: seq<Publication>, withdrawn: string)
    ensures forall x :: x in Retained(rows, withdrawn) <==> x in rows && x.inn != withdrawn
  {
    forall x ensures x in Retained(rows, withdrawn) <==> x in rows && x.inn != withdrawn {
      RetainedRows(rows, withdrawn, x);
    }
  }

  lemma {:induction false} RetainedIsOrdered(rows: seq<Publication>, withdrawn: string)
    requires Ordered(rows)
    ensures Ordered(Retained(rows, withdrawn))
  {
    hide Ordered, Leq;
    if rows != [] {
      TailIsOrdered(rows);
      HeadIsLeast(rows);
      RetainedIsOrdered(rows[1..], withdrawn);
      RetainedMembers(rows[1..], withdrawn);
      if rows[0].inn != withdrawn {
        ConsIsOrdered(rows[0], Retained(rows[1..], withdrawn));
      } else {
        assert [] + Retained(rows[1..], withdrawn) == Retained(rows[1..], withdrawn);
      }
    } else {
      NothingIsOrdered();
    }
  }

  lemma NothingIsOrdered()
    ensures Ordered([])
  {
  }

  /** The reader is asked for exactly the retained companies, in order, each once. */
  lemma AskedIs(rows: seq<Publication>, e: Expectations)
    ensures forall inn :: inn in Asked(rows, e) <==> IsRetainedInn(inn, rows, e)
    ensures Sorted(Asked(rows, e)) && (Distinct(InnsOf(rows)) ==> Distinct(Asked(rows, e)))
  {
    hide SortByInn, Retained, Sorted, Distinct;
    var sorted := SortByInn(rows);
    SortSorts(rows);
    SortedRows(rows);
    RetainedMembers(sorted, e.withdrawnInn);
    RetainedIsOrdered(sorted, e.withdrawnInn);
    if Distinct(InnsOf(rows)) {
      RetainedDistinct(sorted, e.withdrawnInn);
    }
    forall inn ensures inn in Asked(rows, e) <==> IsRetainedInn(inn, rows, e) {
      InnIn(Retained(sorted, e.withdrawnInn), inn);
    }
  }

  /* ---------- The trusted answer ---------- */

  /** The map holds the payload of every entry and nothing else. */
  ghost predicate Holds(payloads: map<string, string>, entries: seq<Entry>) {
    && (forall inn :: inn in payloads <==> HasEntry(entries, inn))
    && (forall i :: 0 <= i < |entries| && entries[i].Entry? ==>
          entries[i].inn in payloads && payloads[entries[i].inn] == entries[i].payload)
  }

  lemma {:induction false} PayloadsExactly(entries: seq<Entry>)
    ensures Payloads(entries).Some? <==> AreEntries(entries)
    ensures Payloads(entries).Some? ==> Holds(Payloads(entries).value, entries)
  {
    if entries != [] {
      PayloadsExactly(entries[..|entries| - 1]);
      PayloadsGrow(entries);
    }
  }

  lemma HasEntryGrows(entries: seq<Entry>, inn: string)
    requires entries != [] && entries[|entries| - 1].Entry?
    ensures HasEntry(entries, inn) <==> HasEntry(entries[..|entries| - 1], inn) || inn == entries[|entries| - 1].inn
  {
    var n := |entries| - 1;
    if i :| 0 <= i < |entries| && entries[i].Entry? && entries[i].inn == inn {
      assert i < n ==> entries[..n][i].inn == inn;
    }
    if i :| 0 <= i < n && entries[..n][i].Entry? && entries[..n][i].inn == inn {
      assert entries[i].inn == inn;
    }
  }

  lemma AreEntriesGrows(entries: seq<Entry>)
    requires entries != []
    ensures var n := |entries| - 1;
            AreEntries(entries) <==> AreEntries(entries[..n]) && entries[n].Entry? && !HasEntry(entries[..n], entries[n].inn)
  {
    var n := |entries| - 1;
    var front := entries[..n];
    assert forall i :: 0 <= i < n ==> front[i] == entries[i];
    if AreEntries(front) && entries[n].Entry? && !HasEntry(front, entries[n].inn) {
      forall i, j | 0 <= i < j < |entries| ensures entries[i].inn != entries[j].inn {
        assert front[i] == entries[i];
      }
    }
  }

  lemma PayloadsGrow(entries: seq<Entry>)
    requires entries != []
    requires var front := entries[..|entries| - 1];
             && (Payloads(front).Some? <==> AreEntries(front))
             && (Payloads(front).Some? ==> Holds(Payloads(front).value, front))
    ensures Payloads(entries).Some? <==> AreEntries(entries)
    ensures Payloads(entries).Some? ==> Holds(Payloads(entries).value, entries)
  {
    hide AreEntries, HasEntry;
    var n := |entries| - 1;
    AreEntriesGrows(entries);
    if entries[n].Entry? {
      forall inn ensures HasEntry(entries, inn) <==> HasEntry(entries[..n], inn) || inn == entries[n].inn {
        HasEntryGrows(entries, inn);
      }
      if Payloads(entries).Some? {
        HoldsGrows(entries, Payloads(entries[..n]).value);
      }
    }
  }

  lemma HoldsGrows(entries: seq<Entry>, before: map<string, string>)
    requires entries != [] && entries[|entries| - 1].Entry?
    requires Holds(before, entries[..|entries| - 1]) && !HasEntry(entries[..|entries| - 1], entries[|entries| - 1].inn)
    ensures Holds(before[entries[|entries| - 1].inn := entries[|entries| - 1].payload], entries)
  {
    hide HasEntry;
    var n := |entries| - 1;
    var after := before[entries[n].inn := entries[n].payload];
    forall inn ensures inn in after <==> HasEntry(entries, inn) {
      HasEntryGrows(entries, inn);
    }
    forall i | 0 <= i < |entries| && entries[i].Entry?
      ensures entries[i].inn in after && after[entries[i].inn] == entries[i].payload
    {
      if i < n {
        assert entries[..n][i] == entries[i];
      }
    }
  }

  lemma MembersExactly(t: Trusted, rows: seq<Publication>, e: Expectations)
    requires IsParent(rows, e)
    ensures MembersFit(t.members, e) && t.members == InnsOf(SortByInn(rows)) <==>
              Sorted(t.members) && Distinct(t.members) && forall inn :: inn in t.members <==> exists x :: x in rows && x.inn == inn
  {
    hide SortByInn, Sorted, Distinct, IsLegalInn;
    var inns := InnsOf(SortByInn(rows));
    SortedRows(rows);
    DistinctInnsAre(rows);
    forall inn ensures inn in inns <==> exists x :: x in rows && x.inn == inn {
      InnIn(SortByInn(rows), inn);
    }
    AllLegal(SortByInn(rows));
    if Sorted(t.members) && Distinct(t.members) && forall inn :: inn in t.members <==> exists x :: x in rows && x.inn == inn {
      assert forall inn :: inn in t.members <==> inn in inns;
      SortedIsUnique(t.members, inns);
    }
  }

  lemma AnswerExactly(t: Trusted, rows: seq<Publication>, e: Expectations, tools: Tools)
    requires IsParent(rows, e)
    ensures TrustedMap(t, Asked(rows, e), e, tools).Ok? && t.members == InnsOf(SortByInn(rows)) <==> IsAnswer(t, rows, e, tools)
    ensures TrustedMap(t, Asked(rows, e), e, tools).Ok? ==>
              t.projections.Some? && Holds(TrustedMap(t, Asked(rows, e), e, tools).value, t.projections.value)
  {
    hide SortByInn, Sorted, Distinct, IsLegalInn, Payloads, IsParent, HasEntry, IsRetainedInn, MembersFit, Asked, InnsOf;
    MembersExactly(t, rows, e);
    AskedIs(rows, e);
    if t.projections.Some? {
      var entries := t.projections.value;
      PayloadsExactly(entries);
      if Payloads(entries).Some? {
        var payloads := Payloads(entries).value;
        SameInns(payloads, entries, rows, e);
        AllProjectionsFit(payloads, entries, e, tools);
      }
    }
  }

  lemma SameInns(payloads: map<string, string>, entries: seq<Entry>, rows: seq<Publication>, e: Expectations)
    requires Holds(payloads, entries)
    ensures payloads.Keys == Members(Asked(rows, e)) <==> forall inn :: HasEntry(entries, inn) <==> IsRetainedInn(inn, rows, e)
  {
    hide HasEntry, IsRetainedInn, Asked;
    AskedIs(rows, e);
    if forall inn :: HasEntry(entries, inn) <==> IsRetainedInn(inn, rows, e) {
      assert forall inn :: inn in payloads <==> inn in Members(Asked(rows, e));
    }
    if payloads.Keys == Members(Asked(rows, e)) {
      assert forall inn :: inn in payloads <==> inn in Asked(rows, e);
    }
  }

  lemma AllProjectionsFit(payloads: map<string, string>, entries: seq<Entry>, e: Expectations, tools: Tools)
    requires Holds(payloads, entries) && AreEntries(entries)
    ensures (forall inn :: inn in payloads ==> ProjectionFits(inn, payloads[inn], e, tools)) <==>
              forall i :: 0 <= i < |entries| ==> tools.validate(entries[i].payload) == Some(Projection(entries[i].inn, e.releaseId))
  {
    forall inn | inn in payloads ensures exists i :: 0 <= i < |entries| && entries[i].inn == inn && payloads[inn] == entries[i].payload {
      assert HasEntry(entries, inn);
    }
    if forall inn :: inn in payloads ==> ProjectionFits(inn, payloads[inn], e, tools) {
      forall i | 0 <= i < |entries|
        ensures tools.validate(entries[i].payload) == Some(Projection(entries[i].inn, e.releaseId))
      {
        assert ProjectionFits(entries[i].inn, payloads[entries[i].inn], e, tools);
      }
    }
  }

  /* ---------- The plan ---------- */

  /** The trusted payload of a company. */
  predicate Trusts(t: Trusted, inn: string, payload: string) {
    t.projections.Some? && Entry(inn, payload) in t.projections.value
  }

  /** The retained rows whose hash is not the semantic hash of their trusted payload. */
  ghost function Differing(rows: seq<Publication>, t: Trusted, e: Expectations, tools: Tools): set<Publication> {
    set x | x in rows && x.inn != e.withdrawnInn
            && exists payload :: Trusts(t, x.inn, payload) && x.hash != tools.semanticHash(payload)
  }

  function Outdated(rows: seq<Publication>, payloads: map<string, string>, tools: Tools): set<Publication>
    requires Members(InnsOf(rows)) <= payloads.Keys
  {
    set i | 0 <= i < |rows| && (InMembers(rows, i); rows[i].hash != tools.semanticHash(payloads[rows[i].inn])) :: rows[i]
  }

  lemma {:induction false} UpdatesAreCounted(rows: seq<Publication>, payloads: map<string, string>, tools: Tools)
    requires Distinct(InnsOf(rows)) && Members(InnsOf(rows)) <= payloads.Keys
    ensures |Updates(Items(rows, payloads, tools))| == |Outdated(rows, payloads, tools)|
  {
    if rows != [] {
      var rest := rows[1..];
      TailMembers(rows);
      UpdatesAreCounted(rest, payloads, tools);
      assert Items(rows, payloads, tools)[1..] == Items(rest, payloads, tools);
      OutdatedHead(rows, payloads, tools);
    }
  }

  lemma TailMembers(rows: seq<Publication>)
    requires rows != []
    ensures Members(InnsOf(rows[1..])) <= Members(InnsOf(rows)) && rows[0].inn in Members(InnsOf(rows))
    ensures Distinct(InnsOf(rows)) ==> Distinct(InnsOf(rows[1..])) && rows[0] !in rows[1..]
  {
    assert forall i :: 0 <= i < |rows| - 1 ==> InnsOf(rows[1..])[i] == InnsOf(rows)[i + 1];
    InMembers(rows, 0);
    if rows[0] in rows[1..] {
      var i :| 0 <= i < |rows| - 1 && rows[1..][i] == rows[0];
      assert InnsOf(rows)[i + 1] == InnsOf(rows)[0];
    }
  }

  lemma OutdatedHead(rows: seq<Publication>, payloads: map<string, string>, tools: Tools)
    requires rows != [] && Distinct(InnsOf(rows)) && Members(InnsOf(rows)) <= payloads.Keys
    ensures Members(InnsOf(rows[1..])) <= payloads.Keys && rows[0].inn in payloads
    ensures |Outdated(rows, payloads, tools)| ==
            |Outdated(rows[1..], payloads, tools)| + (if rows[0].hash != tools.semanticHash(payloads[rows[0].inn]) then 1 else 0)
  {
    hide Distinct, InnsOf;
    TailMembers(rows);
    var head := if rows[0].hash != tools.semanticHash(payloads[rows[0].inn]) then {rows[0]} else {};
    var rest := Outdated(rows[1..], payloads, tools);
    forall x ensures x in Outdated(rows, payloads, tools) <==> x in head || x in rest {
      InOutdated(rows, payloads, tools, x);
      InOutdated(rows[1..], payloads, tools, x);
    }
    assert Outdated(rows, payloads, tools) == head + rest;
    assert rows[0] !in rest by { InOutdated(rows[1..], payloads, tools, rows[0]); }
  }

  lemma InOutdated(rows: seq<Publication>, payloads: map<string, string>, tools: Tools, x: Publication)
    requires Members(InnsOf(rows)) <= payloads.Keys
    ensures x in rows ==> x.inn in payloads
    ensures x in Outdated(rows, payloads, tools) <==> x in rows && x.hash != tools.semanticHash(payloads[x.inn])
  {
    if x in rows {
      var i :| 0 <= i < |rows| && rows[i] == x;
      InMembers(rows, i);
    }
  }

  /** Which rows differ does not depend on how the answer is stored. */
  lemma OutdatedAreDiffering(rows: seq<Publication>, t: Trusted, payloads: map<string, string>, e: Expectations, tools: Tools)
    requires t.projections.Some? && AreEntries(t.projections.value) && Holds(payloads, t.projections.value)
    requires Members(Asked(rows, e)) <= payloads.Keys
    ensures Outdated(Retained(SortByInn(rows), e.withdrawnInn), payloads, tools) == Differing(rows, t, e, tools)
  {
    hide SortByInn, Retained;
    var retained := Retained(SortByInn(rows), e.withdrawnInn);
    SortedRows(rows);
    RetainedMembers(SortByInn(rows), e.withdrawnInn);
    forall x ensures x in Outdated(retained, payloads, tools) <==> x in Differing(rows, t, e, tools) {
      InOutdated(retained, payloads, tools, x);
      if x in retained {
        TrustedIs(t, payloads, x.inn);
      }
    }
  }

  lemma TrustedIs(t: Trusted, payloads: map<string, string>, inn: string)
    requires t.projections.Some? && AreEntries(t.projections.value) && Holds(payloads, t.projections.value) && inn in payloads
    ensures forall payload :: Trusts(t, inn, payload) <==> payload == payloads[inn]
  {
    var entries := t.projections.value;
    assert HasEntry(entries, inn);
    var i :| 0 <= i < |entries| && entries[i].Entry? && entries[i].inn == inn;
    assert entries[i] == Entry(inn, payloads[inn]);
    forall payload | Trusts(t, inn, payload) ensures payload == payloads[inn] {
      var j :| 0 <= j < |entries| && entries[j] == Entry(inn, payload);
    }
  }

  /** What a plan holds, and how many mismatches it counts. */
  lemma PlanHolds(rows: seq<Publication>, e: Expectations, tools: Tools, enforce: bool)
    requires BuildPlan(rows, e, tools, enforce).Ok? && IsParent(rows, e)
    ensures tools.read(e.releaseId, Asked(rows, e)).Some?
    ensures var plan, t := BuildPlan(rows, e, tools, enforce).value, tools.read(e.releaseId, Asked(rows, e)).value;
            && IsAnswer(t, rows, e, tools)
            && plan.releaseId == e.releaseId && plan.parentCount == e.parentCount && plan.retainedCount == e.retainedCount
            && plan.mismatchCount == |Differing(rows, t, e, tools)|
  {
    hide SortByInn, Sorted, Distinct, IsLegalInn, Payloads, IsParent, HasEntry, IsRetainedInn, MembersFit, InnsOf, Retained;
    hide TrustedMap, Normalize, Validate, VersionsFit, Items, Updates, IsAnswer, Differing, Outdated, Members;
    var retained, payloads := PlanParts(rows, e, tools, enforce);
    var t := tools.read(e.releaseId, Asked(rows, e)).value;
    AnswerExactly(t, rows, e, tools);
    AnswerHasEntries(t, rows, e, tools);
    AskedIs(rows, e);
    DistinctInnsAre(rows);
    ParentIsDistinct(rows, e);
    UpdatesAreCounted(retained, payloads, tools);
    OutdatedAreDiffering(rows, t, payloads, e, tools);
  }

  lemma AnswerHasEntries(t: Trusted, rows: seq<Publication>, e: Expectations, tools: Tools)
    requires IsAnswer(t, rows, e, tools)
    ensures t.projections.Some? && AreEntries(t.projections.value)
  {
  }

  lemma ParentIsDistinct(rows: seq<Publication>, e: Expectations)
    requires IsParent(rows, e)
    ensures Distinct(InnsOf(rows))
  {
    DistinctInnsAre(rows);
  }

  lemma VersionsExactly(rows: seq<Publication>, e: Expectations, retained: seq<Publication>)
    requires retained == Retained(SortByInn(rows), e.withdrawnInn)
    ensures (forall i :: 0 <= i < |retained| ==> VersionsFit(retained[i])) <==> HasVersions(rows, e)
  {
    hide SortByInn, Retained, VersionsFit, HasVersions, IsRetained;
    RetainedAre(rows, e);
    VersionsOf(rows, e);
    if forall i :: 0 <= i < |retained| ==> VersionsFit(retained[i]) {
      forall x | IsRetained(x, rows, e) ensures VersionsFit(x) {
        var i :| 0 <= i < |retained| && retained[i] == x;
      }
    }
    if HasVersions(rows, e) {
      forall i | 0 <= i < |retained| ensures VersionsFit(retained[i]) {
        assert retained[i] in retained;
      }
    }
  }

  lemma RetainedAre(rows: seq<Publication>, e: Expectations)
    ensures forall x :: x in Retained(SortByInn(rows), e.withdrawnInn) <==> IsRetained(x, rows, e)
  {
    hide SortByInn, Retained;
    SortedRows(rows);
    RetainedMembers(SortByInn(rows), e.withdrawnInn);
  }

  lemma VersionsOf(rows: seq<Publication>, e: Expectations)
    ensures HasVersions(rows, e) <==> forall x :: IsRetained(x, rows, e) ==> VersionsFit(x)
  {
    hide IsRetained;
  }

  /** The reader's answer, when there is one, fits the parent. */
  ghost predicate IsAnswered(rows: seq<Publication>, e: Expectations, tools: Tools) {
    var answer := tools.read(e.releaseId, Asked(rows, e));
    answer.Some? && IsAnswer(answer.value, rows, e, tools)
  }

  /** A plan exists, whatever the operator expects to differ, exactly when everything fits. */
  lemma PlanExactly(rows: seq<Publication>, e: Expectations, tools: Tools)
    ensures BuildPlan(rows, e, tools, false).Ok? <==>
              IsExpectation(e) && IsParent(rows, e) && HasVersions(rows, e) && IsAnswered(rows, e, tools)
  {
    hide IsLegalInn, IsSafeRelease, HasVersions, IsParent, IsAnswer, Normalize, TrustedMap, VersionsFit;
    hide Items, Updates, InnsOf, Members;
    ParentExactly(rows, e);
    VersionsExactly(rows, e, Retained(SortByInn(rows), e.withdrawnInn));
    if Validate(e, false).None? && IsParent(rows, e) {
      RetainedCountNeverFails(rows, e, tools, false);
      NormalizedIsSorted(rows, e);
      var t := tools.read(e.releaseId, Asked(rows, e));
      if t.Some? {
        AnswerExactly(t.value, rows, e, tools);
      }
    }
  }

  lemma NormalizedIsSorted(rows: seq<Publication>, e: Expectations)
    ensures Normalize(rows, e).Ok? ==> Normalize(rows, e).value == SortByInn(rows)
  {
    hide SortByInn, IsLegalInn, IsDigest;
  }

  /** The update touches a row only if it is still the planned one in every column it looks at. */
  lemma SwapNeedsPlannedRow(rows: seq<Publication>, item: BaselinePlan.Item, row: Publication, i: nat)
    requires i < |rows|
    ensures Swap(rows, item, row)[i] ==
            if && rows[i].companyId == row.companyId && rows[i].hash == item.oldHash && rows[i].releaseId == row.releaseId
               && rows[i].projectionVersion == row.projectionVersion && rows[i].hashVersion == row.hashVersion && rows[i].isPublished
            then rows[i].(hash := item.newHash)
            else rows[i]
  {
  }

  /** The count it reports tells apart no such row, one and more. */
  lemma {:induction false} HitsAreCounted(rows: seq<Publication>, item: BaselinePlan.Item, row: Publication)
    ensures Hits(rows, item, row) == 0 <==> forall i :: 0 <= i < |rows| ==> !Hit(rows[i], item, row)
    ensures Hits(rows, item, row) > 1 <==> exists i, j :: 0 <= i < j < |rows| && Hit(rows[i], item, row) && Hit(rows[j], item, row)
  {
    hide Hit;
    if rows != [] {
      var rest := rows[1..];
      HitsAreCounted(rest, item, row);
      assert forall i :: 0 < i < |rows| ==> rest[i - 1] == rows[i];
      if i, j :| 0 <= i < j < |rest| && Hit(rest[i], item, row) && Hit(rest[j], item, row) {
        assert Hit(rows[i + 1], item, row) && Hit(rows[j + 1], item, row);
      }
      if Hit(rows[0], item, row) && Hits(rest, item, row) > 0 {
        var i :| 0 <= i < |rest| && Hit(rest[i], item, row);
        assert Hit(rows[i + 1], item, row);
      }
    }
  }

  /** Every refusal of the operator's expectations names something that does not fit. */
  lemma ExpectationRefusalIsTrue(e: Expectations, apply: bool)
    ensures Validate(e, apply).None? <==> IsExpectation(e) && (apply ==> e.mismatches.Some?)
    ensures match Validate(e, apply)
            case None => true
            case Some(InvalidRelease) => !IsSafeRelease(e.releaseId)
            case Some(InvalidCounts) => e.parentCount < 1 || e.parentCount != e.retainedCount + 1
            case Some(InvalidInn) => !IsLegalInn(e.withdrawnInn) || !IsLegalInn(e.controlInn) || e.withdrawnInn == e.controlInn
            case Some(InvalidMismatchCount) => e.mismatches.Some? && !(0 <= e.mismatches.value <= e.retainedCount)
            case Some(ApplyNeedsMismatchCount) => apply && e.mismatches.None?
            case _ => false
  {
    hide IsSafeRelease, IsLegalInn;
  }

  lemma ParentRefusalIsTrue(rows: seq<Publication>, e: Expectations)
    requires Normalize(rows, e).Err?
    ensures match Normalize(rows, e).error
            case ParentCount => |rows| != e.parentCount
            case ParentMembership =>
              (exists i, j :: 0 <= i < j < |rows| && rows[i].inn == rows[j].inn) || exists x :: x in rows && !IsLegalInn(x.inn)
            case MissingMember =>
              (forall x :: x in rows ==> x.inn != e.withdrawnInn) || (forall x :: x in rows ==> x.inn != e.controlInn)
            case BadRow => exists x :: x in rows && !RowFits(x, e)
            case _ => false
  {
    hide SortByInn, IsLegalInn, Distinct, RowFits;
    var sorted := SortByInn(rows);
    SortedRows(rows);
    DistinctInnsAre(rows);
    InnIn(sorted, e.withdrawnInn);
    InnIn(sorted, e.controlInn);
    AllLegal(sorted);
    AllFit(sorted, e);
  }

  predicate HasWrongProjection(entries: seq<Entry>, e: Expectations, tools: Tools) {
    exists i :: 0 <= i < |entries| && entries[i].Entry?
                && tools.validate(entries[i].payload) != Some(Projection(entries[i].inn, e.releaseId))
  }

  lemma AnswerRefusalIsTrue(t: Trusted, rows: seq<Publication>, e: Expectations, tools: Tools)
    requires IsParent(rows, e) && TrustedMap(t, Asked(rows, e), e, tools).Err?
    ensures match TrustedMap(t, Asked(rows, e), e, tools).error
            case TrustedRelease => t.releaseId != e.releaseId
            case TrustedCount => t.recordCount != Some(e.parentCount)
            case TrustedMembership => !MembersFit(t.members, e)
            case TrustedEntries => t.projections.None? || !AreEntries(t.projections.value)
            case TrustedRetained =>
              t.projections.Some? && exists inn :: HasEntry(t.projections.value, inn) != IsRetainedInn(inn, rows, e)
            case InvalidProjection =>
              t.projections.Some? && HasWrongProjection(t.projections.value, e, tools)
            case _ => false
  {
    hide IsLegalInn, Payloads, IsParent, HasEntry, IsRetainedInn, MembersFit, Asked;
    if t.projections.Some? {
      var entries := t.projections.value;
      PayloadsExactly(entries);
      if Payloads(entries).Some? {
        SameInns(Payloads(entries).value, entries, rows, e);
        AllProjectionsFit(Payloads(entries).value, entries, e, tools);
      }
    }
  }

  /** So does every refusal to plan. */
  lemma PlanRefusalIsTrue(rows: seq<Publication>, e: Expectations, tools: Tools)
    requires IsExpectation(e) && BuildPlan(rows, e, tools, false).Err?
    ensures var plan, answer := BuildPlan(rows, e, tools, false), tools.read(e.releaseId, Asked(rows, e));
            if Normalize(rows, e).Err? then plan.error == Normalize(rows, e).error
            else if !HasVersions(rows, e) then plan == Err(AmbiguousVersion)
            else if answer.None? then plan == Err(ReadFailed)
            else if TrustedMap(answer.value, Asked(rows, e), e, tools).Err? then
              plan.error == TrustedMap(answer.value, Asked(rows, e), e, tools).error
            else plan == Err(MembershipDiffers) && exists inn :: (inn in answer.value.members) != exists x :: x in rows && x.inn == inn
  {
    hide IsLegalInn, IsSafeRelease, HasVersions, IsParent, Normalize, TrustedMap, VersionsFit, Items, Updates, InnsOf, Members, MembersFit;
    ParentExactly(rows, e);
    VersionsExactly(rows, e, Retained(SortByInn(rows), e.withdrawnInn));
    RetainedCountNeverFails(rows, e, tools, false);
    NormalizedIsSorted(rows, e);
    var answer := tools.read(e.releaseId, Asked(rows, e));
    if IsParent(rows, e) && answer.Some? {
      AnswerExactly(answer.value, rows, e, tools);
      MembersExactly(answer.value, rows, e);
      if TrustedMap(answer.value, Asked(rows, e), e, tools).Ok? {
        TrustedHasMembers(answer.value, Asked(rows, e), e, tools);
      }
    }
  }

  lemma TrustedHasMembers(t: Trusted, retained: seq<string>, e: Expectations, tools: Tools)
    requires TrustedMap(t, retained, e, tools).Ok?
    ensures MembersFit(t.members, e) && Sorted(t.members) && Distinct(t.members)
  {
    hide Payloads;
  }
}
