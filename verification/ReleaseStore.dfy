/**
 The release tooling as the program runs it: one object over the three tables, each method
 one transaction. A transaction that fails restores what it found.
 */
module ReleaseStore {
  import opened Formats
  import opened Wrappers
  import opened ReleaseModel
  import opened ReleaseSafety

  class PublicationStore {
    var releases: map<Id, Release>
    var projections: map<Id, map<string, Row>>
    var pointer: Option<Option<Id>>

    constructor ()
      ensures Contents() == Initial(true).db
    {
      releases, projections, pointer := map[], map[], Some(None);
    }

    function Contents(): Database
      reads this
    {
      Database(releases, projections, pointer)
    }

    method Restore(saved: Database)
      modifies this
      ensures Contents() == saved
    {
      releases, projections, pointer := saved.releases, saved.projections, saved.pointer;
    }

    /** Inserts the records one by one, up to the first that a constraint refuses. */
    method InsertProjections(id: Id, records: seq<Record>) returns (refused: Option<Error>)
      modifies this`projections
      ensures match InsertAll(StoredRows(old(Contents()), id), records)
              case Err(e) => refused == Some(e)
              case Ok(rows) => refused == None && projections == old(projections)[id := rows]
    {
      hide IsInn;
      var rows := if id in projections then projections[id] else map[];
      projections := projections[id := rows];
      for n := 0 to |records|
        invariant id in projections && projections == old(projections)[id := projections[id]]
        invariant InsertAll(rows, records[..n]) == Ok(projections[id])
      {
        var record := records[n];
        assert records[..n + 1][..n] == records[..n];
        if !IsInn(record.inn) {
          InsertFailsForGood(rows, records, n + 1);
          return Some(CheckViolation);
        }
        if record.inn in projections[id] {
          InsertFailsForGood(rows, records, n + 1);
          return Some(DuplicateKey);
        }
        projections := projections[id := projections[id][record.inn := record.row]];
      }
      assert records[..|records|] == records;
      return None;
    }

    method StageRelease(b: Bundle, expected: Option<Id>) returns (r: Result<bool, Error>)
      modifies this
      ensures match Stage(old(Contents()), b, expected)
              case Err(e) => r == Err(e) && Contents() == old(Contents())
              case Ok(db) => r == Ok(b.id in old(releases)) && Contents() == db
    {
      hide InsertAll, RowsOf;
      var saved := Contents();
      if Misdirected(b.id, expected) {
        return Err(WrongRelease);
      }
      if pointer.None? {
        pointer := Some(None);
      }
      var active := pointer.value;
      if b.id in releases {
        var existing := releases[b.id];
        if existing.manifestSha != b.manifestSha || existing.recordCount != b.recordCount {
          Restore(saved);
          return Err(DifferentContent);
        }
        if Hashes(StoredRows(Contents(), b.id)) != Hashes(RowsOf(b.records)) {
          Restore(saved);
          return Err(DifferentPayload);
        }
        return Ok(true);
      }
      if b.previous != active {
        Restore(saved);
        return Err(ParentNotActive);
      }
      if !IsAdmittedCount(b.recordCount) {
        Restore(saved);
        return Err(CheckViolation);
      }
      if b.previous.Some? && b.previous.value !in releases {
        Restore(saved);
        return Err(ForeignKeyViolation);
      }
      releases := releases[b.id := NewRelease(b)];
      var refused := InsertProjections(b.id, b.records);
      if refused.Some? {
        Restore(saved);
        return Err(refused.value);
      }
      var rows := projections[b.id];
      if |rows| != b.recordCount || |Matching(rows, b.id)| != b.recordCount {
        Restore(saved);
        return Err(FailedValidation);
      }
      return Ok(false);
    }

    method AcceptStagedRelease(b: Bundle, expected: Option<Id>) returns (r: Result<bool, Error>)
      ensures r == Accept(Contents(), b, expected)
    {
      if Misdirected(b.id, expected) {
        return Err(WrongRelease);
      }
      if b.id !in releases || releases[b.id].status == RolledBack {
        return Err(NotStaged);
      }
      var release := releases[b.id];
      if release.manifestSha != b.manifestSha || release.recordCount != b.recordCount {
        return Err(MetadataMismatch);
      }
      if Hashes(StoredRows(Contents(), b.id)) != Hashes(RowsOf(b.records)) {
        return Err(PayloadMismatch);
      }
      var active := ActiveOf(pointer);
      if release.status == Staged && active != b.previous {
        return Err(ParentNoLongerActive);
      }
      return Ok(active == Some(b.id));
    }

    /** One UPDATE of a status column; false when the partial unique index refuses it. */
    method UpdateStatus(id: Id, status: Status) returns (ok: bool)
      modifies this`releases
      ensures match SetStatus(old(releases), id, status)
              case Err(_) => !ok && releases == old(releases)
              case Ok(after) => ok && releases == after
    {
      if id !in releases {
        return true;
      }
      if status == Active && exists other :: other in releases && other != id && releases[other].status == Active {
        return false;
      }
      releases := releases[id := releases[id].(status := status)];
      return true;
    }

    method PromoteRelease(id: Id, expectedPrevious: Option<Id>) returns (r: Result<bool, Error>)
      modifies this
      ensures match Promote(old(Contents()), id, expectedPrevious)
              case Err(e) => r == Err(e) && Contents() == old(Contents())
              case Ok((db, effective)) => r == Ok(effective) && Contents() == db
    {
      var saved := Contents();
      if id !in releases {
        return Err(MissingRelease);
      }
      var release, active := releases[id], ActiveOf(pointer);
      if active == Some(id) && release.status == Active {
        return Ok(false);
      }
      if release.status != Staged {
        return Err(NotStaged);
      }
      if release.previous != expectedPrevious || active != expectedPrevious {
        return Err(ParentNoLongerActive);
      }
      if |StoredRows(saved, id)| != release.recordCount {
        return Err(CountChanged);
      }
      if active.Some? {
        var _ := UpdateStatus(active.value, Staged);
      }
      var promoted := UpdateStatus(id, Active);
      if !promoted {
        Restore(saved);
        return Err(UniqueViolation);
      }
      if pointer.Some? {
        pointer := Some(Some(id));
      }
      return Ok(true);
    }

    method RollbackRelease(previous: Id) returns (r: Result<Id, Error>)
      modifies this
      ensures match Rollback(old(Contents()), previous)
              case Err(e) => r == Err(e) && Contents() == old(Contents())
              case Ok(db) => r == Ok(ActiveOf(old(pointer)).value) && Contents() == db
    {
      var saved := Contents();
      var active := ActiveOf(pointer);
      if active.None? {
        return Err(NoActiveRelease);
      }
      var current := active.value;
      if current !in releases || releases[current].previous != Some(previous) {
        return Err(NotExactPrevious);
      }
      if previous !in releases {
        return Err(PreviousMissing);
      }
      var _ := UpdateStatus(current, RolledBack);
      var restored := UpdateStatus(previous, Active);
      if !restored {
        Restore(saved);
        return Err(UniqueViolation);
      }
      pointer := Some(Some(previous));
      return Ok(current);
    }

    /** Stage, accept and promote as three transactions in a row. */
    method ImportRelease(b: Bundle, expected: Option<Id>) returns (r: Result<bool, Error>)
      modifies this
      ensures Contents() == ImportResult(old(Contents()), b, expected).0
      ensures r == ImportResult(old(Contents()), b, expected).1
    {
      hide Stage, Accept, Promote;
      var staged := StageRelease(b, expected);
      if staged.Err? {
        return Err(staged.error);
      }
      if staged.value && ActiveOf(pointer) == Some(b.id) {
        return Ok(false);
      }
      var accepted := AcceptStagedRelease(b, expected);
      if accepted.Err? {
        return Err(accepted.error);
      }
      r := PromoteRelease(b.id, b.previous);
    }
  }

  /** What an import leaves behind and answers: true when it promoted. */
  function ImportResult(db: Database, b: Bundle, expected: Option<Id>): (Database, Result<bool, Error>) {
    var staged := Stage(db, b, expected);
    if staged.Err? then (db, Err(staged.error))
    else if b.id in db.releases && ActiveOf(staged.value.pointer) == Some(b.id) then (staged.value, Ok(false))
    else
      var accepted := Accept(staged.value, b, expected);
      if accepted.Err? then (staged.value, Err(accepted.error))
      else
        match Promote(staged.value, b.id, b.previous)
        case Err(e) => (staged.value, Err(e))
        case Ok((after, effective)) => (after, Ok(effective))
  }

  lemma {:induction false} InsertFailsForGood(rows: map<string, Row>, records: seq<Record>, n: nat)
    requires n <= |records| && InsertAll(rows, records[..n]).Err?
    ensures InsertAll(rows, records) == InsertAll(rows, records[..n])
    decreases |records|
  {
    hide IsInn;
    if n < |records| {
      var front := records[..|records| - 1];
      assert front[..n] == records[..n];
      InsertFailsForGood(rows, front, n);
    } else {
      assert records[..n] == records;
    }
  }

  lemma CreatedAreReleases(w: World)
    requires ContentInv(w)
    ensures w.created.Keys == w.db.releases.Keys
  {
  }

  lemma StagedIsAccepted(w: World, b: Bundle)
    requires Inv(w) && b.id in w.created && w.created[b.id] == b
    requires b.id !in w.promoted && b.previous == HeadOf(w.line)
    ensures Accept(w.db, b, None) == Ok(false)
  {
    hide RowsOf, IsLineage, LineageInv, Hashes;
    FreshIsStaged(w, b.id);
    PromotedIsNotHead(w, b.id);
  }

  /** Importing a new bundle on the active release promotes it; importing it again does nothing. */
  lemma ImportPromotesOnce(w: World, b: Bundle)
    requires Reachable(w) && IsLoaded(b) && b.id !in w.db.releases && b.previous == HeadOf(w.line)
    ensures var (after, answer) := ImportResult(w.db, b, None);
            && answer == Ok(true) && ActiveOf(after.pointer) == Some(b.id)
            && ImportResult(after, b, None) == (after, Ok(false))
  {
    hide Stage, Accept, Promote, RowsOf, IsLineage, LineageInv, PromotionInv, ContentInv, PointerInv, Reachable;
    ReachableIsGood(w);
    assert IsLineage(w.db.releases, w.line) by { LineOfInv(w); }
    StageSucceeds(w, b);
    StageOutcome(w, b, None);
    StageKeepsInv(w, b, None);
    var staged := Step(w, StageOp(b, None));
    PromotedAreReleases(w);
    CreatedAreReleases(w);
    StagedIsAccepted(staged, b);
    PromoteSucceeds(staged, b.id);
    LineOfInv(staged);
    PromoteOutcome(staged, b.id, b.previous);
    PromoteKeepsInv(staged, b.id, b.previous);
    var promoted := Step(staged, PromoteOp(b.id, b.previous));
    StageRepeats(promoted, b);
  }

  lemma StageRepeats(w: World, b: Bundle)
    requires Inv(w) && b.id in w.created && w.created[b.id] == b
    ensures Stage(w.db, b, None) == Ok(w.db)
  {
    hide RowsOf, LineageInv, PromotionInv, Hashes;
  }

  /** No transaction on a bundle goes on when the operator expects another release. */
  lemma UnexpectedReleaseIsRefused(db: Database, b: Bundle, expected: Id)
    requires expected != "" && expected != b.id
    ensures Stage(db, b, Some(expected)) == Err(WrongRelease) && Accept(db, b, Some(expected)) == Err(WrongRelease)
    ensures ImportResult(db, b, Some(expected)) == (db, Err(WrongRelease))
  {
    hide RowsOf, InsertAll, Matching, Hashes;
  }

  /** Expecting nothing, the empty id or the bundle's own id are the same. */
  lemma ExpectationIsOptional(db: Database, b: Bundle, expected: Id)
    requires expected == "" || expected == b.id
    ensures Stage(db, b, Some(expected)) == Stage(db, b, None) && Accept(db, b, Some(expected)) == Accept(db, b, None)
    ensures ImportResult(db, b, Some(expected)) == ImportResult(db, b, None)
  {
    hide RowsOf, InsertAll, Matching, Hashes, Promote;
  }

  /* ---------- Imports between other transactions ---------- */

  /**
   An import between whose transactions other callers run theirs: `first` between its stage
   and its acceptance, `second` between its acceptance and its promotion.
   */
  function ImportAmid(w: World, b: Bundle, expected: Option<Id>, first: seq<Op>, second: seq<Op>): (World, Result<bool, Error>) {
    var r := Stage(w.db, b, expected);
    var staged := Step(w, StageOp(b, expected));
    if r.Err? then (w, Err(r.error))
    else if b.id in w.db.releases && ActiveOf(staged.db.pointer) == Some(b.id) then (staged, Ok(false))
    else
      var atAccept := Run(staged, first);
      var accepted := Accept(atAccept.db, b, expected);
      if accepted.Err? then (atAccept, Err(accepted.error))
      else
        var atPromote := Run(atAccept, second);
        match Promote(atPromote.db, b.id, b.previous)
        case Err(e) => (atPromote, Err(e))
        case Ok((_, effective)) => (Step(atPromote, PromoteOp(b.id, b.previous)), Ok(effective))
  }

  /** Without other transactions in between it is the import. */
  lemma AloneIsImport(w: World, b: Bundle, expected: Option<Id>)
    requires Reachable(w) && IsLoaded(b)
    ensures var (after, answer) := ImportAmid(w, b, expected, [], []);
            (after.db, answer) == ImportResult(w.db, b, expected)
  {
    hide Stage, Accept, Promote, IsLoaded, Inv;
    ReachableIsGood(w);
    var staged := Step(w, StageOp(b, expected));
    StageKeepsInv(w, b, expected);
    assert Inv(staged);
    IneffectiveChangesNothing(staged, b.id, b.previous);
  }

  lemma IneffectiveChangesNothing(w: World, id: Id, previous: Option<Id>)
    requires Inv(w)
    ensures var r := Promote(w.db, id, previous); r.Ok? ==> Step(w, PromoteOp(id, previous)).db == r.value.0
  {
    hide Promote, Handover, ContentInv, PromotionInv, IsLineage;
    LineOfInv(w);
    PromoteOutcome(w, id, previous);
  }

  /** The candidate is active, or was never promoted and its parent is active. */
  predicate MayGoOn(w: World, b: Bundle) {
    ActiveOf(w.db.pointer) == Some(b.id) || (b.id !in w.promoted && ActiveOf(w.db.pointer) == b.previous)
  }

  /** Accepting and promoting a release from its own bundle succeed exactly when the candidate may go on. */
  lemma CandidateGoesOnExactly(w: World, b: Bundle, expected: Option<Id>)
    requires Reachable(w) && b.id in w.created && w.created[b.id] == b && !Misdirected(b.id, expected)
    ensures Accept(w.db, b, expected).Ok? <==> MayGoOn(w, b)
    ensures Promote(w.db, b.id, b.previous).Ok? <==> MayGoOn(w, b)
  {
    hide RowsOf, IsLineage, Hashes, LineageInv;
    ReachableIsGood(w);
    LineOfInv(w);
    CreatedIsStored(w, b);
    if b.id !in w.promoted && ActiveOf(w.db.pointer) == b.previous {
      PromoteSucceeds(w, b.id);
    }
    if w.db.releases[b.id].status == Staged && b.previous == HeadOf(w.line) {
      PromotableIsFresh(w, b.id);
    }
  }

  lemma CreatedIsStored(w: World, b: Bundle)
    requires ContentInv(w) && b.id in w.created && w.created[b.id] == b
    ensures b.id in w.db.releases && w.db.releases[b.id] == NewRelease(b).(status := w.db.releases[b.id].status)
    ensures StoredRows(w.db, b.id) == RowsOf(b.records)
  {
    hide RowsOf;
  }

  lemma {:induction false} RunKeepsCreated(w: World, ops: seq<Op>, id: Id)
    requires id in w.created
    ensures id in Run(w, ops).created && Run(w, ops).created[id] == w.created[id]
  {
    hide Stage, Promote, Rollback;
    if ops != [] {
      RunKeepsCreated(w, ops[..|ops| - 1], id);
    }
  }

  /** Staging a stored release changes nothing; staging a new one creates it from its bundle. */
  lemma StagedWorld(w: World, b: Bundle, expected: Option<Id>)
    requires Reachable(w) && IsLoaded(b) && Stage(w.db, b, expected).Ok?
    ensures var staged := Step(w, StageOp(b, expected));
            && Reachable(staged) && !Misdirected(b.id, expected)
            && (b.id in w.db.releases ==> staged == w)
            && (b.id !in w.db.releases ==>
                  && b.id in staged.created && staged.created[b.id] == b
                  && b.id !in staged.promoted && ActiveOf(staged.db.pointer) == b.previous)
  {
    hide RowsOf, IsLineage, LineageInv, IsLoaded, Reachable, Hashes, InsertAll, Matching;
    ReachableIsGood(w);
    LineOfInv(w);
    CreatedAreReleases(w);
    PromotedAreReleases(w);
    StageOutcome(w, b, expected);
    StepStaysReachable(w, StageOp(b, expected));
  }

  /** Whatever others do, a new release stays stored, and is accepted or promoted exactly when it may go on. */
  lemma CandidateAfterRun(w: World, b: Bundle, expected: Option<Id>, ops: seq<Op>)
    requires Reachable(w) && AllAdmissible(ops) && !Misdirected(b.id, expected)
    requires b.id in w.created && w.created[b.id] == b
    ensures var after := Run(w, ops);
            && Reachable(after) && b.id in after.db.releases && b.id in after.created && after.created[b.id] == b
            && (Accept(after.db, b, expected).Ok? <==> MayGoOn(after, b))
            && (Promote(after.db, b.id, b.previous).Ok? <==> MayGoOn(after, b))
  {
    hide Run, Accept, Promote, MayGoOn, Reachable, AllAdmissible, PointerInv, LineageInv, PromotionInv;
    RunStaysReachable(w, ops);
    RunKeepsCreated(w, ops, b.id);
    CandidateGoesOnExactly(Run(w, ops), b, expected);
    ReachableIsGood(Run(w, ops));
    CreatedAreReleases(Run(w, ops));
  }

  /**
   Between other transactions, an import that staged a new release fails exactly when that
   release may not go on at its acceptance or at its promotion, and then leaves the release
   behind. Any other failing import leaves only what the others did.
   */
  lemma ImportLeavesBehindExactly(w: World, b: Bundle, expected: Option<Id>, first: seq<Op>, second: seq<Op>)
    requires Reachable(w) && IsLoaded(b) && AllAdmissible(first) && AllAdmissible(second)
    ensures var (after, answer) := ImportAmid(w, b, expected, first, second);
            var atAccept := Run(Step(w, StageOp(b, expected)), first);
            && (b.id !in w.db.releases && Stage(w.db, b, expected).Ok? ==>
                  && (answer.Err? <==> !MayGoOn(atAccept, b) || !MayGoOn(Run(atAccept, second), b))
                  && b.id in after.db.releases)
            && (b.id in w.db.releases && answer.Err? ==>
                  after == w || after == Run(w, first) || after == Run(Run(w, first), second))
            && (Stage(w.db, b, expected).Err? ==> after == w)
  {
    hide Stage, Run, Accept, Promote, MayGoOn, Reachable, AllAdmissible, IsLoaded, Misdirected, Step;
    if Stage(w.db, b, expected).Ok? {
      StagedWorld(w, b, expected);
      var staged := Step(w, StageOp(b, expected));
      if b.id !in w.db.releases {
        var atAccept := Run(staged, first);
        var atPromote := Run(atAccept, second);
        CandidateAfterRun(staged, b, expected, first);
        CandidateAfterRun(atAccept, b, expected, second);
        StepKeepsReleases(atPromote, b.id, b.previous);
      }
    }
  }

  lemma StepKeepsReleases(w: World, id: Id, previous: Option<Id>)
    requires Reachable(w) && id in w.created
    ensures id in Step(w, PromoteOp(id, previous)).db.releases
  {
    hide Promote, Reachable, PointerInv, LineageInv, PromotionInv, ContentInv;
    var after := Step(w, PromoteOp(id, previous));
    StepStaysReachable(w, PromoteOp(id, previous));
    ReachableIsGood(after);
    CreatedAreReleases(after);
  }

  /** Run alone, an import that fails leaves the database as it was. */
  lemma ImportAloneIsAtomic(w: World, b: Bundle, expected: Option<Id>)
    requires Reachable(w) && IsLoaded(b)
    ensures ImportResult(w.db, b, expected).1.Err? ==> ImportResult(w.db, b, expected).0 == w.db
  {
    hide Stage, Accept, Promote, Step, Reachable, IsLoaded, ImportResult, ImportAmid;
    AloneIsImport(w, b, expected);
    ImportLeavesBehindExactly(w, b, expected, [], []);
    if Stage(w.db, b, expected).Ok? {
      StagedWorld(w, b, expected);
    }
  }

  /** A sibling published between stage and acceptance: the import fails and its release stays. */
  lemma OvertakenImportLeavesRelease(w: World, b: Bundle, sibling: Bundle)
    requires Reachable(w) && IsLoaded(b) && IsLoaded(sibling) && b.id != sibling.id
    requires b.id !in w.db.releases && sibling.id !in w.db.releases
    requires b.previous == sibling.previous == HeadOf(w.line)
    ensures var first := [StageOp(sibling, None), PromoteOp(sibling.id, sibling.previous)];
            var (after, answer) := ImportAmid(w, b, None, first, []);
            && answer == Err(ParentNoLongerActive)
            && b.id in after.db.releases && b.id !in after.promoted && ActiveOf(after.db.pointer) == Some(sibling.id)
  {
    hide Stage, Accept, Promote, Step, Run, Reachable, IsLoaded, LineageInv, IsLineage, ContentInv, PromotionInv;
    ReachableIsGood(w);
    StageSucceeds(w, b);
    StagedWorld(w, b, None);
    StagingKeepsLine(w, b);
    var staged := Step(w, StageOp(b, None));
    PublishingSucceeds(staged, sibling);
    var first := [StageOp(sibling, None), PromoteOp(sibling.id, sibling.previous)];
    RunOfTwo(staged, first);
    var atAccept := Run(staged, first);
    ReachableIsGood(atAccept);
    RunKeepsCreated(staged, first, b.id);
    HeadIsStored(w);
    OvertakenIsRefused(atAccept, b);
  }

  lemma StagingKeepsLine(w: World, b: Bundle)
    requires Stage(w.db, b, None).Ok? && b.id !in w.db.releases
    ensures var staged := Step(w, StageOp(b, None));
            staged.line == w.line && staged.promoted == w.promoted && staged.db.releases.Keys == w.db.releases.Keys + {b.id}
  {
    hide InsertAll, RowsOf, Matching;
  }

  lemma RunOfTwo(w: World, ops: seq<Op>)
    requires |ops| == 2
    ensures Run(w, ops) == Step(Step(w, ops[0]), ops[1])
  {
    hide Step;
    RunSteps(w, ops, 0);
    RunSteps(w, ops, 1);
    assert ops[..2] == ops && ops[..0] == [];
  }

  lemma OvertakenIsRefused(w: World, b: Bundle)
    requires Inv(w) && b.id in w.created && w.created[b.id] == b
    requires b.id !in w.promoted && ActiveOf(w.db.pointer) != b.previous
    ensures b.id in w.db.releases && Accept(w.db, b, None) == Err(ParentNoLongerActive)
  {
    hide RowsOf, IsLineage, LineageInv, Hashes;
    CreatedIsStored(w, b);
    FreshIsStaged(w, b.id);
  }

  /** Two first releases of an empty database, one overtaking the other. */
  lemma OvertakenOnEmptyDatabase()
    ensures IsLoaded(Sample(FIRST, None)) && IsLoaded(Sample(SECOND, None))
    ensures var others := [StageOp(Sample(SECOND, None), None), PromoteOp(SECOND, None)];
            var (after, answer) := ImportAmid(Initial(true), Sample(FIRST, None), None, others, []);
            && answer == Err(ParentNoLongerActive)
            && FIRST in after.db.releases && FIRST !in Initial(true).db.releases
  {
    hide ImportAmid, IsLoaded, IsSafeRelease, FIRST, SECOND;
    NamesAreSafe();
    SampleIsLoaded(FIRST, None);
    SampleIsLoaded(SECOND, None);
    InitialIsReachable();
    OvertakenImportLeavesRelease(Initial(true), Sample(FIRST, None), Sample(SECOND, None));
  }
}
