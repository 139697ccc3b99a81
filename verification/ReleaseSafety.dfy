/**
 Safety of the release protocol over every run: any number of stage, accept, promote and
 roll-back transactions, in any order and from any number of callers.
 */
module ReleaseSafety {
  import opened Formats
  import opened Wrappers
  import opened ReleaseModel

  function HeadOf(line: seq<Id>): Option<Id> {
    if line == [] then None else Some(line[0])
  }

  /* ---------- What each transaction does in a good database ---------- */

  ghost predicate AllDescend(releases: map<Id, Release>) {
    forall id :: id in releases ==> exists chain :: HasLineage(releases, id, chain)
  }

  lemma LineagesSurvive(before: map<Id, Release>, after: map<Id, Release>)
    requires AllDescend(before)
    requires forall id :: id in before ==> id in after && after[id].previous == before[id].previous
    ensures forall id :: id in before ==> exists chain :: HasLineage(after, id, chain)
  {
    forall id | id in before ensures exists chain :: HasLineage(after, id, chain) {
      var chain :| HasLineage(before, id, chain);
      LineageSurvives(before, after, chain);
      assert HasLineage(after, id, chain);
    }
  }

  lemma ExtendLine(releases: map<Id, Release>, line: seq<Id>, id: Id)
    requires IsLineage(releases, line) && id in releases && releases[id].previous == HeadOf(line)
    ensures HasLineage(releases, id, [id] + line)
  {
    var chain := [id] + line;
    forall i | 0 <= i < |chain| ensures chain[i] in releases && releases[chain[i]].previous == ParentIn(chain, i) {
      if i > 0 {
        assert chain[i] == line[i - 1] && ParentIn(chain, i) == ParentIn(line, i - 1);
      }
    }
  }

  lemma StageOutcome(w: World, b: Bundle, expected: Option<Id>)
    requires PointerInv(w) && ContentInv(w) && IsLineage(w.db.releases, w.line) && IsLoaded(b)
    ensures var r := Stage(w.db, b, expected);
            && (r.Err? ==> !IsIntegrityError(r.error))
            && (r.Ok? && b.id in w.db.releases ==> r.value == w.db)
            && (r.Ok? && b.id !in w.db.releases ==>
                  b.previous == HeadOf(w.line)
                  && r.value == Database(
                                  w.db.releases[b.id := NewRelease(b)],
                                  w.db.projections[b.id := RowsOf(b.records)],
                                  EnsurePointer(w.db.pointer)))
  {
    hide InsertAll, RowsOf, Matching;
    InsertsFit(b.records, b.id);
    MatchingIsAll(RowsOf(b.records), b.id);
  }

  /** `w'` is `w` with a new staged release created from `b`. */
  predicate Adds(w: World, w': World, b: Bundle) {
    && b.id !in w.db.releases && b.previous == HeadOf(w.line) && IsLoaded(b)
    && w' == World(
               Database(
                 w.db.releases[b.id := NewRelease(b)],
                 w.db.projections[b.id := RowsOf(b.records)],
                 EnsurePointer(w.db.pointer)),
               w.line, w.promoted, w.created[b.id := b])
  }

  lemma AddingKeepsLineage(w: World, w': World, b: Bundle)
    requires LineageInv(w) && Adds(w, w', b)
    ensures LineageInv(w')
  {
    hide IsLineage, RowsOf;
    assert forall id :: id in w.db.releases ==> w'.db.releases[id].previous == w.db.releases[id].previous;
    LineageSurvives(w.db.releases, w'.db.releases, w.line);
    LineagesSurvive(w.db.releases, w'.db.releases);
    ExtendLine(w'.db.releases, w.line, b.id);
  }

  lemma AddingKeepsContent(w: World, w': World, b: Bundle)
    requires ContentInv(w) && Adds(w, w', b)
    ensures ContentInv(w')
  {
    hide RowsOf, IsLoaded;
  }

  lemma AddingKeepsPointer(w: World, w': World, b: Bundle)
    requires PointerInv(w) && PromotionInv(w) && Adds(w, w', b)
    ensures PointerInv(w')
  {
    hide RowsOf, IsLoaded;
    assert w.line != [] ==> w.line[0] in w.line;
  }

  lemma AddingKeepsPromotion(w: World, w': World, b: Bundle)
    requires PromotionInv(w) && Adds(w, w', b)
    ensures PromotionInv(w')
  {
    hide RowsOf, IsLoaded;
  }

  lemma StageKeepsInv(w: World, b: Bundle, expected: Option<Id>)
    requires Inv(w) && IsLoaded(b)
    ensures Inv(Step(w, StageOp(b, expected)))
  {
    hide RowsOf, Stage, LineageInv, PointerInv, PromotionInv;
    assert IsLineage(w.db.releases, w.line) by { LineOfInv(w); }
    StageOutcome(w, b, expected);
    var w' := Step(w, StageOp(b, expected));
    if Stage(w.db, b, expected).Ok? && b.id !in w.db.releases {
      AddingKeepsLineage(w, w', b);
      AddingKeepsContent(w, w', b);
      AddingKeepsPointer(w, w', b);
      AddingKeepsPromotion(w, w', b);
    } else {
      assert w' == w;
    }
  }

  lemma LineOfInv(w: World)
    requires LineageInv(w)
    ensures IsLineage(w.db.releases, w.line)
  {
  }

  /** Only a release that was never promoted can be promoted. */
  lemma PromotableIsFresh(w: World, id: Id)
    requires PromotionInv(w) && IsLineage(w.db.releases, w.line)
    requires id in w.db.releases && w.db.releases[id].status == Staged
    requires w.db.releases[id].previous == HeadOf(w.line)
    ensures id !in w.promoted
  {
    if id in w.line {
      var i :| 0 <= i < |w.line| && w.line[i] == id;
      assert ParentIn(w.line, i) == Some(w.line[0]);
      LineageHasNoRepeats(w.db.releases, w.line, 0, i + 1);
    }
  }

  lemma RowsMatchCount(w: World, id: Id)
    requires ContentInv(w) && id in w.db.releases
    ensures |StoredRows(w.db, id)| == w.db.releases[id].recordCount > 0
    ensures Matching(StoredRows(w.db, id), id) == StoredRows(w.db, id).Keys
  {
    hide RowsOf;
    InsertsFit(w.created[id].records, id);
  }

  /** The releases after `next` takes over from the head of the line. */
  function Handover(releases: map<Id, Release>, from: Option<Id>, left: Status, next: Id): map<Id, Release>
    requires next in releases && (from.Some? ==> from.value in releases)
  {
    var released := if from.Some? then releases[from.value := releases[from.value].(status := left)] else releases;
    released[next := released[next].(status := Active)]
  }

  lemma PromoteOutcome(w: World, id: Id, previous: Option<Id>)
    requires PointerInv(w) && ContentInv(w) && IsLineage(w.db.releases, w.line)
    ensures var r := Promote(w.db, id, previous);
            && (r.Err? ==> !IsIntegrityError(r.error))
            && (r.Ok? && !r.value.1 ==> r.value.0 == w.db && HeadOf(w.line) == Some(id))
            && (r.Ok? && r.value.1 ==>
                  && id in w.db.releases && w.db.releases[id].status == Staged
                  && w.db.releases[id].previous == HeadOf(w.line) == previous
                  && (w.line != [] ==> w.line[0] in w.db.releases)
                  && r.value.0 == Database(
                                    Handover(w.db.releases, HeadOf(w.line), Staged, id),
                                    w.db.projections,
                                    Some(Some(id))))
  {
    hide ContentInv;
    if id in w.db.releases {
      RowsMatchCount(w, id);
    }
  }

  lemma HandoverKeepsParents(releases: map<Id, Release>, from: Option<Id>, left: Status, next: Id)
    requires next in releases && (from.Some? ==> from.value in releases)
    ensures var after := Handover(releases, from, left, next);
            after.Keys == releases.Keys
            && forall id :: id in releases ==>
                 && after[id] == releases[id].(status := after[id].status)
                 && after[id].status == if id == next then Active
                                        else if from == Some(id) then left
                                        else releases[id].status
  {
  }

  lemma ContentSurvives(w: World, w': World)
    requires ContentInv(w)
    requires w'.created == w.created && w'.db.projections == w.db.projections
    requires w'.db.releases.Keys == w.db.releases.Keys
    requires forall id :: id in w.db.releases ==>
               w'.db.releases[id] == w.db.releases[id].(status := w'.db.releases[id].status)
    ensures ContentInv(w')
  {
    hide RowsOf;
  }

  lemma LineageInvSurvives(w: World, w': World)
    requires LineageInv(w) && w'.db.releases.Keys == w.db.releases.Keys
    requires forall id :: id in w.db.releases ==>
               w'.db.releases[id] == w.db.releases[id].(status := w'.db.releases[id].status)
    ensures IsLineage(w'.db.releases, w.line) && AllDescend(w'.db.releases)
  {
    hide IsLineage;
    assert forall id :: id in w.db.releases ==> w'.db.releases[id].previous == w.db.releases[id].previous;
    LineageSurvives(w.db.releases, w'.db.releases, w.line);
    LineagesSurvive(w.db.releases, w'.db.releases);
  }

  /** `w'` differs from `w` only as a handover from the head of the line to `next` makes it differ. */
  predicate HandsOver(w: World, w': World, left: Status, next: Id) {
    && next in w.db.releases && (w.line != [] ==> w.line[0] in w.db.releases && w.line[0] != next)
    && w'.db.releases.Keys == w.db.releases.Keys
    && w'.db.projections == w.db.projections && w'.db.pointer == Some(Some(next)) && w'.created == w.created
    && (forall id :: id in w.db.releases ==>
          && w'.db.releases[id] == w.db.releases[id].(status := w'.db.releases[id].status)
          && w'.db.releases[id].status == if id == next then Active
                                          else if HeadOf(w.line) == Some(id) then left
                                          else w.db.releases[id].status)
  }

  lemma PointerAfterHandover(w: World, w': World, left: Status, next: Id)
    requires PointerInv(w) && HandsOver(w, w', left, next) && left != Active
    requires w'.line != [] && w'.line[0] == next
    ensures PointerInv(w')
  {
  }

  lemma PromotedAfterPromotion(w: World, w': World, id: Id)
    requires PromotionInv(w) && HandsOver(w, w', Staged, id)
    requires w'.line == [id] + w.line && w'.promoted == w.promoted + {id}
    ensures PromotionInv(w')
  {
    assert forall x :: x in w'.line <==> x == id || x in w.line;
  }

  lemma PromoteKeepsInv(w: World, id: Id, previous: Option<Id>)
    requires Inv(w)
    ensures Inv(Step(w, PromoteOp(id, previous)))
    ensures Promote(w.db, id, previous).Ok? && Promote(w.db, id, previous).value.1 ==> id !in w.promoted
  {
    hide IsLineage, Promote, Handover, LineageInv, PointerInv, PromotionInv, ContentInv;
    LineOfInv(w);
    PromoteOutcome(w, id, previous);
    var w' := Step(w, PromoteOp(id, previous));
    var r := Promote(w.db, id, previous);
    if r.Ok? && r.value.1 {
      HandoverKeepsParents(w.db.releases, HeadOf(w.line), Staged, id);
      PromotableIsFresh(w, id);
      PromotedIsNotHead(w, id);
      PointerAfterHandover(w, w', Staged, id);
      PromotedAfterPromotion(w, w', id);
      ContentSurvives(w, w');
      LineageInvSurvives(w, w');
      ExtendLine(w'.db.releases, w.line, id);
      LineageInvFrom(w');
    }
  }

  lemma PromotedIsNotHead(w: World, id: Id)
    requires PromotionInv(w) && id !in w.promoted
    ensures w.line != [] ==> w.line[0] != id
  {
    assert w.line != [] ==> w.line[0] in w.line;
  }

  lemma LineageInvFrom(w: World)
    requires IsLineage(w.db.releases, w.line) && AllDescend(w.db.releases)
    ensures LineageInv(w)
  {
  }

  lemma RollbackOutcome(w: World, target: Id)
    requires PointerInv(w) && IsLineage(w.db.releases, w.line)
    ensures var r := Rollback(w.db, target);
            && (r.Err? ==> !IsIntegrityError(r.error))
            && (r.Ok? ==>
                  && |w.line| > 1 && w.line[1] == target
                  && w.line[0] in w.db.releases && target in w.db.releases && w.line[0] != target
                  && r.value == Database(
                                  Handover(w.db.releases, HeadOf(w.line), RolledBack, target),
                                  w.db.projections,
                                  Some(Some(target))))
  {
    if w.line != [] {
      assert ParentIn(w.line, 0) == w.db.releases[w.line[0]].previous;
      if |w.line| > 1 && w.line[0] == w.line[1] {
        LineageHasNoRepeats(w.db.releases, w.line, 0, 1);
      }
    }
  }

  /** The head of a lineage does not occur again behind it. */
  lemma TailWithoutHead(releases: map<Id, Release>, line: seq<Id>)
    requires IsLineage(releases, line) && line != []
    ensures forall id :: id in line <==> id == line[0] || id in line[1..]
    ensures line[0] !in line[1..]
  {
    if line[0] in line[1..] {
      var i :| 1 <= i < |line| && line[i] == line[0];
      LineageHasNoRepeats(releases, line, 0, i);
    }
    assert line == [line[0]] + line[1..];
  }

  lemma PromotedAfterRollback(w: World, w': World, target: Id)
    requires PromotionInv(w) && HandsOver(w, w', RolledBack, target)
    requires |w.line| > 1 && w.line[1] == target && w'.line == w.line[1..] && w'.promoted == w.promoted
    requires forall id :: id in w.line <==> id == w.line[0] || id in w.line[1..]
    requires w.line[0] !in w.line[1..]
    ensures PromotionInv(w')
  {
  }

  lemma RollbackKeepsInv(w: World, target: Id)
    requires Inv(w)
    ensures Inv(Step(w, RollbackOp(target)))
  {
    hide IsLineage, Rollback, Handover, LineageInv, PointerInv, PromotionInv, ContentInv;
    LineOfInv(w);
    RollbackOutcome(w, target);
    var w' := Step(w, RollbackOp(target));
    if Rollback(w.db, target).Ok? {
      HandoverKeepsParents(w.db.releases, HeadOf(w.line), RolledBack, target);
      TailWithoutHead(w.db.releases, w.line);
      PointerAfterHandover(w, w', RolledBack, target);
      PromotedAfterRollback(w, w', target);
      ContentSurvives(w, w');
      LineageInvSurvives(w, w');
      LineageTail(w'.db.releases, w.line, 1);
      LineageInvFrom(w');
    }
  }

  /** Every step of the protocol keeps the invariant. */
  lemma StepKeepsInv(w: World, op: Op)
    requires Inv(w) && Admissible(op)
    ensures Inv(Step(w, op))
  {
    hide Inv, Stage, Promote, Rollback;
    match op
    case StageOp(b, expected) => StageKeepsInv(w, b, expected);
    case AcceptOp(b, expected) =>
    case PromoteOp(id, previous) => PromoteKeepsInv(w, id, previous);
    case RollbackOp(target) => RollbackKeepsInv(w, target);
  }

  lemma {:induction false} RunKeepsInv(w: World, ops: seq<Op>)
    requires Inv(w) && AllAdmissible(ops)
    ensures Inv(Run(w, ops))
  {
    hide Inv, Step, Admissible;
    if ops != [] {
      assert forall op :: op in ops[..|ops| - 1] ==> op in ops;
      RunKeepsInv(w, ops[..|ops| - 1]);
      assert ops[|ops| - 1] in ops;
      StepKeepsInv(Run(w, ops[..|ops| - 1]), ops[|ops| - 1]);
    }
  }

  /** The invariant holds in every state the protocol can reach. */
  lemma ReachableIsGood(w: World)
    requires Reachable(w)
    ensures Inv(w)
  {
    hide Run, AllAdmissible;
    var pointerRow: bool, ops :| AllAdmissible(ops) && w == Run(Initial(pointerRow), ops);
    RunKeepsInv(Initial(pointerRow), ops);
  }

  /* ---------- Laws over every reachable state ---------- */

  /** Exactly the pointed-to release is active, and no release is its own ancestor. */
  lemma OneActiveRelease(w: World, id: Id)
    requires Reachable(w) && id in w.db.releases
    ensures w.db.releases[id].status == Active <==> ActiveOf(w.db.pointer) == Some(id)
    ensures exists chain :: HasLineage(w.db.releases, id, chain)
                            && forall i, j :: 0 <= i < j < |chain| ==> chain[i] != chain[j]
  {
    hide IsLineage, PromotionInv, ContentInv;
    ReachableIsGood(w);
    var chain :| HasLineage(w.db.releases, id, chain);
    forall i, j | 0 <= i < j < |chain| ensures chain[i] != chain[j] {
      if chain[i] == chain[j] { LineageHasNoRepeats(w.db.releases, chain, i, j); }
    }
  }

  /** No constraint of the database and no count check ever fires. */
  lemma ConstraintsNeverFire(w: World, b: Bundle, expected: Option<Id>, id: Id, previous: Option<Id>)
    requires Reachable(w) && IsLoaded(b)
    ensures Stage(w.db, b, expected).Err? ==> !IsIntegrityError(Stage(w.db, b, expected).error)
    ensures Promote(w.db, id, previous).Err? ==> !IsIntegrityError(Promote(w.db, id, previous).error)
    ensures Rollback(w.db, id).Err? ==> !IsIntegrityError(Rollback(w.db, id).error)
  {
    hide Stage, Promote, Rollback, PromotionInv, IsLoaded;
    ReachableIsGood(w);
    StageOutcome(w, b, expected);
    PromoteOutcome(w, id, previous);
    RollbackOutcome(w, id);
  }

  /** Length of the lineage that ends in the active release. */
  function Depth(w: World): nat {
    |w.line|
  }

  lemma DepthIsLineageLength(w: World, id: Id, chain: seq<Id>)
    requires Reachable(w) && ActiveOf(w.db.pointer) == Some(id) && HasLineage(w.db.releases, id, chain)
    ensures Depth(w) == |chain|
  {
    ReachableIsGood(w);
    LineageIsUnique(w.db.releases, w.line, chain);
  }

  /**
   An effective promotion makes the lineage one longer and names a release that was never
   promoted before; a roll-back makes it one shorter; nothing else moves the pointer.
   */
  lemma LineageMovesByOne(w: World, op: Op)
    requires Reachable(w) && Admissible(op)
    ensures var w' := Step(w, op);
            match op
            case PromoteOp(id, _) =>
              w' == w || (Depth(w') == Depth(w) + 1 && id !in w.promoted && w'.promoted == w.promoted + {id})
            case RollbackOp(_) => w' == w || Depth(w') + 1 == Depth(w)
            case _ => ActiveOf(w'.db.pointer) == ActiveOf(w.db.pointer) && w'.line == w.line
  {
    hide Promote, Rollback, Handover, PromotionInv, IsLoaded, RowsOf, IsLineage;
    ReachableIsGood(w);
    match op
    case StageOp(b, expected) => hide Stage; StageOutcome(w, b, expected);
    case AcceptOp(_, _) =>
    case PromoteOp(id, previous) => PromoteKeepsInv(w, id, previous); PromoteOutcome(w, id, previous);
    case RollbackOp(target) => RollbackOutcome(w, target);
  }

  /** `b` is the same bundle as far as its manifest hash can tell. */
  predicate HashIsFaithful(w: World, b: Bundle)
    requires b.id in w.created
  {
    b.manifestSha == w.created[b.id].manifestSha ==> b.previous == w.created[b.id].previous
  }

  lemma ParentIsNotHead(w: World, id: Id)
    requires PromotionInv(w) && IsLineage(w.db.releases, w.line)
    requires id in w.promoted && w.db.releases[id].status == Staged
    ensures w.db.releases[id].previous != HeadOf(w.line)
  {
    if w.db.releases[id].previous == HeadOf(w.line) {
      PromotableIsFresh(w, id);
    }
  }

  /**
   A release that was promoted and is no longer active can be staged again, which changes
   nothing, but can never again be accepted or promoted.
   */
  lemma SupersededStaysSuperseded(w: World, b: Bundle, expected: Option<Id>, previous: Option<Id>)
    requires Reachable(w) && b.id in w.promoted && ActiveOf(w.db.pointer) != Some(b.id)
    requires b.id in w.created ==> HashIsFaithful(w, b)
    ensures Accept(w.db, b, expected).Err?
    ensures Promote(w.db, b.id, previous).Err?
    ensures b.id in w.created && Step(w, StageOp(w.created[b.id], None)) == w && Stage(w.db, w.created[b.id], None).Ok?
  {
    hide RowsOf, IsLineage;
    ReachableIsGood(w);
    if w.db.releases[b.id].status == Staged {
      ParentIsNotHead(w, b.id);
    }
  }

  /** Repeating the bundle that created a release changes nothing; any other content is refused. */
  lemma StageIsIdempotent(w: World, b: Bundle)
    requires Reachable(w) && IsLoaded(b) && b.id in w.db.releases
    ensures b.id in w.created && Stage(w.db, w.created[b.id], None) == Ok(w.db)
    ensures Step(w, StageOp(b, None)) == w
    ensures Stage(w.db, b, None).Ok? <==>
            b.manifestSha == w.created[b.id].manifestSha && b.recordCount == w.created[b.id].recordCount
            && Hashes(RowsOf(b.records)) == Hashes(RowsOf(w.created[b.id].records))
  {
    hide RowsOf, LineageInv, PromotionInv, Hashes;
    ReachableIsGood(w);
  }

  /** Every release holds as many rows as it announces, all of its own id, and says so to readers. */
  lemma ReadersFindWhatIsAnnounced(w: World, id: Id)
    requires Reachable(w) && id in w.db.releases
    ensures |StoredRows(w.db, id)| == w.db.releases[id].recordCount > 0
    ensures Matching(StoredRows(w.db, id), id) == StoredRows(w.db, id).Keys
    ensures id in w.created && StoredRows(w.db, id) == RowsOf(w.created[id].records)
    ensures ActiveOf(w.db.pointer) == Some(id) ==> ReadCheck(w.db, id) == None && Ready(w.db)
  {
    ReachableIsGood(w);
    RowsMatchCount(w, id);
  }

  /** The check of the trusted reader before it hands out projections; None when it passes. */
  function ReadCheck(db: Database, expected: Id): Option<string> {
    var active := ActiveOf(db.pointer);
    if active.None? || active.value !in db.releases then Some("active public release is missing")
    else if active.value != expected then Some("active public release does not match expected release")
    else
      var release := db.releases[active.value];
      if release.status != Active then Some("active public release metadata is inconsistent")
      else if |StoredRows(db, active.value)| != release.recordCount then Some("active public release record count is inconsistent")
      else None
  }

  /** The readiness probe of the public site. */
  predicate Ready(db: Database) {
    var active := ActiveOf(db.pointer);
    active.Some? && active.value in db.releases
    && db.releases[active.value].recordCount > 0
    && |StoredRows(db, active.value)| == db.releases[active.value].recordCount
  }

  /* ---------- Siblings ---------- */

  lemma SameParentSamePlace(releases: map<Id, Release>, line: seq<Id>, i: nat, j: nat)
    requires IsLineage(releases, line) && i < |line| && j < |line|
    requires releases[line[i]].previous == releases[line[j]].previous
    ensures i == j
  {
    assert ParentIn(line, i) == ParentIn(line, j);
    if i + 1 < |line| {
      LineageHasNoRepeats(releases, line, i + 1, j + 1);
    }
  }

  /** Both are stored and name the same parent. */
  predicate Siblings(w: World, a: Id, b: Id) {
    a in w.db.releases && b in w.db.releases && w.db.releases[a].previous == w.db.releases[b].previous
  }

  /** Of all candidates that name the same parent, at most one is promoted and not rolled back. */
  lemma OnePromotedChildPerParent(w: World, a: Id, b: Id)
    requires Reachable(w) && a in w.promoted && b in w.promoted && Siblings(w, a, b)
    requires w.db.releases[a].status != RolledBack && w.db.releases[b].status != RolledBack
    ensures a == b
  {
    hide IsLineage, ContentInv, PointerInv;
    ReachableIsGood(w);
    var i :| 0 <= i < |w.line| && w.line[i] == a;
    var j :| 0 <= j < |w.line| && w.line[j] == b;
    SameParentSamePlace(w.db.releases, w.line, i, j);
  }

  lemma StepWithoutRollback(w: World, op: Op)
    requires Inv(w) && Admissible(op) && !op.RollbackOp?
    requires forall id :: id in w.db.releases ==> w.db.releases[id].status != RolledBack
    ensures var w' := Step(w, op); forall id :: id in w'.db.releases ==> w'.db.releases[id].status != RolledBack
  {
    hide Promote, PromotionInv, RowsOf, IsLineage, Stage;
    match op
    case StageOp(b, expected) => StageOutcome(w, b, expected);
    case AcceptOp(_, _) =>
    case PromoteOp(id, previous) => PromoteWithoutRollback(w, id, previous);
  }

  lemma PromoteWithoutRollback(w: World, id: Id, previous: Option<Id>)
    requires PointerInv(w) && ContentInv(w) && IsLineage(w.db.releases, w.line)
    requires forall r :: r in w.db.releases ==> w.db.releases[r].status != RolledBack
    ensures var r := Promote(w.db, id, previous);
            r.Ok? ==> forall x :: x in r.value.0.releases ==> r.value.0.releases[x].status != RolledBack
  {
    hide Promote, PointerInv, ContentInv, IsLineage;
    PromoteOutcome(w, id, previous);
  }

  /** In a run without roll-backs at most one candidate per parent is ever promoted. */
  lemma {:induction false} OnePromotedChildWithoutRollback(pointerRow: bool, ops: seq<Op>)
    requires AllAdmissible(ops) && forall op :: op in ops ==> !op.RollbackOp?
    ensures var w := Run(Initial(pointerRow), ops);
            && (forall id :: id in w.db.releases ==> w.db.releases[id].status != RolledBack)
            && (forall a, b :: a in w.promoted && b in w.promoted && Siblings(w, a, b) ==> a == b)
  {
    hide Step, Inv, Admissible;
    var w := Run(Initial(pointerRow), ops);
    if ops != [] {
      var front := ops[..|ops| - 1];
      assert forall op :: op in front ==> op in ops;
      assert ops[|ops| - 1] in ops;
      OnePromotedChildWithoutRollback(pointerRow, front);
      RunKeepsInv(Initial(pointerRow), front) by { InitialIsGood(pointerRow); }
      StepWithoutRollback(Run(Initial(pointerRow), front), ops[|ops| - 1]);
    }
    RunKeepsInv(Initial(pointerRow), ops) by { InitialIsGood(pointerRow); }
    assert Reachable(w);
    PromotedAreReleases(w);
    forall a, b | a in w.promoted && b in w.promoted && Siblings(w, a, b)
      ensures a == b
    {
      OnePromotedChildPerParent(w, a, b);
    }
  }

  lemma PromotedAreReleases(w: World)
    requires Inv(w)
    ensures w.promoted <= w.db.releases.Keys
  {
  }

  lemma InitialIsGood(pointerRow: bool)
    ensures Inv(Initial(pointerRow))
  {
  }

  lemma RollbackSucceeds(w: World)
    requires Inv(w) && |w.line| > 1
    ensures Rollback(w.db, w.line[1]) == Ok(Database(
              Handover(w.db.releases, HeadOf(w.line), RolledBack, w.line[1]), w.db.projections, Some(Some(w.line[1]))))
  {
    hide ContentInv;
    assert ParentIn(w.line, 0) == w.db.releases[w.line[0]].previous;
    if w.line[0] == w.line[1] { LineageHasNoRepeats(w.db.releases, w.line, 0, 1); }
  }

  lemma PromoteSucceeds(w: World, id: Id)
    requires Inv(w) && id in w.db.releases && id !in w.promoted
    requires w.db.releases[id].previous == HeadOf(w.line)
    ensures Promote(w.db, id, HeadOf(w.line)).Ok? && Promote(w.db, id, HeadOf(w.line)).value.1
  {
    hide IsLineage, LineageInv, ContentInv, PromotionInv, RowsOf;
    RowsMatchCount(w, id);
    FreshIsStaged(w, id);
    PromotedIsNotHead(w, id);
    PromoteOutcome(w, id, HeadOf(w.line)) by { LineOfInv(w); }
  }

  lemma FreshIsStaged(w: World, id: Id)
    requires PromotionInv(w) && id in w.db.releases && id !in w.promoted
    ensures w.db.releases[id].status == Staged
  {
  }

  lemma StageSucceeds(w: World, b: Bundle)
    requires Inv(w) && IsLoaded(b) && b.id !in w.db.releases && b.previous == HeadOf(w.line)
    ensures Stage(w.db, b, None).Ok?
  {
    hide InsertAll, RowsOf, Matching, IsLineage, LineageInv, PromotionInv;
    InsertsFit(b.records, b.id);
    MatchingIsAll(RowsOf(b.records), b.id);
    HeadIsStored(w);
  }

  lemma HeadIsStored(w: World)
    requires PromotionInv(w)
    ensures w.line != [] ==> w.line[0] in w.db.releases
  {
    assert w.line != [] ==> w.line[0] in w.line;
  }

  lemma StepStaysReachable(w: World, op: Op)
    requires Reachable(w) && Admissible(op)
    ensures Reachable(Step(w, op))
  {
    hide Step, Admissible;
    var pointerRow: bool, ops :| AllAdmissible(ops) && w == Run(Initial(pointerRow), ops);
    var longer := ops + [op];
    assert longer[..|longer| - 1] == ops;
    assert AllAdmissible(longer) && Step(w, op) == Run(Initial(pointerRow), longer);
  }

  lemma {:induction false} RunStaysReachable(w: World, ops: seq<Op>)
    requires Reachable(w) && AllAdmissible(ops)
    ensures Reachable(Run(w, ops))
  {
    hide Step, Admissible, Reachable;
    if ops != [] {
      assert forall op :: op in ops[..|ops| - 1] ==> op in ops;
      RunStaysReachable(w, ops[..|ops| - 1]);
      assert ops[|ops| - 1] in ops;
      StepStaysReachable(Run(w, ops[..|ops| - 1]), ops[|ops| - 1]);
    }
  }

  /** Every release of `w` is in `w'`, with the same parent. */
  predicate Extends(w: World, w': World) {
    forall id :: id in w.db.releases ==>
      id in w'.db.releases && w'.db.releases[id].previous == w.db.releases[id].previous
  }

  /** A new bundle on the active release can be staged and promoted. */
  lemma PublishingSucceeds(w: World, b: Bundle)
    requires Reachable(w) && IsLoaded(b) && b.id !in w.db.releases && b.previous == HeadOf(w.line)
    ensures var w' := Step(Step(w, StageOp(b, None)), PromoteOp(b.id, b.previous));
            && Reachable(w') && Extends(w, w') && w'.line == [b.id] + w.line && w'.promoted == w.promoted + {b.id}
            && w'.db.releases.Keys == w.db.releases.Keys + {b.id} && w'.db.releases[b.id].previous == b.previous
  {
    hide Stage, Promote, Handover, RowsOf, IsLineage, LineageInv, PromotionInv, ContentInv, PointerInv, IsLoaded, Reachable;
    ReachableIsGood(w);
    LineOfInv(w);
    PromotedAreReleases(w);
    StageSucceeds(w, b);
    StageOutcome(w, b, None);
    var staged := Step(w, StageOp(b, None));
    StepStaysReachable(w, StageOp(b, None));
    ReachableIsGood(staged);
    LineOfInv(staged);
    PromoteSucceeds(staged, b.id);
    PromoteOutcome(staged, b.id, b.previous);
    HandoverKeepsParents(staged.db.releases, HeadOf(staged.line), Staged, b.id);
    StepStaysReachable(staged, PromoteOp(b.id, b.previous));
  }

  /** The active release can be rolled back whenever it has a predecessor. */
  lemma RollingBackSucceeds(w: World)
    requires Reachable(w) && |w.line| > 1
    ensures var w' := Step(w, RollbackOp(w.line[1]));
            && Reachable(w') && Extends(w, w') && w'.line == w.line[1..] && w'.promoted == w.promoted
            && w'.db.releases.Keys == w.db.releases.Keys
            && w.line[0] in w'.db.releases && w'.db.releases[w.line[0]].status == RolledBack
  {
    hide Rollback, Handover, LineageInv, PromotionInv, ContentInv, Reachable;
    ReachableIsGood(w);
    LineOfInv(w);
    RollbackSucceeds(w);
    RollbackOutcome(w, w.line[1]);
    HandoverKeepsParents(w.db.releases, HeadOf(w.line), RolledBack, w.line[1]);
    StepStaysReachable(w, RollbackOp(w.line[1]));
  }

  /**
   A roll-back reopens the parent: afterwards a staged sibling of the release that was
   rolled back can be promoted, so both siblings have been promoted in the same run.
   */
  lemma SiblingFollowsRollback(w: World, sibling: Id)
    requires Inv(w) && |w.line| > 1 && sibling !in w.promoted && Siblings(w, w.line[0], sibling)
    ensures var after := Step(Step(w, RollbackOp(w.line[1])), PromoteOp(sibling, Some(w.line[1])));
            && ActiveOf(after.db.pointer) == Some(sibling)
            && w.line[0] in after.promoted && sibling in after.promoted
            && Siblings(after, w.line[0], sibling)
  {
    hide Promote, Rollback, Handover, ContentInv, LineageInv;
    var target := w.line[1];
    RollbackSucceeds(w);
    var back := Step(w, RollbackOp(target));
    RollbackKeepsInv(w, target);
    LineOfInv(w);
    assert ParentIn(w.line, 0) == w.db.releases[w.line[0]].previous;
    RollbackOutcome(w, target);
    HandoverKeepsParents(w.db.releases, HeadOf(w.line), RolledBack, target);
    assert w.line[0] in w.line;
    PromoteSucceeds(back, sibling);
    LineOfInv(back);
    PromoteOutcome(back, sibling, Some(target));
    HandoverKeepsParents(back.db.releases, HeadOf(back.line), Staged, sibling);
  }

  /**
   In every reachable state whose active release has a predecessor, rolling back lets any new
   bundle with the same parent be staged and promoted: two distinct promoted siblings.
   */
  lemma RollbackReopensParent(w: World, b: Bundle)
    requires Reachable(w) && |w.line| > 1
    requires IsLoaded(b) && b.id !in w.db.releases && b.previous == Some(w.line[1])
    ensures var back := Step(w, RollbackOp(w.line[1]));
            var after := Step(Step(back, StageOp(b, None)), PromoteOp(b.id, b.previous));
            && Reachable(after) && ActiveOf(after.db.pointer) == Some(b.id)
            && w.line[0] != b.id && w.line[0] in after.promoted && b.id in after.promoted
            && Siblings(after, w.line[0], b.id)
  {
    hide Step, Reachable, IsLineage, LineageInv, PromotionInv, ContentInv, IsLoaded;
    ReachableIsGood(w);
    HeadIsPromoted(w);
    RollingBackSucceeds(w);
    var back := Step(w, RollbackOp(w.line[1]));
    PublishingSucceeds(back, b);
    ReachableIsGood(Step(Step(back, StageOp(b, None)), PromoteOp(b.id, b.previous)));
  }

  lemma HeadIsPromoted(w: World)
    requires Inv(w) && w.line != []
    ensures w.line[0] in w.promoted && w.line[0] in w.db.releases
    ensures |w.line| > 1 ==> w.db.releases[w.line[0]].previous == Some(w.line[1])
  {
    assert w.line[0] in w.line;
    assert ParentIn(w.line, 0) == w.db.releases[w.line[0]].previous;
  }

  /**
   A second child of a parent can be promoted exactly when the first was rolled back and the
   parent is active again.
   */
  lemma SecondChildNeedsRollback(w: World, first: Id, second: Id)
    requires Reachable(w) && first in w.promoted && second !in w.promoted && Siblings(w, first, second)
    ensures var parent := w.db.releases[second].previous;
            var r := Promote(w.db, second, parent);
            r.Ok? && r.value.1 <==> w.db.releases[first].status == RolledBack && ActiveOf(w.db.pointer) == parent
  {
    hide Promote, Handover, ContentInv, IsLineage, LineageInv;
    ReachableIsGood(w);
    LineOfInv(w);
    var parent := w.db.releases[second].previous;
    PromoteOutcome(w, second, parent);
    if parent == HeadOf(w.line) {
      PromoteSucceeds(w, second);
      if w.db.releases[first].status == Staged {
        PromotableIsFresh(w, first);
      }
      if first in w.line {
        HeadIsNoChild(w, first);
      }
    }
  }

  lemma HeadIsNoParent(releases: map<Id, Release>, line: seq<Id>, i: nat)
    requires IsLineage(releases, line) && i < |line|
    ensures ParentIn(line, i) != HeadOf(line)
  {
    hide IsLineage;
    if ParentIn(line, i) == HeadOf(line) {
      LineageHasNoRepeats(releases, line, 0, i + 1);
    }
  }

  /** No release of the line is a child of its head. */
  lemma HeadIsNoChild(w: World, id: Id)
    requires Inv(w) && id in w.line
    ensures w.db.releases[id].previous != HeadOf(w.line)
  {
    hide PointerInv, PromotionInv, ContentInv, HasLineage, ParentIn, HeadOf;
    var i :| 0 <= i < |w.line| && w.line[i] == id;
    HeadIsNoParent(w.db.releases, w.line, i);
  }

  /* ---------- What every transaction answers, told by the history ---------- */

  /** The operator names another release than the bundle's. */
  predicate NamesAnother(b: Bundle, expected: Option<Id>) {
    match expected
    case None => false
    case Some(id) => id != "" && id != b.id
  }

  /** Which payload hash the records carry for which company. */
  function PayloadsOf(records: seq<Record>): set<(string, string)> {
    set r | r in records :: (r.inn, r.row.payloadSha)
  }

  lemma RowsHoldRecords(records: seq<Record>)
    requires DistinctInns(records)
    ensures forall r :: r in records ==> r.inn in RowsOf(records) && RowsOf(records)[r.inn] == r.row
    ensures forall inn :: inn in RowsOf(records) ==> exists r :: r in records && r.inn == inn
  {
    hide DistinctInns;
    forall i | 0 <= i < |records| ensures records[i].inn in RowsOf(records) && RowsOf(records)[records[i].inn] == records[i].row {
      RowIsHeld(records, i);
    }
    forall inn | inn in RowsOf(records) ensures exists r :: r in records && r.inn == inn {
      RowIsOfRecord(records, inn);
    }
  }

  lemma {:induction false} RowIsHeld(records: seq<Record>, i: nat)
    requires DistinctInns(records) && i < |records|
    ensures records[i].inn in RowsOf(records) && RowsOf(records)[records[i].inn] == records[i].row
  {
    var n := |records| - 1;
    if i < n {
      RowIsHeld(records[..n], i);
      assert records[i].inn != records[n].inn;
    }
  }

  lemma {:induction false} RowIsOfRecord(records: seq<Record>, inn: string)
    requires inn in RowsOf(records)
    ensures exists r :: r in records && r.inn == inn
  {
    var n := |records| - 1;
    if inn != records[n].inn {
      RowIsOfRecord(records[..n], inn);
      var r :| r in records[..n] && r.inn == inn;
      assert r in records;
    } else {
      assert records[n] in records;
    }
  }

  lemma HashIsPayload(records: seq<Record>, inn: string, sha: string)
    requires DistinctInns(records)
    ensures inn in Hashes(RowsOf(records)) && Hashes(RowsOf(records))[inn] == sha <==> (inn, sha) in PayloadsOf(records)
  {
    hide RowsOf, DistinctInns;
    RowsHoldRecords(records);
    if (inn, sha) in PayloadsOf(records) {
      var r :| r in records && (r.inn, r.row.payloadSha) == (inn, sha);
    }
    if inn in RowsOf(records) {
      var r :| r in records && r.inn == inn;
      assert RowsOf(records)[inn] == r.row;
    }
  }

  lemma SameHashesExactly(a: seq<Record>, b: seq<Record>)
    requires DistinctInns(a) && DistinctInns(b)
    ensures Hashes(RowsOf(a)) == Hashes(RowsOf(b)) <==> PayloadsOf(a) == PayloadsOf(b)
  {
    hide RowsOf, DistinctInns, Hashes, PayloadsOf;
    var x, y := Hashes(RowsOf(a)), Hashes(RowsOf(b));
    forall inn, sha ensures inn in x && x[inn] == sha <==> (inn, sha) in PayloadsOf(a) { HashIsPayload(a, inn, sha); }
    forall inn, sha ensures inn in y && y[inn] == sha <==> (inn, sha) in PayloadsOf(b) { HashIsPayload(b, inn, sha); }
    if PayloadsOf(a) == PayloadsOf(b) {
      assert forall inn :: inn in x ==> (inn, x[inn]) in PayloadsOf(a);
      assert forall inn :: inn in y ==> (inn, y[inn]) in PayloadsOf(b);
    }
    if x == y {
      SamePairs(a, b);
    }
  }

  lemma SamePairs(a: seq<Record>, b: seq<Record>)
    requires DistinctInns(a) && DistinctInns(b) && Hashes(RowsOf(a)) == Hashes(RowsOf(b))
    ensures PayloadsOf(a) == PayloadsOf(b)
  {
    hide RowsOf, DistinctInns, Hashes, PayloadsOf;
    forall pair: (string, string) ensures pair in PayloadsOf(a) <==> pair in PayloadsOf(b) {
      HashIsPayload(a, pair.0, pair.1);
      HashIsPayload(b, pair.0, pair.1);
    }
  }

  /** What is stored of the bundle that created the release. */
  lemma CreatedIsKept(w: World, id: Id)
    requires Inv(w)
    ensures id in w.db.releases <==> id in w.created
    ensures id in w.created ==>
              && w.db.releases[id] == NewRelease(w.created[id]).(status := w.db.releases[id].status)
              && StoredRows(w.db, id) == RowsOf(w.created[id].records) && DistinctInns(w.created[id].records)
  {
    hide RowsOf, LineageInv, PointerInv, PromotionInv;
  }

  /** The status of a release, told by the history. */
  lemma StatusIsHistory(w: World, id: Id)
    requires Inv(w) && id in w.created
    ensures id in w.db.releases
    ensures w.db.releases[id].status == RolledBack <==> id in w.promoted && id !in w.line
    ensures w.db.releases[id].status == Active <==> HeadOf(w.line) == Some(id)
  {
    hide RowsOf, LineageInv, IsLoaded;
  }

  /** How staging ends: by what was created so far and by which release is active. */
  lemma StageAnswers(w: World, b: Bundle, expected: Option<Id>)
    requires Reachable(w) && IsLoaded(b)
    ensures var r := Stage(w.db, b, expected);
            if NamesAnother(b, expected) then r == Err(WrongRelease)
            else if b.id in w.created then
              var first := w.created[b.id];
              r == if b.manifestSha != first.manifestSha || b.recordCount != first.recordCount then Err(DifferentContent)
                   else if PayloadsOf(b.records) != PayloadsOf(first.records) then Err(DifferentPayload)
                   else Ok(w.db)
            else if b.previous != HeadOf(w.line) then r == Err(ParentNotActive)
            else r == Ok(Database(
                           w.db.releases[b.id := NewRelease(b)], w.db.projections[b.id := RowsOf(b.records)],
                           Some(HeadOf(w.line))))
  {
    hide RowsOf, Reachable, LineageInv, PromotionInv, ContentInv, Hashes, PayloadsOf, InsertAll, Matching, IsAdmittedCount;
    ReachableIsGood(w);
    CreatedIsKept(w, b.id);
    LineOfInv(w) by { hide *; }
    if b.id in w.created {
      SameHashesExactly(b.records, w.created[b.id].records);
    } else if b.previous == HeadOf(w.line) {
      StageSucceeds(w, b);
      StageOutcome(w, b, None);
    }
  }

  /** How accepting ends; it changes nothing. */
  lemma AcceptAnswers(w: World, b: Bundle, expected: Option<Id>)
    requires Reachable(w) && IsLoaded(b)
    ensures Accept(w.db, b, expected) ==
            if NamesAnother(b, expected) then Err(WrongRelease)
            else if b.id !in w.created || (b.id in w.promoted && b.id !in w.line) then Err(NotStaged)
            else if b.manifestSha != w.created[b.id].manifestSha || b.recordCount != w.created[b.id].recordCount then Err(MetadataMismatch)
            else if PayloadsOf(b.records) != PayloadsOf(w.created[b.id].records) then Err(PayloadMismatch)
            else if HeadOf(w.line) == Some(b.id) then Ok(true)
            else if HeadOf(w.line) != b.previous then Err(ParentNoLongerActive)
            else Ok(false)
  {
    hide RowsOf, Reachable, LineageInv, PromotionInv, ContentInv, Hashes, PayloadsOf;
    ReachableIsGood(w);
    CreatedIsKept(w, b.id);
    if b.id in w.created {
      SameHashesExactly(b.records, w.created[b.id].records);
      StatusIsHistory(w, b.id);
    }
  }

  /** `after` differs from `before` only in that `next` becomes active and `left` gets another status. */
  predicate TakesOver(before: Database, after: Database, left: Option<Id>, status: Status, next: Id) {
    && after.projections == before.projections && after.pointer == Some(Some(next))
    && after.releases.Keys == before.releases.Keys
    && forall id :: id in before.releases ==>
         after.releases[id] == before.releases[id].(status := if id == next then Active
                                                              else if left == Some(id) then status
                                                              else before.releases[id].status)
  }

  /** How promoting ends. */
  lemma PromoteAnswers(w: World, id: Id, previous: Option<Id>)
    requires Reachable(w)
    ensures var r := Promote(w.db, id, previous);
            if id !in w.created then r == Err(MissingRelease)
            else if HeadOf(w.line) == Some(id) then r == Ok((w.db, false))
            else if id in w.promoted && id !in w.line then r == Err(NotStaged)
            else if w.created[id].previous != previous || HeadOf(w.line) != previous then r == Err(ParentNoLongerActive)
            else r.Ok? && r.value.1 && TakesOver(w.db, r.value.0, HeadOf(w.line), Staged, id)
  {
    hide RowsOf, Reachable, LineageInv, PromotionInv, ContentInv, Handover, IsLineage;
    ReachableIsGood(w);
    LineOfInv(w);
    CreatedIsKept(w, id);
    if id in w.created {
      StatusIsHistory(w, id);
      RowsMatchCount(w, id);
      if w.db.releases[id].status == Staged && w.created[id].previous == previous == HeadOf(w.line) {
        PromotableIsFresh(w, id);
        PromoteSucceeds(w, id);
        PromoteOutcome(w, id, previous);
        HandoverKeepsParents(w.db.releases, HeadOf(w.line), Staged, id);
      }
    }
  }

  /** How rolling back ends. */
  lemma RollbackAnswers(w: World, target: Id)
    requires Reachable(w)
    ensures var r := Rollback(w.db, target);
            if w.line == [] then r == Err(NoActiveRelease)
            else if |w.line| == 1 || w.line[1] != target then r == Err(NotExactPrevious)
            else r.Ok? && TakesOver(w.db, r.value, HeadOf(w.line), RolledBack, target)
  {
    hide RowsOf, Reachable, LineageInv, PromotionInv, ContentInv, Handover, SetStatus;
    ReachableIsGood(w);
    LineOfInv(w);
    if w.line != [] {
      HeadIsPromoted(w);
      assert ParentIn(w.line, 0) == w.db.releases[w.line[0]].previous;
      if |w.line| > 1 && w.line[1] == target {
        RollbackSucceeds(w);
        RollbackOutcome(w, target);
        HandoverKeepsParents(w.db.releases, HeadOf(w.line), RolledBack, target);
      }
    }
  }

  /* ---------- A run with two promoted children of one parent ---------- */

  const ROOT: Id := "release-root"
  const FIRST: Id := "release-first"
  const SECOND: Id := "release-second"

  function Sample(id: Id, previous: Option<Id>): Bundle {
    Bundle(id, "public-projection-v1", seq(40, _ => '0'), previous, 1, id, [Record("7707083893", Row(id, id))])
  }

  lemma SampleIsLoaded(id: Id, previous: Option<Id>)
    requires IsSafeRelease(id)
    ensures IsLoaded(Sample(id, previous))
  {
    hide IsSafeRelease;
  }

  /** Publish a root and a first child, roll the child back, publish a second child. */
  function TwoChildren(): seq<Op> {
    [StageOp(Sample(ROOT, None), None), PromoteOp(ROOT, None),
     StageOp(Sample(FIRST, Some(ROOT)), None), PromoteOp(FIRST, Some(ROOT)),
     RollbackOp(ROOT),
     StageOp(Sample(SECOND, Some(ROOT)), None), PromoteOp(SECOND, Some(ROOT))]
  }

  lemma NamesAreSafe()
    ensures IsSafeRelease(ROOT) && IsSafeRelease(FIRST) && IsSafeRelease(SECOND)
    ensures ROOT != FIRST && ROOT != SECOND && FIRST != SECOND
  {
    assert |ROOT| < |FIRST| < |SECOND|;
  }

  lemma RunSteps(w: World, ops: seq<Op>, n: nat)
    requires n < |ops|
    ensures Run(w, ops[..n + 1]) == Step(Run(w, ops[..n]), ops[n])
  {
    assert ops[..n + 1][..n] == ops[..n];
  }

  lemma TwoChildrenAreAdmissible()
    ensures AllAdmissible(TwoChildren())
  {
    hide IsLoaded, IsSafeRelease, ROOT, FIRST, SECOND, Sample;
    NamesAreSafe();
    SampleIsLoaded(ROOT, None);
    SampleIsLoaded(FIRST, Some(ROOT));
    SampleIsLoaded(SECOND, Some(ROOT));
  }

  lemma TwoChildrenArePromoted()
    ensures AllAdmissible(TwoChildren())
    ensures var w := Run(Initial(true), TwoChildren());
            FIRST in w.promoted && SECOND in w.promoted && Siblings(w, FIRST, SECOND)
  {
    hide Step, Reachable, Run, IsLoaded, IsSafeRelease, ROOT, FIRST, SECOND, AllAdmissible;
    var ops := TwoChildren();
    var root, first, second := Sample(ROOT, None), Sample(FIRST, Some(ROOT)), Sample(SECOND, Some(ROOT));
    TwoChildrenAreAdmissible();
    NamesAreSafe();
    SampleIsLoaded(ROOT, None);
    SampleIsLoaded(FIRST, Some(ROOT));
    SampleIsLoaded(SECOND, Some(ROOT));
    InitialIsReachable();
    PublishingSucceeds(Initial(true), root);
    var w := Step(Step(Initial(true), StageOp(root, None)), PromoteOp(ROOT, None));
    PublishingSucceeds(w, first);
    w := Step(Step(w, StageOp(first, None)), PromoteOp(FIRST, Some(ROOT)));
    RollbackReopensParent(w, second);
    RunFromStart(ops);
    assert ops[..7] == ops;
  }

  lemma InitialIsReachable()
    ensures Reachable(Initial(true))
  {
    assert AllAdmissible([]) && Initial(true) == Run(Initial(true), []);
  }

  lemma RunFromStart(ops: seq<Op>)
    requires |ops| == 7
    ensures Run(Initial(true), ops[..7]) ==
            Step(Step(Step(Step(Step(Step(Step(Initial(true), ops[0]), ops[1]), ops[2]), ops[3]), ops[4]), ops[5]), ops[6])
  {
    hide Step;
    assert Run(Initial(true), ops[..0]) == Initial(true);
    forall n | 0 <= n < 7 ensures Run(Initial(true), ops[..n + 1]) == Step(Run(Initial(true), ops[..n]), ops[n]) {
      RunSteps(Initial(true), ops, n);
    }
  }
}
