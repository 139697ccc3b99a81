/**
 The public release protocol as a state machine: stage, accept, promote and roll back, each
 one atomic transaction that either commits or leaves the database as it was.

 The database carries the constraints of its migrations: the primary keys, the foreign keys,
 the partial index that lets at most one release be active, and the checks on record counts
 and INNs. The checks on statuses and on the singleton row hold by type.
 */
module ReleaseModel {
  import opened Formats
  import opened Wrappers

  type Id = string

  datatype Status = Staged | Active | RolledBack

  datatype Release = Release(
    schemaVersion: string,
    sourceSha: string,
    previous: Option<Id>,
    recordCount: nat,
    manifestSha: string,
    status: Status)

  /** A projection row: its payload hash and the release id inside its payload. */
  datatype Row = Row(payloadSha: string, releaseId: Id)

  /** `pointer` is the singleton row of the publication state; None when the row is absent. */
  datatype Database = Database(
    releases: map<Id, Release>,
    projections: map<Id, map<string, Row>>,
    pointer: Option<Option<Id>>)

  datatype Record = Record(inn: string, row: Row)

  /** A bundle as the loader hands it over. */
  datatype Bundle = Bundle(
    id: Id,
    schemaVersion: string,
    sourceSha: string,
    previous: Option<Id>,
    recordCount: nat,
    manifestSha: string,
    records: seq<Record>)

  datatype Error =
    | WrongRelease
    | DifferentContent
    | DifferentPayload
    | ParentNotActive
    | CheckViolation
    | DuplicateKey
    | ForeignKeyViolation
    | UniqueViolation
    | FailedValidation
    | NotStaged
    | MetadataMismatch
    | PayloadMismatch
    | ParentNoLongerActive
    | MissingRelease
    | CountChanged
    | NoActiveRelease
    | NotExactPrevious
    | PreviousMissing

  /** Errors that only a broken database could produce. */
  predicate IsIntegrityError(e: Error) {
    e.CheckViolation? || e.DuplicateKey? || e.ForeignKeyViolation? || e.UniqueViolation? || e.FailedValidation? || e.CountChanged?
  }

  /* ---------- Bundles ---------- */

  predicate DistinctInns(records: seq<Record>) {
    forall i, j :: 0 <= i < j < |records| ==> records[i].inn != records[j].inn
  }

  /** What the check on record counts admits. */
  const MAX_RECORDS: nat := 10000

  predicate IsAdmittedCount(n: nat) {
    1 <= n <= MAX_RECORDS
  }

  /** What the loader has established about every bundle it returns. */
  predicate IsLoaded(b: Bundle) {
    && IsSafeRelease(b.id) && |b.records| == b.recordCount && IsAdmittedCount(b.recordCount)
    && DistinctInns(b.records)
    && (forall r :: r in b.records ==> r.row.releaseId == b.id && IsInn(r.inn))
  }

  function RowsOf(records: seq<Record>): map<string, Row> {
    if records == [] then map[]
    else RowsOf(records[..|records| - 1])[records[|records| - 1].inn := records[|records| - 1].row]
  }

  function Hashes(rows: map<string, Row>): map<string, string> {
    map inn | inn in rows :: rows[inn].payloadSha
  }

  /* ---------- Reading the database ---------- */

  function ActiveOf(pointer: Option<Option<Id>>): Option<Id> {
    if pointer.Some? then pointer.value else None
  }

  function StoredRows(db: Database, id: Id): map<string, Row> {
    if id in db.projections then db.projections[id] else map[]
  }

  /** The rows after inserting the records in order, or the constraint that refuses one. */
  function InsertAll(rows: map<string, Row>, records: seq<Record>): Result<map<string, Row>, Error> {
    if records == [] then Ok(rows)
    else
      var before := InsertAll(rows, records[..|records| - 1]);
      var last := records[|records| - 1];
      if before.Err? then before
      else if !IsInn(last.inn) then Err(CheckViolation)
      else if last.inn in before.value then Err(DuplicateKey)
      else Ok(before.value[last.inn := last.row])
  }

  function Matching(rows: map<string, Row>, id: Id): set<string> {
    set inn | inn in rows && rows[inn].releaseId == id
  }

  predicate AnotherIsActive(releases: map<Id, Release>, id: Id) {
    exists other :: other in releases && other != id && releases[other].status == Active
  }

  /** UPDATE of one status; the partial index refuses a second active release. */
  function SetStatus(releases: map<Id, Release>, id: Id, status: Status): Result<map<Id, Release>, Error> {
    if id !in releases then Ok(releases)
    else if status == Active && AnotherIsActive(releases, id) then Err(UniqueViolation)
    else Ok(releases[id := releases[id].(status := status)])
  }

  /** UPDATE of the singleton row: nothing happens when the row is absent. */
  function SetPointer(pointer: Option<Option<Id>>, id: Id): Option<Option<Id>> {
    if pointer.None? then None else Some(Some(id))
  }

  /* ---------- The four transactions ---------- */

  predicate Misdirected(id: Id, expected: Option<Id>) {
    expected.Some? && expected.value != "" && id != expected.value
  }

  function EnsurePointer(pointer: Option<Option<Id>>): Option<Option<Id>> {
    if pointer.None? then Some(None) else pointer
  }

  function NewRelease(b: Bundle): Release {
    Release(b.schemaVersion, b.sourceSha, b.previous, b.recordCount, b.manifestSha, Staged)
  }

  function Stage(db: Database, b: Bundle, expected: Option<Id>): Result<Database, Error> {
    var pointer := EnsurePointer(db.pointer);
    if Misdirected(b.id, expected) then Err(WrongRelease)
    else if b.id in db.releases then
      var existing := db.releases[b.id];
      if existing.manifestSha != b.manifestSha || existing.recordCount != b.recordCount then Err(DifferentContent)
      else if Hashes(StoredRows(db, b.id)) != Hashes(RowsOf(b.records)) then Err(DifferentPayload)
      else Ok(db.(pointer := pointer))
    else if b.previous != ActiveOf(pointer) then Err(ParentNotActive)
    else if !IsAdmittedCount(b.recordCount) then Err(CheckViolation)
    else if b.previous.Some? && b.previous.value !in db.releases then Err(ForeignKeyViolation)
    else
      var rows := InsertAll(StoredRows(db, b.id), b.records);
      if rows.Err? then Err(rows.error)
      else if |rows.value| != b.recordCount || |Matching(rows.value, b.id)| != b.recordCount then Err(FailedValidation)
      else
        Ok(Database(
          db.releases[b.id := NewRelease(b)],
          db.projections[b.id := rows.value],
          pointer))
  }

  /** Accepting changes nothing; it only says whether the candidate may go on. */
  function Accept(db: Database, b: Bundle, expected: Option<Id>): Result<bool, Error> {
    if Misdirected(b.id, expected) then Err(WrongRelease)
    else if b.id !in db.releases || db.releases[b.id].status == RolledBack then Err(NotStaged)
    else
      var release := db.releases[b.id];
      if release.manifestSha != b.manifestSha || release.recordCount != b.recordCount then Err(MetadataMismatch)
      else if Hashes(StoredRows(db, b.id)) != Hashes(RowsOf(b.records)) then Err(PayloadMismatch)
      else if release.status == Staged && ActiveOf(db.pointer) != b.previous then Err(ParentNoLongerActive)
      else Ok(ActiveOf(db.pointer) == Some(b.id))
  }

  /** The database after promotion, and whether the promotion had any effect. */
  function Promote(db: Database, id: Id, expectedPrevious: Option<Id>): Result<(Database, bool), Error> {
    if id !in db.releases then Err(MissingRelease)
    else
      var release, active := db.releases[id], ActiveOf(db.pointer);
      if active == Some(id) && release.status == Active then Ok((db, false))
      else if release.status != Staged then Err(NotStaged)
      else if release.previous != expectedPrevious || active != expectedPrevious then Err(ParentNoLongerActive)
      else if |StoredRows(db, id)| != release.recordCount then Err(CountChanged)
      else
        var demoted := if active.Some? then SetStatus(db.releases, active.value, Staged) else Ok(db.releases);
        if demoted.Err? then Err(demoted.error)
        else
          var promoted := SetStatus(demoted.value, id, Active);
          if promoted.Err? then Err(promoted.error)
          else Ok((db.(releases := promoted.value, pointer := SetPointer(db.pointer, id)), true))
  }

  function Rollback(db: Database, previous: Id): Result<Database, Error> {
    var active := ActiveOf(db.pointer);
    if active.None? then Err(NoActiveRelease)
    else if active.value !in db.releases || db.releases[active.value].previous != Some(previous) then Err(NotExactPrevious)
    else if previous !in db.releases then Err(PreviousMissing)
    else
      var retired := SetStatus(db.releases, active.value, RolledBack);
      if retired.Err? then Err(retired.error)
      else
        var restored := SetStatus(retired.value, previous, Active);
        if restored.Err? then Err(restored.error)
        else Ok(db.(releases := restored.value, pointer := SetPointer(db.pointer, previous)))
  }

  /* ---------- Runs ---------- */

  datatype Op =
    | StageOp(bundle: Bundle, expected: Option<Id>)
    | AcceptOp(bundle: Bundle, expected: Option<Id>)
    | PromoteOp(id: Id, previous: Option<Id>)
    | RollbackOp(target: Id)

  /**
   A database with its history: the lineage of the active release, newest first, the
   releases that were ever effectively promoted, and the bundle that created each release.
   */
  datatype World = World(db: Database, line: seq<Id>, promoted: set<Id>, created: map<Id, Bundle>)

  predicate Admissible(op: Op) {
    match op
    case StageOp(b, _) => IsLoaded(b)
    case AcceptOp(b, _) => IsLoaded(b)
    case _ => true
  }

  function Step(w: World, op: Op): World {
    match op
    case StageOp(b, expected) =>
      (match Stage(w.db, b, expected)
       case Err(_) => w
       case Ok(db) => w.(db := db, created := if b.id in w.created then w.created else w.created[b.id := b]))
    case AcceptOp(_, _) => w
    case PromoteOp(id, previous) =>
      (match Promote(w.db, id, previous)
       case Err(_) => w
       case Ok((db, effective)) =>
         if effective then w.(db := db, line := [id] + w.line, promoted := w.promoted + {id}) else w)
    case RollbackOp(target) =>
      (match Rollback(w.db, target)
       case Err(_) => w
       case Ok(db) => w.(db := db, line := if w.line == [] then [] else w.line[1..]))
  }

  /** The empty database, with or without its publication-state row. */
  function Initial(pointerRow: bool): World {
    World(Database(map[], map[], if pointerRow then Some(None) else None), [], {}, map[])
  }

  function Run(w: World, ops: seq<Op>): World {
    if ops == [] then w else Step(Run(w, ops[..|ops| - 1]), ops[|ops| - 1])
  }

  ghost predicate Reachable(w: World) {
    exists pointerRow: bool, ops :: AllAdmissible(ops) && w == Run(Initial(pointerRow), ops)
  }

  predicate AllAdmissible(ops: seq<Op>) {
    forall op :: op in ops ==> Admissible(op)
  }

  /* ---------- The invariant ---------- */

  function ParentIn(chain: seq<Id>, i: nat): Option<Id> {
    if i + 1 < |chain| then Some(chain[i + 1]) else None
  }

  /** `chain` leads from its first release through its parents to one without a parent. */
  predicate IsLineage(releases: map<Id, Release>, chain: seq<Id>) {
    forall i :: 0 <= i < |chain| ==> chain[i] in releases && releases[chain[i]].previous == ParentIn(chain, i)
  }

  ghost predicate HasLineage(releases: map<Id, Release>, id: Id, chain: seq<Id>) {
    chain != [] && chain[0] == id && IsLineage(releases, chain)
  }

  ghost predicate PointerInv(w: World) {
    && (w.db.pointer.None? ==> w.db.releases == map[])
    && ActiveOf(w.db.pointer) == (if w.line == [] then None else Some(w.line[0]))
    && forall id :: id in w.db.releases ==> (w.db.releases[id].status == Active <==> ActiveOf(w.db.pointer) == Some(id))
  }

  ghost predicate LineageInv(w: World) {
    && IsLineage(w.db.releases, w.line)
    && forall id :: id in w.db.releases ==> exists chain :: HasLineage(w.db.releases, id, chain)
  }

  ghost predicate PromotionInv(w: World) {
    && w.promoted <= w.db.releases.Keys
    && (forall id :: id in w.line ==> id in w.promoted && w.db.releases[id].status != RolledBack)
    && (forall id :: id in w.promoted && id !in w.line ==> w.db.releases[id].status == RolledBack)
    && (forall id :: id in w.db.releases && id !in w.promoted ==> w.db.releases[id].status == Staged)
  }

  /** Each release is what the bundle that created it said, row for row. */
  ghost predicate ContentInv(w: World) {
    && w.created.Keys == w.db.releases.Keys && w.db.projections.Keys == w.db.releases.Keys
    && forall id :: id in w.db.releases ==>
         var b, release := w.created[id], w.db.releases[id];
         && b.id == id && IsLoaded(b)
         && release == NewRelease(b).(status := release.status)
         && w.db.projections[id] == RowsOf(b.records)
  }

  ghost predicate Inv(w: World)
    ensures Inv(w) ==> forall id :: id in w.line ==> id in w.db.releases
  {
    PointerInv(w) && LineageInv(w) && PromotionInv(w) && ContentInv(w)
  }

  /* ---------- Lineages ---------- */

  lemma {:induction false} LineageIsUnique(releases: map<Id, Release>, a: seq<Id>, b: seq<Id>)
    requires IsLineage(releases, a) && IsLineage(releases, b)
    requires a != [] && b != [] && a[0] == b[0]
    ensures a == b
  {
    assert ParentIn(a, 0) == releases[a[0]].previous == ParentIn(b, 0);
    if |a| > 1 {
      LineageTail(releases, a, 1);
      LineageTail(releases, b, 1);
      LineageIsUnique(releases, a[1..], b[1..]);
      assert a == [a[0]] + a[1..] && b == [b[0]] + b[1..];
    }
  }

  lemma LineageTail(releases: map<Id, Release>, chain: seq<Id>, from: nat)
    requires IsLineage(releases, chain) && from <= |chain|
    ensures IsLineage(releases, chain[from..])
  {
    var tail := chain[from..];
    forall i | 0 <= i < |tail|
      ensures tail[i] in releases && releases[tail[i]].previous == ParentIn(tail, i)
    {
      assert tail[i] == chain[from + i] && ParentIn(tail, i) == ParentIn(chain, from + i);
    }
  }

  /** No release is its own ancestor. */
  lemma LineageHasNoRepeats(releases: map<Id, Release>, chain: seq<Id>, i: nat, j: nat)
    requires IsLineage(releases, chain) && i < |chain| && j < |chain| && chain[i] == chain[j]
    ensures i == j
  {
    LineageTail(releases, chain, i);
    LineageTail(releases, chain, j);
    LineageIsUnique(releases, chain[i..], chain[j..]);
  }

  /** Lineages only read parents, so changing statuses or adding releases keeps them. */
  lemma LineageSurvives(before: map<Id, Release>, after: map<Id, Release>, chain: seq<Id>)
    requires IsLineage(before, chain)
    requires forall id :: id in before ==> id in after && after[id].previous == before[id].previous
    ensures IsLineage(after, chain)
  {
    assert forall i :: 0 <= i < |chain| ==> chain[i] in before;
  }

  /* ---------- Rows ---------- */

  lemma {:induction false} RowsAre(records: seq<Record>)
    ensures forall inn :: inn in RowsOf(records) <==> exists i :: 0 <= i < |records| && records[i].inn == inn
  {
    if records != [] {
      var n := |records| - 1;
      RowsAre(records[..n]);
      assert forall i :: 0 <= i < n ==> records[..n][i] == records[i];
    }
  }

  lemma {:induction false} InsertsFit(records: seq<Record>, id: Id)
    requires DistinctInns(records)
    requires forall r :: r in records ==> r.row.releaseId == id && IsInn(r.inn)
    ensures InsertAll(map[], records) == Ok(RowsOf(records))
    ensures |RowsOf(records)| == |records|
    ensures forall inn :: inn in RowsOf(records) ==> RowsOf(records)[inn].releaseId == id
  {
    hide IsInn;
    if records != [] {
      var n := |records| - 1;
      var front := records[..n];
      InsertsFit(front, id);
      RowsAre(front);
      assert records[n].inn !in RowsOf(front);
      assert records[n] in records;
    }
  }

  lemma MatchingIsAll(rows: map<string, Row>, id: Id)
    requires forall inn :: inn in rows ==> rows[inn].releaseId == id
    ensures |Matching(rows, id)| == |rows|
  {
    assert Matching(rows, id) == rows.Keys;
  }
}
