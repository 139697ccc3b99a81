/**
 Archiving the legacy tables and installing the canonical ones:
 scripts/reconcile_legacy_v3_schema.py.

 What the database does when it moves a table, runs the migration or stamps a revision is a
 parameter. Whatever it does, applying either changes nothing or installs the canonical tables
 with every row of the first version still there. The archive is verified before the migration
 runs, and afterwards only by its fingerprint: the legacy rows are still in it exactly when the
 migration left them alone, and the database is recognised as done exactly when the migration
 left the archive's set of tables alone.
 */
module LegacyArchive {
  import opened Bytes
  import opened Wrappers

  const RISK := "company_risk_assessments_v3"
  const SUMMARY := "company_summaries_v3"
  const V1_RISK := "company_risk_assessments"
  const V1_SUMMARY := "company_summaries"

  const LEGACY_REVISION := "c0c90245de4b"
  const CANONICAL_PARENT := "a7d4e9f2c6b1"
  const CANONICAL_TARGET := "c8e3f1a6b904"
  const CURRENT_SCHEMA_HEAD := "b5d7f9a1c3e6"

  const PROTECTED_DATABASE := "kontragent"
  const EXPECTED_POSTGRES_MAJOR := 18

  /**
   A table: its schema, and its rows as canonical bytes in the order of their keys. The table
   of revisions is kept apart, as `revisions`.
   */
  datatype Table = Table(definition: string, rows: seq<Item>)

  type Schema = map<string, Table>

  datatype Identity = Identity(database: string, host: string, port: int, versionNumber: nat)

  datatype Database = Database(public: Schema, archive: Option<Schema>, revisions: seq<string>, identity: Identity)

  /**
   Fingerprints, audits, the hash and the database's own operations. `stamp` is what the
   revision table holds after a stamp; `upgrade` takes and leaves the public schema and the
   archive, and is None when the migration fails.
   */
  datatype Tools = Tools(
    sha: seq<Byte> -> string,
    keyOf: Item -> Item,
    isLegacy: (string, string, bool) -> bool,
    isCanonical: (string, string) -> bool,
    parentFits: Schema -> bool,
    isComplete: Schema -> bool,
    move: Table -> Table,
    stamp: (seq<string>, string) -> seq<string>,
    upgrade: (Schema, Schema) -> Option<(Schema, Schema)>)

  /* ---------- Classification ---------- */

  datatype State =
    | ELIGIBLE_FOR_RECONCILIATION
    | NO_OP_PASS
    | NO_OP_VERIFY_PASS
    | BLOCKED_PARTIAL_RECONCILIATION_STATE
    | BLOCKED_UNRECOGNIZED_LEGACY_STATE

  predicate IsLegacyTable(tables: Schema, name: string, archived: bool, tools: Tools) {
    name in tables && tools.isLegacy(name, tables[name].definition, archived)
  }

  predicate IsCanonicalTable(tables: Schema, name: string, tools: Tools) {
    name in tables && tools.isCanonical(name, tables[name].definition)
  }

  predicate IsLegacyExact(tables: Schema, archived: bool, tools: Tools) {
    IsLegacyTable(tables, RISK, archived, tools) && IsLegacyTable(tables, SUMMARY, archived, tools)
  }

  predicate IsCanonicalExact(tables: Schema, tools: Tools) {
    IsCanonicalTable(tables, RISK, tools) && IsCanonicalTable(tables, SUMMARY, tools)
  }

  predicate IsArchiveExact(db: Database, tools: Tools) {
    db.archive.Some? && db.archive.value.Keys == {RISK, SUMMARY} && IsLegacyExact(db.archive.value, true, tools)
  }

  predicate IsInstalled(db: Database, tools: Tools) {
    (db.revisions == [CANONICAL_TARGET] || db.revisions == [CURRENT_SCHEMA_HEAD]) && IsCanonicalExact(db.public, tools)
  }

  predicate IsEligible(db: Database, tools: Tools) {
    db.revisions == [LEGACY_REVISION] && IsLegacyExact(db.public, false, tools) && tools.parentFits(db.public) && db.archive.None?
  }

  predicate IsPartial(db: Database, tools: Tools) {
    db.archive.Some?
    || IsLegacyTable(db.public, RISK, false, tools) != IsLegacyTable(db.public, SUMMARY, false, tools)
    || IsCanonicalTable(db.public, RISK, tools) != IsCanonicalTable(db.public, SUMMARY, tools)
  }

  function Classify(db: Database, tools: Tools): State {
    if IsEligible(db, tools) then ELIGIBLE_FOR_RECONCILIATION
    else if IsInstalled(db, tools) && db.archive.None? then NO_OP_PASS
    else if IsInstalled(db, tools) && IsArchiveExact(db, tools) then NO_OP_VERIFY_PASS
    else if IsPartial(db, tools) then BLOCKED_PARTIAL_RECONCILIATION_STATE
    else BLOCKED_UNRECOGNIZED_LEGACY_STATE
  }

  /** The accepting states exclude each other, so the order of the tests never matters. */
  lemma StatesAreExclusive(db: Database, tools: Tools)
    ensures Classify(db, tools) == ELIGIBLE_FOR_RECONCILIATION <==> IsEligible(db, tools)
    ensures Classify(db, tools) == NO_OP_PASS <==> IsInstalled(db, tools) && db.archive.None?
    ensures Classify(db, tools) == NO_OP_VERIFY_PASS <==> IsInstalled(db, tools) && IsArchiveExact(db, tools)
  {
    assert LEGACY_REVISION[1] == '0' && CANONICAL_TARGET[1] == '8' && CURRENT_SCHEMA_HEAD[1] == '5';
    assert [LEGACY_REVISION][0][1] == '0' && [CANONICAL_TARGET][0][1] == '8' && [CURRENT_SCHEMA_HEAD][0][1] == '5';
  }

  /* ---------- Inventories ---------- */

  function AggregateHash(rows: seq<Item>, tools: Tools): string {
    tools.sha(Framed(rows))
  }

  function Keys(rows: seq<Item>, tools: Tools): (r: seq<Item>)
    ensures |r| == |rows|
  {
    if rows == [] then [] else Keys(rows[..|rows| - 1], tools) + [tools.keyOf(rows[|rows| - 1])]
  }

  datatype Inventory = Inventory(count: nat, keyHash: string, rowHash: string)

  function InventoryOf(rows: seq<Item>, tools: Tools): Inventory {
    Inventory(|rows|, AggregateHash(Keys(rows, tools), tools), AggregateHash(rows, tools))
  }

  /** The digest is fed row by row. */
  method TakeInventory(rows: seq<Item>, tools: Tools) returns (r: Inventory)
    ensures r == InventoryOf(rows, tools)
  {
    hide Framed;
    var keys := Feed(Keys(rows, tools));
    var stream := Feed(rows);
    return Inventory(|rows|, tools.sha(keys), tools.sha(stream));
  }

  function SnapshotOf(tables: Schema, name: string, tools: Tools): Option<Inventory> {
    if name in tables then Some(InventoryOf(tables[name].rows, tools)) else None
  }

  /** How many rows every other table has. */
  function BusinessCounts(tables: Schema): map<string, nat> {
    map name | name in tables && name != RISK && name != SUMMARY :: |tables[name].rows|
  }

  ghost predicate IsInjective(sha: seq<Byte> -> string) {
    forall a, b :: sha(a) == sha(b) ==> a == b
  }

  /** Equal inventories are inventories of the same rows. */
  lemma InventoryDeterminesRows(a: seq<Item>, b: seq<Item>, tools: Tools)
    requires IsInjective(tools.sha) && InventoryOf(a, tools) == InventoryOf(b, tools)
    ensures a == b
  {
    FramingIsInjective(a, b);
  }

  /* ---------- Applying ---------- */

  datatype Request = Request(
    database: Option<string>,
    host: Option<string>,
    port: Option<int>,
    allowProtected: bool,
    authorization: Option<string>)

  datatype Blocked =
    | PostgresMajorMismatch
    | DatabaseNotConfirmed
    | HostNotConfirmed
    | PortNotConfirmed
    | ProtectedDatabase
    | NotEligible(state: State)
    | ArchiveFingerprintFailed
    | LegacyRowsNotPreserved
    | ParentNotAdopted
    | MigrationFailed
    | TargetNotReached
    | FinalCanonicalFailed
    | FinalArchiveFailed
    | FinalSchemaIncomplete
    | V1NotPreserved
    | BusinessCountsNotPreserved

  datatype Outcome = NoOp(state: State) | RECONCILED_PASS

  function Guard(identity: Identity, request: Request): Option<Blocked> {
    if identity.versionNumber / 10000 != EXPECTED_POSTGRES_MAJOR then Some(PostgresMajorMismatch)
    else if request.database != Some(identity.database) then Some(DatabaseNotConfirmed)
    else if request.host != Some(identity.host) then Some(HostNotConfirmed)
    else if request.port != Some(identity.port) then Some(PortNotConfirmed)
    else if identity.database == PROTECTED_DATABASE
            && !(request.allowProtected && request.authorization == Some(identity.database)) then Some(ProtectedDatabase)
    else None
  }

  /** The archive that the two moves make. */
  function Archived(public: Schema, tools: Tools): Schema
    requires RISK in public && SUMMARY in public
  {
    map[RISK := tools.move(public[RISK]), SUMMARY := tools.move(public[SUMMARY])]
  }

  /** The public schema that the moves leave. */
  function Left(public: Schema): Schema {
    public - {RISK} - {SUMMARY}
  }

  predicate RowsMatch(public: Schema, archive: Schema, tools: Tools)
    requires RISK in public && SUMMARY in public && RISK in archive && SUMMARY in archive
  {
    InventoryOf(public[RISK].rows, tools) == InventoryOf(archive[RISK].rows, tools)
    && InventoryOf(public[SUMMARY].rows, tools) == InventoryOf(archive[SUMMARY].rows, tools)
  }

  /** What the last checks find wrong with the two upgraded schemas. */
  function FinalCheck(before: Schema, after: Schema, archive: Schema, tools: Tools): Option<Blocked> {
    if !IsCanonicalExact(after, tools) then Some(FinalCanonicalFailed)
    else if !IsLegacyExact(archive, true, tools) then Some(FinalArchiveFailed)
    else if !tools.isComplete(after) then Some(FinalSchemaIncomplete)
    else if SnapshotOf(before, V1_RISK, tools) != SnapshotOf(after, V1_RISK, tools)
            || SnapshotOf(before, V1_SUMMARY, tools) != SnapshotOf(after, V1_SUMMARY, tools) then Some(V1NotPreserved)
    else if BusinessCounts(before) != BusinessCounts(after) then Some(BusinessCountsNotPreserved)
    else None
  }

  /** What applying to an eligible database gives. */
  function Reconcile(db: Database, tools: Tools): Result<Database, Blocked>
    requires IsEligible(db, tools)
  {
    var archive := Archived(db.public, tools);
    if !IsLegacyExact(archive, true, tools) then Err(ArchiveFingerprintFailed)
    else if !RowsMatch(db.public, archive, tools) then Err(LegacyRowsNotPreserved)
    else if tools.stamp([], CANONICAL_PARENT) != [CANONICAL_PARENT] then Err(ParentNotAdopted)
    else
      var upgraded := tools.upgrade(Left(db.public), archive);
      if upgraded.None? then Err(MigrationFailed)
      else if tools.stamp([CANONICAL_PARENT], CANONICAL_TARGET) != [CANONICAL_TARGET] then Err(TargetNotReached)
      else
        var wrong := FinalCheck(db.public, upgraded.value.0, upgraded.value.1, tools);
        if wrong.Some? then Err(wrong.value)
        else Ok(Database(upgraded.value.0, Some(upgraded.value.1), [CANONICAL_TARGET], db.identity))
  }

  /** The outcome of applying, and the database the transaction leaves. */
  function Apply(db: Database, request: Request, tools: Tools): (Result<Outcome, Blocked>, Database) {
    var guard := Guard(db.identity, request);
    var state := Classify(db, tools);
    if guard.Some? then (Err(guard.value), db)
    else if state == NO_OP_PASS || state == NO_OP_VERIFY_PASS then (Ok(NoOp(state)), db)
    else if state != ELIGIBLE_FOR_RECONCILIATION then (Err(NotEligible(state)), db)
    else
      assert IsEligible(db, tools) by { StatesAreExclusive(db, tools); }
      var reconciled := Reconcile(db, tools);
      if reconciled.Err? then (Err(reconciled.error), db) else (Ok(RECONCILED_PASS), reconciled.value)
  }

  class LegacyDatabase {
    const identity: Identity
    var public: Schema
    var archive: Option<Schema>
    var revisions: seq<string>

    constructor (db: Database)
      ensures Contents() == db
    {
      identity, public, archive, revisions := db.identity, db.public, db.archive, db.revisions;
    }

    function Contents(): Database
      reads this
    {
      Database(public, archive, revisions, identity)
    }

    /** The caller's transaction rolls back. */
    method Restore(saved: Database)
      requires saved.identity == identity
      modifies this
      ensures Contents() == saved
    {
      public, archive, revisions := saved.public, saved.archive, saved.revisions;
    }

    method CreateArchive()
      requires archive.None?
      modifies this`archive
      ensures archive == Some(map[])
    {
      archive := Some(map[]);
    }

    method MoveToArchive(name: string, tools: Tools)
      requires name in public && archive.Some?
      modifies this`public, this`archive
      ensures public == old(public) - {name}
      ensures archive == Some(old(archive.value)[name := tools.move(old(public[name]))])
    {
      archive := Some(archive.value[name := tools.move(public[name])]);
      public := public - {name};
    }

    /** Alembic's stamp, onto an emptied revision table when purging. */
    method Stamp(revision: string, purge: bool, tools: Tools)
      modifies this`revisions
      ensures revisions == tools.stamp(if purge then [] else old(revisions), revision)
    {
      if purge {
        revisions := [];
      }
      revisions := tools.stamp(revisions, revision);
    }

    /** Runs the migration; false when it fails. */
    method RunMigration(tools: Tools) returns (ok: bool)
      requires archive.Some?
      modifies this`public, this`archive
      ensures var upgraded := tools.upgrade(old(public), old(archive.value));
              ok == upgraded.Some?
              && (ok ==> public == upgraded.value.0 && archive == Some(upgraded.value.1))
    {
      var upgraded := tools.upgrade(public, archive.value);
      if upgraded.None? {
        return false;
      }
      public, archive := upgraded.value.0, Some(upgraded.value.1);
      return true;
    }

    method ApplyReconciliation(request: Request, tools: Tools) returns (r: Result<Outcome, Blocked>)
      modifies this
      ensures (r, Contents()) == Apply(old(Contents()), request, tools)
    {
      hide Guard, Classify, IsLegacyExact, InventoryOf, FinalCheck;
      var saved := Contents();
      var state := Classify(saved, tools);
      var guard := Guard(identity, request);
      if guard.Some? {
        return Err(guard.value);
      }
      if state == NO_OP_PASS || state == NO_OP_VERIFY_PASS {
        return Ok(NoOp(state));
      }
      if state != ELIGIBLE_FOR_RECONCILIATION {
        return Err(NotEligible(state));
      }
      EligibleHasTables(saved, tools);
      var blocked := MoveTables(saved, tools);
      if blocked.Some? {
        Restore(saved);
        return Err(blocked.value);
      }
      Stamp(CANONICAL_PARENT, true, tools);
      if revisions != [CANONICAL_PARENT] {
        Restore(saved);
        return Err(ParentNotAdopted);
      }
      var migrated := RunMigration(tools);
      if !migrated {
        Restore(saved);
        return Err(MigrationFailed);
      }
      Stamp(CANONICAL_TARGET, false, tools);
      if revisions != [CANONICAL_TARGET] {
        Restore(saved);
        return Err(TargetNotReached);
      }
      var wrong := FinalCheck(saved.public, public, archive.value, tools);
      if wrong.Some? {
        Restore(saved);
        return Err(wrong.value);
      }
      return Ok(RECONCILED_PASS);
    }

    /** Moves both tables into the new archive and verifies them there. */
    method MoveTables(saved: Database, tools: Tools) returns (blocked: Option<Blocked>)
      requires Contents() == saved && IsEligible(saved, tools) && RISK in public && SUMMARY in public
      modifies this
      ensures public == Left(saved.public) && archive == Some(Archived(saved.public, tools)) && revisions == saved.revisions
      ensures blocked == (var moved := Archived(saved.public, tools);
                          if !IsLegacyExact(moved, true, tools) then Some(ArchiveFingerprintFailed)
                          else if !RowsMatch(saved.public, moved, tools) then Some(LegacyRowsNotPreserved)
                          else None)
    {
      hide IsLegacyExact, InventoryOf;
      NamesDiffer();
      var risk := TakeInventory(public[RISK].rows, tools);
      var summary := TakeInventory(public[SUMMARY].rows, tools);
      CreateArchive();
      MoveToArchive(RISK, tools);
      MoveToArchive(SUMMARY, tools);
      assert archive.value == Archived(saved.public, tools);
      if !IsLegacyExact(archive.value, true, tools) {
        return Some(ArchiveFingerprintFailed);
      }
      var archivedRisk := TakeInventory(archive.value[RISK].rows, tools);
      var archivedSummary := TakeInventory(archive.value[SUMMARY].rows, tools);
      if risk != archivedRisk || summary != archivedSummary {
        return Some(LegacyRowsNotPreserved);
      }
      return None;
    }
  }

  lemma NamesDiffer()
    ensures RISK != SUMMARY
  {
    assert |RISK| != |SUMMARY|;
  }

  lemma EligibleHasTables(db: Database, tools: Tools)
    requires Classify(db, tools) == ELIGIBLE_FOR_RECONCILIATION
    ensures IsEligible(db, tools) && db.archive.None? && RISK in db.public && SUMMARY in db.public
  {
    hide IsInstalled, IsArchiveExact, IsPartial;
  }

  /* ---------- What applying guarantees ---------- */

  /** What the migration is given: the public schema without the moved tables, and the archive. */
  function MigrationInput(db: Database, tools: Tools): (Schema, Schema)
    requires RISK in db.public && SUMMARY in db.public
  {
    (Left(db.public), Archived(db.public, tools))
  }

  /** The migration neither adds a table to the archive nor drops one. */
  predicate MigrationKeepsArchiveTables(db: Database, tools: Tools)
    requires RISK in db.public && SUMMARY in db.public
  {
    var (public, archive) := MigrationInput(db, tools);
    var upgraded := tools.upgrade(public, archive);
    upgraded.Some? && upgraded.value.1.Keys == archive.Keys
  }

  /** The migration leaves the rows of the archived tables as they are. */
  predicate MigrationKeepsArchiveRows(db: Database, tools: Tools)
    requires RISK in db.public && SUMMARY in db.public
  {
    var (public, archive) := MigrationInput(db, tools);
    var upgraded := tools.upgrade(public, archive);
    upgraded.Some? && SameRows(archive, upgraded.value.1, RISK) && SameRows(archive, upgraded.value.1, SUMMARY)
  }

  /** Anything but a reconciliation leaves the database as it was; a reconciliation installs the canonical tables. */
  lemma ApplyIsAllOrNothing(db: Database, request: Request, tools: Tools)
    ensures var (r, after) := Apply(db, request, tools);
            && (r != Ok(RECONCILED_PASS) ==> after == db)
            && (r == Ok(RECONCILED_PASS) ==>
                  && IsEligible(db, tools) && IsInstalled(after, tools)
                  && after.archive.Some? && IsLegacyExact(after.archive.value, true, tools)
                  && after.revisions == [CANONICAL_TARGET] && after.identity == db.identity)
  {
    hide Guard, Classify, RowsMatch, IsCanonicalExact, IsLegacyExact, SnapshotOf, BusinessCounts;
    StatesAreExclusive(db, tools);
  }

  /**
   A reconciled database is recognised as done exactly when the migration left the archive's
   set of tables alone; otherwise it counts as partial.
   */
  lemma DoneIsRecognisedExactly(db: Database, request: Request, tools: Tools)
    requires Apply(db, request, tools).0 == Ok(RECONCILED_PASS)
    ensures IsEligible(db, tools)
    ensures Classify(Apply(db, request, tools).1, tools) ==
              if MigrationKeepsArchiveTables(db, tools) then NO_OP_VERIFY_PASS else BLOCKED_PARTIAL_RECONCILIATION_STATE
  {
    hide Guard, RowsMatch, IsCanonicalExact, IsLegacyExact, SnapshotOf, BusinessCounts, IsCanonicalTable, IsLegacyTable;
    EligibleHasTables(db, tools);
    ApplyIsAllOrNothing(db, request, tools);
    var after := Apply(db, request, tools).1;
    StatesAreExclusive(after, tools);
  }

  /**
   Every row of the first-version tables is kept and no other table gains or loses rows,
   whatever the database did. The legacy rows are in the archive exactly when the migration
   left its rows alone.
   */
  lemma RowsArePreserved(db: Database, request: Request, tools: Tools)
    requires IsInjective(tools.sha) && Apply(db, request, tools).0 == Ok(RECONCILED_PASS)
    ensures var after := Apply(db, request, tools).1;
            && RISK in db.public && SUMMARY in db.public
            && after.archive.Some? && RISK in after.archive.value && SUMMARY in after.archive.value
            && (after.archive.value[RISK].rows == db.public[RISK].rows
                && after.archive.value[SUMMARY].rows == db.public[SUMMARY].rows
                <==> MigrationKeepsArchiveRows(db, tools))
            && SameRows(db.public, after.public, V1_RISK) && SameRows(db.public, after.public, V1_SUMMARY)
            && (forall name :: name != RISK && name != SUMMARY ==> SameCount(db.public, after.public, name))
  {
    hide Guard, Classify, IsCanonicalExact, InventoryOf, SnapshotOf, BusinessCounts;
    EligibleHasTables(db, tools);
    NamesDiffer();
    var archive, after := Archived(db.public, tools), Apply(db, request, tools).1;
    InventoryDeterminesRows(db.public[RISK].rows, archive[RISK].rows, tools);
    InventoryDeterminesRows(db.public[SUMMARY].rows, archive[SUMMARY].rows, tools);
    SnapshotDeterminesRows(db.public, after.public, V1_RISK, tools);
    SnapshotDeterminesRows(db.public, after.public, V1_SUMMARY, tools);
    CountsDetermineSizes(db.public, after.public);
  }

  predicate SameRows(before: Schema, after: Schema, name: string) {
    (name in before <==> name in after) && (name in before ==> before[name].rows == after[name].rows)
  }

  predicate SameCount(before: Schema, after: Schema, name: string) {
    (name in before <==> name in after) && (name in before ==> |before[name].rows| == |after[name].rows|)
  }

  lemma SnapshotDeterminesRows(before: Schema, after: Schema, name: string, tools: Tools)
    requires IsInjective(tools.sha) && SnapshotOf(before, name, tools) == SnapshotOf(after, name, tools)
    ensures SameRows(before, after, name)
  {
    hide InventoryOf;
    if name in before {
      InventoryDeterminesRows(before[name].rows, after[name].rows, tools);
    }
  }

  lemma CountsDetermineSizes(before: Schema, after: Schema)
    requires BusinessCounts(before) == BusinessCounts(after)
    ensures forall name :: name != RISK && name != SUMMARY ==> SameCount(before, after, name)
  {
    forall name | name != RISK && name != SUMMARY ensures SameCount(before, after, name) {
      var a, b := BusinessCounts(before), BusinessCounts(after);
      assert (name in before <==> name in a) && (name in after <==> name in b);
      assert name in a ==> a[name] == |before[name].rows| && b[name] == |after[name].rows|;
    }
  }

  /**
   After any success, applying again changes nothing. It succeeds, unless the first one was a
   reconciliation whose migration changed the archive's set of tables.
   */
  lemma SecondApplyChangesNothing(db: Database, request: Request, tools: Tools)
    requires Apply(db, request, tools).0.Ok?
    ensures var (r, after) := Apply(db, request, tools);
            var (again, last) := Apply(after, request, tools);
            && last == after
            && (r.value != RECONCILED_PASS ==> again == r)
            && (r.value == RECONCILED_PASS ==>
                  && IsEligible(db, tools)
                  && again == if MigrationKeepsArchiveTables(db, tools) then Ok(NoOp(NO_OP_VERIFY_PASS))
                              else Err(NotEligible(BLOCKED_PARTIAL_RECONCILIATION_STATE)))
  {
    hide Guard, Classify, Reconcile, MigrationKeepsArchiveTables, IsEligible;
    ApplyIsAllOrNothing(db, request, tools);
    if Apply(db, request, tools).0.value == RECONCILED_PASS {
      DoneIsRecognisedExactly(db, request, tools);
    }
  }

  /* ---------- What a migration can do to the archive unnoticed ---------- */

  const LEGACY := "legacy"
  const CANONICAL := "canonical"

  /** Tables known by their definition alone, and a migration that leaves the given archive. */
  function ToolsLeaving(archive: Schema, sha: seq<Byte> -> string, keyOf: Item -> Item): Tools {
    Tools(
      sha, keyOf,
      (name, definition, archived) => definition == LEGACY,
      (name, definition) => definition == CANONICAL,
      tables => true,
      tables => true,
      table => table,
      (before, revision) => [revision],
      (public: Schema, before) => Some((public[RISK := Table(CANONICAL, [])][SUMMARY := Table(CANONICAL, [])], archive)))
  }

  const COPY := Identity("copy", "localhost", 5432, 180000)
  const CONFIRMED := Request(Some("copy"), Some("localhost"), Some(5432), false, None)

  /** A database with one row in each legacy table. */
  function LegacyOf(risk: Item, summary: Item): Database {
    Database(map[RISK := Table(LEGACY, [risk]), SUMMARY := Table(LEGACY, [summary])], None, [LEGACY_REVISION], COPY)
  }

  /** Any archive with the right fingerprints passes the last checks. */
  lemma MigrationDecidesArchive(archive: Schema, sha: seq<Byte> -> string, keyOf: Item -> Item, risk: Item, summary: Item)
    requires RISK in archive && SUMMARY in archive
    requires archive[RISK].definition == LEGACY && archive[SUMMARY].definition == LEGACY
    ensures var tools := ToolsLeaving(archive, sha, keyOf);
            var (r, after) := Apply(LegacyOf(risk, summary), CONFIRMED, tools);
            r == Ok(RECONCILED_PASS) && after.archive == Some(archive)
  {
    hide InventoryOf, BusinessCounts;
    NamesDiffer();
    var tools, db := ToolsLeaving(archive, sha, keyOf), LegacyOf(risk, summary);
    StatesAreExclusive(db, tools);
    var (public, moved) := MigrationInput(db, tools);
    assert moved == db.public;
    var upgraded := tools.upgrade(public, moved).value;
    OnlyOurTables(db.public, tools);
    OnlyOurTables(upgraded.0, tools);
  }

  /** A schema of only the two tables has no table of the first version and counts nothing. */
  lemma OnlyOurTables(tables: Schema, tools: Tools)
    requires tables.Keys == {RISK, SUMMARY}
    ensures SnapshotOf(tables, V1_RISK, tools) == SnapshotOf(tables, V1_SUMMARY, tools) == None
    ensures BusinessCounts(tables) == map[]
  {
    assert V1_RISK != RISK && V1_RISK != SUMMARY && V1_SUMMARY != RISK && V1_SUMMARY != SUMMARY;
    assert BusinessCounts(tables).Keys == {};
  }

  /** A reconciliation passes although the migration emptied an archived table. */
  lemma EmptiedArchivePasses(sha: seq<Byte> -> string, keyOf: Item -> Item, risk: Item, summary: Item)
    ensures var tools := ToolsLeaving(map[RISK := Table(LEGACY, []), SUMMARY := Table(LEGACY, [summary])], sha, keyOf);
            var (r, after) := Apply(LegacyOf(risk, summary), CONFIRMED, tools);
            && r == Ok(RECONCILED_PASS)
            && after.archive.Some? && RISK in after.archive.value && after.archive.value[RISK].rows == []
            && Classify(after, tools) == NO_OP_VERIFY_PASS
  {
    hide Apply, Classify;
    NamesDiffer();
    var archive := map[RISK := Table(LEGACY, []), SUMMARY := Table(LEGACY, [summary])];
    MigrationDecidesArchive(archive, sha, keyOf, risk, summary);
    DoneIsRecognisedExactly(LegacyOf(risk, summary), CONFIRMED, ToolsLeaving(archive, sha, keyOf));
  }

  /** A reconciliation passes although the migration added a table to the archive; the result then counts as partial. */
  lemma ThirdArchiveTablePasses(sha: seq<Byte> -> string, keyOf: Item -> Item, risk: Item, summary: Item)
    ensures var archive := map[RISK := Table(LEGACY, [risk]), SUMMARY := Table(LEGACY, [summary]), "other" := Table(LEGACY, [])];
            var tools := ToolsLeaving(archive, sha, keyOf);
            var (r, after) := Apply(LegacyOf(risk, summary), CONFIRMED, tools);
            r == Ok(RECONCILED_PASS) && Classify(after, tools) == BLOCKED_PARTIAL_RECONCILIATION_STATE
  {
    hide Apply, Classify;
    NamesDiffer();
    assert |"other"| < |SUMMARY| && |"other"| < |RISK|;
    var archive := map[RISK := Table(LEGACY, [risk]), SUMMARY := Table(LEGACY, [summary]), "other" := Table(LEGACY, [])];
    MigrationDecidesArchive(archive, sha, keyOf, risk, summary);
    var tools, db := ToolsLeaving(archive, sha, keyOf), LegacyOf(risk, summary);
    DoneIsRecognisedExactly(db, CONFIRMED, tools);
    assert "other" in archive && "other" !in Archived(db.public, tools);
  }

  /** Nothing succeeds on a database that was not confirmed, or on the protected one without both permissions. */
  lemma SuccessIsConfirmed(db: Database, request: Request, tools: Tools)
    requires Apply(db, request, tools).0.Ok?
    ensures request.database == Some(db.identity.database) && request.host == Some(db.identity.host)
    ensures request.port == Some(db.identity.port) && db.identity.versionNumber / 10000 == EXPECTED_POSTGRES_MAJOR
    ensures db.identity.database == PROTECTED_DATABASE ==>
              request.allowProtected && request.authorization == Some(PROTECTED_DATABASE)
  {
    hide Classify, Reconcile;
  }
}
