/**
 Exactly when a reconciliation is carried out, when there is nothing to do, and how a
 database is classified, told by fingerprints, revisions and rows.
 */
module LegacyLaws {
  import opened Bytes
  import opened LegacyArchive
  import opened Wrappers

  /** The operator named this database, and unlocked it twice if it is the protected one. */
  predicate IsConfirmed(identity: Identity, request: Request) {
    && 180000 <= identity.versionNumber < 190000
    && request.database == Some(identity.database)
    && request.host == Some(identity.host)
    && request.port == Some(identity.port)
    && (identity.database == "kontragent" ==> request.allowProtected && request.authorization == Some("kontragent"))
  }

  predicate AreLegacy(tables: Schema, archived: bool, tools: Tools) {
    && RISK in tables && tools.isLegacy(RISK, tables[RISK].definition, archived)
    && SUMMARY in tables && tools.isLegacy(SUMMARY, tables[SUMMARY].definition, archived)
  }

  predicate AreCanonical(tables: Schema, tools: Tools) {
    && RISK in tables && tools.isCanonical(RISK, tables[RISK].definition)
    && SUMMARY in tables && tools.isCanonical(SUMMARY, tables[SUMMARY].definition)
  }

  /** A legacy database that nothing was done to yet. */
  predicate IsUntouched(db: Database, tools: Tools) {
    db.revisions == [LEGACY_REVISION] && AreLegacy(db.public, false, tools) && tools.parentFits(db.public) && db.archive == None
  }

  /** A database at one of the two canonical revisions with the canonical tables. */
  predicate IsDone(db: Database, tools: Tools) {
    && |db.revisions| == 1 && (db.revisions[0] == CANONICAL_TARGET || db.revisions[0] == CURRENT_SCHEMA_HEAD)
    && AreCanonical(db.public, tools)
  }

  /** The archive holds the two legacy tables and no other. */
  predicate HasExactArchive(db: Database, tools: Tools) {
    db.archive.Some? && AreLegacy(db.archive.value, true, tools) && db.archive.value.Keys <= {RISK, SUMMARY}
  }

  /** Equal numbers of rows and equal digests of keys and rows. */
  predicate SameInventory(a: seq<Item>, b: seq<Item>, tools: Tools) {
    |a| == |b| && tools.sha(Framed(Keys(a, tools))) == tools.sha(Framed(Keys(b, tools))) && tools.sha(Framed(a)) == tools.sha(Framed(b))
  }

  predicate SameTable(before: Schema, after: Schema, name: string, tools: Tools) {
    if name in before then name in after && SameInventory(before[name].rows, after[name].rows, tools) else name !in after
  }

  /** The moved tables are legacy tables of the archive with the rows they had. */
  predicate MovesSafely(db: Database, tools: Tools)
    requires RISK in db.public && SUMMARY in db.public
  {
    var risk, summary := tools.move(db.public[RISK]), tools.move(db.public[SUMMARY]);
    && tools.isLegacy(RISK, risk.definition, true) && tools.isLegacy(SUMMARY, summary.definition, true)
    && SameInventory(db.public[RISK].rows, risk.rows, tools) && SameInventory(db.public[SUMMARY].rows, summary.rows, tools)
  }

  predicate StampsExactly(tools: Tools) {
    tools.stamp([], CANONICAL_PARENT) == [CANONICAL_PARENT] && tools.stamp([CANONICAL_PARENT], CANONICAL_TARGET) == [CANONICAL_TARGET]
  }

  /** What the migration must leave for the final checks to pass. */
  ghost predicate LeavesGood(before: Schema, after: (Schema, Schema), tools: Tools) {
    && AreCanonical(after.0, tools) && AreLegacy(after.1, true, tools) && tools.isComplete(after.0)
    && SameTable(before, after.0, V1_RISK, tools) && SameTable(before, after.0, V1_SUMMARY, tools)
    && forall name :: name != RISK && name != SUMMARY ==> SameCount(before, after.0, name)
  }

  lemma ConfirmedExactly(identity: Identity, request: Request)
    ensures Guard(identity, request).None? <==> IsConfirmed(identity, request)
  {
    assert identity.versionNumber / 10000 == 18 <==> 180000 <= identity.versionNumber < 190000;
  }

  lemma UntouchedExactly(db: Database, tools: Tools)
    ensures IsEligible(db, tools) <==> IsUntouched(db, tools)
    ensures IsInstalled(db, tools) <==> IsDone(db, tools)
    ensures IsArchiveExact(db, tools) <==> HasExactArchive(db, tools)
  {
    hide RISK, SUMMARY, LEGACY_REVISION, CANONICAL_TARGET, CURRENT_SCHEMA_HEAD;
    assert |db.revisions| == 1 ==> db.revisions == [db.revisions[0]];
    if HasExactArchive(db, tools) {
      assert db.archive.value.Keys == {RISK, SUMMARY};
    }
  }

  /** How a database is classified. */
  lemma ClassifiedExactly(db: Database, tools: Tools)
    ensures var partial := db.archive.Some?
                           || IsLegacyTable(db.public, RISK, false, tools) != IsLegacyTable(db.public, SUMMARY, false, tools)
                           || IsCanonicalTable(db.public, RISK, tools) != IsCanonicalTable(db.public, SUMMARY, tools);
            Classify(db, tools) ==
              if IsUntouched(db, tools) then ELIGIBLE_FOR_RECONCILIATION
              else if IsDone(db, tools) && db.archive == None then NO_OP_PASS
              else if IsDone(db, tools) && HasExactArchive(db, tools) then NO_OP_VERIFY_PASS
              else if partial then BLOCKED_PARTIAL_RECONCILIATION_STATE
              else BLOCKED_UNRECOGNIZED_LEGACY_STATE
  {
    hide IsUntouched, IsDone, HasExactArchive, IsEligible, IsInstalled, IsArchiveExact, IsLegacyTable, IsCanonicalTable;
    UntouchedExactly(db, tools);
  }

  lemma InventoryExactly(a: seq<Item>, b: seq<Item>, tools: Tools)
    ensures InventoryOf(a, tools) == InventoryOf(b, tools) <==> SameInventory(a, b, tools)
  {
    hide Framed, Keys;
  }

  lemma SnapshotExactly(before: Schema, after: Schema, name: string, tools: Tools)
    ensures SnapshotOf(before, name, tools) == SnapshotOf(after, name, tools) <==> SameTable(before, after, name, tools)
  {
    hide InventoryOf, SameInventory;
    if name in before && name in after {
      InventoryExactly(before[name].rows, after[name].rows, tools);
    }
  }

  lemma CountsExactly(before: Schema, after: Schema)
    ensures BusinessCounts(before) == BusinessCounts(after) <==>
              forall name :: name != RISK && name != SUMMARY ==> SameCount(before, after, name)
  {
    hide RISK, SUMMARY;
    var a, b := BusinessCounts(before), BusinessCounts(after);
    if a == b {
      CountsDetermineSizes(before, after);
    }
    if forall name :: name != RISK && name != SUMMARY ==> SameCount(before, after, name) {
      forall name ensures (name in a <==> name in b) && (name in a ==> a[name] == b[name]) {
        if name != RISK && name != SUMMARY {
          assert SameCount(before, after, name);
        }
      }
    }
  }

  lemma FinalExactly(before: Schema, after: (Schema, Schema), tools: Tools)
    ensures FinalCheck(before, after.0, after.1, tools).None? <==> LeavesGood(before, after, tools)
  {
    hide SnapshotOf, BusinessCounts, SameTable, SameCount, RISK, SUMMARY, V1_RISK, V1_SUMMARY;
    SnapshotExactly(before, after.0, V1_RISK, tools);
    SnapshotExactly(before, after.0, V1_SUMMARY, tools);
    CountsExactly(before, after.0);
  }

  lemma MovesExactly(db: Database, tools: Tools)
    requires RISK in db.public && SUMMARY in db.public
    ensures var archive := Archived(db.public, tools);
            IsLegacyExact(archive, true, tools) && RowsMatch(db.public, archive, tools) <==> MovesSafely(db, tools)
  {
    hide InventoryOf, SameInventory;
    NamesDiffer();
    InventoryExactly(db.public[RISK].rows, tools.move(db.public[RISK]).rows, tools);
    InventoryExactly(db.public[SUMMARY].rows, tools.move(db.public[SUMMARY]).rows, tools);
  }

  /**
   A reconciliation is carried out exactly on a confirmed, untouched database whose tables
   move safely, when the stamps take and the migration leaves what the final checks want.
   */
  lemma ReconciledExactly(db: Database, request: Request, tools: Tools)
    ensures Apply(db, request, tools).0 == Ok(RECONCILED_PASS) <==>
              && IsConfirmed(db.identity, request) && IsUntouched(db, tools) && MovesSafely(db, tools) && StampsExactly(tools)
              && var migrated := tools.upgrade(Left(db.public), Archived(db.public, tools));
                 migrated.Some? && LeavesGood(db.public, migrated.value, tools)
  {
    hide Guard, Classify, IsLegacyExact, RowsMatch, FinalCheck, LeavesGood, MovesSafely, IsConfirmed, AreLegacy, IsEligible, StampsExactly;
    ConfirmedExactly(db.identity, request);
    UntouchedExactly(db, tools);
    StatesAreExclusive(db, tools);
    if IsUntouched(db, tools) {
      UntouchedHasTables(db, tools);
      MovesExactly(db, tools);
      StampsAre(tools);
      var migrated := tools.upgrade(Left(db.public), Archived(db.public, tools));
      if migrated.Some? {
        FinalExactly(db.public, migrated.value, tools);
      }
    }
  }

  lemma StampsAre(tools: Tools)
    ensures StampsExactly(tools) <==>
              tools.stamp([], CANONICAL_PARENT) == [CANONICAL_PARENT] && tools.stamp([CANONICAL_PARENT], CANONICAL_TARGET) == [CANONICAL_TARGET]
  {
  }

  lemma UntouchedHasTables(db: Database, tools: Tools)
    requires IsUntouched(db, tools)
    ensures RISK in db.public && SUMMARY in db.public
  {
  }

  /** There is nothing to do exactly on a confirmed database that is done, with no archive or the exact one. */
  lemma NothingToDoExactly(db: Database, request: Request, tools: Tools)
    ensures Apply(db, request, tools).0 == Ok(NoOp(NO_OP_PASS)) <==>
              IsConfirmed(db.identity, request) && IsDone(db, tools) && db.archive == None
    ensures Apply(db, request, tools).0 == Ok(NoOp(NO_OP_VERIFY_PASS)) <==>
              IsConfirmed(db.identity, request) && IsDone(db, tools) && HasExactArchive(db, tools)
    ensures Apply(db, request, tools).0.Ok? && Apply(db, request, tools).0.value.NoOp? ==>
              Apply(db, request, tools).0.value.state in {NO_OP_PASS, NO_OP_VERIFY_PASS}
  {
    hide Guard, Classify, Reconcile, IsConfirmed, IsInstalled, IsDone, IsArchiveExact, HasExactArchive;
    ConfirmedExactly(db.identity, request);
    UntouchedExactly(db, tools);
    StatesAreExclusive(db, tools);
  }

  /** Every refusal names something that is in fact wrong. */
  lemma RefusalIsTrue(db: Database, request: Request, tools: Tools)
    requires Apply(db, request, tools).0.Err?
    ensures match Apply(db, request, tools).0.error
            case PostgresMajorMismatch => !(180000 <= db.identity.versionNumber < 190000)
            case DatabaseNotConfirmed => request.database != Some(db.identity.database)
            case HostNotConfirmed => request.host != Some(db.identity.host)
            case PortNotConfirmed => request.port != Some(db.identity.port)
            case ProtectedDatabase =>
              db.identity.database == "kontragent" && !(request.allowProtected && request.authorization == Some("kontragent"))
            case NotEligible(state) =>
              state == Classify(db, tools) && state in {BLOCKED_PARTIAL_RECONCILIATION_STATE, BLOCKED_UNRECOGNIZED_LEGACY_STATE}
            case _ => IsUntouched(db, tools)
  {
    hide Reconcile, IsLegacyExact, IsCanonicalExact, SameTable, SameCount;
    UntouchedExactly(db, tools);
    StatesAreExclusive(db, tools);
    if Classify(db, tools) == ELIGIBLE_FOR_RECONCILIATION && Reconcile(db, tools).Err? {
      EligibleHasTables(db, tools);
      FailureIsTrue(db, tools);
    }
  }

  /** So does every refusal after the work began. */
  lemma FailureIsTrue(db: Database, tools: Tools)
    requires IsEligible(db, tools) && RISK in db.public && SUMMARY in db.public && Reconcile(db, tools).Err?
    ensures var moved, migrated := Archived(db.public, tools), tools.upgrade(Left(db.public), Archived(db.public, tools));
            match Reconcile(db, tools).error
            case ArchiveFingerprintFailed => !AreLegacy(moved, true, tools)
            case LegacyRowsNotPreserved =>
              !(SameTable(db.public, moved, RISK, tools) && SameTable(db.public, moved, SUMMARY, tools))
            case ParentNotAdopted => tools.stamp([], CANONICAL_PARENT) != [CANONICAL_PARENT]
            case MigrationFailed => migrated.None?
            case TargetNotReached => tools.stamp([CANONICAL_PARENT], CANONICAL_TARGET) != [CANONICAL_TARGET]
            case FinalCanonicalFailed => migrated.Some? && !AreCanonical(migrated.value.0, tools)
            case FinalArchiveFailed => migrated.Some? && !AreLegacy(migrated.value.1, true, tools)
            case FinalSchemaIncomplete => migrated.Some? && !tools.isComplete(migrated.value.0)
            case V1NotPreserved =>
              migrated.Some? && !(SameTable(db.public, migrated.value.0, V1_RISK, tools) && SameTable(db.public, migrated.value.0, V1_SUMMARY, tools))
            case BusinessCountsNotPreserved =>
              migrated.Some? && exists name :: name != RISK && name != SUMMARY && !SameCount(db.public, migrated.value.0, name)
            case _ => false
  {
    hide SnapshotOf, BusinessCounts, SameTable, SameCount, InventoryOf, IsEligible, SameInventory;
    MovedRows(db, tools);
    var migrated := tools.upgrade(Left(db.public), Archived(db.public, tools));
    if migrated.Some? {
      SnapshotExactly(db.public, migrated.value.0, V1_RISK, tools);
      SnapshotExactly(db.public, migrated.value.0, V1_SUMMARY, tools);
      CountsExactly(db.public, migrated.value.0);
    }
  }

  lemma MovedRows(db: Database, tools: Tools)
    requires RISK in db.public && SUMMARY in db.public
    ensures var moved := Archived(db.public, tools);
            RowsMatch(db.public, moved, tools) <==> SameTable(db.public, moved, RISK, tools) && SameTable(db.public, moved, SUMMARY, tools)
  {
    hide InventoryOf, SameInventory;
    NamesDiffer();
    InventoryExactly(db.public[RISK].rows, tools.move(db.public[RISK]).rows, tools);
    InventoryExactly(db.public[SUMMARY].rows, tools.move(db.public[SUMMARY]).rows, tools);
  }
}
