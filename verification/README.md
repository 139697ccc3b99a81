# Verified model of the publication pipeline

The repository checks Russian companies, explains the result in public, and publishes it
through a staged, hash-checked release pipeline. This project models the parts of it where a
mistake would be silent, and proves what they promise for every input, every run and every
reachable state.

| file | what it models |
|---|---|
| `CheckLexer`, `CheckLexerLaws`, `CheckLexemes` | the SQL CHECK lexer, and a grammar of its lexemes |
| `CheckGrammar`, `CheckMeaning`, `CheckEquivalence`, `EquivalenceLaws` | its bracket grammar and the `IN` / `= ANY(ARRAY[...])` equivalence |
| `SchemaCompare`, `SchemaLaws` | the schema comparator |
| `ReleaseModel`, `ReleaseSafety`, `ReleaseStore` | the release protocol: stage, accept, promote, roll back, import |
| `ReleaseBundle`, `BundleLaws` | checksum files, release manifests and what loading a bundle guarantees |
| `BaselinePlan`, `BaselineStore`, `BaselineLaws` | the reconciliation of published hashes with one trusted release |
| `CleanProof`, `CleanLaws`, `PublicConclusion`, `ConclusionLaws` | when "no adverse factors" is proven, and when the sentence appears |
| `Bytes`, `Base64`, `Sessions`, `LoginLimiter` | session tokens, the session store and the login limiter of the admin console |
| `LegacyArchive`, `LegacyLaws` | archiving the legacy tables and installing the canonical ones |
| `QaAttestation`, `QaLaws` | the verdict on QA attestations of a pull request |
| `ProjectStatus`, `StatusLaws`, `MigrationHeads` | the project status, its transformers, and the heads of the migration graph |
| `XmlPaths` | streaming against recursive path counting |
| `SshCommands` | the commands the publishing account accepts |
| `TextOrder`, `Formats`, `Wrappers` | the order of texts, shared text formats, Option and Result |

Loops and stateful objects of the source are methods and classes here. Each is proved equal to
a function of its inputs or of the old state; the laws are lemmas about those functions. The
`...Laws` files say in the fields of the inputs exactly when each of them accepts, refuses and
reports. A database transaction is one method that either commits or restores what it found, and a run is
a sequence of transactions in any order, so every interleaving is covered.

Hashes, keyed hashes, JSON, compression, the clock, randomness and the database's own
operations are parameters. Where a law needs a hash to be injective, or a reader to be
deterministic, its lemma says so in its requirements.

Verify with `dafny verify dfyconfig.toml`.

## Findings

- `scripts/import_public_release.py:235` calls the import atomic. The code runs three
  transactions, and the model follows the code. Run alone a failing import does leave the
  database as it was (`ReleaseStore.ImportAloneIsAtomic`). Between other transactions it can
  fail and leave the release it staged behind (`OvertakenImportLeavesRelease`, on the empty
  database `OvertakenOnEmptyDatabase`), exactly when at its acceptance or at its promotion the
  candidate is neither active nor a never promoted child of the active release
  (`ImportLeavesBehindExactly`).
- `scripts/rollback_public_release.py` breaks "at most one candidate per parent is ever
  promoted": rolling back makes the parent active again, so from every reachable state with a
  predecessor any new bundle on it can follow (`ReleaseSafety.RollbackReopensParent`, a run from
  the empty database in `TwoChildrenArePromoted`). A second child can be promoted exactly when the
  first was rolled back and the parent is active again (`SecondChildNeedsRollback`). At most one is
  ever promoted without being rolled back (`OnePromotedChildPerParent`), and at most one at all in
  runs without roll-backs.
- `scripts/reconcile_legacy_v3_schema.py` verifies the archived rows before it runs the migration;
  afterwards it looks only at the archive's two fingerprints. It would report RECONCILED_PASS for a
  migration that emptied an archived table (`LegacyArchive.EmptiedArchivePasses`) or added a third
  one, after which the database counts as partial (`ThirdArchiveTablePasses`). The legacy rows are
  preserved exactly when the migration leaves the archive's rows alone (`RowsArePreserved`), and
  the result is recognised as done exactly when it leaves the archive's set of tables alone
  (`DoneIsRecognisedExactly`). The migration in the repository creates tables and indexes only.
- A table does not always compare clean with itself. A quoted number as a numeric default is
  normalised on the live side only (`SchemaCompare.QuotedDefaultIsReported`), and a check that
  could be taken for an earlier one leaves a live check unaccounted for
  (`UnnamedTwinsAreReported`). `CleanAgainstItself` gives the exact condition.
- Only the first twelve raw factors are looked at and later ones are dropped silently
  (`PublicConclusion.ThirteenthIsDropped`). Without limitations the codes of all raw factors are
  shown exactly when each occurs among the first twelve (`EveryCodeIsShownExactly`). A company with
  any raw factor never gets the clean sentence (`CleanSentenceExactly`).
- The clean sentence and indexing look only at the limitations of the stored risk, but the page
  also lists those of the stored summary. A page can say that nothing was found, be open to search
  engines and list a limitation (`PublicConclusion.LimitedPageIsClean`). A clean or indexed page
  lists none exactly when the stored summary has none (`CleanPageExactly`, `IndexedIsConclusive`).
- The retained-count check of the baseline plan and all post-checks of its application can
  never fail (`RetainedCountNeverFails`, `ReconcileBaseline`).
- A transition may be listed as UPDATED with equal hashes: whether a company counts as updated is
  the exporter's word, and a manifest fixes it only where the hashes differ
  (`BundleLaws.AcceptedIsDescribed`, `DescribedIsAccepted`).
- A signed session payload that is JSON but no object makes the check of a token raise instead of
  refusing it, and nothing else does (`Sessions.RaisedExactly`).
- `migration_heads` finds no head only in a graph that is empty or has a cycle.

## Model

| member | source | states |
|---|---|---|
| `CheckLexer.CheckTokens` | migrations/schema_validation_v1.py:49-174 | the loop returns exactly the tokens of the recursive lexer, or None where it has none |
| `CheckLexer.ScanLexeme` | migrations/schema_validation_v1.py:59-173 | one lexeme is read by the first rule that applies, in the order of the source |
| `CheckLexer.ScanQuoted` | migrations/schema_validation_v1.py:98-115 | quoted content ends at the first quote that is neither doubled nor escaped; unterminated content is refused |
| `CheckLexer.ScanUnicodeIdentifier` | migrations/schema_validation_v1.py:66-87 | U&"..." identifiers keep their content and fold only the prefix |
| `CheckLexer.ScanString` | migrations/schema_validation_v1.py:89-116 | plain, E, B, X and U& literals; backslash escapes only after E |
| `CheckLexer.ScanIdentifier` | migrations/schema_validation_v1.py:118-132 | quoted identifiers with doubled quotes |
| `CheckLexer.ScanWord` | migrations/schema_validation_v1.py:136-144 | a word is the longest run of word characters |
| `CheckLexerLaws.LongestOperatorWins` | migrations/schema_validation_v1.py:159-167 | no listed operator that fits is longer than the one taken |
| `CheckLexerLaws.MatchIsLocal` | migrations/schema_validation_v1.py:59-173 | the text of a token is read as exactly that token whenever white space or nothing follows |
| `CheckLexerLaws.LexedTokensAreSpelled` | migrations/schema_validation_v1.py:49-174 | every token of a successful lexing reads back from its own text |
| `CheckLexerLaws.PrintedTokensLex` | migrations/schema_validation_v1.py:49-174 | any list of such tokens, printed with single spaces, lexes to itself |
| `CheckLexerLaws.LexPrintRoundTrip` | migrations/schema_validation_v1.py:49-174 | printing what was lexed and lexing again gives the same tokens, for every text |
| `CheckLexerLaws.LexTiles` | migrations/schema_validation_v1.py:49-174 | the token spellings tile the text in order: every character that is not white space lies in exactly one |
| `CheckLexerLaws.MatchDenotes` | migrations/schema_validation_v1.py:66-173 | a token stores its characters; only the case of words and of the U& prefix is folded |
| `CheckLexemes.NumberIsRead` | migrations/schema_validation_v1.py:145-156 | a text that is digits with an optional point and digits, or a point and digits, with an optional exponent, lexes to that one number |
| `CheckLexemes.NumberIsLongest` | migrations/schema_validation_v1.py:145-156 | no longer prefix of a text is a number than the one the lexer takes |
| `CheckLexemes.ClosesExactly` | migrations/schema_validation_v1.py:89-132 | quoted content ends exactly at the closing quote of a list of units: plain characters, doubled quotes and, where allowed, escapes |
| `CheckLexemes.LongOperatorsAre` | migrations/schema_validation_v1.py:43-46 | which operators have more than one character |
| `CheckLexemes.MatchExactly` | migrations/schema_validation_v1.py:59-173 | the lexer reads a token of n characters exactly when the first n are the lexeme of that token in the grammar |
| `CheckLexemes.SpaceIsSkipped` | migrations/schema_validation_v1.py:59-62 | between lexemes exactly white space is skipped |
| `CheckGrammar.MatchingGroupEnd` | migrations/schema_validation_v1.py:177-189 | the scan returns the matching bracket, or None |
| `CheckGrammar.GroupEndsWhereBalanced` | migrations/schema_validation_v1.py:177-189 | a group ends at a position exactly when what lies between its brackets is balanced |
| `CheckGrammar.StripOuterParentheses` | migrations/schema_validation_v1.py:192-198 | the loop strips all redundant outer parentheses |
| `CheckGrammar.StripIsWrapInverse` | migrations/schema_validation_v1.py:192-198 | stripping removes nothing but whole layers of parentheses, and leaves a core without any |
| `CheckGrammar.StripIsIdempotent` | migrations/schema_validation_v1.py:192-198 | stripping twice is stripping once |
| `CheckGrammar.StripIgnoresWrapping` | migrations/schema_validation_v1.py:192-198 | parentheses around a balanced text do not change its core |
| `CheckGrammar.SplitCheckList` | migrations/schema_validation_v1.py:201-222 | the loop splits at commas outside brackets, or refuses unbalanced lists |
| `CheckGrammar.SplitIsJoinInverse` | migrations/schema_validation_v1.py:201-222 | a token list splits into parts exactly when it is their comma-joined list and each part is balanced without a comma of its own |
| `CheckMeaning.ParseCandidate` | migrations/schema_validation_v1.py:225-354 | the parser, step by step, returns exactly the candidate of the specification |
| `CheckMeaning.ParseDeclared` | migrations/schema_validation_v1.py:239-250 | the IN form: a word, IN, and plain literals in matching parentheses |
| `CheckMeaning.ParseShape` | migrations/schema_validation_v1.py:318-354 | which combinations of column cast, array cast and member casts are accepted |
| `CheckMeaning.CollectMembers` | migrations/schema_validation_v1.py:318-341 | the loop collects each literal with its cast, or refuses a member of any other form |
| `CheckMeaning.InListParses` | migrations/schema_validation_v1.py:239-250 | every printed IN form parses to its column and literals |
| `CheckMeaning.AnyArrayParses` | migrations/schema_validation_v1.py:252-354 | every printed text, varchar and restored-varchar ANY form parses to its column, literals and family |
| `CheckMeaning.DeclaredIsPrinted` | migrations/schema_validation_v1.py:239-250 | whatever parses as an IN form is the printing of one |
| `CheckMeaning.AnyIsPrinted` | migrations/schema_validation_v1.py:252-354 | whatever parses as an ANY form is the printing of an accepted one |
| `CheckMeaning.ParserIsPrinterInverse` | migrations/schema_validation_v1.py:225-354 | the parser accepts exactly the printings of the accepted forms inside any number of parentheses, with their candidate |
| `CheckMeaning.LexedWordsAreWords` | migrations/schema_validation_v1.py:136-144 | words of a lexed text hold no space, which the inverse above relies on |
| `CheckEquivalence.Canonicalize` | migrations/schema_validation_v1.py:408-421 | unlexable texts and those with UESCAPE stay opaque, all others become their stripped tokens |
| `CheckEquivalence.CanonicalIsStable` | migrations/schema_validation_v1.py:408-421 | printing a canonical check and canonicalising it again changes nothing |
| `CheckEquivalence.CanonicalIgnoresParentheses` | migrations/schema_validation_v1.py:408-421 | parentheses around a whole check do not change its canonical form |
| `CheckEquivalence.InIsAny` | migrations/schema_validation_v1.py:378-405 | IN and = ANY of the same literals have the same three-valued truth for every value, NULL included |
| `CheckEquivalence.AnyIgnoresCast` | migrations/schema_validation_v1.py:357-375 | on text and varchar columns a cast of the column to text changes no comparison |
| `CheckEquivalence.EquivalentChecksMeanTheSame` | migrations/schema_validation_v1.py:378-405 | whenever the comparator calls two checks equivalent, both evaluate identically for every column value under three-valued logic |
| `CheckEquivalence.EquivalentTextsMeanTheSame` | migrations/schema_validation_v1.py:378-421 | from two texts: when their canonical forms are found equivalent, all forms they spell agree for every column value |
| `CheckEquivalence.EquivalenceIsSymmetric` | migrations/schema_validation_v1.py:378-405 | the relation does not depend on which side is declared |
| `CheckEquivalence.OtherTypesDisagree` | migrations/schema_validation_v1.py:402-405 | outside text and varchar the two forms can differ, so the type guard is needed |
| `EquivalenceLaws.EveryNameIsSpread` | migrations/schema_validation_v1.py:360 | every column type is a list of chunks with white space around them |
| `EquivalenceLaws.FamilyExactly` | migrations/schema_validation_v1.py:357-365 | a type is of the text or varchar family exactly by its chunks in capitals, whatever its case and white space, with an optional length |
| `EquivalenceLaws.EquivalentExactly` | migrations/schema_validation_v1.py:378-405 | two checks are found equivalent exactly when one is an IN list and the other the printing of the same list for the family its column has on both sides |
| `SchemaCompare.CompareTableSchema` | migrations/schema_validation_v1.py:533-644 | an issue is reported exactly when its condition holds |
| `SchemaCompare.CompareColumns` | migrations/schema_validation_v1.py:540-563 | missing and extra columns, and the issues of shared ones |
| `SchemaCompare.CompareKeys` | migrations/schema_validation_v1.py:564-593 | primary key, foreign keys and unique constraints, compared by signature |
| `SchemaCompare.CompareChecks` | migrations/schema_validation_v1.py:595-618 | each declared check takes its first match, or else the first of its name; live checks nobody took are reported |
| `SchemaCompare.CompareIndexes` | migrations/schema_validation_v1.py:620-643 | indexes by name, and which extra unique indexes pass |
| `SchemaCompare.CleanMeansSameColumnsAndKeys` | migrations/schema_validation_v1.py:540-572 | a clean comparison means equal columns, types and nullability, settled identities and defaults, and equal primary and foreign keys |
| `SchemaCompare.CleanBoundsUniqueness` | migrations/schema_validation_v1.py:574-643 | a clean comparison loses no declared uniqueness; any more comes from an excused index |
| `SchemaCompare.CleanMeansSameUniqueness` | migrations/schema_validation_v1.py:574-643 | when excuses are honest both tables keep exactly the same column lists unique |
| `SchemaCompare.CleanMeansSameChecks` | migrations/schema_validation_v1.py:595-618 | a clean comparison matches every declared check with a live one and every live one with a declared one |
| `SchemaCompare.CleanChecksMeanTheSame` | migrations/schema_validation_v1.py:378-421 | after a clean comparison every check, declared or live, has one on the other side with the same canonical text or the same truth for every column value |
| `SchemaCompare.CleanAgainstItself` | migrations/schema_validation_v1.py:533-644 | a table is clean against itself exactly when no numeric default is quoted and no check shadows another |
| `SchemaCompare.QuotedDefaultIsReported` | migrations/schema_validation_v1.py:555-563 | a concrete table that is reported against itself |
| `SchemaCompare.UnnamedTwinsAreReported` | migrations/schema_validation_v1.py:595-618 | two unnamed checks of the same text are reported against themselves, for every text |
| `SchemaCompare.DistinctNamesAreNotShadowed` | migrations/schema_validation_v1.py:597-614 | distinct non-null check names are enough for the second condition |
| `SchemaLaws.QuotedNumberExactly` | migrations/schema_validation_v1.py:555-558 | a default counts as a quoted number exactly when it is a decimal, possibly negative, between single quotes |
| `SchemaLaws.CleanExactly` | migrations/schema_validation_v1.py:533-644 | a comparison is clean exactly when columns, keys, uniqueness, checks and indexes agree, in the fields of the two tables |
| `SchemaLaws.IssueExactly` | migrations/schema_validation_v1.py:533-644 | each issue is reported exactly when what it says is so of the two tables |
| `ReleaseStore.PublicationStore.StageRelease` | scripts/import_public_release.py:35-130 | the transaction with its insert loop is the staging step, or leaves the database as it was |
| `ReleaseStore.PublicationStore.InsertProjections` | scripts/import_public_release.py:92-111 | rows are inserted one by one; the first that a key or a check refuses stops the loop |
| `ReleaseStore.PublicationStore.UpdateStatus` | scripts/import_public_release.py:211-219 | one status update, refused when a second release would become active |
| `ReleaseStore.PublicationStore.PromoteRelease` | scripts/import_public_release.py:171-231 | the compare-and-swap on the parent, the recount and the three updates |
| `ReleaseStore.PublicationStore.RollbackRelease` | scripts/rollback_public_release.py:14-48 | rolling back to the exact previous release |
| `ReleaseStore.PublicationStore.ImportRelease` | scripts/import_public_release.py:234-246 | stage, accept and promote as three transactions in a row |
| `ReleaseStore.ImportPromotesOnce` | scripts/import_public_release.py:234-246 | importing a new bundle on the active release promotes it, and importing it again changes nothing |
| `ReleaseStore.UnexpectedReleaseIsRefused` | scripts/import_public_release.py:21-23 | a bundle other than the expected release is neither staged, accepted nor imported, and nothing changes |
| `ReleaseStore.ExpectationIsOptional` | scripts/import_public_release.py:21-23 | no expectation, an empty one and the bundle's own id give the same |
| `ReleaseSafety.StageAnswers` | scripts/import_public_release.py:35-130 | in every reachable state what staging answers and stores, told by the history of the release |
| `ReleaseSafety.AcceptAnswers` | scripts/import_public_release.py:133-168 | the same for accepting |
| `ReleaseSafety.PromoteAnswers` | scripts/import_public_release.py:171-231 | the same for promoting |
| `ReleaseSafety.RollbackAnswers` | scripts/rollback_public_release.py:14-48 | the same for rolling back |
| `ReleaseSafety.StepKeepsInv` | scripts/import_public_release.py:35-231 | every stage, accept, promote and roll-back step keeps the invariant, from any state that has it |
| `ReleaseSafety.RunKeepsInv` | scripts/import_public_release.py:35-231 | so does every run, in any order of steps |
| `ReleaseSafety.ReachableIsGood` | scripts/import_public_release.py:35-231 | the invariant holds in every reachable state |
| `ReleaseSafety.OneActiveRelease` | scripts/import_public_release.py:211-224 | in every reachable state exactly the pointed-to release is active, and no release is its own ancestor |
| `ReleaseSafety.ConstraintsNeverFire` | scripts/import_public_release.py:92-121 | no key, foreign key, check or partial index is ever violated, and no count check of stage or promote ever fails |
| `ReleaseSafety.DepthIsLineageLength` | scripts/import_public_release.py:199-224 | the depth that counts promotions is the length of the active release's lineage |
| `ReleaseSafety.LineageMovesByOne` | scripts/import_public_release.py:199-224 | an effective promotion extends the lineage by one, a roll-back removes one, nothing else moves it |
| `ReleaseSafety.SupersededStaysSuperseded` | scripts/import_public_release.py:140-162 | a promoted release that is no longer active can be staged again as a no-op but never accepted or promoted |
| `ReleaseSafety.StageIsIdempotent` | scripts/import_public_release.py:57-70 | staging the same bundle again changes nothing; other content under the same id is refused without change |
| `ReleaseSafety.ReadersFindWhatIsAnnounced` | scripts/read_public_release.py:50-81 | every stored release has exactly the rows it announces, with distinct INNs, so the readers' count checks never fail |
| `ReleaseSafety.OnePromotedChildPerParent` | scripts/import_public_release.py:199-204 | of all candidates of one parent at most one is promoted and not rolled back |
| `ReleaseSafety.OnePromotedChildWithoutRollback` | scripts/import_public_release.py:199-204 | in runs without roll-backs at most one candidate per parent is ever promoted |
| `ReleaseSafety.RollbackReopensParent` | scripts/rollback_public_release.py:14-48 | from every reachable state whose active release has a predecessor, roll-back, stage and promote of any new bundle on that predecessor end with two distinct promoted siblings |
| `ReleaseSafety.SiblingFollowsRollback` | scripts/rollback_public_release.py:14-48 | the same for a sibling that is staged already |
| `ReleaseSafety.SecondChildNeedsRollback` | scripts/import_public_release.py:199-204 | a second child of a parent can be promoted exactly when the first was rolled back and the parent is active again |
| `ReleaseSafety.TwoChildrenArePromoted` | scripts/rollback_public_release.py:14-48 | a concrete run from the empty database that promotes two children of one parent |
| `ReleaseStore.CandidateGoesOnExactly` | scripts/import_public_release.py:140-204 | a stored release is accepted, and promoted, from its own bundle exactly when it is active, or was never promoted and its parent is active |
| `ReleaseStore.ImportAloneIsAtomic` | scripts/import_public_release.py:234-246 | run alone, an import that fails leaves the database as it was |
| `ReleaseStore.ImportLeavesBehindExactly` | scripts/import_public_release.py:234-246 | between other transactions an import fails after staging a new release exactly when that may not go on at its acceptance or promotion, and leaves it behind; any other failing import leaves only what the others did |
| `ReleaseStore.OvertakenImportLeavesRelease` | scripts/import_public_release.py:234-246 | in every reachable state an import overtaken by a sibling fails at its acceptance and leaves its staged release behind |
| `ReleaseStore.OvertakenOnEmptyDatabase` | scripts/import_public_release.py:234-246 | two first releases of an empty database, one overtaking the other |
| `ReleaseBundle.VerifyChecksums` | scripts/public_release_common.py:75-93 | line shape, safe names, exact inventory and digests, checked in the order of the source |
| `ReleaseBundle.WrittenChecksumsVerify` | scripts/public_release_common.py:70-93 | a bundle always passes the verification of the checksums written for it |
| `ReleaseBundle.ChangedFileIsNoticed` | scripts/public_release_common.py:90-93 | once verified, a file whose hash changes or that disappears is always reported |
| `ReleaseBundle.ChangedSummaryMatchesCount` | public_app/contracts.py:708-754 | the validator accepts exactly the manifests whose lists, counts and changed list agree |
| `ReleaseBundle.LoadBundle` | scripts/public_release_common.py:96-144 | the loader runs its checks in this order and returns what passed them all |
| `ReleaseBundle.MembersAreConserved` | scripts/public_release_common.py:111-139 | members are the disjoint union of unchanged, updated and added, disjoint from withdrawn, and as many as parent - withdrawn + added; the changed list is updated followed by added |
| `ReleaseBundle.HashesCountBothSides` | public_app/contracts.py:653-668 | previous hashes are as many as the parent had records, current hashes as many as the bundle has |
| `ReleaseBundle.LoadedBundlesAreReliable` | scripts/public_release_common.py:96-144 | every loaded bundle has what the release protocol relies on: a safe release id, distinct ten-digit INNs, the announced count between 1 and 10000, one release id |
| `BundleLaws.ChecksumsExactly` | scripts/public_release_common.py:75-93 | the files pass exactly when the checksum file is the two lines for manifest and companies, in either order, with their digests |
| `BundleLaws.ConsistentExactly` | public_app/contracts.py:708-754 | a manifest of the transition model is consistent exactly when its four lists fit and its numbers add up |
| `BundleLaws.AcceptedIsDescribed` | public_app/contracts.py:653-754 | every accepted manifest tells how some parent became the current bundle |
| `BundleLaws.DescribedIsAccepted` | public_app/contracts.py:653-754 | every manifest that tells such a story is accepted |
| `BundleLaws.LimitsExactly` | public_app/contracts.py:672-700 | the limits of the single fields |
| `BundleLaws.ContentsExactly` | scripts/public_release_common.py:105-144 | the contents pass exactly when the companies are those the manifest announces |
| `BundleLaws.LoadedExactly` | scripts/public_release_common.py:96-144 | a bundle is loaded exactly when checksums, fields, lists and companies are right |
| `BaselinePlan.NormalizeRows` | scripts/reconcile_publication_baseline.py:194-222 | published rows in INN order, or the first reason against them |
| `BaselinePlan.TrustedProjectionMap` | scripts/reconcile_publication_baseline.py:225-282 | the payload per retained INN, or the first thing wrong with the trusted answer |
| `BaselinePlan.BuildReconciliationPlan` | scripts/reconcile_publication_baseline.py:285-370 | the plan with one item per retained company, or the first refusal |
| `BaselinePlan.PlanIgnoresOrder` | scripts/reconcile_publication_baseline.py:285-370 | the plan, and every refusal, is the same for every order of the rows |
| `BaselinePlan.RetainedCountNeverFails` | scripts/reconcile_publication_baseline.py:297-304 | the retained-count check can never fail |
| `BaselinePlan.RepairedPlanIsClean` | scripts/reconcile_publication_baseline.py:409-417 | planning again after the planned hashes are in place succeeds and finds no mismatch |
| `BaselinePlan.MismatchesAreAuthorised` | scripts/reconcile_publication_baseline.py:353-362 | an enforced plan exists exactly when the free one has the expected number of mismatches, and is that plan |
| `BaselineLaws.PlanExactly` | scripts/reconcile_publication_baseline.py:285-352 | a plan exists exactly when expectations, rows and the trusted answer fit each other |
| `BaselineLaws.PlanHolds` | scripts/reconcile_publication_baseline.py:312-370 | its items are the retained rows with the hashes of their trusted payloads, and it counts those that differ |
| `BaselineLaws.AskedIs` | scripts/reconcile_publication_baseline.py:297-311 | the trusted reader is asked for exactly the retained companies, in order, each once |
| `BaselineLaws.ExpectationRefusalIsTrue` | scripts/reconcile_publication_baseline.py:54-85 | every refusal of the expectations names something that does not fit |
| `BaselineLaws.ParentRefusalIsTrue` | scripts/reconcile_publication_baseline.py:194-222 | so does every refusal of the rows |
| `BaselineLaws.AnswerRefusalIsTrue` | scripts/reconcile_publication_baseline.py:225-282 | so does every refusal of the trusted answer |
| `BaselineLaws.PlanRefusalIsTrue` | scripts/reconcile_publication_baseline.py:285-370 | so does every refusal to plan |
| `BaselineStore.OperationalStore.UpdateHash` | scripts/reconcile_publication_baseline.py:169-191 | the compare-and-swap changes the hash of exactly the rows that still match, and counts them |
| `BaselineStore.OperationalStore.ReconcileBaseline` | scripts/reconcile_publication_baseline.py:373-442 | dry runs and refusals change nothing; applying leaves exactly the repaired table, with as many updates as the operator authorised; no post-check fires |
| `BaselineStore.UpdateIsExact` | scripts/reconcile_publication_baseline.py:402-406 | each compare-and-swap hits exactly the one row it was planned for |
| `BaselineLaws.SwapNeedsPlannedRow` | scripts/reconcile_publication_baseline.py:169-191 | an update touches a row only if it is still the planned one in every column the statement looks at |
| `BaselineLaws.HitsAreCounted` | scripts/reconcile_publication_baseline.py:169-191 | the reported count tells apart no such row, one and more |
| `BaselineStore.UpdatesAreEnough` | scripts/reconcile_publication_baseline.py:387-406 | rows without an update already have their trusted hash |
| `BaselineStore.RepairIsExact` | scripts/reconcile_publication_baseline.py:373-442 | afterwards each retained published row has the semantic hash of the payload that the trusted reader answers for it, which belongs to its INN and the release; all other fields, the withdrawn row and unpublished rows are unchanged |
| `BaselineStore.WithdrawnIsKept` | scripts/reconcile_publication_baseline.py:418-421 | the withdrawn row is never changed |
| `BaselineStore.OnlyHashesChange` | scripts/reconcile_publication_baseline.py:422-428 | no field but the hash differs between the parent before and after |
| `BaselineStore.SecondApplyIsNoOp` | scripts/reconcile_publication_baseline.py:373-442 | applying again, expecting no mismatch, succeeds and changes nothing |
| `CleanProof.AggregateCleanConclusionProof` | public_app/semantic.py:152-310 | the reasons are exactly the conditions that fail, each once; proven means there are none |
| `CleanProof.CheckReasons` | public_app/semantic.py:261-303 | reasons one check gives, with the early exits of the loop |
| `CleanProof.OneCheckIsClean` | public_app/semantic.py:195-310 | the conditions can be met: an assessment with one check that proves the clean conclusion |
| `CleanProof.ProvenExactly` | public_app/semantic.py:195-310 | proven holds exactly when every condition holds for every check; no check escapes through an early exit |
| `CleanLaws.OneFaultOneReason` | public_app/semantic.py:195-259 | one fault outside the checks of a clean assessment gives its own reason and no other |
| `CleanLaws.OneDoubtOneReason` | public_app/semantic.py:261-303 | one doubt about one check of a clean assessment gives its own reason and no other |
| `CleanLaws.OneCheckMoreOneReason` | public_app/semantic.py:236-303 | so does a repeated check, an applicable one that the coverage does not know, and one of unknown applicability |
| `PublicConclusion.RiskProjection` | scripts/export_public_release.py:437-552 | the projection loop: twelve factors, repeats dropped, unusable ones turned into a limitation |
| `PublicConclusion.SummaryProjection` | scripts/export_public_release.py:555-580 | the stored sentence, and the limitations of risk and summary each once |
| `PublicConclusion.CleanSentenceExactly` | scripts/export_public_release.py:437-580 | the clean sentence appears exactly when the stored risk has no raw factor, no limitation and no preliminary mark and its conclusion is proven |
| `PublicConclusion.CleanSentenceIsJustified` | scripts/export_public_release.py:516-534 | behind a clean sentence every condition of the proof holds |
| `PublicConclusion.ConclusionsAgree` | public_app/contracts.py:521-526 | the conclusion derived when showing a projection is the one stored with it |
| `PublicConclusion.StateIsConclusion` | scripts/export_public_release.py:524-534 | NOT_FOUND means the clean sentence, FOUND means factors without limitation, anything else is PARTIAL |
| `PublicConclusion.CleanPageExactly` | public_app/contracts.py:520-530 | a page carries the clean sentence and no limitation exactly when the sentence is justified and the stored summary has no limitation code |
| `PublicConclusion.LimitedPageIsClean` | scripts/export_public_release.py:555-600 | with any limitation code in the stored summary, a page can carry the clean sentence and be open to search engines although it lists a limitation |
| `PublicConclusion.IndexedIsConclusive` | scripts/export_public_release.py:555-600 | a page open to search engines states factors or a justified clean conclusion and its stored risk has no limitation; the page itself has none exactly when the stored summary has no limitation code |
| `PublicConclusion.CompileLimitations` | scripts/export_public_release.py:510-513 | each stored limitation code becomes its public text, in order |
| `PublicConclusion.ShownCodesAreDistinct` | scripts/export_public_release.py:450-487 | no two shown factors have the same code |
| `PublicConclusion.ShownFactorsAreFaithful` | scripts/export_public_release.py:443-509 | every shown factor was made from a traceable raw factor with a template |
| `PublicConclusion.EachIsShown` | scripts/export_public_release.py:443-515 | each raw factor that was looked at is shown, or another of its code is, or a limitation says that one could not be |
| `PublicConclusion.EveryCodeIsShownExactly` | scripts/export_public_release.py:443-523 | without limitations the codes of all raw factors are shown exactly when each occurs among the first twelve |
| `PublicConclusion.ThirteenthIsDropped` | scripts/export_public_release.py:443 | of usable factors with thirteen distinct codes the last is neither shown nor mentioned by a limitation |
| `PublicConclusion.UnlimitedShowsFactors` | scripts/export_public_release.py:443-523 | without limitations each of the first twelve raw factors is shown by its code |
| `ConclusionLaws.FactorsShownExactly` | scripts/export_public_release.py:443-509 | a page shows exactly the first usable factor of each code among the factors looked at |
| `ConclusionLaws.CompiledIs` | scripts/export_public_release.py:510-513 | every stored limitation code becomes its own public text, and no other text comes of them |
| `ConclusionLaws.LimitationsAreExactly` | scripts/export_public_release.py:510-523 | a text is a limitation of the risk exactly when it comes from a stored code, from a factor that could not be shown, or from the missing proof |
| `ConclusionLaws.PageListsExactly` | scripts/export_public_release.py:555-580 | the page lists those texts and the ones of the summary's own codes, and no others |
| `ConclusionLaws.StateIs` | scripts/export_public_release.py:524-534 | the state follows from preliminary mark, limitations, factors and proof |
| `ConclusionLaws.IndexedExactly` | scripts/export_public_release.py:587-600 | a page is open to search engines exactly when the company has an OGRN and nothing about risk or sources is limited |
| `Base64.EncodeIsSpell` | admin_app/auth.py:30-31 | encoding is the spelling of the six-bit values over the URL alphabet, without padding |
| `Base64.DecodeUndoesEncode` | admin_app/auth.py:30-35 | decoding gives back every string of bytes |
| `Base64.EncodeUndoesDecode` | admin_app/auth.py:30-35 | a text over the alphabet decodes exactly when its length is not 1 modulo 4, and encodes back exactly when its unused bits are zero |
| `Base64.StrayIsSkipped` | admin_app/auth.py:34-35 | a character outside both alphabets is skipped wherever it stands |
| `Base64.StandardLettersRead` | admin_app/auth.py:34-35 | plus and slash read as minus and underscore |
| `Sessions.SessionStore.Cleanup` | admin_app/auth.py:130-131 | exactly the sessions that have not expired remain |
| `Sessions.SessionStore.Create` | admin_app/auth.py:133-146 | the new store and the signed token |
| `Sessions.SessionStore.Verify` | admin_app/auth.py:148-169 | the answer and the cleaned store, or no change without a token or secret; claims are accepted exactly when the token carries them, signed by this configuration, and their session is open |
| `Sessions.SessionStore.Revoke` | admin_app/auth.py:171-174 | a genuine live token removes its session |
| `Sessions.StoreIsItsHistory` | admin_app/auth.py:124-174 | after every run the store holds a session exactly from its creation until it expires or is revoked |
| `Sessions.VerifyIsItsHistory` | admin_app/auth.py:148-169 | a token is accepted exactly when it is genuine and its session is open and not expired |
| `Sessions.AcceptedExactly` | admin_app/auth.py:148-169 | claims are accepted exactly when the token is a payload and its keyed hash under this secret with a dot between them, the payload loads to these claims for this user, and the store holds their unexpired session |
| `Sessions.RaisedExactly` | admin_app/auth.py:154-160 | an exception passes through exactly for a signed payload that is JSON but no object |
| `Sessions.FirstDotSplits` | admin_app/auth.py:154 | the first dot separates payload and signature |
| `Sessions.CreatedTokenIsGenuine` | admin_app/auth.py:138-163 | a created token reads back as the claims it was made of |
| `Sessions.CreatedTokenLivesUntilExpiry` | admin_app/auth.py:133-169 | in every run, until it is revoked, a created token verifies before its expiry and never after |
| `Sessions.RevokedStaysRevoked` | admin_app/auth.py:171-174 | once a session is revoked no token naming it is accepted again in any run |
| `LoginLimiter.Limiter.Allowed` | admin_app/auth.py:185-190 | the popleft loop drops the front that left the window and counts the rest |
| `LoginLimiter.Limiter.Failure` | admin_app/auth.py:192-195 | the failure is appended to the trimmed queue |
| `LoginLimiter.Limiter.Success` | admin_app/auth.py:197-198 | the key is forgotten, other keys are not |
| `LoginLimiter.Limiter.LogIn` | admin_app/main.py:287-299 | a login asks, checks the password only when allowed, and records a failure or a success |
| `LoginLimiter.QueueTracksHistory` | admin_app/auth.py:185-198 | after every run the queue is the history since the last success without a front that has left the window |
| `LoginLimiter.AllowedIsHistory` | admin_app/auth.py:185-190 | a login is allowed exactly when fewer than the configured failures of the whole history lie in the window |
| `LoginLimiter.PasswordsTriedAreBounded` | admin_app/main.py:287-299 | between two successes no window holds more failed logins with a checked password than the configured attempts |
| `LoginLimiter.AdmittedIsHistory` | admin_app/main.py:287-299 | a login is admitted exactly when fewer than the configured failures of its key since the last success lie in the window |
| `LoginLimiter.LoginMoves` | admin_app/main.py:287-299 | a success forgets its key, a failure is the newest entry of its key, and no other key is touched |
| `Bytes.Feed` | scripts/reconcile_legacy_v3_schema.py:279-285 | the digest is fed each length in eight bytes and then the item |
| `Bytes.UnframedIsInverse` | scripts/reconcile_legacy_v3_schema.py:279-285 | a byte stream reads back as a list exactly when it is the stream of that list |
| `Bytes.FramingIsInjective` | scripts/reconcile_legacy_v3_schema.py:279-285 | different lists of items have different streams |
| `LegacyArchive.TakeInventory` | scripts/reconcile_legacy_v3_schema.py:652-769 | row count, key hash and row hash of one table |
| `LegacyArchive.InventoryDeterminesRows` | scripts/reconcile_legacy_v3_schema.py:986-988 | with an injective hash equal inventories mean equal rows |
| `LegacyArchive.StatesAreExclusive` | scripts/reconcile_legacy_v3_schema.py:848-891 | each accepting state is recognised exactly by its own conditions; they exclude each other |
| `LegacyArchive.LegacyDatabase.MoveTables` | scripts/reconcile_legacy_v3_schema.py:1064-1084 | both tables move to the new archive and are verified there |
| `LegacyArchive.LegacyDatabase.ApplyReconciliation` | scripts/reconcile_legacy_v3_schema.py:1012-1122 | the step-by-step application with all its checks is the specified outcome, or leaves the database as it was |
| `LegacyArchive.ApplyIsAllOrNothing` | scripts/reconcile_legacy_v3_schema.py:1033-1122 | anything but a reconciliation changes nothing; a reconciliation starts from an eligible database and ends with the canonical tables, the target revision and an archive with both fingerprints |
| `LegacyArchive.DoneIsRecognisedExactly` | scripts/reconcile_legacy_v3_schema.py:840-890 | a reconciled database is classified as NO_OP_VERIFY_PASS exactly when the migration left the archive's set of tables alone, and as partial otherwise |
| `LegacyArchive.RowsArePreserved` | scripts/reconcile_legacy_v3_schema.py:1075-1112 | a reconciliation keeps every first-version row and every other row count, whatever the database does; the legacy rows are in the archive exactly when the migration left its rows alone |
| `LegacyArchive.MigrationDecidesArchive` | scripts/reconcile_legacy_v3_schema.py:1095-1112 | any archive that the migration leaves with both fingerprints passes the last checks |
| `LegacyArchive.EmptiedArchivePasses` | scripts/reconcile_legacy_v3_schema.py:1095-1112 | a concrete eligible database whose reconciliation passes with an emptied archive table |
| `LegacyArchive.ThirdArchiveTablePasses` | scripts/reconcile_legacy_v3_schema.py:1095-1112 | a concrete eligible database whose reconciliation passes with a third archive table, and is then classified as partial |
| `LegacyArchive.SecondApplyChangesNothing` | scripts/reconcile_legacy_v3_schema.py:1033-1046 | after any success applying again changes nothing, and succeeds unless the migration changed the archive's set of tables |
| `LegacyArchive.SuccessIsConfirmed` | scripts/reconcile_legacy_v3_schema.py:949-983 | nothing succeeds on an unconfirmed database, or on the protected one without both permissions |
| `LegacyLaws.ConfirmedExactly` | scripts/reconcile_legacy_v3_schema.py:949-983 | the guard passes exactly on a named database, unlocked twice if it is the protected one |
| `LegacyLaws.ClassifiedExactly` | scripts/reconcile_legacy_v3_schema.py:840-891 | how a database is classified, in its fields |
| `LegacyLaws.ReconciledExactly` | scripts/reconcile_legacy_v3_schema.py:1012-1122 | a reconciliation succeeds exactly on a confirmed untouched database whose moves, stamps and migration keep what they must, and leaves exactly their result |
| `LegacyLaws.NothingToDoExactly` | scripts/reconcile_legacy_v3_schema.py:1033-1046 | there is nothing to do exactly on a confirmed database that is done |
| `LegacyLaws.RefusalIsTrue` | scripts/reconcile_legacy_v3_schema.py:949-1046 | every refusal names something that is wrong |
| `LegacyLaws.FailureIsTrue` | scripts/reconcile_legacy_v3_schema.py:1047-1122 | so does every failure after the work began |
| `QaAttestation.ValidateAttestation` | scripts/qa_attestation.py:160-299 | the loops accept exactly the attestations that meet every rule |
| `QaAttestation.Classify` | scripts/qa_attestation.py:361-400 | whether a comment is ignored, invalid, foreign, stale or current |
| `QaAttestation.SortComments` | scripts/qa_attestation.py:356-400 | the loop sorts the comments into four lists in their order |
| `QaAttestation.EvaluateAttestations` | scripts/qa_attestation.py:346-466 | the verdict is the specified one; invalid snapshots and policies are refused |
| `QaAttestation.PassExactly` | scripts/qa_attestation.py:402-466 | PASS exactly when no trusted comment is malformed or foreign and exactly one is current, with PASS, merge allowed and the required independence |
| `QaAttestation.UntrustedNeverMatter` | scripts/qa_attestation.py:366-368 | inserting, removing or moving comments by others never changes the verdict |
| `QaAttestation.OrderNeverDecides` | scripts/qa_attestation.py:361-466 | any reordering keeps the state, what is attested and which comments are reported; a PASS is unchanged altogether |
| `QaAttestation.PassIsAttested` | scripts/qa_attestation.py:440-465 | a PASS rests on one valid attestation by its own issuer for this repository, pull request and current head, and base if required |
| `QaAttestation.PassMeansTestsPass` | scripts/qa_attestation.py:191-216 | after a PASS every listed test passed, has no failure, and its counts add up |
| `QaAttestation.PassIsIndependent` | scripts/qa_attestation.py:285-299 | with independence required the reviewer is named, is not the author and is no owner |
| `QaLaws.ValidExactly` | scripts/qa_attestation.py:160-299 | an attestation is valid exactly when what it is about, its runs, its evidence, its issuer and its reviewer are in order |
| `QaLaws.InputExactly` | scripts/qa_attestation.py:138-157 | a snapshot or a policy that is not well formed gets no verdict |
| `QaLaws.KindExactly` | scripts/qa_attestation.py:361-400 | which kind a comment is of, in its fields |
| `QaLaws.MalformedFails` | scripts/qa_attestation.py:402-406 | any malformed trusted comment fails the pull request, and exactly these are reported |
| `QaLaws.ForeignFails` | scripts/qa_attestation.py:387-415 | otherwise an attestation for another repository or pull request fails it, and exactly these are reported |
| `QaLaws.DuplicatesFail` | scripts/qa_attestation.py:416-423 | two current attestations fail it, whatever they say |
| `QaLaws.OnlyCurrentDecides` | scripts/qa_attestation.py:435-466 | the only current attestation decides by its own verdict |
| `QaLaws.NoCurrentIsStaleOrMissing` | scripts/qa_attestation.py:424-433 | without a current one the verdict is stale, for the reason of the last stale one, or missing |
| `XmlPaths.CollectPaths` | scripts/inspect_fns_paytax_zip.py:119-162 | the recursive counter adds the paths of the tree |
| `XmlPaths.InspectXmlStream` | scripts/inspect_erknm_open_data.py:56-127 | on every event stream the counts are those of the first end events up to the limit |
| `XmlPaths.InspectTree` | scripts/inspect_erknm_open_data.py:100-127 | for every tree the streaming counts are those of the first min(limit, size) elements in post-order, and equal the recursive counts exactly when the limit is not below the size |
| `XmlPaths.TreeEvents` | scripts/inspect_erknm_open_data.py:70-117 | the events of a tree restore the stack and end its paths in post-order |
| `XmlPaths.StackIsRootPath` | scripts/inspect_erknm_open_data.py:73-116 | at every moment of the stream the stack spells a path of the tree from its root |
| `SshCommands.MatchUploadIs` | scripts/public_sync_ssh_wrapper.py:27-32 | the upload pattern matches exactly head, id, middle, id, tail |
| `SshCommands.MatchReadIs` | scripts/public_sync_ssh_wrapper.py:33-39 | the reader pattern matches exactly its prefix, one id, ten-digit INNs and the closing quote |
| `SshCommands.MatchImportIs` | scripts/public_sync_ssh_wrapper.py:40-47 | the import pattern matches exactly two ids and one of three modes |
| `SshCommands.MatchRollbackIs` | scripts/public_sync_ssh_wrapper.py:48-53 | the roll-back pattern matches exactly one id |
| `SshCommands.ShapesAreDisjoint` | scripts/public_sync_ssh_wrapper.py:27-54 | no command has two of the four shapes |
| `SshCommands.ParserIsPrinterInverse` | scripts/public_sync_ssh_wrapper.py:69-102 | a command is accepted as an action exactly when it is the rendering of that well-formed action |
| `SshCommands.ShellInputHasNoQuote` | scripts/public_sync_ssh_wrapper.py:154-176 | the rebuilt shell input is the quoted part of the accepted command and has no quote of its own |
| `ProjectStatus.SemanticErrors` | scripts/project_status.py:139-288 | the errors are exactly those whose condition holds |
| `ProjectStatus.ValidateUniqueIds` | scripts/project_status.py:133-136 | an id is reported exactly when it occurs twice |
| `ProjectStatus.CodeErrors` | scripts/project_status.py:148-159 | the main commit and the ids of every section |
| `ProjectStatus.ProductionErrors` | scripts/project_status.py:184-230 | what production claims need |
| `ProjectStatus.VisibleErrors` | scripts/project_status.py:232-249 | what user-visible claims need |
| `ProjectStatus.DataErrors` | scripts/project_status.py:251-271 | agreement of release ids and mirrored fields |
| `ProjectStatus.StateErrors` | scripts/project_status.py:273-287 | what incident and service states need |
| `StatusLaws.ValidExactly` | scripts/project_status.py:139-288 | a status is valid exactly when QA, production, visibility, data, incidents and services say nothing without evidence and ids are unique |
| `StatusLaws.NamedTwiceExactly` | scripts/project_status.py:133-159 | an id is reported exactly when two entries of its section have it |
| `StatusLaws.NamedErrorExactly` | scripts/project_status.py:195-287 | an error about one capability or service names one that claims its state without evidence |
| `StatusLaws.QaErrorExactly` | scripts/project_status.py:161-182 | when each error about QA is reported, in its fields |
| `StatusLaws.ProductionErrorExactly` | scripts/project_status.py:184-230 | when each error about production is |
| `StatusLaws.VisibleErrorExactly` | scripts/project_status.py:232-249 | when each error about visibility is |
| `StatusLaws.StateErrorExactly` | scripts/project_status.py:148-276 | when each error about main, releases and incidents is |
| `StatusLaws.MirrorErrorExactly` | scripts/project_status.py:259-271 | when each error about a mirrored field is |
| `ProjectStatus.ApplyPublicRuntime` | scripts/project_status.py:782-864 | the edited copy is the specified status |
| `ProjectStatus.ObserveServices` | scripts/project_status.py:840-863 | the two observed services are updated in place or appended |
| `StatusLaws.ObservingShows` | scripts/project_status.py:782-837 | an observation tells release, count and time in every section that shows them, and keeps all else |
| `StatusLaws.ObservingLeavesEvidence` | scripts/project_status.py:790-837 | the evidence afterwards is what was seen, followed in production and data by exactly what was not verified before |
| `StatusLaws.ObservingSeesBoth` | scripts/project_status.py:839-863 | each of the two services is seen healthy in its last place, or added at the end; no other service changes or moves |
| `ProjectStatus.LastObservationCounts` | scripts/project_status.py:782-864 | observing twice is the same as observing once with the last observation |
| `ProjectStatus.ObservingAddsNoError` | scripts/project_status.py:782-864 | on every status an observation removes the errors it settles, adds none, and changes no other but those of the two services |
| `ProjectStatus.ObservingKeepsValid` | scripts/project_status.py:782-864 | a valid status stays valid under every observation |
| `ProjectStatus.CollectingMovesMain` | scripts/project_status.py:697-699 | collecting touches only errors about the main commit |
| `StatusLaws.CollectingShows` | scripts/project_status.py:696-741 | collecting takes over what the repository answers and keeps all else |
| `ProjectStatus.CollectingKeepsValidExactly` | scripts/project_status.py:677-699 | after main moves, a valid status is valid exactly when accepted QA is for the new commit and stale QA for another; otherwise the error is reported |
| `MigrationHeads.FindHeads` | scripts/project_status.py:646-657 | the sorted heads are exactly the unreferenced revisions; none is an error |
| `MigrationHeads.Referenced` | scripts/project_status.py:648-653 | the set of revisions that some file names as parent |
| `MigrationHeads.HeadExactly` | scripts/project_status.py:646-657 | a head is a revision that some file has and that no file which counts names as parent; the last file of a revision counts |
| `MigrationHeads.EveryRevisionIsBehindAHead` | scripts/project_status.py:646-657 | without cycles every revision is an ancestor of some head |
| `MigrationHeads.HeadsExist` | scripts/project_status.py:654-656 | without cycles there is a head exactly when there is a revision |
| `MigrationHeads.OnlyHeadDominates` | scripts/project_status.py:654-657 | a revision is the only head exactly when every revision is its ancestor |
| `MigrationHeads.CycleHasNoHead` | scripts/project_status.py:655-656 | two revisions that name each other have no head |

## Left out

- Non-ASCII text: white space, letters, digits and case folding are those of ASCII; the QA model takes folding as a parameter.
- Error texts, the order of reported errors and their expected and actual values: errors are kinds with the name they are about.
- SchemaCompare.CompareTableSchema: states which errors are reported, not the observations, which never block.
- CheckMeaning.ParserIsPrinterInverse: is about tokens whose words hold no space, which every lexed text has (`LexedWordsAreWords`).
- Reflection of tables and models (`model_table_schema`, `inspected_table_schema`) and the audit of a whole database: their results are inputs.
- Row locks and deadlocks of the release protocol: a transaction is one atomic step.
- ReleaseSafety.SupersededStaysSuperseded: needs equal manifest hashes to mean the same bundle.
- BaselineStore.OperationalStore.ReconcileBaseline: the trusted reader answers the same for the same question, so a release that changes between plan and post-check is not covered.
- Semantic hashes, canonical JSON, gzip and JSONL parsing, and the scan for forbidden keys: parameters of the loaders.
- LegacyArchive.TakeInventory: covers counts, keys and rows; distributions, null profiles and link hashes are functions of the same rows.
- LegacyArchive.AggregateHash: rows are shorter than 2^64 bytes, as the eight-byte length demands.
- CleanProof: the trace fields of the proof and the validators of the risk contract; the model takes any assessment.
- PublicConclusion: texts, categories, dates and recommendations; factor templates and limitation texts are parameters.
- Sessions: JSON and the keyed hash are parameters, session ids are drawn fresh; cookies and password hashing are not modelled.
- Base64.Decode: characters outside the alphabet are skipped, as the library's decoder documents.
- LoginLimiter: times are reals and the clock never goes back; requests of one process are handled one at a time.
- QaAttestation: finding the block in a comment, JSON, time stamps and addresses are parameters; diagnostics name comments, not texts.
- XmlPaths: attribute counts, value samples and namespace stripping; malformed documents.
- SshCommands: the two programs an upload runs, the environment and exit codes.
- ProjectStatus: the JSON schema, freshness, rendering, and the network observation; git answers are inputs.
- MigrationHeads: reading revisions from Python files.
- Web routes, templates, company views, search and the import scripts of single sources: user interface and input-output.
- Services, workers, leases and incidents of the application: not part of this model.
