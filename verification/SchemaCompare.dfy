/**
 The comparison of a declared table with the table found in the database.

 `Raised` says which issue is reported when; the program reports exactly those. The laws
 are what a clean comparison guarantees, and exactly when a table is clean against itself.
 */
module SchemaCompare {
  import opened Wrappers
  import opened CheckLexer
  import opened CheckMeaning
  import opened CheckEquivalence

  datatype Column = Column(
    sqlType: string,
    nullable: bool,
    default: Option<string>,
    clientDefault: Option<string>,
    identity: Option<map<string, string>>)

  datatype ForeignKey = ForeignKey(
    columns: seq<string>,
    targetSchema: string,
    targetTable: string,
    targetColumns: seq<string>,
    onDelete: string,
    onUpdate: string,
    deferrable: bool,
    initially: string)

  datatype Unique = Unique(name: string, columns: seq<string>, nullsNotDistinct: bool)

  datatype Check = Check(name: Option<string>, sql: Canonical)

  datatype Index = Index(
    columns: seq<string>,
    unique: bool,
    using: string,
    filter: Option<string>,
    ops: map<string, string>,
    included: seq<string>,
    nullsNotDistinct: bool,
    isExpression: bool,
    duplicates: Option<string>)

  datatype Table = Table(
    columns: map<string, Column>,
    primaryKey: seq<string>,
    foreignKeys: seq<ForeignKey>,
    uniques: seq<Unique>,
    checks: seq<Check>,
    indexes: map<string, Index>)

  datatype Issue =
    | MissingColumn(name: string)
    | ExtraColumn(name: string)
    | TypeMismatch(name: string)
    | NullableMismatch(name: string)
    | IdentityMismatch(name: string)
    | DefaultMismatch(name: string)
    | PrimaryKeyMismatch
    | MissingForeignKey(key: ForeignKey)
    | UnexpectedForeignKey(key: ForeignKey)
    | MissingUnique(constraint: Unique)
    | UnexpectedUnique(constraint: Unique)
    | MissingCheck(position: nat)
    | UnexpectedCheck(position: nat)
    | MissingIndex(name: string)
    | UnexpectedUniqueIndex(name: string)

  /* ---------- Columns ---------- */

  predicate IsNumeric(sqlType: string) {
    sqlType == "SMALLINT" || sqlType == "INTEGER" || sqlType == "BIGINT" || "NUMERIC" <= sqlType
  }

  predicate IsDecimal(s: string) {
    var whole := DigitsLength(s);
    whole > 0
    && (whole == |s|
        || (s[whole] == '.' && whole + 1 < |s| && DigitsLength(s[whole + 1..]) == |s| - whole - 1))
  }

  predicate IsQuotedNumber(s: string) {
    |s| >= 2 && s[0] == '\'' && s[|s| - 1] == '\''
    && (var body := s[1..|s| - 1];
        IsDecimal(if body != "" && body[0] == '-' then body[1..] else body))
  }

  /** The live default as compared: a quoted number loses its quotes on a numeric column. */
  function LiveDefault(sqlType: string, default: Option<string>): Option<string> {
    if IsNumeric(sqlType) && default.Some? && IsQuotedNumber(default.value)
    then Some(default.value[1..|default.value| - 1])
    else default
  }

  predicate IdentityDiffers(wanted: Option<map<string, string>>, live: Option<map<string, string>>) {
    if wanted.None? || live.None? then wanted.None? != live.None?
    else exists k :: k in wanted.value && !(k in live.value && live.value[k] == wanted.value[k])
  }

  predicate DefaultDiffers(wanted: Column, observed: Column, strict: bool) {
    var live := LiveDefault(wanted.sqlType, observed.default);
    wanted.default != live
    && !(!strict && wanted.default.None? && wanted.clientDefault.Some? && wanted.clientDefault == live)
  }

  /* ---------- Uniqueness ---------- */

  datatype Signature = Signature(columns: seq<string>, nullsNotDistinct: bool)

  predicate IsBlank(s: Option<string>) {
    s.None? || s.value == ""
  }

  /** A unique index over the whole table and plain columns. */
  predicate IsFullUnique(index: Index) {
    index.unique && IsBlank(index.filter) && !index.isExpression
  }

  function ConstraintSignature(u: Unique): Signature {
    Signature(u.columns, u.nullsNotDistinct)
  }

  function IndexSignature(i: Index): Signature {
    Signature(i.columns, i.nullsNotDistinct)
  }

  function ConstraintSignatures(t: Table): set<Signature> {
    set u | u in t.uniques :: ConstraintSignature(u)
  }

  /** What the table keeps unique over all its rows, by constraint or by index. */
  function UniqueSignatures(t: Table): set<Signature> {
    ConstraintSignatures(t)
    + set name | name in t.indexes && IsFullUnique(t.indexes[name]) :: IndexSignature(t.indexes[name])
  }

  /* ---------- Checks ---------- */

  function Types(columns: map<string, Column>): map<string, string> {
    map name | name in columns :: columns[name].sqlType
  }

  predicate NameFits(wanted: Check, observed: Check) {
    wanted.name.None? || observed.name == wanted.name
  }

  predicate CheckMatches(wanted: Check, observed: Check, expected: Table, actual: Table) {
    observed.sql == wanted.sql
    || ChecksEquivalent(wanted.sql, observed.sql, Types(expected.columns), Types(actual.columns))
  }

  predicate Satisfies(wanted: Check, observed: Check, expected: Table, actual: Table) {
    NameFits(wanted, observed) && CheckMatches(wanted, observed, expected, actual)
  }

  function FirstNamed(wanted: Check, actual: Table, from: nat): (r: Option<nat>)
    ensures r.Some? ==> from <= r.value < |actual.checks| && NameFits(wanted, actual.checks[r.value])
    decreases |actual.checks| - from
  {
    if from >= |actual.checks| then None
    else if NameFits(wanted, actual.checks[from]) then Some(from)
    else FirstNamed(wanted, actual, from + 1)
  }

  function FirstMatch(wanted: Check, expected: Table, actual: Table, from: nat): (r: Option<nat>)
    ensures r.Some? ==> from <= r.value < |actual.checks| && Satisfies(wanted, actual.checks[r.value], expected, actual)
    ensures r.Some? ==> forall j :: from <= j < r.value ==> !Satisfies(wanted, actual.checks[j], expected, actual)
    ensures r.None? ==> forall j :: from <= j < |actual.checks| ==> !Satisfies(wanted, actual.checks[j], expected, actual)
    decreases |actual.checks| - from
  {
    if from >= |actual.checks| then None
    else if Satisfies(wanted, actual.checks[from], expected, actual) then Some(from)
    else FirstMatch(wanted, expected, actual, from + 1)
  }

  /** The live check a declared one accounts for: its match, else the first of its name. */
  function Accounted(wanted: Check, expected: Table, actual: Table): Option<nat> {
    var found := FirstMatch(wanted, expected, actual, 0);
    if found.Some? then found else FirstNamed(wanted, actual, 0)
  }

  ghost predicate IsAccounted(j: nat, expected: Table, actual: Table, upTo: nat)
    requires upTo <= |expected.checks|
  {
    exists i :: 0 <= i < upTo && Accounted(expected.checks[i], expected, actual) == Some(j)
  }

  /* ---------- What is reported ---------- */

  predicate IndexCovered(wanted: Index, observed: Index, actual: Table) {
    observed == wanted
    || (wanted.unique && observed == wanted.(unique := false) && IndexSignature(wanted) in UniqueSignatures(actual))
  }

  /** An index the database may have beyond the declared ones without comment. */
  predicate IsExcused(name: string, observed: Index, allowed: map<string, Index>) {
    !IsBlank(observed.duplicates) || (name in allowed && allowed[name] == observed)
  }

  ghost predicate ColumnIssue(issue: Issue, expected: Table, actual: Table, strict: bool) {
    match issue
    case MissingColumn(name) => name in expected.columns && name !in actual.columns
    case ExtraColumn(name) => name in actual.columns && name !in expected.columns
    case TypeMismatch(name) =>
      name in expected.columns && name in actual.columns
      && expected.columns[name].sqlType != actual.columns[name].sqlType
    case NullableMismatch(name) =>
      name in expected.columns && name in actual.columns
      && expected.columns[name].nullable != actual.columns[name].nullable
    case IdentityMismatch(name) =>
      name in expected.columns && name in actual.columns
      && IdentityDiffers(expected.columns[name].identity, actual.columns[name].identity)
    case DefaultMismatch(name) =>
      name in expected.columns && name in actual.columns
      && DefaultDiffers(expected.columns[name], actual.columns[name], strict)
    case _ => false
  }

  ghost predicate KeyIssue(issue: Issue, expected: Table, actual: Table) {
    match issue
    case PrimaryKeyMismatch => expected.primaryKey != actual.primaryKey
    case MissingForeignKey(key) => key in expected.foreignKeys && key !in actual.foreignKeys
    case UnexpectedForeignKey(key) => key in actual.foreignKeys && key !in expected.foreignKeys
    case MissingUnique(u) => u in expected.uniques && ConstraintSignature(u) !in UniqueSignatures(actual)
    case UnexpectedUnique(u) => u in actual.uniques && ConstraintSignature(u) !in UniqueSignatures(expected)
    case _ => false
  }

  ghost predicate CheckIssue(issue: Issue, expected: Table, actual: Table) {
    match issue
    case MissingCheck(i) => i < |expected.checks| && FirstMatch(expected.checks[i], expected, actual, 0).None?
    case UnexpectedCheck(j) => j < |actual.checks| && !IsAccounted(j, expected, actual, |expected.checks|)
    case _ => false
  }

  ghost predicate IndexIssue(issue: Issue, expected: Table, actual: Table, allowed: map<string, Index>) {
    match issue
    case MissingIndex(name) =>
      name in expected.indexes
      && !(name in actual.indexes && IndexCovered(expected.indexes[name], actual.indexes[name], actual))
    case UnexpectedUniqueIndex(name) =>
      name in actual.indexes && name !in expected.indexes
      && var observed := actual.indexes[name];
         observed.unique && !IsExcused(name, observed, allowed)
         && !(IsFullUnique(observed) && IndexSignature(observed) in UniqueSignatures(expected))
    case _ => false
  }

  ghost predicate Raised(issue: Issue, expected: Table, actual: Table, strict: bool, allowed: map<string, Index>) {
    || ColumnIssue(issue, expected, actual, strict)
    || KeyIssue(issue, expected, actual)
    || CheckIssue(issue, expected, actual)
    || IndexIssue(issue, expected, actual, allowed)
  }

  /* ---------- The program ---------- */

  method CompareColumn(name: string, wanted: Column, observed: Column, strict: bool) returns (errors: seq<Issue>)
    ensures forall i :: i in errors <==>
              || (i == TypeMismatch(name) && wanted.sqlType != observed.sqlType)
              || (i == NullableMismatch(name) && wanted.nullable != observed.nullable)
              || (i == IdentityMismatch(name) && IdentityDiffers(wanted.identity, observed.identity))
              || (i == DefaultMismatch(name) && DefaultDiffers(wanted, observed, strict))
  {
    errors := [];
    if wanted.sqlType != observed.sqlType {
      errors := errors + [TypeMismatch(name)];
    }
    if wanted.nullable != observed.nullable {
      errors := errors + [NullableMismatch(name)];
    }
    if IdentityDiffers(wanted.identity, observed.identity) {
      errors := errors + [IdentityMismatch(name)];
    }
    if DefaultDiffers(wanted, observed, strict) {
      errors := errors + [DefaultMismatch(name)];
    }
  }

  method CompareColumns(expected: Table, actual: Table, strict: bool) returns (errors: seq<Issue>)
    ensures forall i :: i in errors <==> ColumnIssue(i, expected, actual, strict)
  {
    hide IdentityDiffers, DefaultDiffers;
    errors := [];
    var names := expected.columns.Keys - actual.columns.Keys;
    while names != {}
      invariant names <= expected.columns.Keys - actual.columns.Keys
      invariant forall i :: i in errors <==>
                  i.MissingColumn? && i.name in expected.columns.Keys - actual.columns.Keys - names
    {
      var name :| name in names;
      errors := errors + [MissingColumn(name)];
      names := names - {name};
    }
    ghost var missing := errors;
    names := actual.columns.Keys - expected.columns.Keys;
    while names != {}
      invariant names <= actual.columns.Keys - expected.columns.Keys
      invariant forall i :: i in errors <==>
                  i in missing || (i.ExtraColumn? && i.name in actual.columns.Keys - expected.columns.Keys - names)
    {
      var name :| name in names;
      errors := errors + [ExtraColumn(name)];
      names := names - {name};
    }
    ghost var membership := errors;
    var shared := expected.columns.Keys * actual.columns.Keys;
    names := shared;
    while names != {}
      invariant names <= shared
      invariant forall i :: i in errors <==>
                  i in membership
                  || ((i.TypeMismatch? || i.NullableMismatch? || i.IdentityMismatch? || i.DefaultMismatch?)
                      && i.name in shared - names && ColumnIssue(i, expected, actual, strict))
    {
      var name :| name in names;
      var found := CompareColumn(name, expected.columns[name], actual.columns[name], strict);
      errors := errors + found;
      names := names - {name};
    }
  }

  method CompareKeys(expected: Table, actual: Table) returns (errors: seq<Issue>)
    ensures forall i :: i in errors <==> KeyIssue(i, expected, actual)
  {
    hide UniqueSignatures;
    errors := [];
    if expected.primaryKey != actual.primaryKey {
      errors := errors + [PrimaryKeyMismatch];
    }
    for k := 0 to |expected.foreignKeys|
      invariant forall i :: i in errors <==>
                  KeyIssue(i, expected, actual)
                  && (i.PrimaryKeyMismatch? || (i.MissingForeignKey? && i.key in expected.foreignKeys[..k]))
    {
      if expected.foreignKeys[k] !in actual.foreignKeys {
        errors := errors + [MissingForeignKey(expected.foreignKeys[k])];
      }
    }
    for k := 0 to |actual.foreignKeys|
      invariant forall i :: i in errors <==>
                  KeyIssue(i, expected, actual)
                  && (i.PrimaryKeyMismatch? || i.MissingForeignKey?
                      || (i.UnexpectedForeignKey? && i.key in actual.foreignKeys[..k]))
    {
      if actual.foreignKeys[k] !in expected.foreignKeys {
        errors := errors + [UnexpectedForeignKey(actual.foreignKeys[k])];
      }
    }
    var expectedSignatures, actualSignatures := UniqueSignatures(expected), UniqueSignatures(actual);
    for k := 0 to |expected.uniques|
      invariant forall i :: i in errors <==>
                  KeyIssue(i, expected, actual)
                  && (i.PrimaryKeyMismatch? || i.MissingForeignKey? || i.UnexpectedForeignKey?
                      || (i.MissingUnique? && i.constraint in expected.uniques[..k]))
    {
      if ConstraintSignature(expected.uniques[k]) !in actualSignatures {
        errors := errors + [MissingUnique(expected.uniques[k])];
      }
    }
    for k := 0 to |actual.uniques|
      invariant forall i :: i in errors <==>
                  KeyIssue(i, expected, actual)
                  && (!i.UnexpectedUnique? || i.constraint in actual.uniques[..k])
    {
      if ConstraintSignature(actual.uniques[k]) !in expectedSignatures {
        errors := errors + [UnexpectedUnique(actual.uniques[k])];
      }
    }
  }

  method CompareChecks(expected: Table, actual: Table) returns (errors: seq<Issue>)
    ensures forall i :: i in errors <==> CheckIssue(i, expected, actual)
  {
    hide Satisfies, NameFits;
    errors := [];
    var used: set<nat> := {};
    for i := 0 to |expected.checks|
      invariant forall x :: x in errors <==> x.MissingCheck? && x.position < i && CheckIssue(x, expected, actual)
      invariant forall j :: j in used <==> IsAccounted(j, expected, actual, i)
    {
      var wanted := expected.checks[i];
      var found := FirstMatch(wanted, expected, actual, 0);
      if found.Some? {
        used := used + {found.value};
      } else {
        var named := FirstNamed(wanted, actual, 0);
        if named.Some? {
          used := used + {named.value};
        }
        errors := errors + [MissingCheck(i)];
      }
      assert forall j: nat :: IsAccounted(j, expected, actual, i + 1) <==>
                           IsAccounted(j, expected, actual, i) || Accounted(wanted, expected, actual) == Some(j);
    }
    for j := 0 to |actual.checks|
      invariant forall x :: x in errors <==>
                  CheckIssue(x, expected, actual) && (x.MissingCheck? || x.position < j)
    {
      if j !in used {
        errors := errors + [UnexpectedCheck(j)];
      }
    }
  }

  method CompareIndexes(expected: Table, actual: Table, allowed: map<string, Index>) returns (errors: seq<Issue>)
    ensures forall i :: i in errors <==> IndexIssue(i, expected, actual, allowed)
  {
    hide UniqueSignatures, IndexCovered, IsExcused, IsFullUnique;
    errors := [];
    var names := expected.indexes.Keys;
    while names != {}
      invariant names <= expected.indexes.Keys
      invariant forall i :: i in errors <==>
                  i.MissingIndex? && i.name !in names && IndexIssue(i, expected, actual, allowed)
    {
      var name :| name in names;
      if !(name in actual.indexes && IndexCovered(expected.indexes[name], actual.indexes[name], actual)) {
        errors := errors + [MissingIndex(name)];
      }
      names := names - {name};
    }
    var signatures := UniqueSignatures(expected);
    names := actual.indexes.Keys - expected.indexes.Keys;
    while names != {}
      invariant names <= actual.indexes.Keys - expected.indexes.Keys
      invariant forall i :: i in errors <==>
                  IndexIssue(i, expected, actual, allowed) && (i.MissingIndex? || i.name !in names)
    {
      var name :| name in names;
      var observed := actual.indexes[name];
      names := names - {name};
      if IsExcused(name, observed, allowed) {
        continue;
      }
      if !(IsFullUnique(observed) && IndexSignature(observed) in signatures) && observed.unique {
        errors := errors + [UnexpectedUniqueIndex(name)];
      }
    }
  }

  /** Reports exactly the issues that `Raised` describes. */
  method CompareTableSchema(expected: Table, actual: Table, strict: bool, allowed: map<string, Index>)
    returns (errors: seq<Issue>)
    ensures forall i :: i in errors <==> Raised(i, expected, actual, strict, allowed)
  {
    hide ColumnIssue, KeyIssue, CheckIssue, IndexIssue;
    errors := CompareColumns(expected, actual, strict);
    var keys := CompareKeys(expected, actual);
    var checks := CompareChecks(expected, actual);
    var indexes := CompareIndexes(expected, actual, allowed);
    errors := errors + keys + checks + indexes;
  }

  /* ---------- What a clean comparison guarantees ---------- */

  ghost predicate Clean(expected: Table, actual: Table, strict: bool, allowed: map<string, Index>) {
    forall i :: !Raised(i, expected, actual, strict, allowed)
  }

  /** Neither is an identity column, or both are and every declared option has its live value. */
  predicate SettledIdentity(wanted: Option<map<string, string>>, live: Option<map<string, string>>) {
    if wanted.Some? then live.Some? && wanted.value.Items <= live.value.Items else live.None?
  }

  /** The live default is the declared one or, unless strict, the default the program itself fills in. */
  predicate SettledDefault(wanted: Column, observed: Column, strict: bool) {
    var live := LiveDefault(wanted.sqlType, observed.default);
    live == wanted.default || (!strict && wanted.default.None? && live.Some? && live == wanted.clientDefault)
  }

  lemma ColumnIsSettled(wanted: Column, observed: Column, strict: bool)
    requires !IdentityDiffers(wanted.identity, observed.identity) && !DefaultDiffers(wanted, observed, strict)
    ensures SettledIdentity(wanted.identity, observed.identity) && SettledDefault(wanted, observed, strict)
  {
    hide LiveDefault;
    if wanted.identity.Some? {
      forall item | item in wanted.identity.value.Items ensures item in observed.identity.value.Items {
        assert item.0 in wanted.identity.value;
      }
    }
  }

  /** Columns, their types, nullability, identities, defaults, and the primary and foreign keys are the same. */
  lemma CleanMeansSameColumnsAndKeys(expected: Table, actual: Table, strict: bool, allowed: map<string, Index>)
    requires Clean(expected, actual, strict, allowed)
    ensures expected.columns.Keys == actual.columns.Keys
    ensures forall name :: name in expected.columns ==>
              && expected.columns[name].sqlType == actual.columns[name].sqlType
              && expected.columns[name].nullable == actual.columns[name].nullable
              && SettledIdentity(expected.columns[name].identity, actual.columns[name].identity)
              && SettledDefault(expected.columns[name], actual.columns[name], strict)
    ensures expected.primaryKey == actual.primaryKey
    ensures forall k :: k in expected.foreignKeys <==> k in actual.foreignKeys
  {
    hide IdentityDiffers, DefaultDiffers, CheckIssue, IndexIssue, UniqueSignatures;
    forall name
      ensures name in expected.columns <==> name in actual.columns
      ensures name in expected.columns && name in actual.columns ==>
                && expected.columns[name].sqlType == actual.columns[name].sqlType
                && expected.columns[name].nullable == actual.columns[name].nullable
                && !IdentityDiffers(expected.columns[name].identity, actual.columns[name].identity)
                && !DefaultDiffers(expected.columns[name], actual.columns[name], strict)
    {
      assert !Raised(MissingColumn(name), expected, actual, strict, allowed);
      assert !Raised(ExtraColumn(name), expected, actual, strict, allowed);
      assert !Raised(TypeMismatch(name), expected, actual, strict, allowed);
      assert !Raised(NullableMismatch(name), expected, actual, strict, allowed);
      assert !Raised(IdentityMismatch(name), expected, actual, strict, allowed);
      assert !Raised(DefaultMismatch(name), expected, actual, strict, allowed);
    }
    assert !Raised(PrimaryKeyMismatch, expected, actual, strict, allowed);
    forall k ensures k in expected.foreignKeys <==> k in actual.foreignKeys {
      assert !Raised(MissingForeignKey(k), expected, actual, strict, allowed);
      assert !Raised(UnexpectedForeignKey(k), expected, actual, strict, allowed);
    }
    forall name | name in expected.columns
      ensures SettledIdentity(expected.columns[name].identity, actual.columns[name].identity)
      ensures SettledDefault(expected.columns[name], actual.columns[name], strict)
    {
      ColumnIsSettled(expected.columns[name], actual.columns[name], strict);
    }
  }

  /** Signatures of the extra indexes the comparison passes over: duplicates of a constraint, and allowed ones. */
  function ExcusedSignatures(expected: Table, actual: Table, allowed: map<string, Index>): set<Signature> {
    set name | name in actual.indexes && name !in expected.indexes
               && IsExcused(name, actual.indexes[name], allowed) && IsFullUnique(actual.indexes[name])
             :: IndexSignature(actual.indexes[name])
  }

  lemma IndexIsSignature(t: Table, name: string)
    requires name in t.indexes && IsFullUnique(t.indexes[name])
    ensures IndexSignature(t.indexes[name]) in UniqueSignatures(t)
  {
  }

  lemma CleanConstraints(expected: Table, actual: Table, strict: bool, allowed: map<string, Index>, u: Unique)
    requires Clean(expected, actual, strict, allowed)
    ensures u in expected.uniques ==> ConstraintSignature(u) in UniqueSignatures(actual)
    ensures u in actual.uniques ==> ConstraintSignature(u) in UniqueSignatures(expected)
  {
    hide ColumnIssue, CheckIssue, IndexIssue, UniqueSignatures;
    assert !Raised(MissingUnique(u), expected, actual, strict, allowed);
    assert !Raised(UnexpectedUnique(u), expected, actual, strict, allowed);
  }

  lemma CleanDeclaredIndex(expected: Table, actual: Table, strict: bool, allowed: map<string, Index>, name: string)
    requires Clean(expected, actual, strict, allowed)
    ensures name in expected.indexes ==> name in actual.indexes && IndexCovered(expected.indexes[name], actual.indexes[name], actual)
  {
    hide ColumnIssue, CheckIssue, KeyIssue, UniqueSignatures, IndexCovered;
    assert !Raised(MissingIndex(name), expected, actual, strict, allowed);
  }

  lemma CleanExtraIndex(expected: Table, actual: Table, strict: bool, allowed: map<string, Index>, name: string)
    requires Clean(expected, actual, strict, allowed)
    requires name in actual.indexes && name !in expected.indexes && IsFullUnique(actual.indexes[name])
    ensures IsExcused(name, actual.indexes[name], allowed) || IndexSignature(actual.indexes[name]) in UniqueSignatures(expected)
  {
    hide ColumnIssue, CheckIssue, KeyIssue, UniqueSignatures, IsExcused;
    assert !Raised(UnexpectedUniqueIndex(name), expected, actual, strict, allowed);
  }

  /** Nothing declared unique is lost, and anything more is unique only through an excused index. */
  lemma CleanBoundsUniqueness(expected: Table, actual: Table, strict: bool, allowed: map<string, Index>)
    requires Clean(expected, actual, strict, allowed)
    ensures UniqueSignatures(expected) <= UniqueSignatures(actual)
    ensures UniqueSignatures(actual) <= UniqueSignatures(expected) + ExcusedSignatures(expected, actual, allowed)
  {
    hide Clean, IsExcused;
    forall s | s in UniqueSignatures(expected) ensures s in UniqueSignatures(actual) {
      DeclaredIsKept(expected, actual, strict, allowed, s);
    }
    forall s | s in UniqueSignatures(actual)
      ensures s in UniqueSignatures(expected) + ExcusedSignatures(expected, actual, allowed)
    {
      LiveIsDeclared(expected, actual, strict, allowed, s);
    }
  }

  lemma DeclaredIsKept(expected: Table, actual: Table, strict: bool, allowed: map<string, Index>, s: Signature)
    requires Clean(expected, actual, strict, allowed) && s in UniqueSignatures(expected)
    ensures s in UniqueSignatures(actual)
  {
    hide Clean;
    if s in ConstraintSignatures(expected) {
      var u :| u in expected.uniques && ConstraintSignature(u) == s;
      CleanConstraints(expected, actual, strict, allowed, u);
    } else {
      var name :| name in expected.indexes && IsFullUnique(expected.indexes[name])
                  && IndexSignature(expected.indexes[name]) == s;
      CleanDeclaredIndex(expected, actual, strict, allowed, name);
      if actual.indexes[name] == expected.indexes[name] {
        IndexIsSignature(actual, name);
      }
    }
  }

  lemma LiveIsDeclared(expected: Table, actual: Table, strict: bool, allowed: map<string, Index>, s: Signature)
    requires Clean(expected, actual, strict, allowed) && s in UniqueSignatures(actual)
    ensures s in UniqueSignatures(expected) + ExcusedSignatures(expected, actual, allowed)
  {
    hide Clean, IsExcused;
    if s in ConstraintSignatures(actual) {
      var u :| u in actual.uniques && ConstraintSignature(u) == s;
      CleanConstraints(expected, actual, strict, allowed, u);
    } else {
      var name :| name in actual.indexes && IsFullUnique(actual.indexes[name])
                  && IndexSignature(actual.indexes[name]) == s;
      if name in expected.indexes {
        CleanDeclaredIndex(expected, actual, strict, allowed, name);
        IndexIsSignature(expected, name);
      } else {
        CleanExtraIndex(expected, actual, strict, allowed, name);
        if IsExcused(name, actual.indexes[name], allowed) {
          assert s in ExcusedSignatures(expected, actual, allowed);
        }
      }
    }
  }

  /** Extra indexes flagged as duplicates do mirror a constraint; the allowed ones are partial. */
  predicate ExcusesAreHonest(expected: Table, actual: Table, allowed: map<string, Index>) {
    forall name :: name in actual.indexes && name !in expected.indexes ==>
      var observed := actual.indexes[name];
      && (!IsBlank(observed.duplicates) ==> IndexSignature(observed) in ConstraintSignatures(actual))
      && (name in allowed && allowed[name] == observed ==> !IsBlank(observed.filter))
  }

  /** With honest excuses both tables keep exactly the same things unique. */
  lemma CleanMeansSameUniqueness(expected: Table, actual: Table, strict: bool, allowed: map<string, Index>)
    requires Clean(expected, actual, strict, allowed) && ExcusesAreHonest(expected, actual, allowed)
    ensures UniqueSignatures(expected) == UniqueSignatures(actual)
  {
    CleanBoundsUniqueness(expected, actual, strict, allowed);
    forall s | s in ExcusedSignatures(expected, actual, allowed) ensures s in UniqueSignatures(expected) {
      hide ColumnIssue, CheckIssue, IndexIssue;
      var name :| name in actual.indexes && name !in expected.indexes
                  && IsExcused(name, actual.indexes[name], allowed) && IsFullUnique(actual.indexes[name])
                  && IndexSignature(actual.indexes[name]) == s;
      assert s in ConstraintSignatures(actual);
      var u :| u in actual.uniques && ConstraintSignature(u) == s;
      assert !Raised(UnexpectedUnique(u), expected, actual, strict, allowed);
    }
  }

  predicate HasMatch(wanted: Check, expected: Table, actual: Table) {
    exists j :: 0 <= j < |actual.checks| && Satisfies(wanted, actual.checks[j], expected, actual)
  }

  predicate IsMatch(observed: Check, expected: Table, actual: Table) {
    exists i :: 0 <= i < |expected.checks| && Satisfies(expected.checks[i], observed, expected, actual)
  }

  /** Every declared check has its match, and every live check is the match of a declared one. */
  lemma CleanMeansSameChecks(expected: Table, actual: Table, strict: bool, allowed: map<string, Index>)
    requires Clean(expected, actual, strict, allowed)
    ensures forall i :: 0 <= i < |expected.checks| ==> HasMatch(expected.checks[i], expected, actual)
    ensures forall j :: 0 <= j < |actual.checks| ==> IsMatch(actual.checks[j], expected, actual)
  {
    hide Satisfies, ColumnIssue, KeyIssue, IndexIssue;
    forall i | 0 <= i < |expected.checks| ensures HasMatch(expected.checks[i], expected, actual) {
      assert !Raised(MissingCheck(i), expected, actual, strict, allowed);
    }
    forall j | 0 <= j < |actual.checks| ensures IsMatch(actual.checks[j], expected, actual) {
      assert !Raised(UnexpectedCheck(j), expected, actual, strict, allowed);
      var i :| 0 <= i < |expected.checks| && Accounted(expected.checks[i], expected, actual) == Some(j);
      assert !Raised(MissingCheck(i), expected, actual, strict, allowed);
    }
  }

  /** The check was read from some text. */
  ghost predicate IsRead(c: Check) {
    exists text :: c.sql == CanonicalCheck(text)
  }

  /** The same canonical text, or two forms that agree for every column value. */
  ghost predicate SameCheck(wanted: Check, observed: Check, expected: Table, actual: Table) {
    NameFits(wanted, observed)
    && (observed.sql == wanted.sql
        || MeanTheSame(wanted.sql, observed.sql, Types(expected.columns), Types(actual.columns)))
  }

  lemma SatisfyingIsSame(wanted: Check, observed: Check, expected: Table, actual: Table)
    requires IsRead(wanted) && IsRead(observed) && Satisfies(wanted, observed, expected, actual)
    ensures SameCheck(wanted, observed, expected, actual)
  {
    hide ChecksEquivalent, MeanTheSame, CanonicalCheck, Types;
    if observed.sql != wanted.sql {
      var declared :| wanted.sql == CanonicalCheck(declared);
      var live :| observed.sql == CanonicalCheck(live);
      EquivalentTextsMeanTheSame(declared, live, Types(expected.columns), Types(actual.columns));
    }
  }

  ghost predicate HasSame(wanted: Check, expected: Table, actual: Table) {
    exists j :: 0 <= j < |actual.checks| && SameCheck(wanted, actual.checks[j], expected, actual)
  }

  ghost predicate IsSame(observed: Check, expected: Table, actual: Table) {
    exists i :: 0 <= i < |expected.checks| && SameCheck(expected.checks[i], observed, expected, actual)
  }

  /** After a clean comparison every check, declared or live, has one on the other side that means the same. */
  lemma CleanChecksMeanTheSame(expected: Table, actual: Table, strict: bool, allowed: map<string, Index>)
    requires Clean(expected, actual, strict, allowed)
    requires forall c :: c in expected.checks || c in actual.checks ==> IsRead(c)
    ensures forall i :: 0 <= i < |expected.checks| ==> HasSame(expected.checks[i], expected, actual)
    ensures forall j :: 0 <= j < |actual.checks| ==> IsSame(actual.checks[j], expected, actual)
  {
    hide Satisfies, SameCheck, IsRead, Clean, HasMatch, IsMatch, HasSame, IsSame;
    CleanMeansSameChecks(expected, actual, strict, allowed);
    forall i | 0 <= i < |expected.checks| ensures HasSame(expected.checks[i], expected, actual) {
      MatchIsSame(expected.checks[i], expected, actual);
    }
    forall j | 0 <= j < |actual.checks| ensures IsSame(actual.checks[j], expected, actual) {
      MatchedIsSame(actual.checks[j], expected, actual);
    }
  }

  lemma MatchIsSame(wanted: Check, expected: Table, actual: Table)
    requires IsRead(wanted) && HasMatch(wanted, expected, actual)
    requires forall c :: c in actual.checks ==> IsRead(c)
    ensures HasSame(wanted, expected, actual)
  {
    hide Satisfies, SameCheck, IsRead;
    var j :| 0 <= j < |actual.checks| && Satisfies(wanted, actual.checks[j], expected, actual);
    SatisfyingIsSame(wanted, actual.checks[j], expected, actual);
  }

  lemma MatchedIsSame(observed: Check, expected: Table, actual: Table)
    requires IsRead(observed) && IsMatch(observed, expected, actual)
    requires forall c :: c in expected.checks ==> IsRead(c)
    ensures IsSame(observed, expected, actual)
  {
    hide Satisfies, SameCheck, IsRead;
    var i :| 0 <= i < |expected.checks| && Satisfies(expected.checks[i], observed, expected, actual);
    SatisfyingIsSame(expected.checks[i], observed, expected, actual);
  }

  /* ---------- A table against itself ---------- */

  predicate NoQuotedNumericDefault(t: Table) {
    forall name :: name in t.columns ==>
      var c := t.columns[name];
      !(IsNumeric(c.sqlType) && c.default.Some? && IsQuotedNumber(c.default.value))
  }

  /** No check could be taken for an earlier one: unnamed or of the same name, and matching it. */
  predicate NoShadowedCheck(t: Table) {
    forall j, k :: 0 <= j < k < |t.checks| ==> !Satisfies(t.checks[k], t.checks[j], t, t)
  }

  lemma SatisfiesItself(c: Check, t: Table)
    ensures Satisfies(c, c, t, t)
  {
    hide ChecksEquivalent;
  }

  predicate IsOwnMatch(t: Table, k: nat)
    requires k < |t.checks|
  {
    FirstMatch(t.checks[k], t, t, 0) == Some(k)
  }

  /** Against itself a check accounts for its first match, which is not behind it. */
  lemma AccountedIsMatch(t: Table, i: nat)
    requires i < |t.checks|
    ensures FirstMatch(t.checks[i], t, t, 0).Some? && FirstMatch(t.checks[i], t, t, 0).value <= i
    ensures Accounted(t.checks[i], t, t) == FirstMatch(t.checks[i], t, t, 0)
  {
    hide Satisfies, FirstNamed, FirstMatch;
    SatisfiesItself(t.checks[i], t);
  }

  lemma LastImageIsOwn(t: Table, from: nat)
    requires from < |t.checks| && IsAccounted(from, t, t, |t.checks|)
    requires forall k :: from < k < |t.checks| ==> IsOwnMatch(t, k)
    ensures IsOwnMatch(t, from)
  {
    hide Satisfies, FirstMatch, FirstNamed, Accounted;
    var i :| 0 <= i < |t.checks| && Accounted(t.checks[i], t, t) == Some(from);
    AccountedIsMatch(t, i);
    if i > from {
      assert IsOwnMatch(t, i);
    }
  }

  /** When every position is the image of one that is not below it, every position is its own image. */
  lemma {:induction false} OntoMeansIdentity(t: Table, from: nat)
    requires from <= |t.checks|
    requires forall j: nat :: j < |t.checks| ==> IsAccounted(j, t, t, |t.checks|)
    ensures forall k :: from <= k < |t.checks| ==> IsOwnMatch(t, k)
    decreases |t.checks| - from
  {
    hide *;
    if from < |t.checks| {
      OntoMeansIdentity(t, from + 1);
      LastImageIsOwn(t, from);
    }
  }

  /** A check is its own match exactly when no earlier one matches it. */
  lemma OwnMatchExactly(t: Table, k: nat)
    requires k < |t.checks|
    ensures IsOwnMatch(t, k) <==> forall j :: 0 <= j < k ==> !Satisfies(t.checks[k], t.checks[j], t, t)
  {
    hide Satisfies;
    SatisfiesItself(t.checks[k], t);
  }

  lemma ChecksCleanAgainstThemselves(t: Table)
    ensures (forall i :: !CheckIssue(i, t, t)) <==> NoShadowedCheck(t)
  {
    if forall i :: !CheckIssue(i, t, t) {
      CleanHasNoShadow(t);
    }
    if NoShadowedCheck(t) {
      forall i ensures !CheckIssue(i, t, t) {
        UnshadowedIsClean(t, i);
      }
    }
  }

  lemma CleanHasNoShadow(t: Table)
    requires forall i :: !CheckIssue(i, t, t)
    ensures NoShadowedCheck(t)
  {
    hide Satisfies, FirstMatch, IsAccounted, IsOwnMatch;
    forall j: nat | j < |t.checks| ensures IsAccounted(j, t, t, |t.checks|) {
      assert !CheckIssue(UnexpectedCheck(j), t, t);
    }
    OntoMeansIdentity(t, 0);
    forall j, k | 0 <= j < k < |t.checks| ensures !Satisfies(t.checks[k], t.checks[j], t, t) {
      OwnMatchExactly(t, k);
    }
  }

  lemma UnshadowedIsClean(t: Table, issue: Issue)
    requires NoShadowedCheck(t)
    ensures !CheckIssue(issue, t, t)
  {
    hide Satisfies, FirstMatch, Accounted;
    if issue.MissingCheck? && issue.position < |t.checks| {
      AccountedIsMatch(t, issue.position);
    }
    if issue.UnexpectedCheck? && issue.position < |t.checks| {
      OwnMatchExactly(t, issue.position);
      AccountedIsMatch(t, issue.position);
    }
  }

  lemma DefaultDiffersFromItself(c: Column, strict: bool)
    ensures DefaultDiffers(c, c, strict) <==>
            IsNumeric(c.sqlType) && c.default.Some? && IsQuotedNumber(c.default.value)
  {
    if c.default.Some? && IsQuotedNumber(c.default.value) {
      assert |c.default.value[1..|c.default.value| - 1]| < |c.default.value|;
    }
  }

  /**
   A table compared with itself is clean exactly when no numeric column has a quoted
   number as default and no check could be taken for an earlier one.
   */
  lemma CleanAgainstItself(t: Table, strict: bool, allowed: map<string, Index>)
    ensures Clean(t, t, strict, allowed) <==> NoQuotedNumericDefault(t) && NoShadowedCheck(t)
  {
    hide DefaultDiffers, Satisfies, CheckIssue, IsQuotedNumber, IsNumeric;
    ChecksCleanAgainstThemselves(t);
    forall name | name in t.columns
      ensures DefaultDiffers(t.columns[name], t.columns[name], strict) <==>
              IsNumeric(t.columns[name].sqlType) && t.columns[name].default.Some?
              && IsQuotedNumber(t.columns[name].default.value)
    {
      DefaultDiffersFromItself(t.columns[name], strict);
    }
    if Clean(t, t, strict, allowed) {
      forall name | name in t.columns ensures !DefaultDiffers(t.columns[name], t.columns[name], strict) {
        assert !Raised(DefaultMismatch(name), t, t, strict, allowed);
      }
      forall i ensures !CheckIssue(i, t, t) {
        assert !Raised(i, t, t, strict, allowed);
      }
    }
    if NoQuotedNumericDefault(t) && NoShadowedCheck(t) {
      forall i ensures !Raised(i, t, t, strict, allowed) {
        assert !ColumnIssue(i, t, t, strict);
        assert !KeyIssue(i, t, t);
        assert !IndexIssue(i, t, t, allowed);
      }
    }
  }

  /** The comparison does report a table against itself: a quoted zero as an integer default. */
  lemma QuotedDefaultIsReported()
    ensures var t := Table(map["n" := Column("INTEGER", false, Some("'0'"), None, None)], [], [], [], [], map[]);
            !Clean(t, t, false, map[])
  {
    var t := Table(map["n" := Column("INTEGER", false, Some("'0'"), None, None)], [], [], [], [], map[]);
    assert "n" in t.columns && IsQuotedNumber("'0'") by {
      assert "'0'"[1..2] == "0";
      assert "0"[1..] == "";
    }
    CleanAgainstItself(t, false, map[]);
  }

  /** Two unnamed checks of the same text are reported too: the second is taken for the first. */
  lemma UnnamedTwinsAreReported(sql: Canonical, strict: bool, allowed: map<string, Index>)
    ensures !Clean(Table(map[], [], [], [], [Check(None, sql), Check(None, sql)], map[]),
                   Table(map[], [], [], [], [Check(None, sql), Check(None, sql)], map[]), strict, allowed)
  {
    hide ChecksEquivalent, Clean;
    var t := Table(map[], [], [], [], [Check(None, sql), Check(None, sql)], map[]);
    assert Satisfies(t.checks[1], t.checks[0], t, t);
    CleanAgainstItself(t, strict, allowed);
  }

  /** Distinct non-null names are enough for the checks to be told apart. */
  lemma DistinctNamesAreNotShadowed(t: Table)
    requires forall k :: 0 <= k < |t.checks| ==> t.checks[k].name.Some?
    requires forall j, k :: 0 <= j < k < |t.checks| ==> t.checks[j].name != t.checks[k].name
    ensures NoShadowedCheck(t)
  {
    hide CheckMatches;
  }
}
