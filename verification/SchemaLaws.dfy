/**
 Exactly when a live table compares clean with the declared one, told by columns, keys,
 uniqueness, checks and indexes.
 */
module SchemaLaws {
  import opened CheckEquivalence
  import opened CheckLexer
  import CheckLexerLaws
  import opened Formats
  import opened SchemaCompare
  import opened Wrappers

  /* ---------- Defaults ---------- */

  predicate AreDigits(s: string) {
    s != "" && forall k :: 0 <= k < |s| ==> '0' <= s[k] <= '9'
  }

  /** Digits, with a point and digits behind it or not. */
  predicate IsPlainNumber(s: string) {
    AreDigits(s) || exists i :: 0 <= i < |s| && s[i] == '.' && AreDigits(s[..i]) && AreDigits(s[i + 1..])
  }

  /** A number, possibly negative, between single quotes. */
  ghost predicate IsNumberInQuotes(s: string) {
    exists number :: IsPlainNumber(number) && (s == "'" + number + "'" || s == "'-" + number + "'")
  }

  lemma DigitsExactly(s: string)
    ensures AreDigits(s) <==> s != "" && DigitsLength(s) == |s|
  {
    CheckLexerLaws.DigitsRun(s, |s|);
  }

  lemma DecimalExactly(s: string)
    ensures IsDecimal(s) <==> IsPlainNumber(s)
  {
    hide DigitsLength, AreDigits;
    var whole := DigitsLength(s);
    CheckLexerLaws.DigitsRun(s, whole);
    DigitsExactly(s);
    DigitsExactly(s[..whole]);
    CheckLexerLaws.DigitsRun(s[..whole], whole);
    if whole < |s| {
      DigitsExactly(s[whole + 1..]);
    }
    forall i: nat | i < |s| && s[i] == '.' && AreDigits(s[..i]) ensures i == whole {
      PointEndsDigits(s, i);
    }
  }

  lemma PointEndsDigits(s: string, i: nat)
    requires i < |s| && s[i] == '.' && AreDigits(s[..i])
    ensures DigitsLength(s) == i
  {
    hide DigitsLength;
    CheckLexerLaws.DigitsRun(s, i);
    assert forall k :: 0 <= k < i ==> s[..i][k] == s[k];
  }

  lemma QuotedNumberExactly(s: string)
    ensures IsQuotedNumber(s) <==> IsNumberInQuotes(s)
  {
    hide IsQuotedNumber, IsNumberInQuotes;
    if IsQuotedNumber(s) {
      QuotedIsInQuotes(s);
    }
    if IsNumberInQuotes(s) {
      InQuotesIsQuoted(s);
    }
  }

  lemma QuotedIsInQuotes(s: string)
    requires IsQuotedNumber(s)
    ensures IsNumberInQuotes(s)
  {
    hide IsDecimal, IsPlainNumber;
    var body := s[1..|s| - 1];
    var number := if body != "" && body[0] == '-' then body[1..] else body;
    DecimalExactly(number);
    assert s == "'" + body + "'";
    assert body != "" && body[0] == '-' ==> body == "-" + number && s == "'-" + number + "'";
  }

  lemma InQuotesIsQuoted(s: string)
    requires IsNumberInQuotes(s)
    ensures IsQuotedNumber(s)
  {
    hide IsDecimal, IsPlainNumber;
    var number :| IsPlainNumber(number) && (s == "'" + number + "'" || s == "'-" + number + "'");
    DecimalExactly(number);
    NumberHasNoSign(number);
    if s == "'" + number + "'" {
      assert s[1..|s| - 1] == number;
    } else {
      assert s[1..|s| - 1] == "-" + number;
      assert ("-" + number)[1..] == number;
    }
  }

  lemma NumberHasNoSign(s: string)
    requires IsPlainNumber(s)
    ensures s != "" && s[0] != '-'
  {
    if !AreDigits(s) {
      var i :| 0 <= i < |s| && s[i] == '.' && AreDigits(s[..i]) && AreDigits(s[i + 1..]);
      assert s[..i][0] == s[0];
    }
  }

  /** The live default without the quotes that PostgreSQL puts around a number. */
  ghost predicate IsComparedDefault(sqlType: string, live: Option<string>, compared: Option<string>) {
    if (sqlType in {"SMALLINT", "INTEGER", "BIGINT"} || "NUMERIC" <= sqlType) && live.Some? && IsNumberInQuotes(live.value)
    then |live.value| >= 2 && compared == Some(live.value[1..|live.value| - 1])
    else compared == live
  }

  lemma ComparedDefaultExactly(sqlType: string, live: Option<string>, compared: Option<string>)
    ensures compared == LiveDefault(sqlType, live) <==> IsComparedDefault(sqlType, live, compared)
  {
    hide IsNumberInQuotes;
    if live.Some? {
      QuotedNumberExactly(live.value);
      QuotedHasQuotes(live.value);
    }
  }

  lemma QuotedHasQuotes(s: string)
    ensures IsQuotedNumber(s) ==> |s| >= 2
  {
  }

  /* ---------- Columns ---------- */

  /** What has to agree about one column. */
  ghost predicate ColumnAgrees(wanted: Column, observed: Column, strict: bool) {
    && wanted.sqlType == observed.sqlType && wanted.nullable == observed.nullable
    && (match wanted.identity
        case None => observed.identity == None
        case Some(options) =>
          observed.identity.Some? && forall k :: k in options ==> k in observed.identity.value && observed.identity.value[k] == options[k])
    && (|| IsComparedDefault(wanted.sqlType, observed.default, wanted.default)
        || (!strict && wanted.default == None && wanted.clientDefault.Some?
            && IsComparedDefault(wanted.sqlType, observed.default, wanted.clientDefault)))
  }

  lemma ColumnExactly(wanted: Column, observed: Column, strict: bool)
    ensures ColumnAgrees(wanted, observed, strict) <==>
              && wanted.sqlType == observed.sqlType && wanted.nullable == observed.nullable
              && !IdentityDiffers(wanted.identity, observed.identity) && !DefaultDiffers(wanted, observed, strict)
  {
    hide LiveDefault, IsComparedDefault;
    ComparedDefaultExactly(wanted.sqlType, observed.default, wanted.default);
    ComparedDefaultExactly(wanted.sqlType, observed.default, wanted.clientDefault);
  }

  ghost predicate ColumnsAgree(expected: Table, actual: Table, strict: bool) {
    && (forall name :: name in expected.columns <==> name in actual.columns)
    && forall name :: name in expected.columns && name in actual.columns ==>
         ColumnAgrees(expected.columns[name], actual.columns[name], strict)
  }

  lemma ColumnsExactly(expected: Table, actual: Table, strict: bool)
    ensures (forall i :: !ColumnIssue(i, expected, actual, strict)) <==> ColumnsAgree(expected, actual, strict)
  {
    hide ColumnAgrees, IdentityDiffers, DefaultDiffers;
    forall name | name in expected.columns && name in actual.columns
      ensures ColumnAgrees(expected.columns[name], actual.columns[name], strict) <==>
                && !ColumnIssue(TypeMismatch(name), expected, actual, strict) && !ColumnIssue(NullableMismatch(name), expected, actual, strict)
                && !ColumnIssue(IdentityMismatch(name), expected, actual, strict) && !ColumnIssue(DefaultMismatch(name), expected, actual, strict)
    {
      ColumnExactly(expected.columns[name], actual.columns[name], strict);
    }
    if forall i :: !ColumnIssue(i, expected, actual, strict) {
      forall name
        ensures name in expected.columns <==> name in actual.columns
        ensures name in expected.columns && name in actual.columns ==> ColumnAgrees(expected.columns[name], actual.columns[name], strict)
      {
        assert !ColumnIssue(MissingColumn(name), expected, actual, strict) && !ColumnIssue(ExtraColumn(name), expected, actual, strict);
        assert !ColumnIssue(TypeMismatch(name), expected, actual, strict) && !ColumnIssue(NullableMismatch(name), expected, actual, strict);
        assert !ColumnIssue(IdentityMismatch(name), expected, actual, strict) && !ColumnIssue(DefaultMismatch(name), expected, actual, strict);
      }
    }
  }

  /* ---------- Keys and uniqueness ---------- */

  /** A constraint or an index over all rows keeps these columns unique. */
  predicate KeepsUnique(t: Table, columns: seq<string>, nullsNotDistinct: bool) {
    || (exists u :: u in t.uniques && u.columns == columns && u.nullsNotDistinct == nullsNotDistinct)
    || (exists name :: name in t.indexes
                       && var i := t.indexes[name];
                          i.unique && (i.filter == None || i.filter == Some("")) && !i.isExpression
                          && i.columns == columns && i.nullsNotDistinct == nullsNotDistinct)
  }

  lemma UniqueExactly(t: Table, columns: seq<string>, nullsNotDistinct: bool)
    ensures Signature(columns, nullsNotDistinct) in UniqueSignatures(t) <==> KeepsUnique(t, columns, nullsNotDistinct)
  {
    var s := Signature(columns, nullsNotDistinct);
    if s in ConstraintSignatures(t) {
      var u :| u in t.uniques && ConstraintSignature(u) == s;
    } else if s in UniqueSignatures(t) {
      var name :| name in t.indexes && IsFullUnique(t.indexes[name]) && IndexSignature(t.indexes[name]) == s;
    }
    if u :| u in t.uniques && u.columns == columns && u.nullsNotDistinct == nullsNotDistinct {
      assert ConstraintSignature(u) == s;
    }
    if name :| name in t.indexes
               && var i := t.indexes[name];
                  i.unique && (i.filter == None || i.filter == Some("")) && !i.isExpression
                  && i.columns == columns && i.nullsNotDistinct == nullsNotDistinct {
      assert IndexSignature(t.indexes[name]) == s;
    }
  }

  ghost predicate KeysAgree(expected: Table, actual: Table) {
    && expected.primaryKey == actual.primaryKey
    && (forall k :: k in expected.foreignKeys <==> k in actual.foreignKeys)
    && (forall u :: u in expected.uniques ==> KeepsUnique(actual, u.columns, u.nullsNotDistinct))
    && (forall u :: u in actual.uniques ==> KeepsUnique(expected, u.columns, u.nullsNotDistinct))
  }

  lemma KeysExactly(expected: Table, actual: Table)
    ensures (forall i :: !KeyIssue(i, expected, actual)) <==> KeysAgree(expected, actual)
  {
    hide UniqueSignatures, KeepsUnique;
    forall u: Unique
      ensures ConstraintSignature(u) in UniqueSignatures(actual) <==> KeepsUnique(actual, u.columns, u.nullsNotDistinct)
      ensures ConstraintSignature(u) in UniqueSignatures(expected) <==> KeepsUnique(expected, u.columns, u.nullsNotDistinct)
    {
      UniqueExactly(actual, u.columns, u.nullsNotDistinct);
      UniqueExactly(expected, u.columns, u.nullsNotDistinct);
    }
    if forall i :: !KeyIssue(i, expected, actual) {
      assert !KeyIssue(PrimaryKeyMismatch, expected, actual);
      forall k ensures k in expected.foreignKeys <==> k in actual.foreignKeys {
        assert !KeyIssue(MissingForeignKey(k), expected, actual) && !KeyIssue(UnexpectedForeignKey(k), expected, actual);
      }
      forall u
        ensures u in expected.uniques ==> KeepsUnique(actual, u.columns, u.nullsNotDistinct)
        ensures u in actual.uniques ==> KeepsUnique(expected, u.columns, u.nullsNotDistinct)
      {
        assert !KeyIssue(MissingUnique(u), expected, actual) && !KeyIssue(UnexpectedUnique(u), expected, actual);
      }
    }
  }

  /* ---------- Checks ---------- */

  /** The live check at `j` has the declared one's name, if that has one, and the same or an equivalent text. */
  predicate Fits(wanted: Check, j: nat, expected: Table, actual: Table)
    requires j < |actual.checks|
  {
    var observed := actual.checks[j];
    && (wanted.name.Some? ==> observed.name == wanted.name)
    && (observed.sql == wanted.sql || ChecksEquivalent(wanted.sql, observed.sql, Types(expected.columns), Types(actual.columns)))
  }

  predicate IsFirstFit(wanted: Check, j: nat, expected: Table, actual: Table) {
    j < |actual.checks| && Fits(wanted, j, expected, actual) && forall k :: 0 <= k < j ==> !Fits(wanted, k, expected, actual)
  }

  predicate HasFit(wanted: Check, expected: Table, actual: Table) {
    exists j: nat :: j < |actual.checks| && Fits(wanted, j, expected, actual)
  }

  predicate IsTaken(j: nat, expected: Table, actual: Table) {
    exists c :: c in expected.checks && IsFirstFit(c, j, expected, actual)
  }

  /** Every declared check fits a live one, and every live one is the first fit of a declared one. */
  predicate ChecksAgree(expected: Table, actual: Table) {
    && (forall c :: c in expected.checks ==> HasFit(c, expected, actual))
    && (forall j: nat :: j < |actual.checks| ==> IsTaken(j, expected, actual))
  }

  lemma FirstFitExactly(wanted: Check, j: nat, expected: Table, actual: Table)
    ensures FirstMatch(wanted, expected, actual, 0) == Some(j) <==> IsFirstFit(wanted, j, expected, actual)
    ensures FirstMatch(wanted, expected, actual, 0).Some? <==> HasFit(wanted, expected, actual)
  {
    hide ChecksEquivalent, FirstMatch, Types;
    var found := FirstMatch(wanted, expected, actual, 0);
    forall k: nat | k < |actual.checks| ensures Satisfies(wanted, actual.checks[k], expected, actual) <==> Fits(wanted, k, expected, actual) {
    }
  }

  lemma ChecksExactly(expected: Table, actual: Table)
    ensures (forall i :: !CheckIssue(i, expected, actual)) <==> ChecksAgree(expected, actual)
  {
    hide FirstMatch, FirstNamed, IsFirstFit, Fits;
    if forall i :: !CheckIssue(i, expected, actual) {
      CleanChecksAgree(expected, actual);
    }
    if ChecksAgree(expected, actual) {
      forall i ensures !CheckIssue(i, expected, actual) {
        AgreeingChecksAreClean(expected, actual, i);
      }
    }
  }

  lemma CleanChecksAgree(expected: Table, actual: Table)
    requires forall i :: !CheckIssue(i, expected, actual)
    ensures ChecksAgree(expected, actual)
  {
    hide FirstMatch, FirstNamed, IsFirstFit, Fits;
    forall c | c in expected.checks ensures FirstMatch(c, expected, actual, 0).Some? {
      var i :| 0 <= i < |expected.checks| && expected.checks[i] == c;
      assert !CheckIssue(MissingCheck(i), expected, actual);
    }
    forall c | c in expected.checks ensures HasFit(c, expected, actual) {
      FirstFitExactly(c, 0, expected, actual);
    }
    forall j: nat | j < |actual.checks| ensures IsTaken(j, expected, actual) {
      assert !CheckIssue(UnexpectedCheck(j), expected, actual);
      var i :| 0 <= i < |expected.checks| && Accounted(expected.checks[i], expected, actual) == Some(j);
      assert expected.checks[i] in expected.checks;
      FirstFitExactly(expected.checks[i], j, expected, actual);
    }
  }

  lemma AgreeingChecksAreClean(expected: Table, actual: Table, issue: Issue)
    requires ChecksAgree(expected, actual)
    ensures !CheckIssue(issue, expected, actual)
  {
    hide FirstMatch, FirstNamed, IsFirstFit, Fits;
    if issue.MissingCheck? && issue.position < |expected.checks| {
      FirstFitExactly(expected.checks[issue.position], 0, expected, actual);
    }
    if issue.UnexpectedCheck? && issue.position < |actual.checks| {
      assert IsTaken(issue.position, expected, actual);
      var c :| c in expected.checks && IsFirstFit(c, issue.position, expected, actual);
      FirstFitExactly(c, issue.position, expected, actual);
      var i :| 0 <= i < |expected.checks| && expected.checks[i] == c;
      assert Accounted(expected.checks[i], expected, actual) == Some(issue.position);
    }
  }

  /* ---------- Indexes ---------- */

  /** A declared index is there, or a plain one beside something that keeps its columns unique. */
  predicate IndexAgrees(wanted: Index, observed: Index, actual: Table) {
    observed == wanted
    || (wanted.unique && observed == wanted.(unique := false) && KeepsUnique(actual, wanted.columns, wanted.nullsNotDistinct))
  }

  /** An index beyond the declared ones that is harmless. */
  predicate IsHarmless(name: string, observed: Index, expected: Table, allowed: map<string, Index>) {
    || !observed.unique
    || (observed.duplicates.Some? && observed.duplicates.value != "")
    || (name in allowed && allowed[name] == observed)
    || ((observed.filter == None || observed.filter == Some("")) && !observed.isExpression
        && KeepsUnique(expected, observed.columns, observed.nullsNotDistinct))
  }

  predicate IndexesAgree(expected: Table, actual: Table, allowed: map<string, Index>) {
    && (forall name :: name in expected.indexes ==>
          name in actual.indexes && IndexAgrees(expected.indexes[name], actual.indexes[name], actual))
    && (forall name :: name in actual.indexes && name !in expected.indexes ==>
          IsHarmless(name, actual.indexes[name], expected, allowed))
  }

  lemma IndexesExactly(expected: Table, actual: Table, allowed: map<string, Index>)
    ensures (forall i :: !IndexIssue(i, expected, actual, allowed)) <==> IndexesAgree(expected, actual, allowed)
  {
    hide UniqueSignatures, KeepsUnique;
    forall i: Index
      ensures IndexSignature(i) in UniqueSignatures(actual) <==> KeepsUnique(actual, i.columns, i.nullsNotDistinct)
      ensures IndexSignature(i) in UniqueSignatures(expected) <==> KeepsUnique(expected, i.columns, i.nullsNotDistinct)
    {
      UniqueExactly(actual, i.columns, i.nullsNotDistinct);
      UniqueExactly(expected, i.columns, i.nullsNotDistinct);
    }
    if forall i :: !IndexIssue(i, expected, actual, allowed) {
      forall name
        ensures name in expected.indexes ==> name in actual.indexes && IndexAgrees(expected.indexes[name], actual.indexes[name], actual)
        ensures name in actual.indexes && name !in expected.indexes ==> IsHarmless(name, actual.indexes[name], expected, allowed)
      {
        assert !IndexIssue(MissingIndex(name), expected, actual, allowed);
        assert !IndexIssue(UnexpectedUniqueIndex(name), expected, actual, allowed);
      }
    }
  }

  /* ---------- The table ---------- */

  /** A comparison is clean exactly when columns, keys, checks and indexes agree. */
  lemma CleanExactly(expected: Table, actual: Table, strict: bool, allowed: map<string, Index>)
    ensures Clean(expected, actual, strict, allowed) <==>
              && ColumnsAgree(expected, actual, strict) && KeysAgree(expected, actual)
              && ChecksAgree(expected, actual) && IndexesAgree(expected, actual, allowed)
  {
    hide ColumnIssue, KeyIssue, CheckIssue, IndexIssue, ColumnsAgree, KeysAgree, ChecksAgree, IndexesAgree;
    ColumnsExactly(expected, actual, strict);
    KeysExactly(expected, actual);
    ChecksExactly(expected, actual);
    IndexesExactly(expected, actual, allowed);
    if Clean(expected, actual, strict, allowed) {
      forall i
        ensures !ColumnIssue(i, expected, actual, strict) && !KeyIssue(i, expected, actual)
        ensures !CheckIssue(i, expected, actual) && !IndexIssue(i, expected, actual, allowed)
      {
        assert !Raised(i, expected, actual, strict, allowed);
      }
    }
  }

  /** What each reported issue says is so, and it is reported whenever it is so. */
  ghost predicate IsTrue(issue: Issue, expected: Table, actual: Table, strict: bool, allowed: map<string, Index>) {
    match issue
    case MissingColumn(name) => name in expected.columns && name !in actual.columns
    case ExtraColumn(name) => name !in expected.columns && name in actual.columns
    case TypeMismatch(name) => InBoth(name, expected, actual) && expected.columns[name].sqlType != actual.columns[name].sqlType
    case NullableMismatch(name) => InBoth(name, expected, actual) && expected.columns[name].nullable != actual.columns[name].nullable
    case IdentityMismatch(name) =>
      InBoth(name, expected, actual) && !SettledIdentity(expected.columns[name].identity, actual.columns[name].identity)
    case DefaultMismatch(name) => InBoth(name, expected, actual) && !SettledDefault(expected.columns[name], actual.columns[name], strict)
    case PrimaryKeyMismatch => expected.primaryKey != actual.primaryKey
    case MissingForeignKey(key) => key in expected.foreignKeys && key !in actual.foreignKeys
    case UnexpectedForeignKey(key) => key !in expected.foreignKeys && key in actual.foreignKeys
    case MissingUnique(u) => u in expected.uniques && !KeepsUnique(actual, u.columns, u.nullsNotDistinct)
    case UnexpectedUnique(u) => u in actual.uniques && !KeepsUnique(expected, u.columns, u.nullsNotDistinct)
    case MissingCheck(i) => i < |expected.checks| && !HasFit(expected.checks[i], expected, actual)
    case UnexpectedCheck(j) => j < |actual.checks| && forall i :: 0 <= i < |expected.checks| ==> !AccountsFor(expected.checks[i], j, expected, actual)
    case MissingIndex(name) =>
      name in expected.indexes && !(name in actual.indexes && IndexAgrees(expected.indexes[name], actual.indexes[name], actual))
    case UnexpectedUniqueIndex(name) =>
      name in actual.indexes && name !in expected.indexes && !IsHarmless(name, actual.indexes[name], expected, allowed)
  }

  predicate InBoth(name: string, expected: Table, actual: Table) {
    name in expected.columns && name in actual.columns
  }

  /** The declared check accounts for its first fit or, without one, for the first of its name. */
  predicate AccountsFor(wanted: Check, j: nat, expected: Table, actual: Table) {
    if HasFit(wanted, expected, actual) then IsFirstFit(wanted, j, expected, actual)
    else
      j < |actual.checks| && (wanted.name.Some? ==> actual.checks[j].name == wanted.name)
      && forall k :: 0 <= k < j ==> wanted.name.Some? && actual.checks[k].name != wanted.name
  }

  lemma {:induction false} FirstNamedIs(wanted: Check, actual: Table, from: nat, j: nat)
    requires from <= |actual.checks|
    ensures FirstNamed(wanted, actual, from) == Some(j) <==>
              from <= j < |actual.checks| && NameFits(wanted, actual.checks[j]) && forall k :: from <= k < j ==> !NameFits(wanted, actual.checks[k])
    decreases |actual.checks| - from
  {
    hide NameFits;
    if from < |actual.checks| {
      FirstNamedIs(wanted, actual, from + 1, j);
    }
  }

  lemma AccountedExactly(wanted: Check, j: nat, expected: Table, actual: Table)
    ensures Accounted(wanted, expected, actual) == Some(j) <==> AccountsFor(wanted, j, expected, actual)
  {
    hide IsFirstFit, HasFit, Satisfies;
    var found := FirstMatch(wanted, expected, actual, 0);
    FirstFitExactly(wanted, j, expected, actual);
    FirstNamedIs(wanted, actual, 0, j);
    if found.None? {
      assert Accounted(wanted, expected, actual) == FirstNamed(wanted, actual, 0);
    }
  }

  lemma SettledExactly(wanted: Column, observed: Column, strict: bool)
    ensures SettledIdentity(wanted.identity, observed.identity) <==> !IdentityDiffers(wanted.identity, observed.identity)
    ensures SettledDefault(wanted, observed, strict) <==> !DefaultDiffers(wanted, observed, strict)
  {
    hide LiveDefault;
    if wanted.identity.Some? && observed.identity.Some? {
      var options, live := wanted.identity.value, observed.identity.value;
      if options.Items <= live.Items {
        forall k | k in options ensures k in live && live[k] == options[k] {
          assert (k, options[k]) in options.Items;
        }
      }
      if !IdentityDiffers(wanted.identity, observed.identity) {
        forall item | item in options.Items ensures item in live.Items {
          assert item.0 in options;
        }
      }
    }
  }

  /** An issue is reported exactly when what it says is so. */
  lemma IssueExactly(issue: Issue, expected: Table, actual: Table, strict: bool, allowed: map<string, Index>)
    ensures Raised(issue, expected, actual, strict, allowed) <==> IsTrue(issue, expected, actual, strict, allowed)
  {
    hide Raised, IsTrue;
    if issue.MissingCheck? || issue.UnexpectedCheck? {
      CheckIssueExactly(issue, expected, actual, strict, allowed);
    } else if issue.MissingIndex? || issue.UnexpectedUniqueIndex? {
      IndexIssueExactly(issue, expected, actual, strict, allowed);
    } else {
      OtherIssueExactly(issue, expected, actual, strict, allowed);
    }
  }

  lemma OtherIssueExactly(issue: Issue, expected: Table, actual: Table, strict: bool, allowed: map<string, Index>)
    requires !issue.MissingCheck? && !issue.UnexpectedCheck? && !issue.MissingIndex? && !issue.UnexpectedUniqueIndex?
    ensures Raised(issue, expected, actual, strict, allowed) <==> IsTrue(issue, expected, actual, strict, allowed)
  {
    hide IdentityDiffers, DefaultDiffers, SettledIdentity, SettledDefault, UniqueSignatures, KeepsUnique;
    if issue.IdentityMismatch? || issue.DefaultMismatch? {
      if InBoth(issue.name, expected, actual) {
        SettledExactly(expected.columns[issue.name], actual.columns[issue.name], strict);
      }
    }
    if issue.MissingUnique? || issue.UnexpectedUnique? {
      var u := issue.constraint;
      UniqueExactly(actual, u.columns, u.nullsNotDistinct);
      UniqueExactly(expected, u.columns, u.nullsNotDistinct);
    }
  }

  lemma CheckIssueExactly(issue: Issue, expected: Table, actual: Table, strict: bool, allowed: map<string, Index>)
    requires issue.MissingCheck? || issue.UnexpectedCheck?
    ensures Raised(issue, expected, actual, strict, allowed) <==> IsTrue(issue, expected, actual, strict, allowed)
  {
    hide HasFit, Accounted, AccountsFor, FirstMatch;
    if issue.MissingCheck? && issue.position < |expected.checks| {
      FirstFitExactly(expected.checks[issue.position], 0, expected, actual);
    }
    if issue.UnexpectedCheck? && issue.position < |actual.checks| {
      forall i | 0 <= i < |expected.checks|
        ensures Accounted(expected.checks[i], expected, actual) == Some(issue.position) <==>
                  AccountsFor(expected.checks[i], issue.position, expected, actual)
      {
        AccountedExactly(expected.checks[i], issue.position, expected, actual);
      }
    }
  }

  lemma IndexIssueExactly(issue: Issue, expected: Table, actual: Table, strict: bool, allowed: map<string, Index>)
    requires issue.MissingIndex? || issue.UnexpectedUniqueIndex?
    ensures Raised(issue, expected, actual, strict, allowed) <==> IsTrue(issue, expected, actual, strict, allowed)
  {
    hide UniqueSignatures, KeepsUnique;
    if issue.MissingIndex? && issue.name in expected.indexes {
      var i := expected.indexes[issue.name];
      UniqueExactly(actual, i.columns, i.nullsNotDistinct);
    }
    if issue.UnexpectedUniqueIndex? && issue.name in actual.indexes {
      var i := actual.indexes[issue.name];
      UniqueExactly(expected, i.columns, i.nullsNotDistinct);
    }
  }
}
