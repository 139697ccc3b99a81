/**
 Canonical CHECK texts, the meaning of the accepted forms under three-valued logic, and
 the theorem that CHECKs found equivalent mean the same.
 */
module CheckEquivalence {
  import opened Wrappers
  import opened CheckLexer
  import opened CheckLexerLaws
  import opened CheckGrammar
  import opened CheckMeaning

  /* ---------- Canonical texts ---------- */

  datatype Canonical = Opaque(text: string) | Tokens(tokens: seq<Token>)

  function CanonicalCheck(text: string): Canonical {
    var lexed := Lex(text);
    if lexed.None? || Name("uescape") in lexed.value then Opaque(text)
    else Tokens(Strip(lexed.value))
  }

  method Canonicalize(text: string) returns (r: Canonical)
    ensures r == CanonicalCheck(text)
  {
    hide Lex, Strip;
    var lexed := CheckTokens(text);
    if lexed.None? || Name("uescape") in lexed.value {
      return Opaque(text);
    }
    var core := StripOuterParentheses(lexed.value);
    return Tokens(core);
  }

  lemma {:induction false} StripKeepsMembers(tokens: seq<Token>)
    ensures forall t :: t in Strip(tokens) ==> t in tokens
    decreases |tokens|
  {
    if Wrapped(tokens) {
      StripKeepsMembers(tokens[1..|tokens| - 1]);
    }
  }

  lemma BracketStartsNothing(c: char)
    requires c == '(' || c == ')'
    ensures !CheckLexer.StartsComment([c]) && !CheckLexer.StartsUnicodeIdentifier([c]) && !CheckLexer.StartsString([c])
    ensures !CheckLexer.StartsWord([c]) && !CheckLexer.StartsNumber([c]) && !CheckLexer.IsSpace(c)
  {
  }

  lemma BracketIsSymbol(c: char)
    requires c == '(' || c == ')'
    ensures CheckLexer.MatchSymbol([c]) == Some(CheckLexer.Lexeme(Token(Punctuation, [c]), 1))
  {
    hide OPERATORS, FirstOperator;
    AllOperatorsPlain();
    NoPlainOperatorFitsOne([c], OPERATORS);
  }

  lemma BracketIsSpelled(c: char)
    requires c == '(' || c == ')'
    ensures Spelled(Token(Punctuation, [c]))
  {
    BracketStartsNothing(c);
    BracketIsSymbol(c);
    CheckLexer.OnlySymbol([c]);
    hide CheckLexer.IsSpace, CheckLexer.Match, CheckLexer.MatchSymbol;
  }

  lemma {:induction false} NoPlainOperatorFitsOne(text: string, operators: seq<string>)
    requires AllPlain(operators) && |text| == 1
    ensures FirstOperator(text, operators).None?
  {
    if operators != [] {
      assert |operators[0]| >= 2 by { assert CheckLexer.Plain(operators[0]); }
      NoPlainOperatorFitsOne(text, operators[1..]);
    }
  }

  /** Printing a canonical check and canonicalising it again changes nothing. */
  lemma CanonicalIsStable(text: string)
    requires CanonicalCheck(text).Tokens?
    ensures CanonicalCheck(Print(CanonicalCheck(text).tokens)) == CanonicalCheck(text)
  {
    hide Lex, Strip, Print, Spelled;
    var tokens := Lex(text).value;
    LexedTokensAreSpelled(text);
    StripKeepsMembers(tokens);
    PrintedTokensLex(Strip(tokens));
    StripIsIdempotent(tokens);
  }

  /** Parentheses around a whole CHECK do not change its canonical form. */
  lemma CanonicalIgnoresParentheses(tokens: seq<Token>)
    requires AllSpelled(tokens) && Balanced(tokens, OPEN, CLOSE) && Name("uescape") !in tokens
    ensures CanonicalCheck(Print([OPEN] + tokens + [CLOSE])) == CanonicalCheck(Print(tokens))
  {
    hide Lex, Strip, Print, Spelled;
    BracketIsSpelled('(');
    BracketIsSpelled(')');
    PrintedTokensLex(tokens);
    PrintedTokensLex([OPEN] + tokens + [CLOSE]);
    StripIgnoresWrapping(tokens);
  }

  /* ---------- Column families ---------- */

  function UpperChar(c: char): char {
    if 'a' <= c <= 'z' then (c as int - 32) as char else c
  }

  /** Upper case, with every run of white space one space and none at either end. */
  function Normalized(s: string, pending: bool, started: bool): string {
    if s == "" then ""
    else if IsSpace(s[0]) then Normalized(s[1..], started, started)
    else (if pending then " " else "") + [UpperChar(s[0])] + Normalized(s[1..], false, true)
  }

  function SkipSpaces(s: string): (r: string)
    ensures |r| <= |s|
  {
    if s != "" && IsSpace(s[0]) then SkipSpaces(s[1..]) else s
  }

  /** Nothing, or one parenthesised length. */
  predicate IsLengthSuffix(s: string) {
    s == ""
    || (var group := SkipSpaces(s);
        group != "" && group[0] == '('
        && (var digits := SkipSpaces(group[1..]);
            var n := DigitsLength(digits);
            n > 0 && SkipSpaces(digits[n..]) == ")"))
  }

  function TypeFamily(sqlType: string): Option<Family> {
    var name := Normalized(sqlType, false, false);
    if name == "TEXT" then Some(TextFamily)
    else if "VARCHAR" <= name && IsLengthSuffix(name[|"VARCHAR"|..]) then Some(VarcharFamily)
    else if "CHARACTER VARYING" <= name && IsLengthSuffix(name[|"CHARACTER VARYING"|..]) then Some(VarcharFamily)
    else None
  }

  /** The family both sides agree on for a column, if any. */
  function ColumnFamily(column: string, expected: map<string, string>, actual: map<string, string>): Option<Family> {
    if column !in expected || column !in actual then None
    else
      var wanted, observed := TypeFamily(expected[column]), TypeFamily(actual[column]);
      if wanted == observed then wanted else None
  }

  /** The comparator's test for the sole type-dependent equivalence. */
  predicate ChecksEquivalent(
    expected: Canonical, actual: Canonical,
    expectedTypes: map<string, string>, actualTypes: map<string, string>)
  {
    if expected.Opaque? || actual.Opaque? then false
    else
      var e, a := StringInCandidate(expected.tokens), StringInCandidate(actual.tokens);
      if e.None? || a.None? || e.value.DeclaredIn? == a.value.DeclaredIn? then false
      else
        var declared := if e.value.DeclaredIn? then e.value else a.value;
        var deparsed := if e.value.DeclaredIn? then a.value else e.value;
        && declared.column == deparsed.column
        && declared.literals == deparsed.literals
        && ColumnFamily(declared.column, expectedTypes, actualTypes) == Some(deparsed.family)
  }

  /* ---------- Meaning ---------- */

  datatype Truth = True | False | Unknown

  function Or(a: Truth, b: Truth): Truth {
    if a == True || b == True then True
    else if a == Unknown || b == Unknown then Unknown
    else False
  }

  /**
   What the forms leave open: the string a literal spelling denotes, and, for columns of
   neither family, their equality and their conversion to text.
   */
  datatype Reading = Reading(
    decode: string -> string,
    otherEquals: (string, string) -> bool,
    otherText: string -> string)

  function TruthOf(b: bool): Truth {
    if b then True else False
  }

  /** `column = literal` under the column's own type. */
  function EqualsColumn(family: Option<Family>, reading: Reading, x: Option<string>, literal: string): Truth {
    if x.None? then Unknown
    else if family.Some? then TruthOf(x.value == reading.decode(literal))
    else TruthOf(reading.otherEquals(x.value, reading.decode(literal)))
  }

  /** `column::text = literal`. */
  function EqualsText(family: Option<Family>, reading: Reading, x: Option<string>, literal: string): Truth {
    if x.None? then Unknown
    else TruthOf((if family.Some? then x.value else reading.otherText(x.value)) == reading.decode(literal))
  }

  /** `x IN (a, b, ...)` is `x = a OR x = b OR ...`. */
  function EvalIn(family: Option<Family>, reading: Reading, x: Option<string>, literals: seq<string>): Truth {
    if literals == [] then False
    else Or(EqualsColumn(family, reading, x, literals[0]), EvalIn(family, reading, x, literals[1..]))
  }

  function Compare(left: LeftStyle, family: Option<Family>, reading: Reading, x: Option<string>, literal: string): Truth {
    if left == Bare then EqualsColumn(family, reading, x, literal) else EqualsText(family, reading, x, literal)
  }

  /** `x = ANY (array)`: true if some comparison is, else unknown if some comparison is, else false. */
  function EvalAny(left: LeftStyle, family: Option<Family>, reading: Reading, x: Option<string>, literals: seq<string>): Truth {
    if exists l :: l in literals && Compare(left, family, reading, x, l) == True then True
    else if exists l :: l in literals && Compare(left, family, reading, x, l) == Unknown then Unknown
    else False
  }

  /** Truth value of a form for one column value; None is NULL. */
  function Eval(f: Form, family: Option<Family>, reading: Reading, x: Option<string>): Truth {
    match f
    case InList(_, literals) => EvalIn(family, reading, x, literals)
    case AnyArray(_, left, _, _, literals) => EvalAny(left, family, reading, x, literals)
  }

  lemma {:induction false} InIsAny(family: Option<Family>, reading: Reading, x: Option<string>, literals: seq<string>)
    ensures EvalIn(family, reading, x, literals) == EvalAny(Bare, family, reading, x, literals)
  {
    if literals != [] {
      InIsAny(family, reading, x, literals[1..]);
      assert forall l :: l in literals <==> l == literals[0] || l in literals[1..];
      assert literals[0] in literals;
    }
  }

  /** On text and varchar columns a cast of the column to text changes no comparison. */
  lemma AnyIgnoresCast(left: LeftStyle, family: Family, reading: Reading, x: Option<string>, literals: seq<string>)
    ensures EvalAny(left, Some(family), reading, x, literals) == EvalAny(Bare, Some(family), reading, x, literals)
  {
    assert forall l :: Compare(left, Some(family), reading, x, l) == Compare(Bare, Some(family), reading, x, l);
  }

  predicate SameMeaning(e: Form, a: Form, expectedFamily: Option<Family>, actualFamily: Option<Family>, reading: Reading, x: Option<string>) {
    Eval(e, expectedFamily, reading, x) == Eval(a, actualFamily, reading, x)
  }

  lemma FormsAgree(f: Form, g: Form, family: Family, reading: Reading, x: Option<string>)
    requires f.literals == g.literals
    ensures SameMeaning(f, g, Some(family), Some(family), reading, x)
  {
    InIsAny(Some(family), reading, x, f.literals);
    if f.AnyArray? { AnyIgnoresCast(f.left, family, reading, x, f.literals); }
    if g.AnyArray? { AnyIgnoresCast(g.left, family, reading, x, g.literals); }
  }

  function TypeIn(column: string, types: map<string, string>): Option<Family> {
    if column in types then TypeFamily(types[column]) else None
  }

  /**
   CHECKs found equivalent spell two forms over the same column that have the same truth
   value for every column value, NULL included, and every reading of the literals.
   */
  lemma EquivalentChecksMeanTheSame(
    expected: Canonical, actual: Canonical,
    expectedTypes: map<string, string>, actualTypes: map<string, string>)
    returns (e: Form, a: Form)
    requires ChecksEquivalent(expected, actual, expectedTypes, actualTypes)
    requires WordsAreWords(expected.tokens) && WordsAreWords(actual.tokens)
    ensures Accepted(e) && PrintForm(e) == Strip(expected.tokens)
    ensures Accepted(a) && PrintForm(a) == Strip(actual.tokens)
    ensures e.column == a.column && e.InList? != a.InList?
    ensures forall reading, x ::
              SameMeaning(e, a, TypeIn(e.column, expectedTypes), TypeIn(a.column, actualTypes), reading, x)
  {
    hide StringInCandidate, TypeFamily, PrintForm, Strip;
    var ec, ac := StringInCandidate(expected.tokens).value, StringInCandidate(actual.tokens).value;
    ParserIsPrinterInverse(expected.tokens, ec);
    ParserIsPrinterInverse(actual.tokens, ac);
    e :| Spells(e, expected.tokens, ec);
    a :| Spells(a, actual.tokens, ac);
    var family := if ec.DeclaredIn? then ac.family else ec.family;
    forall reading, x
      ensures SameMeaning(e, a, TypeIn(e.column, expectedTypes), TypeIn(a.column, actualTypes), reading, x)
    {
      FormsAgree(e, a, family, reading, x);
    }
  }

  /** The canonical tokens are those of the form. */
  predicate IsFormOf(f: Form, tokens: seq<Token>) {
    Accepted(f) && PrintForm(f) == tokens
  }

  ghost predicate AgreeEverywhere(e: Form, a: Form, expectedTypes: map<string, string>, actualTypes: map<string, string>) {
    e.column == a.column
    && forall reading, x ::
         SameMeaning(e, a, TypeIn(e.column, expectedTypes), TypeIn(a.column, actualTypes), reading, x)
  }

  /** Both are spelled by a form, and every two forms that spell them agree for every value. */
  ghost predicate MeanTheSame(
    expected: Canonical, actual: Canonical,
    expectedTypes: map<string, string>, actualTypes: map<string, string>)
  {
    && expected.Tokens? && actual.Tokens?
    && (exists e :: IsFormOf(e, expected.tokens))
    && (exists a :: IsFormOf(a, actual.tokens))
    && forall e, a :: IsFormOf(e, expected.tokens) && IsFormOf(a, actual.tokens) ==>
         AgreeEverywhere(e, a, expectedTypes, actualTypes)
  }

  /** A canonical text has no outer parentheses and no word with a space. */
  lemma CanonicalTokens(text: string)
    requires CanonicalCheck(text).Tokens?
    ensures var tokens := CanonicalCheck(text).tokens; WordsAreWords(tokens) && Strip(tokens) == tokens
  {
    hide Lex, Strip, WordsAreWords;
    LexedWordsAreWords(text);
    StripKeepsWords(Lex(text).value);
    StripIsIdempotent(Lex(text).value);
  }

  /** Whatever form spells canonical tokens, the parser finds its candidate. */
  lemma FormHasCandidate(f: Form, tokens: seq<Token>)
    requires IsFormOf(f, tokens) && WordsAreWords(tokens) && Strip(tokens) == tokens
    ensures StringInCandidate(tokens) == Some(CandidateOf(f))
  {
    hide StringInCandidate, Strip, PrintForm, WordsAreWords, Accepted;
    ParserIsPrinterInverse(tokens, CandidateOf(f));
    assert Spells(f, tokens, CandidateOf(f));
  }

  /** Two texts whose canonical forms are found equivalent have equal truth for every column value. */
  lemma EquivalentTextsMeanTheSame(
    declared: string, live: string,
    expectedTypes: map<string, string>, actualTypes: map<string, string>)
    requires ChecksEquivalent(CanonicalCheck(declared), CanonicalCheck(live), expectedTypes, actualTypes)
    ensures MeanTheSame(CanonicalCheck(declared), CanonicalCheck(live), expectedTypes, actualTypes)
  {
    hide StringInCandidate, TypeFamily, PrintForm, Strip, CanonicalCheck, WordsAreWords, Accepted, Eval;
    var expected, actual := CanonicalCheck(declared), CanonicalCheck(live);
    CanonicalTokens(declared);
    CanonicalTokens(live);
    var e, a := EquivalentChecksMeanTheSame(expected, actual, expectedTypes, actualTypes);
    assert IsFormOf(e, expected.tokens) && IsFormOf(a, actual.tokens);
    forall f, g | IsFormOf(f, expected.tokens) && IsFormOf(g, actual.tokens)
      ensures AgreeEverywhere(f, g, expectedTypes, actualTypes)
    {
      FormHasCandidate(f, expected.tokens);
      FormHasCandidate(g, actual.tokens);
      var family := if f.InList? then CandidateOf(g).family else CandidateOf(f).family;
      forall reading, x
        ensures SameMeaning(f, g, TypeIn(f.column, expectedTypes), TypeIn(g.column, actualTypes), reading, x)
      {
        FormsAgree(f, g, family, reading, x);
      }
    }
  }

  lemma EquivalenceIsSymmetric(
    expected: Canonical, actual: Canonical,
    expectedTypes: map<string, string>, actualTypes: map<string, string>)
    ensures ChecksEquivalent(expected, actual, expectedTypes, actualTypes)
            == ChecksEquivalent(actual, expected, actualTypes, expectedTypes)
  {
    hide StringInCandidate, TypeFamily;
  }

  /**
   Why the column's type decides: on a blank-padded column, which is of neither family,
   the declared list accepts a padded value that the text form refuses.
   */
  lemma OtherTypesDisagree(column: string)
    ensures var reading := Reading(l => if l == "'a'" then "a" else l, (p, q) => p == q || p == q + " ", s => s);
            var declared := InList(column, ["'a'"]);
            var deparsed := AnyArray(column, Cast, Plain, AsVarcharText, ["'a'"]);
            Accepted(declared) && Accepted(deparsed)
            && Eval(declared, None, reading, Some("a ")) == True
            && Eval(deparsed, None, reading, Some("a ")) == False
  {
    var literals := ["'a'"];
    assert literals[1..] == [];
    assert "a" + " " == "a ";
  }
}
