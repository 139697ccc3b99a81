/**
 The lexemes of CHECK constraints as a grammar, and the theorem that the lexer takes exactly
 the lexeme the grammar has at the front of a text.

 The grammar spells lexemes; it does not scan. Only the list of operators and of single
 symbols is shared with the lexer.
 */
module CheckLexemes {
  import opened Formats
  import opened Wrappers
  import opened CheckLexer
  import opened CheckLexerLaws

  /* ---------- Numbers ---------- */

  /** One or more digits. */
  predicate Digits(s: string) {
    s != "" && forall k :: 0 <= k < |s| ==> '0' <= s[k] <= '9'
  }

  /** Digits, with an optional point and optional digits behind it; or a point and digits. */
  predicate IsMantissa(s: string) {
    || Digits(s)
    || exists i :: 0 <= i < |s| && s[i] == '.'
                   && (if i == 0 then Digits(s[1..]) else Digits(s[..i]) && (i + 1 == |s| || Digits(s[i + 1..])))
  }

  /** Nothing, or an exponent with an optional sign. */
  predicate IsExponent(s: string) {
    || s == ""
    || (&& |s| >= 2 && (s[0] == 'e' || s[0] == 'E')
        && (Digits(s[1..]) || ((s[1] == '+' || s[1] == '-') && Digits(s[2..]))))
  }

  predicate IsNumber(s: string) {
    exists k :: 0 <= k <= |s| && IsMantissa(s[..k]) && IsExponent(s[k..])
  }

  lemma DigitsFit(s: string, k: nat)
    requires k <= |s|
    ensures Digits(s[..k]) ==> k <= DigitsLength(s)
    ensures k > 0 && k == DigitsLength(s) ==> Digits(s[..k])
    ensures Digits(s[..k]) && (k == |s| || !IsDigit(s[k])) ==> k == DigitsLength(s)
  {
    var n := DigitsLength(s);
    DigitsRun(s, n);
    DigitsRun(s, k);
    if Digits(s[..k]) {
      assert forall i :: 0 <= i < k ==> s[..k][i] == s[i];
      if n < k {
        assert false;
      }
    }
  }

  /** Digits, a point and optional digits. */
  lemma PointFits(s: string, i: nat, k: nat)
    requires 0 < i < k <= |s| && s[i] == '.' && Digits(s[..i]) && (i + 1 == k || Digits(s[i + 1..][..k - i - 1]))
    ensures k <= MantissaLength(s)
  {
    hide DigitsLength, Digits;
    DigitsFit(s, i);
    DigitsFit(s[i + 1..], k - i - 1);
  }

  /** A point and digits. */
  lemma FractionFits(s: string, k: nat)
    requires 0 < k <= |s| && s[0] == '.' && Digits(s[1..][..k - 1])
    ensures k <= MantissaLength(s)
  {
    hide Digits;
    DigitsFit(s[1..], k - 1);
    assert k > 1 by {
      assert Digits(s[1..][..k - 1]) ==> s[1..][..k - 1] != "" by { DigitsAreSome(s[1..][..k - 1]); }
    }
  }

  lemma DigitsAreSome(s: string)
    ensures Digits(s) ==> s != ""
  {
  }

  /** A mantissa at the front is not longer than the one the lexer takes. */
  lemma MantissaFits(s: string, k: nat)
    requires k <= |s| && IsMantissa(s[..k])
    ensures k <= MantissaLength(s)
  {
    hide DigitsLength, Digits, MantissaLength;
    var m := s[..k];
    if Digits(m) {
      DigitsAlone(s, k);
    } else {
      var i :| 0 <= i < |m| && m[i] == '.'
               && (if i == 0 then Digits(m[1..]) else Digits(m[..i]) && (i + 1 == |m| || Digits(m[i + 1..])));
      if i == 0 {
        assert m[1..] == s[1..][..k - 1];
        FractionFits(s, k);
      } else {
        assert m[..i] == s[..i] && m[i + 1..] == s[i + 1..][..k - i - 1];
        PointFits(s, i, k);
      }
    }
  }

  lemma DigitsAlone(s: string, k: nat)
    requires k <= |s| && Digits(s[..k])
    ensures k <= MantissaLength(s)
  {
    hide Digits;
    DigitsFit(s, k);
    DigitsAreSome(s[..k]);
  }

  lemma MantissaIs(s: string)
    requires MantissaLength(s) > 0
    ensures IsMantissa(s[..MantissaLength(s)])
  {
    hide DigitsLength;
    var n := MantissaLength(s);
    var m := s[..n];
    var whole := DigitsLength(s);
    DigitsFit(s, whole);
    if whole > 0 && whole < |s| && s[whole] == '.' {
      var fraction := DigitsLength(s[whole + 1..]);
      DigitsFit(s[whole + 1..], fraction);
      assert m[..whole] == s[..whole] && m[whole] == '.' && m[whole + 1..] == s[whole + 1..][..fraction];
    } else if whole == 0 {
      DigitsFit(s[1..], n - 1);
      assert m[0] == '.' && m[1..] == s[1..][..n - 1];
    }
  }

  lemma ExponentFits(s: string, k: nat)
    requires k <= |s| && IsExponent(s[..k])
    ensures k <= ExponentLength(s)
  {
    hide DigitsLength;
    var e := s[..k];
    if e != "" {
      assert e[1..] == s[1..][..k - 1] && e[2..] == s[2..][..k - 2];
      DigitsFit(s[1..], k - 1);
      DigitsFit(s[2..], k - 2);
      if Digits(e[1..]) {
        assert e[1..][0] == s[1];
      }
    }
  }

  lemma ExponentIs(s: string)
    ensures IsExponent(s[..ExponentLength(s)])
  {
    hide DigitsLength;
    var n := ExponentLength(s);
    var e := s[..n];
    if n > 0 {
      var sign := if |s| > 1 && s[1] in "+-" then 1 else 0;
      DigitsFit(s[1 + sign..], n - 1 - sign);
      assert e[1 + sign..] == s[1 + sign..][..n - 1 - sign];
    }
  }

  /** What the lexer takes for a number is one. */
  lemma NumberIs(s: string)
    requires StartsNumber(s)
    ensures IsNumber(s[..NumberLength(s)])
  {
    StartsMantissa(s);
    var k, n := MantissaLength(s), NumberLength(s);
    MantissaIs(s);
    ExponentIs(s[k..]);
    hide IsMantissa, IsExponent, MantissaLength, ExponentLength, StartsNumber;
    assert s[..n][..k] == s[..k] && s[..n][k..] == s[k..][..n - k];
  }

  lemma InsideMantissa(s: string, k: nat)
    requires k < MantissaLength(s)
    ensures IsDigit(s[k]) || s[k] == '.'
  {
    hide DigitsLength;
    var whole := DigitsLength(s);
    DigitsRun(s, whole);
    if whole > 0 && k > whole {
      DigitsRun(s[whole + 1..], DigitsLength(s[whole + 1..]));
      assert s[whole + 1..][k - whole - 1] == s[k];
    } else if whole == 0 && k > 0 {
      DigitsRun(s[1..], DigitsLength(s[1..]));
      assert s[1..][k - 1] == s[k];
    }
  }

  lemma ExponentHead(s: string)
    requires IsExponent(s) && s != ""
    ensures s[0] == 'e' || s[0] == 'E'
  {
  }

  /** A mantissa that is shorter than the one the lexer takes leaves no exponent behind it. */
  lemma ShorterMantissa(s: string, k: nat, n: nat)
    requires k < MantissaLength(s) && k <= n <= |s| && IsExponent(s[k..n])
    ensures n <= MantissaLength(s)
  {
    hide MantissaLength, IsExponent;
    if k < n {
      ExponentHead(s[k..n]);
      InsideMantissa(s, k);
    }
  }

  /** No longer prefix of the text is a number. */
  lemma NumberIsLongest(s: string, n: nat)
    requires n <= |s| && IsNumber(s[..n])
    ensures StartsNumber(s) && n <= NumberLength(s)
  {
    var k :| 0 <= k <= n && IsMantissa(s[..n][..k]) && IsExponent(s[..n][k..]);
    assert s[..n][..k] == s[..k] && s[..n][k..] == s[k..n];
    MantissaFits(s, k);
    MantissaStarts(s, k);
    hide IsMantissa, MantissaLength, ExponentLength;
    if k < MantissaLength(s) {
      ShorterMantissa(s, k, n);
    } else {
      assert s[k..n] == s[k..][..n - k];
      ExponentFits(s[k..], n - k);
    }
  }

  lemma MantissaStarts(s: string, k: nat)
    requires k <= |s| && IsMantissa(s[..k])
    ensures StartsNumber(s)
  {
    var m := s[..k];
    if !Digits(m) {
      var i :| 0 <= i < |m| && m[i] == '.'
               && (if i == 0 then Digits(m[1..]) else Digits(m[..i]) && (i + 1 == |m| || Digits(m[i + 1..])));
      if i == 0 {
        assert m[1..][0] == s[1];
      } else {
        assert m[..i][0] == s[0];
      }
    }
  }

  /** A text that is a number is read as that number. */
  lemma NumberIsRead(text: string)
    requires IsNumber(text)
    ensures Lex(text) == Some([Token(Number, text)])
  {
    hide IsNumber, NumberLength, OPERATORS;
    assert text[..|text|] == text;
    NumberIsLongest(text, |text|);
    assert Match(text) == MatchNumber(text);
    assert text[|text|..] == "" && Lex("") == Some([]);
    assert [Token(Number, text)] + [] == [Token(Number, text)];
  }

  /* ---------- Quoted content ---------- */

  datatype Unit = Single(c: char) | Doubled | Escaped(c: char)

  predicate Fits(u: Unit, quote: char, escapes: bool) {
    match u
    case Single(c) => c != quote && !(escapes && c == '\\')
    case Doubled => true
    case Escaped(_) => escapes
  }

  function Spelling(u: Unit, quote: char): string {
    match u
    case Single(c) => [c]
    case Doubled => [quote, quote]
    case Escaped(c) => ['\\', c]
  }

  predicate AllFit(units: seq<Unit>, quote: char, escapes: bool) {
    forall i :: 0 <= i < |units| ==> Fits(units[i], quote, escapes)
  }

  function Spell(units: seq<Unit>, quote: char): string {
    if units == [] then "" else Spelling(units[0], quote) + Spell(units[1..], quote)
  }

  /** The first `n` characters are units and the closing quote, which is not doubled. */
  ghost predicate Closes(s: string, quote: char, escapes: bool, n: nat) {
    n <= |s| && (n == |s| || s[n] != quote)
    && exists units :: AllFit(units, quote, escapes) && s[..n] == Spell(units, quote) + [quote]
  }

  lemma Peel(s: string, n: nat, head: string, rest: string)
    requires n <= |s|
    ensures s[..n] == head + rest <==>
              |head| <= n && s[..|head|] == head && s[|head|..][..n - |head|] == rest
  {
    var k := |head|;
    if s[..n] == head + rest {
      assert s[..k] == s[..n][..k] == head;
      assert s[k..][..n - k] == s[..n][k..] == rest;
    }
    if k <= n {
      assert s[..n] == s[..k] + s[k..][..n - k];
    }
  }

  lemma UnitsSplit(units: seq<Unit>, quote: char)
    requires units != []
    ensures Spell(units, quote) + [quote] == Spelling(units[0], quote) + (Spell(units[1..], quote) + [quote])
  {
  }

  /** How quoted content goes on behind its first unit. */
  lemma FirstUnit(s: string, quote: char, escapes: bool, u: Unit)
    requires Fits(u, quote, escapes) && Spelling(u, quote) <= s && !(escapes && quote == '\\')
    ensures QuotedLength(s, quote, escapes) == Shift(|Spelling(u, quote)|, QuotedLength(s[|Spelling(u, quote)|..], quote, escapes))
  {
    hide QuotedLength;
    QuotedUnfolds(s, quote, escapes);
    assert s[0] == Spelling(u, quote)[0];
    assert u.Single? || s[1] == Spelling(u, quote)[1];
  }

  lemma {:induction false} UnitsClose(s: string, quote: char, escapes: bool, units: seq<Unit>, n: nat)
    requires !(escapes && quote == '\\') && n <= |s| && (n == |s| || s[n] != quote)
    requires AllFit(units, quote, escapes) && s[..n] == Spell(units, quote) + [quote]
    ensures QuotedLength(s, quote, escapes) == Some(n)
    decreases |units|
  {
    hide QuotedLength, Fits, Spelling, Spell;
    if units == [] {
      EmptyContent(s, quote, escapes, n);
    } else {
      var k := |Spelling(units[0], quote)|;
      UnitsSplit(units, quote);
      Peel(s, n, Spelling(units[0], quote), Spell(units[1..], quote) + [quote]);
      FirstUnit(s, quote, escapes, units[0]);
      UnitsClose(s[k..], quote, escapes, units[1..], n - k);
    }
  }

  lemma EmptyContent(s: string, quote: char, escapes: bool, n: nat)
    requires !(escapes && quote == '\\') && n <= |s| && (n == |s| || s[n] != quote)
    requires s[..n] == Spell([], quote) + [quote]
    ensures QuotedLength(s, quote, escapes) == Some(n)
  {
    hide QuotedLength;
    QuotedUnfolds(s, quote, escapes);
    assert s[..n] == [quote] && s[0] == s[..n][0];
  }

  /** The first unit of content that does not end at once. */
  lemma HasFirstUnit(s: string, quote: char, escapes: bool) returns (u: Unit)
    requires QuotedLength(s, quote, escapes).Some? && QuotedLength(s, quote, escapes) != Some(1)
    ensures var k := |Spelling(u, quote)|;
            && Fits(u, quote, escapes) && k <= |s| && s[..k] == Spelling(u, quote)
            && QuotedLength(s, quote, escapes) == Shift(k, QuotedLength(s[k..], quote, escapes))
  {
    hide QuotedLength;
    QuotedUnfolds(s, quote, escapes);
    u := if escapes && s[0] == '\\' then Escaped(s[1]) else if s[0] == quote then Doubled else Single(s[0]);
  }

  lemma {:induction false} ClosingHasUnits(s: string, quote: char, escapes: bool) returns (units: seq<Unit>)
    requires QuotedLength(s, quote, escapes).Some?
    ensures var n := QuotedLength(s, quote, escapes).value;
            && AllFit(units, quote, escapes) && s[..n] == Spell(units, quote) + [quote] && (n == |s| || s[n] != quote)
    decreases |s|
  {
    hide QuotedLength, Fits, Spelling, Spell;
    var n := QuotedLength(s, quote, escapes).value;
    if n == 1 {
      units := [];
      ClosedAtOnce(s, quote, escapes);
    } else {
      var u := HasFirstUnit(s, quote, escapes);
      var k := |Spelling(u, quote)|;
      SpellingIsSome(u, quote);
      var rest := ClosingHasUnits(s[k..], quote, escapes);
      units := [u] + rest;
      assert units[1..] == rest;
      UnitsSplit(units, quote);
      Peel(s, n, Spelling(u, quote), Spell(rest, quote) + [quote]);
    }
  }

  lemma SpellingIsSome(u: Unit, quote: char)
    ensures |Spelling(u, quote)| > 0
  {
  }

  lemma ClosedAtOnce(s: string, quote: char, escapes: bool)
    requires QuotedLength(s, quote, escapes) == Some(1)
    ensures s[..1] == Spell([], quote) + [quote] && (1 == |s| || s[1] != quote)
  {
    hide QuotedLength;
    QuotedUnfolds(s, quote, escapes);
    LengthIsPositive(s, quote, escapes);
  }

  lemma LengthIsPositive(s: string, quote: char, escapes: bool)
    ensures |s| > 0 ==> QuotedLength(s[1..], quote, escapes) != Some(0)
    ensures |s| > 1 ==> QuotedLength(s[2..], quote, escapes) != Some(0)
  {
  }

  /** Quoted content ends exactly where the grammar closes it. */
  lemma ClosesExactly(s: string, quote: char, escapes: bool, n: nat)
    requires !(escapes && quote == '\\')
    ensures QuotedLength(s, quote, escapes) == Some(n) <==> Closes(s, quote, escapes, n)
  {
    hide QuotedLength, Spell, AllFit;
    if QuotedLength(s, quote, escapes) == Some(n) {
      var units := ClosingHasUnits(s, quote, escapes);
    }
    if Closes(s, quote, escapes, n) {
      var units :| AllFit(units, quote, escapes) && s[..n] == Spell(units, quote) + [quote];
      UnitsClose(s, quote, escapes, units, n);
    }
  }

  /* ---------- Words and symbols ---------- */

  predicate IsLetter(c: char) {
    'a' <= c <= 'z' || 'A' <= c <= 'Z'
  }

  predicate InWord(c: char) {
    IsLetter(c) || '0' <= c <= '9' || c == '_' || c == '$'
  }

  predicate IsWord(s: string) {
    s != "" && (IsLetter(s[0]) || s[0] == '_') && forall k :: 0 <= k < |s| ==> InWord(s[k])
  }

  /** A letter that is the prefix of a quoted token is no word. */
  predicate PrefixesQuote(s: string) {
    || (|s| > 1 && s[0] in "eEbBxX" && s[1] == '\'')
    || (|s| > 2 && s[0] in "uU" && s[1] == '&' && s[2] in "'\"")
  }

  predicate IsComment(s: string) {
    |s| > 1 && ((s[0] == '-' && s[1] == '-') || (s[0] == '/' && s[1] == '*'))
  }

  predicate IsPunctuation(c: char) {
    c in {'(', ')', '[', ']', ',', '.'}
  }

  predicate IsSingle(c: char) {
    c in {'+', '-', '*', '/', '%', '=', '>', '<', '~', '!', '^', '|', '&', '?', '#', ':', '@'}
  }

  predicate IsOperator(s: string) {
    IsLongOperator(s) || (|s| == 1 && IsSingle(s[0]))
  }

  /** The operators of more than one character. */
  predicate IsLongOperator(s: string) {
    || s == "!~~*" || s == "->>" || s == "#>>" || s == "~~*" || s == "!~~"
    || s == "::" || s == ">=" || s == "<=" || s == "<>" || s == "!=" || s == "||" || s == "&&"
    || s == "@>" || s == "<@" || s == "->" || s == "#>" || s == "~~" || s == "?|" || s == "?&"
  }

  lemma LongOperatorsAre(s: string)
    ensures s in OPERATORS <==> IsLongOperator(s)
  {
    if IsLongOperator(s) {
      assert OPERATORS[0] == "!~~*" && OPERATORS[1] == "->>" && OPERATORS[2] == "#>>" && OPERATORS[3] == "~~*";
      assert OPERATORS[4] == "!~~" && OPERATORS[5] == "::" && OPERATORS[6] == ">=" && OPERATORS[7] == "<=";
      assert OPERATORS[8] == "<>" && OPERATORS[9] == "!=" && OPERATORS[10] == "||" && OPERATORS[11] == "&&";
      assert OPERATORS[12] == "@>" && OPERATORS[13] == "<@" && OPERATORS[14] == "->" && OPERATORS[15] == "#>";
      assert OPERATORS[16] == "~~" && OPERATORS[17] == "?|" && OPERATORS[18] == "?&";
    }
  }

  lemma SinglesAre(c: char)
    ensures c in PUNCTUATION <==> IsPunctuation(c)
    ensures c in SINGLES <==> IsPunctuation(c) || IsSingle(c)
  {
    assert SINGLES == "()[],." + "+-*/%=><~" + "!^|&?#:@";
  }

  /** The symbols are neither letters nor digits nor quotes. */
  lemma SymbolsAreApart(c: char)
    requires IsPunctuation(c) || IsSingle(c)
    ensures !IsAlpha(c) && !IsDigit(c) && c != '_' && c != '"' && c != '\'' && c != '$'
    ensures !(IsPunctuation(c) && IsSingle(c))
  {
  }

  /* ---------- The lexeme at the front of a text ---------- */

  ghost predicate ReadsString(s: string, text: string, n: nat, p: nat) {
    p < n <= |s| && s[p] == '\''
    && s[..p] in ["", "e", "E", "b", "B", "x", "X", "u&", "U&"]
    && Closes(s[p + 1..], '\'', p == 1 && s[0] in "eE", n - p - 1)
    && text == if p == 2 then "u&" + s[2..n] else s[..n]
  }

  /** The first `n` characters of the text are the lexeme of token `t`. */
  ghost predicate Reads(s: string, t: Token, n: nat) {
    0 < n <= |s| &&
    match t.kind
    case UnicodeQuotedIdentifier =>
      n > 3 && s[0] in "uU" && s[1] == '&' && s[2] == '"' && Closes(s[3..], '"', false, n - 3) && t.text == "u&" + s[2..n]
    case StringLiteral => ReadsString(s, t.text, n, 0) || ReadsString(s, t.text, n, 1) || ReadsString(s, t.text, n, 2)
    case QuotedIdentifier => s[0] == '"' && Closes(s[1..], '"', false, n - 1) && t.text == s[..n]
    case Word => IsWord(s[..n]) && (n == |s| || !InWord(s[n])) && !PrefixesQuote(s) && t.text == Lower(s[..n])
    case Number => IsNumber(s[..n]) && (forall k :: n < k <= |s| ==> !IsNumber(s[..k])) && t.text == s[..n]
    case Operator =>
      IsOperator(s[..n]) && (forall k :: n < k <= |s| ==> !IsOperator(s[..k])) && !IsComment(s) && t.text == s[..n]
    case Punctuation => n == 1 && IsPunctuation(s[0]) && (forall k :: 0 < k <= |s| ==> !IsNumber(s[..k])) && t.text == [s[0]]
  }

  lemma NumberExactly(s: string, n: nat)
    requires n <= |s| && s != ""
    ensures StartsNumber(s) && n == NumberLength(s) <==> IsNumber(s[..n]) && forall k :: n < k <= |s| ==> !IsNumber(s[..k])
    ensures StartsNumber(s) <==> exists k :: 0 < k <= |s| && IsNumber(s[..k])
  {
    hide IsNumber, StartsNumber, NumberLength;
    if StartsNumber(s) {
      NumberIs(s);
      NumberIsSome(s);
    }
    forall k: nat | k <= |s| && IsNumber(s[..k]) ensures StartsNumber(s) && k <= NumberLength(s) {
      NumberIsLongest(s, k);
    }
    if k: nat :| k <= |s| && IsNumber(s[..k]) {
      NumberIsSome(s);
    }
  }

  lemma NumberIsSome(s: string)
    requires StartsNumber(s)
    ensures 0 < NumberLength(s) <= |s|
  {
    StartsMantissa(s);
    hide MantissaLength, ExponentLength;
  }

  lemma WordExactly(s: string, n: nat)
    requires 0 < n <= |s|
    ensures StartsWord(s) && WordLength(s) == n <==> IsWord(s[..n]) && (n == |s| || !InWord(s[n]))
  {
    hide WordLength;
    WordRun(s, n);
    assert forall c: char :: InWord(c) <==> IsWordPart(c);
    assert s[..n][0] == s[0];
    assert (forall k :: 0 <= k < n ==> InWord(s[..n][k])) <==> (forall k :: 0 <= k < n ==> IsWordPart(s[k]));
  }

  /* ---------- The lexer reads exactly the lexeme ---------- */

  lemma TakenOperator(s: string)
    requires FirstOperator(s, OPERATORS).Some?
    ensures var o := FirstOperator(s, OPERATORS).value;
            && 2 <= |o| <= |s| && s[..|o|] == o && IsOperator(o)
            && forall k :: |o| < k <= |s| ==> !IsOperator(s[..k])
  {
    hide OPERATORS, FirstOperator, IsLongOperator;
    var o := FirstOperator(s, OPERATORS).value;
    OperatorIsPlain(o);
    LongOperatorsAre(o);
    forall k: nat | |o| < k <= |s| ensures !IsOperator(s[..k]) {
      LongOperatorsAre(s[..k]);
      if s[..k] in OPERATORS {
        LongestOperatorWins(s, s[..k]);
      }
    }
  }

  lemma NoOperator(s: string)
    requires FirstOperator(s, OPERATORS).None?
    ensures forall k :: 1 < k <= |s| ==> !IsOperator(s[..k])
  {
    hide OPERATORS, FirstOperator, IsLongOperator;
    forall k: nat | 1 < k <= |s| ensures !IsOperator(s[..k]) {
      LongOperatorsAre(s[..k]);
      if s[..k] in OPERATORS {
        LongestOperatorWins(s, s[..k]);
      }
    }
  }

  lemma OperatorHead(o: string)
    requires o in OPERATORS
    ensures o != "" && IsSingle(o[0])
  {
  }

  lemma OperatorExactly(s: string, n: nat)
    requires 0 < n <= |s|
    ensures MatchSymbol(s) == Some(Lexeme(Token(Operator, s[..n]), n)) <==>
              IsOperator(s[..n]) && forall k :: n < k <= |s| ==> !IsOperator(s[..k])
  {
    hide OPERATORS, FirstOperator, IsOperator;
    if FirstOperator(s, OPERATORS).Some? {
      TakenOperator(s);
      var o := FirstOperator(s, OPERATORS).value;
      assert n < |o| ==> IsOperator(s[..|o|]);
    } else {
      NoOperator(s);
      SingleExactly(s);
    }
  }

  lemma SingleExactly(s: string)
    requires s != "" && FirstOperator(s, OPERATORS).None?
    ensures IsOperator(s[..1]) <==> MatchSymbol(s) == Some(Lexeme(Token(Operator, [s[0]]), 1))
    ensures s[..1] == [s[0]]
    ensures MatchSymbol(s).Some? ==> MatchSymbol(s).value.length == 1
  {
    hide OPERATORS, FirstOperator, SINGLES, PUNCTUATION, IsSingle, IsPunctuation;
    assert s[..1] == [s[0]];
    SingleIsNotPlain(s[..1]);
    SinglesAre(s[0]);
    if IsSingle(s[0]) {
      SymbolsAreApart(s[0]);
    }
  }

  lemma SingleIsNotPlain(o: string)
    requires |o| == 1
    ensures o !in OPERATORS
  {
    if o in OPERATORS {
      OperatorIsPlain(o);
    }
  }

  lemma PunctuationExactly(s: string)
    requires s != ""
    ensures MatchSymbol(s) == Some(Lexeme(Token(Punctuation, [s[0]]), 1)) <==> IsPunctuation(s[0])
  {
    hide OPERATORS, FirstOperator, SINGLES, PUNCTUATION, IsSingle, IsPunctuation;
    SinglesAre(s[0]);
    if FirstOperator(s, OPERATORS).Some? {
      OperatorHead(FirstOperator(s, OPERATORS).value);
      SymbolsAreApart(s[0]);
    }
  }

  lemma PrefixExactly(s: string, p: nat)
    requires p < |s|
    ensures s[p] == '\'' && s[..p] in ["", "e", "E", "b", "B", "x", "X", "u&", "U&"] <==> StartsString(s) && p == PrefixLength(s)
    ensures AllowsEscapes(s) <==> PrefixLength(s) == 1 && s[0] in "eE"
  {
    assert p == 0 ==> s[..p] == "";
    assert p == 1 ==> s[..p] == [s[0]];
    assert p == 2 ==> s[..p] == [s[0], s[1]];
  }

  lemma StringReads(s: string, t: Token, n: nat, p: nat)
    requires t.kind == StringLiteral
    ensures ReadsString(s, t.text, n, p) <==>
              StartsString(s) && p == PrefixLength(s) && MatchString(s) == Some(Lexeme(t, n))
  {
    hide Closes, QuotedLength, StartsString, PrefixLength, AllowsEscapes;
    if p < |s| {
      PrefixExactly(s, p);
    }
    if p < n <= |s| {
      ClosesExactly(s[p + 1..], '\'', p == 1 && s[0] in "eE", n - p - 1);
      if StartsString(s) && p == PrefixLength(s) {
        TextOfSpelling(s, n);
      }
    }
  }

  lemma TextOfSpelling(s: string, n: nat)
    requires StartsString(s) && PrefixLength(s) < n <= |s|
    ensures StringText(s[..n]) == if PrefixLength(s) == 2 then "u&" + s[2..n] else s[..n]
  {
    SpellingStarts(s, n);
    hide PrefixLength, StartsString;
    assert PrefixLength(s) == 2 ==> s[..n][2..] == s[2..n];
  }

  lemma StringExactly(s: string, t: Token, n: nat)
    requires t.kind == StringLiteral && 0 < n <= |s|
    ensures StartsString(s) && MatchString(s) == Some(Lexeme(t, n)) <==> Reads(s, t, n)
  {
    hide ReadsString, StartsString, MatchString;
    StringReads(s, t, n, 0);
    StringReads(s, t, n, 1);
    StringReads(s, t, n, 2);
    PrefixIsShort(s);
  }

  lemma PrefixIsShort(s: string)
    ensures PrefixLength(s) <= 2
  {
  }

  lemma NameExactly(s: string, t: Token, n: nat)
    requires 0 < n <= |s|
    ensures t.kind == QuotedIdentifier ==> (s[0] == '"' && MatchIdentifier(s) == Some(Lexeme(t, n)) <==> Reads(s, t, n))
    ensures t.kind == UnicodeQuotedIdentifier ==>
              (StartsUnicodeIdentifier(s) && MatchUnicodeIdentifier(s) == Some(Lexeme(t, n)) <==> Reads(s, t, n))
  {
    hide Closes, QuotedLength;
    if s[0] == '"' {
      ClosesExactly(s[1..], '"', false, n - 1);
    }
    if n > 3 && StartsUnicodeIdentifier(s) {
      ClosesExactly(s[3..], '"', false, n - 3);
    }
  }

  lemma WordReads(s: string, t: Token, n: nat)
    requires t.kind == Word && 0 < n <= |s|
    ensures StartsWord(s) && !PrefixesQuote(s) && MatchWord(s) == Some(Lexeme(t, n)) <==> Reads(s, t, n)
  {
    hide IsWord, InWord, WordLength, StartsWord, PrefixesQuote;
    WordExactly(s, n);
  }

  lemma NumberReads(s: string, t: Token, n: nat)
    requires t.kind == Number && 0 < n <= |s|
    ensures StartsNumber(s) && MatchNumber(s) == Some(Lexeme(t, n)) <==> Reads(s, t, n)
  {
    hide IsNumber, NumberLength, StartsNumber;
    NumberExactly(s, n);
  }

  lemma SymbolReads(s: string, t: Token, n: nat)
    requires t.kind in {Operator, Punctuation} && 0 < n <= |s|
    ensures !IsComment(s) && !StartsNumber(s) && MatchSymbol(s) == Some(Lexeme(t, n)) <==> Reads(s, t, n)
  {
    hide IsNumber, StartsNumber, OPERATORS, FirstOperator, IsOperator, MatchSymbol, IsPunctuation, IsSingle, IsComment;
    NumberExactly(s, n);
    if t.kind == Operator {
      OperatorExactly(s, n);
      OperatorIsNoNumber(s, n);
      OperatorText(s, t, n);
    } else {
      PunctuationExactly(s);
      PunctuationText(s, t, n);
      PunctuationIsNoComment(s);
    }
  }

  lemma PunctuationIsNoComment(s: string)
    requires s != ""
    ensures IsPunctuation(s[0]) ==> !IsComment(s)
  {
  }

  lemma OperatorText(s: string, t: Token, n: nat)
    requires t.kind == Operator && 0 < n <= |s|
    ensures MatchSymbol(s) == Some(Lexeme(t, n)) ==> t.text == s[..n]
  {
    hide OPERATORS, FirstOperator;
  }

  lemma PunctuationText(s: string, t: Token, n: nat)
    requires t.kind == Punctuation && 0 < n <= |s|
    ensures MatchSymbol(s) == Some(Lexeme(t, n)) ==> n == 1 && t.text == [s[0]]
  {
    hide OPERATORS, FirstOperator;
  }

  lemma OperatorIsNoNumber(s: string, n: nat)
    requires 0 < n <= |s|
    ensures IsOperator(s[..n]) ==> !StartsNumber(s)
  {
    hide OPERATORS, IsSingle, IsLongOperator;
    if IsOperator(s[..n]) {
      LongOperatorsAre(s[..n]);
      if s[..n] in OPERATORS {
        OperatorHead(s[..n]);
      }
      assert s[..n][0] == s[0] && IsSingle(s[0]);
      SymbolsAreApart(s[0]);
      PointIsNoOperator(s[0]);
    }
  }

  lemma PointIsNoOperator(c: char)
    requires IsSingle(c)
    ensures c != '.'
  {
  }

  /** The kinds of lexemes start differently, so at most one rule of the lexer applies. */
  lemma StartsDiffer(s: string)
    requires s != ""
    ensures StartsComment(s) <==> IsComment(s)
    ensures StartsUnicodeIdentifier(s) || (StartsString(s) && s[0] != '\'') <==> PrefixesQuote(s)
    ensures StartsUnicodeIdentifier(s) ==> !StartsString(s) && !IsComment(s) && s[0] in "uU"
    ensures StartsString(s) ==> !IsComment(s) && (s[0] == '\'' || IsAlpha(s[0]))
    ensures StartsWord(s) ==> !IsComment(s) && s[0] !in "'\"$" && !StartsNumber(s)
    ensures StartsNumber(s) ==> !IsComment(s) && s[0] !in "'\"$" && !PrefixesQuote(s)
    ensures s[0] in "'\"$" ==> !IsComment(s)
  {
    assert "--" <= s <==> |s| > 1 && s[0] == '-' && s[1] == '-';
    assert "/*" <= s <==> |s| > 1 && s[0] == '/' && s[1] == '*';
  }

  /**
   The lexer takes a token from the front of a text exactly when the grammar reads that token
   there, so what it takes is never shorter or longer than the grammar says.
   */
  lemma MatchExactly(s: string, t: Token, n: nat)
    requires 0 < n <= |s|
    ensures Match(s) == Some(Lexeme(t, n)) <==> Reads(s, t, n)
  {
    hide MatchUnicodeIdentifier, MatchString, MatchIdentifier, MatchWord, MatchNumber, MatchSymbol, Reads, IsComment, PrefixesQuote;
    hide StartsComment, StartsUnicodeIdentifier, StartsString, StartsWord, StartsNumber;
    StartsDiffer(s);
    KindOfMatch(s);
    match t.kind
    case UnicodeQuotedIdentifier => NameExactly(s, t, n);
    case StringLiteral => StringExactly(s, t, n);
    case QuotedIdentifier => NameExactly(s, t, n);
    case Word => WordReads(s, t, n);
    case Number => NumberReads(s, t, n);
    case Operator => SymbolReads(s, t, n); SymbolStarts(s, t, n);
    case Punctuation => SymbolReads(s, t, n); SymbolStarts(s, t, n);
  }

  lemma SymbolStarts(s: string, t: Token, n: nat)
    requires t.kind in {Operator, Punctuation} && 0 < n <= |s|
    ensures MatchSymbol(s) == Some(Lexeme(t, n)) ==> !StartsWord(s) && s[0] !in "\"'$" && !PrefixesQuote(s)
  {
    hide OPERATORS, FirstOperator, SINGLES, PUNCTUATION, IsSingle, IsPunctuation;
    if MatchSymbol(s) == Some(Lexeme(t, n)) {
      if FirstOperator(s, OPERATORS).Some? {
        OperatorHead(FirstOperator(s, OPERATORS).value);
      }
      SinglesAre(s[0]);
      SymbolsAreApart(s[0]);
      LettersAreApart(s);
    }
  }

  lemma LettersAreApart(s: string)
    requires s != "" && !IsAlpha(s[0])
    ensures !PrefixesQuote(s)
  {
  }

  lemma KindOfMatch(s: string)
    requires s != ""
    ensures StartsUnicodeIdentifier(s) && MatchUnicodeIdentifier(s).Some? ==> MatchUnicodeIdentifier(s).value.token.kind == UnicodeQuotedIdentifier
    ensures StartsString(s) && MatchString(s).Some? ==> MatchString(s).value.token.kind == StringLiteral
    ensures s[0] == '"' && MatchIdentifier(s).Some? ==> MatchIdentifier(s).value.token.kind == QuotedIdentifier
    ensures StartsWord(s) ==> MatchWord(s).value.token.kind == Word
    ensures StartsNumber(s) ==> MatchNumber(s).value.token.kind == Number
    ensures MatchSymbol(s).Some? ==> MatchSymbol(s).value.token.kind in {Operator, Punctuation}
  {
    hide StartsUnicodeIdentifier, StartsString, StartsWord, StartsNumber, NumberLength, WordLength, QuotedLength, OPERATORS;
  }

  /** Exactly the ASCII white space is skipped between lexemes. */
  lemma SpaceIsSkipped(c: char, rest: string)
    ensures c in {' ', '\t', '\n', '\U{0B}', '\U{0C}', '\r', '\U{1C}', '\U{1D}', '\U{1E}', '\U{1F}'} ==> Lex([c] + rest) == Lex(rest)
    ensures c !in {' ', '\t', '\n', '\U{0B}', '\U{0C}', '\r', '\U{1C}', '\U{1D}', '\U{1E}', '\U{1F}'} && Match([c] + rest).None? ==>
              Lex([c] + rest).None?
  {
    hide Match;
    SpacesAre(c);
    assert ([c] + rest)[1..] == rest;
  }

  lemma SpacesAre(c: char)
    ensures IsSpace(c) <==> c in {' ', '\t', '\n', '\U{0B}', '\U{0C}', '\r', '\U{1C}', '\U{1D}', '\U{1E}', '\U{1F}'}
  {
    assert '\t' <= c <= '\r' <==> c in {'\t', '\n', '\U{0B}', '\U{0C}', '\r'};
  }
}
