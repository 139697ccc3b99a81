/**
 The laws of the lexer: a successful run tiles the text, and printing the tokens with single
 spaces between them and lexing again gives the same tokens.

 Both rest on locality: the lexeme at the front of a text does not depend on what follows the
 white space behind it.
 */
module CheckLexerLaws {
  import opened CheckLexer
  import opened Formats
  import opened Wrappers

  /* ---------- The longest operator is taken ---------- */

  lemma OperatorLengths(i: nat)
    requires i < |OPERATORS|
    ensures |OPERATORS[i]| == if i == 0 then 4 else if i < 5 then 3 else 2
  {
  }

  lemma {:induction false} FirstOperatorIsFirst(s: string, operators: seq<string>, j: nat)
    requires j < |operators| && operators[j] <= s
    ensures exists i :: 0 <= i <= j && FirstOperator(s, operators) == Some(operators[i])
  {
    if operators[0] <= s {
      assert FirstOperator(s, operators) == Some(operators[0]);
    } else {
      FirstOperatorIsFirst(s, operators[1..], j - 1);
      var i :| 0 <= i <= j - 1 && FirstOperator(s, operators[1..]) == Some(operators[1..][i]);
      assert operators[1..][i] == operators[i + 1];
    }
  }

  /** No listed operator that fits is longer than the one taken. */
  lemma LongestOperatorWins(s: string, other: string)
    requires other in OPERATORS && other <= s
    ensures FirstOperator(s, OPERATORS).Some?
    ensures |other| <= |FirstOperator(s, OPERATORS).value|
  {
    hide OPERATORS;
    var j :| 0 <= j < |OPERATORS| && OPERATORS[j] == other;
    FirstOperatorIsFirst(s, OPERATORS, j);
    var i :| 0 <= i <= j && FirstOperator(s, OPERATORS) == Some(OPERATORS[i]);
    OperatorLengths(i);
    OperatorLengths(j);
  }

  /* ---------- A lexeme does not depend on what follows a boundary ---------- */

  lemma QuotedUnfolds(s: string, quote: char, escapes: bool)
    ensures QuotedLength(s, quote, escapes) ==
            if s == "" then None
            else if escapes && s[0] == '\\' then if |s| == 1 then None else Shift(2, QuotedLength(s[2..], quote, escapes))
            else if s[0] != quote then Shift(1, QuotedLength(s[1..], quote, escapes))
            else if |s| > 1 && s[1] == quote then Shift(2, QuotedLength(s[2..], quote, escapes))
            else Some(1)
  {
  }

  lemma CutAfter(s: string, k: nat, n: nat, after: string)
    requires k <= n <= |s|
    ensures (s[..n] + after)[k..] == s[k..][..n - k] + after
    ensures forall i :: 0 <= i < k ==> (s[..n] + after)[i] == s[i]
  {
  }

  /** Content that starts with an escape or a doubled quote, then goes on. */
  lemma PairIsLocal(s: string, quote: char, escapes: bool, after: string, n: nat)
    requires |s| >= 2 && 2 <= n <= |s| && ((escapes && s[0] == '\\') || (s[0] == quote && s[1] == quote))
    requires QuotedLength(s[2..][..n - 2] + after, quote, escapes) == Some(n - 2)
    ensures QuotedLength(s[..n] + after, quote, escapes) == Some(n)
  {
    hide QuotedLength;
    CutAfter(s, 2, n, after);
    QuotedUnfolds(s[..n] + after, quote, escapes);
  }

  /** Content that starts with an ordinary character. */
  lemma PlainIsLocal(s: string, quote: char, escapes: bool, after: string, n: nat)
    requires s != "" && 1 <= n <= |s| && s[0] != quote && !(escapes && s[0] == '\\')
    requires QuotedLength(s[1..][..n - 1] + after, quote, escapes) == Some(n - 1)
    ensures QuotedLength(s[..n] + after, quote, escapes) == Some(n)
  {
    hide QuotedLength;
    CutAfter(s, 1, n, after);
    QuotedUnfolds(s[..n] + after, quote, escapes);
  }

  lemma {:induction false} QuotedIsLocal(s: string, quote: char, escapes: bool, after: string)
    requires QuotedLength(s, quote, escapes).Some? && AtBoundary(after) && !IsSpace(quote)
    ensures var n := QuotedLength(s, quote, escapes).value;
            QuotedLength(s[..n] + after, quote, escapes) == Some(n)
  {
    hide QuotedLength;
    QuotedUnfolds(s, quote, escapes);
    var n := QuotedLength(s, quote, escapes).value;
    if (escapes && s[0] == '\\') || (s[0] == quote && |s| > 1 && s[1] == quote) {
      QuotedIsLocal(s[2..], quote, escapes, after);
      PairIsLocal(s, quote, escapes, after, n);
    } else if s[0] != quote {
      QuotedIsLocal(s[1..], quote, escapes, after);
      PlainIsLocal(s, quote, escapes, after, n);
    } else {
      QuoteIsLocal(s, quote, escapes, after);
    }
  }

  /** A closing quote. */
  lemma QuoteIsLocal(s: string, quote: char, escapes: bool, after: string)
    requires s != "" && s[0] == quote && !(escapes && quote == '\\') && (after == "" || after[0] != quote)
    ensures QuotedLength(s[..1] + after, quote, escapes) == Some(1)
  {
    hide QuotedLength;
    QuotedUnfolds(s[..1] + after, quote, escapes);
  }

  lemma WordIsLocal(s: string, after: string)
    requires AtBoundary(after)
    ensures WordLength(Lower(s[..WordLength(s)]) + after) == WordLength(s)
  {
    hide WordLength, IsWordPart, LowerChar;
    var n := WordLength(s);
    var cut := Lower(s[..n]) + after;
    WordRun(s, n);
    forall k | 0 <= k < n ensures IsWordPart(cut[k]) {
      LowerKeepsParts(s[k]);
    }
    if after != "" {
      SpaceIsNoPart(after[0]);
      assert cut[n] == after[0];
    }
    WordRun(cut, n);
  }

  lemma {:induction false} WordRun(s: string, n: nat)
    requires n <= |s|
    ensures WordLength(s) == n <==>
            (forall k :: 0 <= k < n ==> IsWordPart(s[k])) && (n == |s| || !IsWordPart(s[n]))
  {
    hide IsWordPart;
    if s != "" && IsWordPart(s[0]) && n > 0 {
      WordRun(s[1..], n - 1);
      assert forall k :: 1 <= k < n ==> s[1..][k - 1] == s[k];
    }
  }

  lemma LowerKeepsParts(c: char)
    ensures IsWordPart(LowerChar(c)) <==> IsWordPart(c)
  {
  }

  lemma SpaceIsNoPart(c: char)
    ensures IsSpace(c) ==> !IsWordPart(c)
  {
  }

  lemma {:induction false} DigitsRun(s: string, n: nat)
    requires n <= |s|
    ensures DigitsLength(s) == n <==>
            (forall k :: 0 <= k < n ==> IsDigit(s[k])) && (n == |s| || !IsDigit(s[n]))
  {
    if s != "" && IsDigit(s[0]) {
      if n > 0 {
        DigitsRun(s[1..], n - 1);
        assert forall k :: 1 <= k < n ==> s[1..][k - 1] == s[k];
      }
    }
  }

  /** Digits keep their count when the text is cut anywhere behind them. */
  lemma DigitsAreLocal(s: string, m: nat, after: string)
    requires DigitsLength(s) <= m <= |s| && AtBoundary(after)
    ensures DigitsLength(s[..m] + after) == DigitsLength(s)
  {
    hide DigitsLength;
    var n := DigitsLength(s);
    var cut := s[..m] + after;
    DigitsRun(s, n);
    assert forall k :: 0 <= k < n ==> cut[k] == s[k];
    assert n < m ==> cut[n] == s[n];
    assert n == m && after != "" ==> cut[n] == after[0];
    DigitsRun(cut, n);
  }

  lemma MantissaIsLocal(s: string, m: nat, after: string)
    requires MantissaLength(s) <= m <= |s| && AtBoundary(after)
    ensures MantissaLength(s[..m] + after) == MantissaLength(s) || MantissaLength(s) == 0
  {
    hide DigitsLength;
    var cut := s[..m] + after;
    var whole := DigitsLength(s);
    if MantissaLength(s) > 0 {
      DigitsAreLocal(s, m, after);
      if whole > 0 && whole < |s| && s[whole] == '.' {
        assert cut[whole + 1..] == s[whole + 1..][..m - whole - 1] + after;
        DigitsAreLocal(s[whole + 1..], m - whole - 1, after);
      } else if whole == 0 {
        assert cut[1..] == s[1..][..m - 1] + after;
        DigitsAreLocal(s[1..], m - 1, after);
      }
    }
  }

  lemma ExponentIsLocal(s: string, after: string)
    requires AtBoundary(after)
    ensures ExponentLength(s[..ExponentLength(s)] + after) == ExponentLength(s)
  {
    var n := ExponentLength(s);
    var cut := s[..n] + after;
    if n > 0 {
      var sign := if |s| > 1 && s[1] in "+-" then 1 else 0;
      assert cut[1 + sign..] == s[1 + sign..][..n - 1 - sign] + after;
      DigitsAreLocal(s[1 + sign..], n - 1 - sign, after);
      assert sign == 0 ==> IsDigit(cut[1]) by {
        DigitsRun(s[1..], DigitsLength(s[1..]));
      }
    }
  }

  lemma StartsMantissa(s: string)
    requires StartsNumber(s)
    ensures MantissaLength(s) > 0
  {
  }

  lemma CutBehind(s: string, k: nat, n: nat, after: string)
    requires k <= n <= |s|
    ensures (s[..n] + after)[k..] == s[k..][..n - k] + after
  {
  }

  lemma NumberIsLocal(s: string, after: string)
    requires StartsNumber(s) && AtBoundary(after)
    ensures NumberLength(s[..NumberLength(s)] + after) == NumberLength(s)
  {
    StartsMantissa(s);
    hide MantissaLength, ExponentLength, StartsNumber, AtBoundary;
    var n, mantissa := NumberLength(s), MantissaLength(s);
    MantissaIsLocal(s, n, after);
    CutBehind(s, mantissa, n, after);
    ExponentIsLocal(s[mantissa..], after);
  }

  /** An operator that fits a token followed by a boundary fits inside the token. */
  lemma OperatorFitsToken(o: string, text: string, after: string)
    requires Plain(o) && AtBoundary(after)
    ensures o <= text + after <==> o <= text
  {
    if |o| <= |text| {
      assert (text + after)[..|o|] == text[..|o|];
    } else {
      assert !IsSpace(o[|text|]);
    }
  }

  predicate AllPlain(operators: seq<string>) {
    forall o :: o in operators ==> Plain(o)
  }

  lemma {:induction false} FirstOperatorIsLocal(s: string, operators: seq<string>, text: string, after: string)
    requires AllPlain(operators) && AtBoundary(after) && text <= s
    requires FirstOperator(s, operators) == if |text| >= 2 then Some(text) else None
    ensures FirstOperator(text + after, operators) == FirstOperator(s, operators)
  {
    if operators != [] {
      OperatorFitsToken(operators[0], text, after);
      if operators[0] <= s {
        assert operators[0] == text;
      } else {
        FirstOperatorIsLocal(s, operators[1..], text, after);
      }
    }
  }

  lemma AllOperatorsPlain()
    ensures AllPlain(OPERATORS)
  {
    forall o | o in OPERATORS ensures Plain(o) { OperatorIsPlain(o); }
  }

  lemma SymbolIsLocal(s: string, after: string)
    requires s != "" && AtBoundary(after)
    requires !StartsComment(s) && MatchSymbol(s).Some?
    ensures var t := MatchSymbol(s).value.token;
            && t.text != "" && t.text <= s
            && MatchSymbol(t.text + after) == Some(Lexeme(t, |t.text|))
            && !StartsComment(t.text + after)
  {
    hide OPERATORS;
    var t := MatchSymbol(s).value.token;
    AllOperatorsPlain();
    FirstOperatorIsLocal(s, OPERATORS, t.text, after);
    OperatorFitsToken("--", t.text, after);
    OperatorFitsToken("/*", t.text, after);
  }

  lemma QuotedNameIsLocal(s: string, after: string)
    requires s != "" && s[0] == '"' && AtBoundary(after) && MatchIdentifier(s).Some?
    ensures var t := MatchIdentifier(s).value.token;
            t.text + after != "" && (t.text + after)[0] == '"'
            && MatchIdentifier(t.text + after) == Some(Lexeme(t, |t.text|))
  {
    var t := MatchIdentifier(s).value.token;
    QuotedIsLocal(s[1..], '"', false, after);
    assert (t.text + after)[1..] == s[1..][..|t.text| - 1] + after;
    assert (t.text + after)[..|t.text|] == t.text;
  }

  lemma UnicodeNameIsLocal(s: string, after: string)
    requires StartsUnicodeIdentifier(s) && AtBoundary(after) && MatchUnicodeIdentifier(s).Some?
    ensures var t := MatchUnicodeIdentifier(s).value.token;
            StartsUnicodeIdentifier(t.text + after)
            && MatchUnicodeIdentifier(t.text + after) == Some(Lexeme(t, |t.text|))
  {
    var l := MatchUnicodeIdentifier(s).value;
    var x := l.token.text + after;
    QuotedIsLocal(s[3..], '"', false, after);
    assert x[3..] == s[3..][..l.length - 3] + after;
    assert x[2..l.length] == s[2..l.length];
  }

  lemma StringIsLocal(s: string, after: string)
    requires StartsString(s) && AtBoundary(after) && MatchString(s).Some?
    ensures var t := MatchString(s).value.token;
            t.text != "" && StartsString(t.text + after) && !StartsUnicodeIdentifier(t.text + after)
            && !StartsComment(t.text + after) && !IsSpace(t.text[0])
            && MatchString(t.text + after) == Some(Lexeme(t, |t.text|))
  {
    hide QuotedLength, PrefixLength, StringText, StartsString, AllowsEscapes, StartsUnicodeIdentifier, StartsComment;
    var l := MatchString(s).value;
    var p := PrefixLength(s);
    SpellingStarts(s, l.length);
    var spelling := s[..l.length];
    StringHead(spelling, after);
    var x := l.token.text + after;
    var content := s[p + 1..];
    QuotedIsLocal(content, '\'', AllowsEscapes(s), after);
    var text := l.token.text;
    assert text[p + 1..] == text[p..][1..] == spelling[p..][1..] == spelling[p + 1..];
    assert spelling[p + 1..] == content[..l.length - p - 1];
    assert x[p + 1..] == text[p + 1..] + after;
    StringHead(spelling, "");
    assert l.token.text + "" == l.token.text && x[..l.length] == l.token.text;
    TextOfText(spelling);
  }

  lemma SpellingStarts(s: string, n: nat)
    requires StartsString(s) && PrefixLength(s) < n <= |s|
    ensures StartsString(s[..n]) && PrefixLength(s[..n]) == PrefixLength(s) && AllowsEscapes(s[..n]) == AllowsEscapes(s)
  {
  }

  /** Folding the prefix of a literal changes neither its kind nor its content. */
  lemma StringHead(spelling: string, after: string)
    requires StartsString(spelling)
    ensures var x := StringText(spelling) + after;
            && x != "" && StartsString(x) && PrefixLength(x) == PrefixLength(spelling)
            && AllowsEscapes(x) == AllowsEscapes(spelling)
            && StringText(spelling)[PrefixLength(spelling)..] == spelling[PrefixLength(spelling)..]
            && !StartsUnicodeIdentifier(x) && !StartsComment(x) && !IsSpace(x[0])
  {
  }

  lemma TextOfText(spelling: string)
    requires StartsString(spelling)
    ensures StringText(StringText(spelling)) == StringText(spelling)
  {
  }

  lemma WordTokenIsLocal(s: string, after: string)
    requires StartsWord(s) && AtBoundary(after)
    ensures var t := MatchWord(s).value.token;
            t.text != "" && StartsWord(t.text + after) && MatchWord(t.text + after) == Some(Lexeme(t, |t.text|))
            && (|t.text + after| > 1 ==> (t.text + after)[1] != '&' && (t.text + after)[1] != '\'')
  {
    var n := WordLength(s);
    WordIsLocal(s, after);
    assert WordLength(s[1..]) == n - 1;
    assert n > 1 ==> IsWordPart(s[1..][0]);
    assert (Lower(s[..n]) + after)[..n] == Lower(s[..n]);
    assert Lower(Lower(s[..n])) == Lower(s[..n]);
  }

  lemma NumberTokenIsLocal(s: string, after: string)
    requires StartsNumber(s) && AtBoundary(after)
    ensures var t := MatchNumber(s).value.token;
            t.text != "" && StartsNumber(t.text + after) && t.text[0] == s[0]
            && MatchNumber(t.text + after) == Some(Lexeme(t, |t.text|))
  {
    var n := NumberLength(s);
    NumberIsLocal(s, after);
    assert (s[..n] + after)[..n] == s[..n];
    if s[0] == '.' {
      DigitsRun(s, 0);
      assert n > 1;
    }
  }

  /** Re-reading a printed token gives the token back, whatever follows the boundary. */
  lemma MatchIsLocal(s: string, after: string)
    requires s != "" && !IsSpace(s[0]) && Match(s).Some? && AtBoundary(after)
    ensures var t := Match(s).value.token;
            && t.text != "" && !IsSpace(t.text[0])
            && Match(t.text + after) == Some(Lexeme(t, |t.text|))
  {
    hide OPERATORS, MatchSymbol, MatchString, MatchIdentifier, MatchUnicodeIdentifier, MatchWord, MatchNumber;
    if StartsUnicodeIdentifier(s) {
      UnicodeNameIsLocal(s, after);
    } else if StartsString(s) {
      StringIsLocal(s, after);
    } else if s[0] == '"' {
      QuotedNameIsLocal(s, after);
    } else if StartsWord(s) {
      WordTokenIsLocal(s, after);
    } else if StartsNumber(s) {
      NumberTokenIsLocal(s, after);
    } else {
      SymbolIsLocal(s, after);
    }
  }

  /* ---------- The laws of the lexer ---------- */

  /** `t` is a token this lexer produces: its own text is read as exactly it. */
  predicate Spelled(t: Token) {
    t.text != "" && !IsSpace(t.text[0]) && Match(t.text) == Some(Lexeme(t, |t.text|))
  }

  predicate AllSpelled(tokens: seq<Token>) {
    forall t :: t in tokens ==> Spelled(t)
  }

  /** The tokens with one space between neighbours. */
  function Print(tokens: seq<Token>): string {
    if tokens == [] then ""
    else if |tokens| == 1 then tokens[0].text
    else tokens[0].text + " " + Print(tokens[1..])
  }

  lemma {:induction false} LexedTokensAreSpelled(s: string)
    requires Lex(s).Some?
    ensures AllSpelled(Lex(s).value)
    decreases |s|
  {
    hide Match;
    if s != "" {
      if IsSpace(s[0]) {
        LexedTokensAreSpelled(s[1..]);
      } else {
        var m := Match(s).value;
        MatchIsLocal(s, "");
        assert m.token.text + "" == m.token.text;
        LexedTokensAreSpelled(s[m.length..]);
        assert Spelled(m.token);
      }
    }
  }

  lemma {:induction false} PrintedTokensLex(tokens: seq<Token>)
    requires AllSpelled(tokens)
    ensures Lex(Print(tokens)) == Some(tokens)
  {
    hide Match;
    if tokens != [] {
      var t, rest := tokens[0], tokens[1..];
      assert Spelled(t);
      var after := if rest == [] then "" else " " + Print(rest);
      var s := t.text + after;
      assert Print(tokens) == s by {
        assert rest == [] ==> t.text + "" == t.text;
        assert t.text + (" " + Print(rest)) == t.text + " " + Print(rest);
      }
      MatchIsLocal(t.text, after);
      assert s[|t.text|..] == after;
      PrintedTokensLex(rest);
      assert after != "" ==> after[1..] == Print(rest);
      assert tokens == [t] + rest;
    }
  }

  /** Printing what was lexed and lexing again gives the same tokens. */
  lemma LexPrintRoundTrip(s: string)
    requires Lex(s).Some?
    ensures Lex(Print(Lex(s).value)) == Lex(s)
  {
    LexedTokensAreSpelled(s);
    PrintedTokensLex(Lex(s).value);
  }

  /** What a token stores for the characters it was read from: only case is folded. */
  predicate Denotes(spelling: string, t: Token) {
    match t.kind
    case Word => t.text == Lower(spelling) && forall c :: c in spelling ==> IsWordPart(c)
    case UnicodeQuotedIdentifier => StartsUnicodeIdentifier(spelling) && t.text == "u&" + spelling[2..]
    case StringLiteral => t.text == StringText(spelling)
    case _ => t.text == spelling
  }

  ghost predicate TileAt(s: string, from: nat, to: nat, tokens: seq<Token>)
    decreases tokens, 0
  {
    && tokens != [] && from < to <= |s|
    && AllSpace(s[..from]) && !IsSpace(s[from])
    && Denotes(s[from..to], tokens[0])
    && Tiles(s[to..], tokens[1..])
  }

  /** The text is white space and, in order and without overlap, the spellings of the tokens. */
  ghost predicate Tiles(s: string, tokens: seq<Token>)
    decreases tokens, 1
  {
    if tokens == [] then AllSpace(s)
    else exists from: nat, to: nat :: TileAt(s, from, to, tokens)
  }

  lemma {:induction false} WordPartsOnly(s: string)
    ensures forall c :: c in s[..WordLength(s)] ==> IsWordPart(c)
  {
    if s != "" && IsWordPart(s[0]) {
      WordPartsOnly(s[1..]);
      var n := WordLength(s);
      assert s[..n] == [s[0]] + s[1..][..n - 1];
    }
  }

  lemma MatchDenotes(s: string)
    requires s != "" && Match(s).Some?
    ensures Denotes(s[..Match(s).value.length], Match(s).value.token)
  {
    hide OPERATORS, SINGLES, PUNCTUATION;
    var l := Match(s).value;
    if StartsUnicodeIdentifier(s) {
      assert s[..l.length][2..] == s[2..l.length];
    } else if StartsString(s) || s[0] == '"' {
    } else if StartsWord(s) {
      WordPartsOnly(s);
    }
  }

  lemma TilesAfterSpace(s: string, tokens: seq<Token>)
    requires s != "" && IsSpace(s[0]) && Tiles(s[1..], tokens)
    ensures Tiles(s, tokens)
  {
    hide Denotes;
    if tokens == [] {
      assert forall k :: 1 <= k < |s| ==> s[k] == s[1..][k - 1];
    } else {
      var from: nat, to: nat :| TileAt(s[1..], from, to, tokens);
      assert s[..from + 1] == [s[0]] + s[1..][..from];
      assert s[from + 1..to + 1] == s[1..][from..to];
      assert s[to + 1..] == s[1..][to..];
      assert TileAt(s, from + 1, to + 1, tokens);
    }
  }

  lemma TilesAfterToken(s: string, n: nat, tokens: seq<Token>)
    requires 0 < n <= |s| && !IsSpace(s[0]) && tokens != []
    requires Denotes(s[..n], tokens[0]) && Tiles(s[n..], tokens[1..])
    ensures Tiles(s, tokens)
  {
    hide Denotes;
    assert s[0..n] == s[..n];
    assert TileAt(s, 0, n, tokens);
  }

  /** Every character that is not white space lies in exactly one lexeme, in token order. */
  lemma {:induction false} LexTiles(s: string)
    requires Lex(s).Some?
    ensures Tiles(s, Lex(s).value)
    decreases |s|
  {
    hide Match, Tiles, Denotes, IsSpace;
    if s == "" {
      NothingTiles();
    } else if IsSpace(s[0]) {
      LexTiles(s[1..]);
      TilesAfterSpace(s, Lex(s).value);
    } else {
      var m := Match(s).value;
      MatchDenotes(s);
      LexTiles(s[m.length..]);
      var tokens := Lex(s).value;
      assert tokens[0] == m.token && tokens[1..] == Lex(s[m.length..]).value;
      TilesAfterToken(s, m.length, tokens);
    }
  }

  lemma NothingTiles()
    ensures Tiles("", [])
  {
  }
}
