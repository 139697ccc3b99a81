/**
 The lexer for the SQL subset of CHECK constraints.

 `Lex` is the specification: it repeatedly takes the lexeme at the front of the text.
 `CheckTokens` is the program: one index over the text and one cursor inside quotes and
 words.

 Character classes are those of ASCII.
 */
module CheckLexer {
  import opened Formats
  import opened Wrappers

  datatype Kind =
    | Word
    | StringLiteral
    | QuotedIdentifier
    | UnicodeQuotedIdentifier
    | Number
    | Operator
    | Punctuation

  datatype Token = Token(kind: Kind, text: string)

  /** A token together with the number of characters it was read from. */
  datatype Lexeme = Lexeme(token: Token, length: nat)

  // Longest first; among equal lengths the first that fits is taken.
  const OPERATORS: seq<string> := [
    "!~~*", "->>", "#>>", "~~*", "!~~",
    "::", ">=", "<=", "<>", "!=", "||", "&&", "@>", "<@", "->", "#>", "~~", "?|", "?&"]

  const PUNCTUATION: string := "()[],."
  const SINGLES: string := "()[],.+-*/%=><~!^|&?#:@"

  /* ---------- Character classes ---------- */

  predicate IsSpace(c: char) {
    c == ' ' || '\t' <= c <= '\r' || '\U{1C}' <= c <= '\U{1F}'
  }

  predicate IsAlpha(c: char) {
    'a' <= c <= 'z' || 'A' <= c <= 'Z'
  }

  predicate IsWordPart(c: char) {
    IsAlpha(c) || IsDigit(c) || c == '_' || c == '$'
  }

  function LowerChar(c: char): char {
    if 'A' <= c <= 'Z' then (c as int + 32) as char else c
  }

  function Lower(s: string): (r: string)
    ensures |r| == |s|
  {
    seq(|s|, i requires 0 <= i < |s| => LowerChar(s[i]))
  }

  /** Nothing follows, or white space does: the end of a printed token. */
  predicate AtBoundary(s: string) {
    s == "" || IsSpace(s[0])
  }

  predicate AllSpace(s: string) {
    forall k :: 0 <= k < |s| ==> IsSpace(s[k])
  }

  /* ---------- Lexemes at the front of a text ---------- */

  /** Length of quoted content through its closing quote; `s` starts after the opening one. */
  function QuotedLength(s: string, quote: char, escapes: bool): (r: Option<nat>)
    ensures r.Some? ==> 0 < r.value <= |s|
  {
    if s == "" then None
    else if escapes && s[0] == '\\' then
      if |s| == 1 then None else Shift(2, QuotedLength(s[2..], quote, escapes))
    else if s[0] == quote then
      if |s| > 1 && s[1] == quote then Shift(2, QuotedLength(s[2..], quote, escapes)) else Some(1)
    else Shift(1, QuotedLength(s[1..], quote, escapes))
  }

  function Shift(offset: nat, r: Option<nat>): Option<nat> {
    if r.Some? then Some(offset + r.value) else None
  }

  function WordLength(s: string): (n: nat)
    ensures n <= |s|
  {
    if s != "" && IsWordPart(s[0]) then 1 + WordLength(s[1..]) else 0
  }

  function DigitsLength(s: string): (n: nat)
    ensures n <= |s|
  {
    if s != "" && IsDigit(s[0]) then 1 + DigitsLength(s[1..]) else 0
  }

  function MantissaLength(s: string): (n: nat)
    ensures n <= |s|
  {
    var whole := DigitsLength(s);
    if whole > 0 then
      if whole < |s| && s[whole] == '.' then whole + 1 + DigitsLength(s[whole + 1..]) else whole
    else if s != "" && s[0] == '.' then
      var fraction := DigitsLength(s[1..]);
      if fraction > 0 then 1 + fraction else 0
    else 0
  }

  function ExponentLength(s: string): (n: nat)
    ensures n <= |s|
  {
    if s == "" || s[0] !in "eE" then 0
    else
      var sign := if |s| > 1 && s[1] in "+-" then 1 else 0;
      var digits := DigitsLength(s[1 + sign..]);
      if digits > 0 then 1 + sign + digits else 0
  }

  function NumberLength(s: string): (n: nat)
    ensures n <= |s|
  {
    var mantissa := MantissaLength(s);
    mantissa + ExponentLength(s[mantissa..])
  }

  /** At least two characters, none of them white space. */
  predicate Plain(o: string) {
    |o| >= 2 && forall k :: 0 <= k < |o| ==> !IsSpace(o[k])
  }

  lemma OperatorIsPlain(o: string)
    requires o in OPERATORS
    ensures Plain(o)
  {
  }

  function FirstOperator(s: string, operators: seq<string>): (r: Option<string>)
    ensures r.Some? ==> r.value in operators && r.value <= s
  {
    if operators == [] then None
    else if operators[0] <= s then Some(operators[0])
    else FirstOperator(s, operators[1..])
  }

  predicate IsUnicodePrefix(s: string) {
    |s| > 2 && (s[0] == 'u' || s[0] == 'U') && s[1] == '&'
  }

  predicate StartsUnicodeIdentifier(s: string) {
    IsUnicodePrefix(s) && s[2] == '"'
  }

  /** Number of prefix letters of a string literal: 1 for E, B and X, 2 for U&, else 0. */
  function PrefixLength(s: string): (n: nat)
    ensures n <= |s|
  {
    if |s| > 1 && s[0] in "eEbBxX" && s[1] == '\'' then 1
    else if IsUnicodePrefix(s) && s[2] == '\'' then 2
    else 0
  }

  predicate StartsString(s: string) {
    var p := PrefixLength(s);
    p < |s| && s[p] == '\''
  }

  predicate AllowsEscapes(s: string) {
    PrefixLength(s) == 1 && (s[0] == 'e' || s[0] == 'E')
  }

  /** The text stored for a literal read as `spelling`: only a U& prefix is folded. */
  function StringText(spelling: string): (r: string)
    ensures |r| == |spelling|
  {
    if PrefixLength(spelling) == 2 then "u&" + spelling[2..] else spelling
  }

  predicate StartsWord(s: string) {
    s != "" && (IsAlpha(s[0]) || s[0] == '_')
  }

  predicate StartsNumber(s: string) {
    s != "" && (IsDigit(s[0]) || (s[0] == '.' && |s| > 1 && IsDigit(s[1])))
  }

  predicate StartsComment(s: string) {
    "--" <= s || "/*" <= s
  }

  function MatchUnicodeIdentifier(s: string): (r: Option<Lexeme>)
    requires StartsUnicodeIdentifier(s)
    ensures r.Some? ==> 0 < r.value.length <= |s|
  {
    var n := QuotedLength(s[3..], '"', false);
    if n.None? then None
    else Some(Lexeme(Token(UnicodeQuotedIdentifier, "u&" + s[2..3 + n.value]), 3 + n.value))
  }

  function MatchString(s: string): (r: Option<Lexeme>)
    requires StartsString(s)
    ensures r.Some? ==> 0 < r.value.length <= |s|
  {
    var p := PrefixLength(s);
    var n := QuotedLength(s[p + 1..], '\'', AllowsEscapes(s));
    if n.None? then None
    else Some(Lexeme(Token(StringLiteral, StringText(s[..p + 1 + n.value])), p + 1 + n.value))
  }

  function MatchIdentifier(s: string): (r: Option<Lexeme>)
    requires s != "" && s[0] == '"'
    ensures r.Some? ==> 0 < r.value.length <= |s|
  {
    var n := QuotedLength(s[1..], '"', false);
    if n.None? then None
    else Some(Lexeme(Token(QuotedIdentifier, s[..1 + n.value]), 1 + n.value))
  }

  function MatchWord(s: string): (r: Option<Lexeme>)
    requires StartsWord(s)
    ensures r.Some? && 0 < r.value.length <= |s|
  {
    var n := WordLength(s);
    Some(Lexeme(Token(Word, Lower(s[..n])), n))
  }

  function MatchNumber(s: string): (r: Option<Lexeme>)
    requires StartsNumber(s)
    ensures r.Some? && 0 < r.value.length <= |s|
  {
    var n := NumberLength(s);
    Some(Lexeme(Token(Number, s[..n]), n))
  }

  function MatchSymbol(s: string): (r: Option<Lexeme>)
    requires s != ""
    ensures r.Some? ==> 0 < r.value.length <= |s|
  {
    var operator := FirstOperator(s, OPERATORS);
    if operator.Some? then
      OperatorIsPlain(operator.value);
      Some(Lexeme(Token(Operator, operator.value), |operator.value|))
    else if s[0] in SINGLES then
      Some(Lexeme(Token(if s[0] in PUNCTUATION then Punctuation else Operator, [s[0]]), 1))
    else None
  }

  /** The lexeme at the front of a text that does not start with white space. */
  function Match(s: string): (r: Option<Lexeme>)
    requires s != ""
    ensures r.Some? ==> 0 < r.value.length <= |s|
  {
    if StartsComment(s) then None
    else if StartsUnicodeIdentifier(s) then MatchUnicodeIdentifier(s)
    else if StartsString(s) then MatchString(s)
    else if s[0] == '"' then MatchIdentifier(s)
    else if s[0] == '$' then None
    else if StartsWord(s) then MatchWord(s)
    else if StartsNumber(s) then MatchNumber(s)
    else MatchSymbol(s)
  }

  lemma OnlySymbol(s: string)
    requires s != "" && !StartsComment(s) && !StartsUnicodeIdentifier(s) && !StartsString(s)
    requires s[0] != '"' && s[0] != '$' && !StartsWord(s) && !StartsNumber(s)
    ensures Match(s) == MatchSymbol(s)
  {
  }

  function Prepend(tokens: seq<Token>, r: Option<seq<Token>>): Option<seq<Token>> {
    if r.Some? then Some(tokens + r.value) else None
  }

  /** The tokens of a text, or None when some lexeme is not of the subset. */
  function Lex(s: string): Option<seq<Token>>
    decreases |s|
  {
    if s == "" then Some([])
    else if IsSpace(s[0]) then Lex(s[1..])
    else
      var m := Match(s);
      if m.None? then None
      else Prepend([m.value.token], Lex(s[m.value.length..]))
  }

  /* ---------- The program ---------- */

  /** Where quoted content that starts at `from` ends. */
  ghost function QuotedEnd(value: string, from: nat, quote: char, escapes: bool): Option<nat>
    requires from <= |value|
  {
    Shift(from, QuotedLength(value[from..], quote, escapes))
  }

  lemma QuotedEndStep(value: string, from: nat, quote: char, escapes: bool)
    requires from < |value|
    ensures escapes && value[from] == '\\' && from + 1 == |value| ==>
              QuotedEnd(value, from, quote, escapes).None?
    ensures from + 1 < |value|
            && ((escapes && value[from] == '\\') || (value[from] == quote && value[from + 1] == quote)) ==>
              QuotedEnd(value, from, quote, escapes) == QuotedEnd(value, from + 2, quote, escapes)
    ensures value[from] != quote && !(escapes && value[from] == '\\') ==>
              QuotedEnd(value, from, quote, escapes) == QuotedEnd(value, from + 1, quote, escapes)
  {
    var rest := value[from..];
    assert rest[1..] == value[from + 1..];
    if from + 1 < |value| {
      assert rest[2..] == value[from + 2..];
    }
  }

  /** Finds the end of quoted content that starts at `from`, or None when it is unterminated. */
  method ScanQuoted(value: string, from: nat, quote: char, escapes: bool) returns (end: Option<nat>)
    requires from <= |value|
    ensures end == Shift(from, QuotedLength(value[from..], quote, escapes))
  {
    ghost var expected := QuotedEnd(value, from, quote, escapes);
    var cursor := from;
    while cursor < |value|
      invariant from <= cursor <= |value| + 1
      invariant expected == if cursor <= |value| then QuotedEnd(value, cursor, quote, escapes) else None
    {
      QuotedEndStep(value, cursor, quote, escapes);
      if escapes && value[cursor] == '\\' {
        cursor := cursor + 2;
      } else if value[cursor] == quote {
        if cursor + 1 < |value| && value[cursor + 1] == quote {
          cursor := cursor + 2;
        } else {
          return Some(cursor + 1);
        }
      } else {
        cursor := cursor + 1;
      }
    }
    return None;
  }

  method ScanWord(value: string, from: nat) returns (end: nat)
    requires from <= |value|
    ensures end == from + WordLength(value[from..])
  {
    end := from;
    while end < |value| && IsWordPart(value[end])
      invariant from <= end <= |value|
      invariant from + WordLength(value[from..]) == end + WordLength(value[end..])
    {
      assert value[end..][1..] == value[end + 1..];
      end := end + 1;
    }
  }

  method ScanUnicodeIdentifier(value: string, index: nat) returns (m: Option<Lexeme>)
    requires index <= |value| && StartsUnicodeIdentifier(value[index..])
    ensures m == MatchUnicodeIdentifier(value[index..])
  {
    ghost var rest := value[index..];
    var close := ScanQuoted(value, index + 3, '"', false);
    assert rest[3..] == value[index + 3..];
    if close.None? { return None; }
    assert rest[2..close.value - index] == value[index + 2..close.value];
    return Some(Lexeme(Token(UnicodeQuotedIdentifier, "u&" + value[index + 2..close.value]), close.value - index));
  }

  method ScanString(value: string, index: nat) returns (m: Option<Lexeme>)
    requires index <= |value| && StartsString(value[index..])
    ensures m == MatchString(value[index..])
  {
    var rest := value[index..];
    var p := PrefixLength(rest);
    var close := ScanQuoted(value, index + p + 1, '\'', AllowsEscapes(rest));
    assert rest[p + 1..] == value[index + p + 1..];
    if close.None? { return None; }
    assert rest[..close.value - index] == value[index..close.value];
    return Some(Lexeme(Token(StringLiteral, StringText(value[index..close.value])), close.value - index));
  }

  method ScanIdentifier(value: string, index: nat) returns (m: Option<Lexeme>)
    requires index < |value| && value[index] == '"'
    ensures m == MatchIdentifier(value[index..])
  {
    ghost var rest := value[index..];
    var close := ScanQuoted(value, index + 1, '"', false);
    assert rest[1..] == value[index + 1..];
    if close.None? { return None; }
    assert rest[..close.value - index] == value[index..close.value];
    return Some(Lexeme(Token(QuotedIdentifier, value[index..close.value]), close.value - index));
  }

  /** Reads the lexeme that starts at `index`. */
  method ScanLexeme(value: string, index: nat) returns (m: Option<Lexeme>)
    requires index < |value|
    ensures m == Match(value[index..])
  {
    var rest := value[index..];
    if StartsComment(rest) { return None; }
    if StartsUnicodeIdentifier(rest) { m := ScanUnicodeIdentifier(value, index); return; }
    if StartsString(rest) { m := ScanString(value, index); return; }
    if rest[0] == '"' { m := ScanIdentifier(value, index); return; }
    if rest[0] == '$' { return None; }
    if StartsWord(rest) {
      var end := ScanWord(value, index);
      return Some(Lexeme(Token(Word, Lower(rest[..end - index])), end - index));
    }
    if StartsNumber(rest) { return MatchNumber(rest); }
    return MatchSymbol(rest);
  }

  /** What remains to be lexed after `tokens`, followed one lexeme further. */
  lemma LexStep(tokens: seq<Token>, value: string, index: nat, m: Option<Lexeme>)
    requires index < |value|
    ensures IsSpace(value[index]) ==> Lex(value[index..]) == Lex(value[index + 1..])
    ensures !IsSpace(value[index]) && m == Match(value[index..]) ==>
              Prepend(tokens, Lex(value[index..])) ==
              if m.None? then None
              else Prepend(tokens + [m.value.token], Lex(value[index + m.value.length..]))
  {
    var rest := value[index..];
    assert rest[1..] == value[index + 1..];
    if !IsSpace(value[index]) && m == Match(rest) && m.Some? {
      assert rest[m.value.length..] == value[index + m.value.length..];
      var tail := Lex(value[index + m.value.length..]);
      if tail.Some? {
        assert tokens + ([m.value.token] + tail.value) == (tokens + [m.value.token]) + tail.value;
      }
    }
  }

  /** Lexes a CHECK text; None when it holds anything outside the subset. */
  method CheckTokens(value: string) returns (result: Option<seq<Token>>)
    ensures result == Lex(value)
  {
    hide *;
    var tokens: seq<Token> := [];
    var index := 0;
    assert value[0..] == value;
    PrependEmpty([], Lex(value));
    while index < |value|
      invariant index <= |value|
      invariant Lex(value) == Prepend(tokens, Lex(value[index..]))
    {
      if IsSpace(value[index]) {
        LexStep(tokens, value, index, None);
        index := index + 1;
        continue;
      }
      var m := ScanLexeme(value, index);
      LexStep(tokens, value, index, m);
      if m.None? { return None; }
      tokens := tokens + [m.value.token];
      index := index + m.value.length;
    }
    assert value[index..] == "";
    LexEmpty(tokens);
    return Some(tokens);
  }

  lemma LexEmpty(tokens: seq<Token>)
    ensures Prepend(tokens, Lex("")) == Some(tokens)
  {
    assert tokens + [] == tokens;
  }

  lemma PrependEmpty(tokens: seq<Token>, r: Option<seq<Token>>)
    ensures Prepend([], r) == r
    ensures Prepend(tokens, Some([])) == Some(tokens)
  {
    if r.Some? {
      assert [] + r.value == r.value;
    }
    assert tokens + [] == tokens;
  }
}
