/**
 The one type-dependent equivalence between CHECK texts: a declared `IN` list and the
 `= ANY (ARRAY[...])` form PostgreSQL prints for it.

 `StringInCandidate` is the parser. `Form` and `PrintForm` are an independent grammar of
 the accepted texts; the parser accepts exactly the printed forms.
 */
module CheckMeaning {
  import opened Wrappers
  import opened CheckLexer
  import opened CheckLexerLaws
  import opened CheckGrammar

  const CAST := Token(Operator, "::")
  const EQUALS := Token(Operator, "=")

  function Name(text: string): Token {
    Token(Word, text)
  }

  const IN := Name("in")
  const ANY := Name("any")
  const ARRAY := Name("array")
  const TEXT_CAST: seq<Token> := [CAST, Name("text")]
  const VARCHAR_CAST: seq<Token> := [CAST, Name("character"), Name("varying")]
  const TEXT_ARRAY_CAST: seq<Token> := [CAST, Name("text"), LEFT, RIGHT]

  datatype Family = TextFamily | VarcharFamily

  /** What the parser makes of a CHECK: which column is compared with which literals. */
  datatype Candidate =
    | DeclaredIn(column: string, literals: seq<string>)
    | PostgresAny(column: string, literals: seq<string>, family: Family)

  /* ---------- The parser ---------- */

  predicate HasAt(tokens: seq<Token>, index: nat, pattern: seq<Token>) {
    index + |pattern| <= |tokens| && tokens[index..index + |pattern|] == pattern
  }

  predicate IsPlainLiteral(part: seq<Token>) {
    |part| == 1 && part[0].kind == StringLiteral && part[0].text != "" && part[0].text[0] == '\''
  }

  function FirstTexts(parts: seq<seq<Token>>): (r: seq<string>)
    requires forall i :: 0 <= i < |parts| ==> parts[i] != []
    ensures |r| == |parts|
    ensures forall i :: 0 <= i < |parts| ==> r[i] == parts[i][0].text
  {
    seq(|parts|, i requires 0 <= i < |parts| => parts[i][0].text)
  }

  /** The ORM form: a name, IN, and a list of plain literals. */
  function DeclaredCandidate(tokens: seq<Token>): Option<Candidate> {
    if !(|tokens| >= 4 && tokens[0].kind == Word && tokens[1] == IN) then None
    else
      var end := GroupEnd(tokens, 2, OPEN, CLOSE);
      if end != Some(|tokens| - 1) then None
      else
        var parts := Split(tokens[3..end.value]);
        if parts.Some? && parts.value != [] && forall i :: 0 <= i < |parts.value| ==> IsPlainLiteral(parts.value[i]) then
          Some(DeclaredIn(tokens[0].text, FirstTexts(parts.value)))
        else None
  }

  /** The compared side: its name, whether it is cast to text, and where it ends. */
  datatype Side = Side(column: string, cast: bool, end: nat)

  function LeftSide(tokens: seq<Token>): (r: Option<Side>)
    ensures r.Some? ==> r.value.end <= |tokens|
  {
    if tokens == [] then None
    else if tokens[0] == OPEN then
      if GroupEnd(tokens, 0, OPEN, CLOSE) == Some(2) && tokens[1].kind == Word && HasAt(tokens, 3, TEXT_CAST)
      then Some(Side(tokens[1].text, true, 5))
      else None
    else if tokens[0].kind == Word then
      if HasAt(tokens, 1, TEXT_CAST) then Some(Side(tokens[0].text, true, 3))
      else Some(Side(tokens[0].text, false, 1))
    else None
  }

  /** The array operand: its members and whether the whole array is cast to text[]. */
  datatype Operand = Operand(members: seq<seq<Token>>, cast: bool)

  function ArrayOperand(tokens: seq<Token>): Option<Operand> {
    if tokens != [] && tokens[0] == OPEN then
      var end := GroupEnd(tokens, 0, OPEN, CLOSE);
      if end.None? || tokens[end.value + 1..] != TEXT_ARRAY_CAST then None
      else BareArray(tokens[1..end.value], true)
    else BareArray(tokens, false)
  }

  function BareArray(tokens: seq<Token>, cast: bool): Option<Operand> {
    if |tokens| < 3 || tokens[..2] != [ARRAY, LEFT] then None
    else
      var end := GroupEnd(tokens, 1, LEFT, RIGHT);
      if end.None? then None
      else
        var suffix := tokens[end.value + 1..];
        if suffix != [] && (suffix != TEXT_ARRAY_CAST || cast) then None
        else
          var members := Split(tokens[2..end.value]);
          if members.None? || members.value == [] then None
          else Some(Operand(members.value, cast || suffix != []))
  }

  /** The cast written on one array member; None when the member is not a cast literal. */
  function MemberCast(part: seq<Token>): Option<string> {
    if part == [] || part[0].kind != StringLiteral then None
    else if |part| == 3 && part[1] == CAST && part[2].kind == Word then Some(part[2].text)
    else if part[1..] == VARCHAR_CAST then Some("character varying")
    else if part[1..] == VARCHAR_CAST + TEXT_CAST then Some("character varying::text")
    else None
  }

  predicate AllCast(members: seq<seq<Token>>, cast: string) {
    forall i :: 0 <= i < |members| ==> members[i] != [] && MemberCast(members[i]) == Some(cast)
  }

  function AnyCandidate(tokens: seq<Token>): Option<Candidate> {
    var side := LeftSide(tokens);
    if side.None? || !HasAt(tokens, side.value.end, [EQUALS, ANY]) then None
    else
      var start := side.value.end + 2;
      var end := GroupEnd(tokens, start, OPEN, CLOSE);
      if end != Some(|tokens| - 1) then None
      else
        var operand := ArrayOperand(tokens[start + 1..end.value]);
        if operand.None? then None
        else Shape(side.value, operand.value)
  }

  function Shape(side: Side, operand: Operand): Option<Candidate> {
    var members := operand.members;
    if !side.cast && !operand.cast && AllCast(members, "text") then
      Some(PostgresAny(side.column, FirstTexts(members), TextFamily))
    else if side.cast && operand.cast && AllCast(members, "character varying") then
      Some(PostgresAny(side.column, FirstTexts(members), VarcharFamily))
    else if side.cast && !operand.cast && AllCast(members, "character varying::text") then
      Some(PostgresAny(side.column, FirstTexts(members), VarcharFamily))
    else None
  }

  /** Parses one side of the equivalence. */
  function StringInCandidate(tokens: seq<Token>): Option<Candidate> {
    var core := Strip(tokens);
    var declared := DeclaredCandidate(core);
    if declared.Some? then declared else AnyCandidate(core)
  }

  /* ---------- The program ---------- */

  method CollectMembers(members: seq<seq<Token>>) returns (result: Option<(seq<string>, seq<string>)>)
    ensures result.Some? <==> forall i :: 0 <= i < |members| ==> MemberCast(members[i]).Some?
    ensures result.Some? ==>
              |result.value.0| == |result.value.1| == |members|
              && forall i :: 0 <= i < |members| ==>
                   members[i] != [] && result.value.0[i] == members[i][0].text
                   && MemberCast(members[i]) == Some(result.value.1[i])
  {
    var literals: seq<string>, casts: seq<string> := [], [];
    for i := 0 to |members|
      invariant |literals| == |casts| == i
      invariant forall k :: 0 <= k < i ==>
                  members[k] != [] && literals[k] == members[k][0].text
                  && MemberCast(members[k]) == Some(casts[k])
    {
      var cast := MemberCast(members[i]);
      if cast.None? {
        return None;
      }
      literals := literals + [members[i][0].text];
      casts := casts + [cast.value];
    }
    return Some((literals, casts));
  }

  predicate AllEqual(casts: seq<string>, cast: string) {
    forall c :: c in casts ==> c == cast
  }

  method ParseDeclared(tokens: seq<Token>) returns (result: Option<Candidate>)
    ensures result == DeclaredCandidate(tokens)
  {
    if !(|tokens| >= 4 && tokens[0].kind == Word && tokens[1] == IN) {
      return None;
    }
    var end := MatchingGroupEnd(tokens, 2, OPEN, CLOSE);
    if end != Some(|tokens| - 1) {
      return None;
    }
    var parts := SplitCheckList(tokens[3..end.value]);
    if parts.None? || parts.value == [] {
      return None;
    }
    var literals: seq<string> := [];
    for i := 0 to |parts.value|
      invariant |literals| == i
      invariant forall k :: 0 <= k < i ==> IsPlainLiteral(parts.value[k]) && literals[k] == parts.value[k][0].text
    {
      if !IsPlainLiteral(parts.value[i]) {
        return None;
      }
      literals := literals + [parts.value[i][0].text];
    }
    assert literals == FirstTexts(parts.value);
    return Some(DeclaredIn(tokens[0].text, literals));
  }

  method ParseShape(side: Side, operand: Operand) returns (result: Option<Candidate>)
    requires operand.members != []
    ensures result == Shape(side, operand)
  {
    hide MemberCast;
    var members := operand.members;
    var collected := CollectMembers(members);
    if collected.None? {
      return None;
    }
    var (literals, casts) := collected.value;
    assert literals == FirstTexts(members);
    assert forall c :: AllEqual(casts, c) <==> AllCast(members, c) by {
      forall c ensures AllEqual(casts, c) <==> AllCast(members, c) {
        assert AllEqual(casts, c) ==> forall i :: 0 <= i < |members| ==> casts[i] in casts;
      }
    }
    if !side.cast && !operand.cast && AllEqual(casts, "text") {
      return Some(PostgresAny(side.column, literals, TextFamily));
    }
    if side.cast && operand.cast && AllEqual(casts, "character varying") {
      return Some(PostgresAny(side.column, literals, VarcharFamily));
    }
    if side.cast && !operand.cast && AllEqual(casts, "character varying::text") {
      return Some(PostgresAny(side.column, literals, VarcharFamily));
    }
    return None;
  }

  method ParseCandidate(tokens: seq<Token>) returns (result: Option<Candidate>)
    ensures result == StringInCandidate(tokens)
  {
    hide DeclaredCandidate, Shape, ArrayOperand, LeftSide, GroupEnd, HasAt, Strip;
    var core := StripOuterParentheses(tokens);
    result := ParseDeclared(core);
    if result.Some? {
      return;
    }
    var side := LeftSide(core);
    if side.None? || !HasAt(core, side.value.end, [EQUALS, ANY]) {
      return None;
    }
    var start := side.value.end + 2;
    var end := MatchingGroupEnd(core, start, OPEN, CLOSE);
    if end != Some(|core| - 1) {
      return None;
    }
    var operand := ArrayOperand(core[start + 1..end.value]);
    if operand.None? {
      return None;
    }
    OperandHasMembers(core[start + 1..end.value]);
    result := ParseShape(side.value, operand.value);
  }

  lemma OperandHasMembers(tokens: seq<Token>)
    requires ArrayOperand(tokens).Some?
    ensures ArrayOperand(tokens).value.members != []
  {
  }

  /* ---------- The grammar of the accepted texts ---------- */

  datatype LeftStyle = Bare | Cast | ParenthesizedCast
  datatype ArrayStyle = Plain | CastArray | CastParenthesized
  datatype MemberStyle = AsText | AsVarchar | AsVarcharText

  datatype Form =
    | InList(column: string, literals: seq<string>)
    | AnyArray(column: string, left: LeftStyle, style: ArrayStyle, member: MemberStyle, literals: seq<string>)

  function Suffix(member: MemberStyle): seq<Token> {
    match member
    case AsText => TEXT_CAST
    case AsVarchar => VARCHAR_CAST
    case AsVarcharText => VARCHAR_CAST + TEXT_CAST
  }

  /** One list member per literal, each followed by the same tokens. */
  function Members(literals: seq<string>, suffix: seq<Token>): (r: seq<seq<Token>>)
    ensures |r| == |literals|
  {
    seq(|literals|, i requires 0 <= i < |literals| => [Token(StringLiteral, literals[i])] + suffix)
  }

  function PrintLeft(column: string, left: LeftStyle): seq<Token> {
    match left
    case Bare => [Name(column)]
    case Cast => [Name(column)] + TEXT_CAST
    case ParenthesizedCast => [OPEN, Name(column), CLOSE] + TEXT_CAST
  }

  function PrintArray(style: ArrayStyle, members: seq<seq<Token>>): seq<Token>
    requires members != []
  {
    var bare := [ARRAY, LEFT] + Join(members) + [RIGHT];
    match style
    case Plain => bare
    case CastArray => bare + TEXT_ARRAY_CAST
    case CastParenthesized => [OPEN] + bare + [CLOSE] + TEXT_ARRAY_CAST
  }

  function PrintForm(f: Form): seq<Token>
    requires f.literals != []
  {
    match f
    case InList(column, literals) =>
      [Name(column), IN, OPEN] + Join(Members(literals, [])) + [CLOSE]
    case AnyArray(column, left, style, member, literals) =>
      PrintLeft(column, left) + [EQUALS, ANY, OPEN]
      + PrintArray(style, Members(literals, Suffix(member))) + [CLOSE]
  }

  /** The forms the equivalence covers: one per way PostgreSQL prints the check. */
  predicate Accepted(f: Form) {
    f.literals != []
    && match f
       case InList(_, literals) => forall i :: 0 <= i < |literals| ==> literals[i] != "" && literals[i][0] == '\''
       case AnyArray(_, left, style, member, _) =>
         (left == Bare && style == Plain && member == AsText)
         || (left != Bare && style != Plain && member == AsVarchar)
         || (left != Bare && style == Plain && member == AsVarcharText)
  }

  function CandidateOf(f: Form): Candidate {
    match f
    case InList(column, literals) => DeclaredIn(column, literals)
    case AnyArray(column, _, _, member, literals) =>
      PostgresAny(column, literals, if member == AsText then TextFamily else VarcharFamily)
  }

  /** Unquoted words of a lexed text hold no space. */
  predicate WordsAreWords(tokens: seq<Token>) {
    forall t :: t in tokens && t.kind == Word ==> ' ' !in t.text
  }

  lemma LexedWordsAreWords(text: string)
    requires Lex(text).Some?
    ensures WordsAreWords(Lex(text).value)
  {
    LexedTokensAreSpelled(text);
    forall t | t in Lex(text).value && t.kind == Word ensures ' ' !in t.text {
      hide Match, Lex;
      assert Spelled(t);
      MatchDenotes(t.text);
      assert t.text[..|t.text|] == t.text;
    }
  }

  /* ---------- Printed lists ---------- */

  predicate NoBrackets(tokens: seq<Token>) {
    OPEN !in tokens && CLOSE !in tokens && LEFT !in tokens && RIGHT !in tokens
  }

  lemma {:induction false} JoinHasNoBrackets(parts: seq<seq<Token>>)
    requires parts != [] && forall i :: 0 <= i < |parts| ==> NoBrackets(parts[i])
    ensures NoBrackets(Join(parts))
  {
    if |parts| > 1 {
      JoinHasNoBrackets(parts[1..]);
    }
  }

  /** A list of cast literals reads back member by member and hides no bracket. */
  lemma MembersReadBack(literals: seq<string>, suffix: seq<Token>)
    requires literals != [] && forall t :: t in suffix ==> t.kind != Punctuation
    ensures var members := Members(literals, suffix);
            Split(Join(members)) == Some(members) && NoBrackets(Join(members))
            && FirstTexts(members) == literals
  {
    var members := Members(literals, suffix);
    forall p | p in members ensures IsPart(p) && NoBrackets(p) {
      NoPunctuationIsPart(p, 0, 0);
    }
    SplitIsJoinInverse(Join(members), members);
    JoinHasNoBrackets(members);
  }

  lemma NoBracketsBalanced(tokens: seq<Token>)
    requires NoBrackets(tokens)
    ensures Balanced(tokens, OPEN, CLOSE) && Balanced(tokens, LEFT, RIGHT)
  {
    RunSkips(tokens, 0, OPEN, CLOSE);
    RunSkips(tokens, 0, LEFT, RIGHT);
  }

  lemma BracketedEnds(before: seq<Token>, inside: seq<Token>, after: seq<Token>, opening: Token, closing: Token)
    requires opening != closing && Balanced(inside, opening, closing)
    ensures GroupEnd(before + [opening] + inside + [closing] + after, |before|, opening, closing)
            == Some(|before| + 1 + |inside|)
  {
    var tokens := before + [opening] + inside + [closing] + after;
    var end := |before| + 1 + |inside|;
    assert tokens[|before| + 1..end] == inside;
    GroupEndsWhereBalanced(tokens, |before|, opening, closing, end);
  }

  /* ---------- Every printed form is parsed ---------- */

  lemma InListParses(f: Form)
    requires f.InList? && Accepted(f)
    ensures Strip(PrintForm(f)) == PrintForm(f)
    ensures StringInCandidate(PrintForm(f)) == Some(CandidateOf(f))
  {
    hide Split, Strip, GroupEnd, Join, Members;
    var tokens := PrintForm(f);
    var members := Members(f.literals, []);
    var list := Join(members);
    MembersReadBack(f.literals, []);
    NoBracketsBalanced(list);
    BracketedEnds([Name(f.column), IN], list, [], OPEN, CLOSE);
    assert tokens == [Name(f.column), IN] + [OPEN] + list + [CLOSE] + [];
    assert tokens[3..|tokens| - 1] == list;
    StripKeeps(tokens);
    MembersArePlain(f.literals);
  }

  lemma MembersArePlain(literals: seq<string>)
    requires forall i :: 0 <= i < |literals| ==> literals[i] != "" && literals[i][0] == '\''
    ensures forall i :: 0 <= i < |literals| ==> IsPlainLiteral(Members(literals, [])[i])
  {
  }

  lemma StripKeeps(tokens: seq<Token>)
    requires !Wrapped(tokens)
    ensures Strip(tokens) == tokens
  {
  }

  lemma BareArrayReads(literals: seq<string>, suffix: seq<Token>, style: ArrayStyle)
    requires literals != [] && forall t :: t in suffix ==> t.kind != Punctuation
    ensures ArrayOperand(PrintArray(style, Members(literals, suffix)))
            == Some(Operand(Members(literals, suffix), style != Plain))
    ensures Balanced(PrintArray(style, Members(literals, suffix)), OPEN, CLOSE)
  {
    hide Split, Join, GroupEnd, Run, Members;
    var members := Members(literals, suffix);
    var list := Join(members);
    MembersReadBack(literals, suffix);
    NoBracketsBalanced(list);
    var bare := [ARRAY, LEFT] + list + [RIGHT];
    RunSkips(bare, 0, OPEN, CLOSE);
    RunSkips(TEXT_ARRAY_CAST, 0, OPEN, CLOSE);
    var cast := bare + TEXT_ARRAY_CAST;
    RunSkips(cast, 0, OPEN, CLOSE);
    BracketedEnds([ARRAY], list, [], LEFT, RIGHT);
    assert bare == [ARRAY] + [LEFT] + list + [RIGHT] + [];
    BracketedEnds([ARRAY], list, TEXT_ARRAY_CAST, LEFT, RIGHT);
    assert cast == [ARRAY] + [LEFT] + list + [RIGHT] + TEXT_ARRAY_CAST;
    assert bare[2..2 + |list|] == list && cast[2..2 + |list|] == list;
    assert bare[..2] == [ARRAY, LEFT] && cast[..2] == [ARRAY, LEFT];
    assert bare[3 + |list|..] == [] && cast[3 + |list|..] == TEXT_ARRAY_CAST;
    if style == CastParenthesized {
      var tokens := [OPEN] + bare + [CLOSE] + TEXT_ARRAY_CAST;
      BracketedEnds([], bare, TEXT_ARRAY_CAST, OPEN, CLOSE);
      assert tokens == [] + [OPEN] + bare + [CLOSE] + TEXT_ARRAY_CAST;
      assert tokens[1..1 + |bare|] == bare;
      assert tokens[1 + |bare| + 1..] == TEXT_ARRAY_CAST;
      WrappedIsBalanced(bare, TEXT_ARRAY_CAST);
    }
  }

  lemma WrappedIsBalanced(inside: seq<Token>, after: seq<Token>)
    requires Balanced(inside, OPEN, CLOSE) && Balanced(after, OPEN, CLOSE)
    ensures Balanced([OPEN] + inside + [CLOSE] + after, OPEN, CLOSE)
  {
    RunShift(inside, 0, 0);
    RunConcat(inside, [CLOSE] + after, 1, OPEN, CLOSE);
    assert ([CLOSE] + after)[1..] == after;
    var whole := [OPEN] + inside + [CLOSE] + after;
    assert whole[1..] == inside + ([CLOSE] + after);
  }

  /** Balanced tokens return to whatever depth they start from. */
  lemma {:induction false} RunShift(tokens: seq<Token>, depth: nat, end: nat)
    requires Run(tokens, depth, OPEN, CLOSE) == Some(end)
    ensures Run(tokens, depth + 1, OPEN, CLOSE) == Some(end + 1)
  {
    if tokens != [] {
      var next := if tokens[0] == OPEN then depth + 1 else if tokens[0] == CLOSE then depth - 1 else depth;
      RunShift(tokens[1..], next, end);
    }
  }

  lemma LeftReads(column: string, left: LeftStyle, rest: seq<Token>)
    requires |rest| >= 2 && rest[..2] == [EQUALS, ANY]
    ensures var tokens := PrintLeft(column, left) + rest;
            LeftSide(tokens) == Some(Side(column, left != Bare, |PrintLeft(column, left)|))
  {
    hide GroupEnd, Run;
    var printed := PrintLeft(column, left);
    var tokens := printed + rest;
    if left == ParenthesizedCast {
      RunSkips([Name(column)], 0, OPEN, CLOSE);
      BracketedEnds([], [Name(column)], TEXT_CAST + rest, OPEN, CLOSE);
      assert tokens == [] + [OPEN] + [Name(column)] + [CLOSE] + (TEXT_CAST + rest);
      assert tokens[3..5] == TEXT_CAST;
    } else if left == Cast {
      assert tokens[1..3] == TEXT_CAST;
    } else {
      assert tokens[1] == EQUALS;
    }
  }

  lemma AnyArrayParses(f: Form)
    requires f.AnyArray? && Accepted(f)
    ensures Strip(PrintForm(f)) == PrintForm(f)
    ensures StringInCandidate(PrintForm(f)) == Some(CandidateOf(f))
  {
    hide Split, Strip, GroupEnd, Join, Members, Run, ArrayOperand, LeftSide, PrintLeft, PrintArray;
    var members := Members(f.literals, Suffix(f.member));
    var left, operand := PrintLeft(f.column, f.left), PrintArray(f.style, members);
    var tokens := PrintForm(f);
    var rest := [EQUALS, ANY, OPEN] + operand + [CLOSE];
    assert tokens == left + rest;
    LeftReads(f.column, f.left, rest);
    assert HasAt(tokens, |left|, [EQUALS, ANY]);
    BareArrayReads(f.literals, Suffix(f.member), f.style);
    BracketedEnds(left + [EQUALS, ANY], operand, [], OPEN, CLOSE);
    assert tokens == (left + [EQUALS, ANY]) + [OPEN] + operand + [CLOSE] + [];
    assert tokens[|left| + 3..|tokens| - 1] == operand;
    LeftIsNotDeclared(f.column, f.left, rest);
    StripKeeps(tokens);
    MembersAreCast(f.literals, f.member);
    MembersReadBack(f.literals, Suffix(f.member));
  }

  lemma LeftIsNotDeclared(column: string, left: LeftStyle, rest: seq<Token>)
    requires |rest| >= 4 && rest[0] == EQUALS
    ensures var tokens := PrintLeft(column, left) + rest;
            !Wrapped(tokens) && DeclaredCandidate(tokens).None?
  {
    hide GroupEnd, Run;
    var tokens := PrintLeft(column, left) + rest;
    if left == ParenthesizedCast {
      RunSkips([Name(column)], 0, OPEN, CLOSE);
      BracketedEnds([], [Name(column)], TEXT_CAST + rest, OPEN, CLOSE);
      assert tokens == [] + [OPEN] + [Name(column)] + [CLOSE] + (TEXT_CAST + rest);
    }
  }

  function CastText(member: MemberStyle): string {
    match member
    case AsText => "text"
    case AsVarchar => "character varying"
    case AsVarcharText => "character varying::text"
  }

  lemma MembersAreCast(literals: seq<string>, member: MemberStyle)
    ensures AllCast(Members(literals, Suffix(member)), CastText(member))
    ensures literals != [] ==> forall m :: m != member ==> !AllCast(Members(literals, Suffix(member)), CastText(m))
  {
    var members := Members(literals, Suffix(member));
    forall i | 0 <= i < |members|
      ensures MemberCast(members[i]) == Some(CastText(member))
    {
      assert members[i][1..] == Suffix(member);
    }
    CastTextsDiffer();
    if literals != [] {
      assert MemberCast(members[0]) == Some(CastText(member));
    }
  }

  lemma CastTextsDiffer()
    ensures forall a, b :: CastText(a) == CastText(b) ==> a == b
  {
    assert |"text"| == 4 && |"character varying"| == 17 && |"character varying::text"| == 23;
  }

  /* ---------- Everything parsed is a printed form ---------- */

  lemma DeclaredIsPrinted(tokens: seq<Token>) returns (f: Form)
    requires DeclaredCandidate(tokens).Some?
    ensures f.InList? && Accepted(f) && PrintForm(f) == tokens && Some(CandidateOf(f)) == DeclaredCandidate(tokens)
  {
    hide Split, GroupEnd, Join, Run;
    var end := |tokens| - 1;
    GroupEndsWhereBalanced(tokens, 2, OPEN, CLOSE, end);
    var parts := Split(tokens[3..end]).value;
    SplitIsJoinInverse(tokens[3..end], parts);
    f := InList(tokens[0].text, FirstTexts(parts));
    assert Members(f.literals, []) == parts by {
      forall i | 0 <= i < |parts| ensures parts[i] == Members(f.literals, [])[i] {
        assert IsPlainLiteral(parts[i]);
      }
    }
    assert tokens == [tokens[0], tokens[1], tokens[2]] + tokens[3..end] + [tokens[end]];
  }

  lemma LeftIsPrinted(tokens: seq<Token>) returns (left: LeftStyle)
    requires LeftSide(tokens).Some?
    ensures var side := LeftSide(tokens).value;
            PrintLeft(side.column, left) == tokens[..side.end] && side.cast == (left != Bare)
  {
    hide GroupEnd, Run;
    var side := LeftSide(tokens).value;
    if tokens[0] == OPEN {
      GroupEndsWhereBalanced(tokens, 0, OPEN, CLOSE, 2);
      assert tokens[..5] == [tokens[0], tokens[1], tokens[2]] + tokens[3..5];
      left := ParenthesizedCast;
    } else if side.cast {
      assert tokens[..3] == [tokens[0]] + tokens[1..3];
      left := Cast;
    } else {
      left := Bare;
    }
  }

  lemma BareArrayIsPrinted(tokens: seq<Token>, cast: bool)
    requires BareArray(tokens, cast).Some?
    ensures var operand := BareArray(tokens, cast).value;
            operand.members != [] && (forall p :: p in operand.members ==> IsPart(p))
            && tokens == PrintArray(if operand.cast && !cast then CastArray else Plain, operand.members)
            && (cast ==> operand.cast)
  {
    hide Split, GroupEnd, Join, Run, PartRun;
    var end := GroupEnd(tokens, 1, LEFT, RIGHT).value;
    GroupEndsWhereBalanced(tokens, 1, LEFT, RIGHT, end);
    SplitIsJoinInverse(tokens[2..end], Split(tokens[2..end]).value);
    assert tokens == tokens[..2] + tokens[2..end] + [tokens[end]] + tokens[end + 1..];
    assert tokens[..2] + tokens[2..end] + [tokens[end]] + [] == tokens[..2] + tokens[2..end] + [tokens[end]];
  }

  lemma ArrayIsPrinted(tokens: seq<Token>) returns (style: ArrayStyle)
    requires ArrayOperand(tokens).Some?
    ensures var operand := ArrayOperand(tokens).value;
            operand.members != [] && tokens == PrintArray(style, operand.members) && operand.cast == (style != Plain)
  {
    hide BareArray, GroupEnd, Join, Run, PartRun;
    var operand := ArrayOperand(tokens).value;
    if tokens != [] && tokens[0] == OPEN {
      var end := GroupEnd(tokens, 0, OPEN, CLOSE).value;
      GroupEndsWhereBalanced(tokens, 0, OPEN, CLOSE, end);
      BareArrayIsPrinted(tokens[1..end], true);
      assert tokens == [tokens[0]] + tokens[1..end] + [tokens[end]] + tokens[end + 1..];
      style := CastParenthesized;
    } else {
      BareArrayIsPrinted(tokens, false);
      style := if operand.cast then CastArray else Plain;
    }
  }

  lemma {:induction false} PartsKeepWords(parts: seq<seq<Token>>)
    requires parts != [] && WordsAreWords(Join(parts))
    ensures forall i :: 0 <= i < |parts| ==> WordsAreWords(parts[i])
  {
    if |parts| > 1 {
      var rest := Join(parts[1..]);
      assert forall t :: t in parts[0] ==> t in Join(parts);
      assert forall t :: t in rest ==> t in Join(parts);
      PartsKeepWords(parts[1..]);
      assert forall i :: 1 <= i < |parts| ==> parts[i] == parts[1..][i - 1];
    }
  }

  lemma MemberIsPrinted(part: seq<Token>, member: MemberStyle)
    requires part != [] && MemberCast(part) == Some(CastText(member)) && WordsAreWords(part)
    ensures part == [Token(StringLiteral, part[0].text)] + Suffix(member)
  {
    CastTextsDiffer();
    assert "character varying"[9] == ' ' && "character varying::text"[9] == ' ';
    if |part| == 3 && part[1] == CAST && part[2].kind == Word {
      assert part[2] in part;
    }
    assert part == [part[0]] + part[1..];
  }

  lemma MembersArePrinted(members: seq<seq<Token>>, member: MemberStyle)
    requires AllCast(members, CastText(member))
    requires forall i :: 0 <= i < |members| ==> WordsAreWords(members[i])
    ensures members == Members(FirstTexts(members), Suffix(member))
  {
    hide MemberCast;
    forall i | 0 <= i < |members| ensures members[i] == Members(FirstTexts(members), Suffix(member))[i] {
      MemberIsPrinted(members[i], member);
    }
  }

  lemma ArrayKeepsWords(style: ArrayStyle, members: seq<seq<Token>>)
    requires members != [] && WordsAreWords(PrintArray(style, members))
    ensures forall i :: 0 <= i < |members| ==> WordsAreWords(members[i])
  {
    var bare := [ARRAY, LEFT] + Join(members) + [RIGHT];
    assert forall t :: t in Join(members) ==> t in bare;
    assert forall t :: t in bare ==> t in PrintArray(style, members);
    PartsKeepWords(members);
  }

  /** Both sides of an `= ANY` check, and that the check is nothing but these. */
  lemma AnyIsAssembled(tokens: seq<Token>) returns (side: Side, left: LeftStyle, style: ArrayStyle, operand: Operand)
    requires AnyCandidate(tokens).Some? && WordsAreWords(tokens)
    ensures AnyCandidate(tokens) == Shape(side, operand) && operand.members != []
    ensures tokens == PrintLeft(side.column, left) + [EQUALS, ANY, OPEN] + PrintArray(style, operand.members) + [CLOSE]
    ensures side.cast == (left != Bare) && operand.cast == (style != Plain)
    ensures forall i :: 0 <= i < |operand.members| ==> WordsAreWords(operand.members[i])
  {
    hide GroupEnd, LeftSide, ArrayOperand, PrintLeft, PrintArray, Run, Shape;
    side := LeftSide(tokens).value;
    left := LeftIsPrinted(tokens);
    var start, end := side.end + 2, |tokens| - 1;
    GroupEndsWhereBalanced(tokens, start, OPEN, CLOSE, end);
    var inner := tokens[start + 1..end];
    operand := ArrayOperand(inner).value;
    style := ArrayIsPrinted(inner);
    assert forall t :: t in inner ==> t in tokens;
    ArrayKeepsWords(style, operand.members);
    Reassemble(tokens, side.end);
  }

  lemma AnyIsPrinted(tokens: seq<Token>) returns (f: Form)
    requires AnyCandidate(tokens).Some? && WordsAreWords(tokens)
    ensures f.AnyArray? && Accepted(f) && PrintForm(f) == tokens && Some(CandidateOf(f)) == AnyCandidate(tokens)
  {
    hide AnyCandidate, PrintLeft, PrintArray, AllCast, Members, Suffix, WordsAreWords, FirstTexts;
    var side, left, style, operand := AnyIsAssembled(tokens);
    var members := operand.members;
    var member :=
      if AllCast(members, "text") then AsText
      else if AllCast(members, "character varying") then AsVarchar
      else AsVarcharText;
    OneCastOnly(members);
    MembersArePrinted(members, member);
    FirstTextsAreMany(members, CastText(member));
    f := AnyArray(side.column, left, style, member, FirstTexts(members));
  }

  lemma FirstTextsAreMany(members: seq<seq<Token>>, cast: string)
    requires members != [] && AllCast(members, cast)
    ensures (forall i :: 0 <= i < |members| ==> members[i] != []) && FirstTexts(members) != []
  {
  }

  lemma Reassemble(tokens: seq<Token>, at: nat)
    requires HasAt(tokens, at, [EQUALS, ANY]) && at + 2 < |tokens| - 1
    requires tokens[at + 2] == OPEN && tokens[|tokens| - 1] == CLOSE
    ensures tokens == tokens[..at] + [EQUALS, ANY, OPEN] + tokens[at + 3..|tokens| - 1] + [CLOSE]
  {
    assert tokens[at..at + 3] == tokens[at..at + 2] + [tokens[at + 2]];
    assert tokens == tokens[..at] + tokens[at..at + 3] + tokens[at + 3..|tokens| - 1] + [tokens[|tokens| - 1]];
  }

  lemma OneCastOnly(members: seq<seq<Token>>)
    requires members != []
    ensures AllCast(members, "text") ==> !AllCast(members, "character varying") && !AllCast(members, "character varying::text")
    ensures AllCast(members, "character varying") ==> !AllCast(members, "character varying::text")
  {
    CastTextsDiffer();
    assert members[0] == [] || MemberCast(members[0]) == MemberCast(members[0]);
  }

  /** `f` is how the tokens, without their outer parentheses, spell candidate `c`. */
  ghost predicate Spells(f: Form, tokens: seq<Token>, c: Candidate) {
    Accepted(f) && PrintForm(f) == Strip(tokens) && CandidateOf(f) == c
  }

  /** The parser accepts exactly the printed forms, inside any number of outer parentheses. */
  lemma ParserIsPrinterInverse(tokens: seq<Token>, c: Candidate)
    requires WordsAreWords(tokens)
    ensures StringInCandidate(tokens) == Some(c) <==> exists f :: Spells(f, tokens, c)
  {
    hide DeclaredCandidate, AnyCandidate, Strip, PrintForm;
    var core := Strip(tokens);
    if StringInCandidate(tokens) == Some(c) {
      StripKeepsWords(tokens);
      var f;
      if DeclaredCandidate(core).Some? {
        f := DeclaredIsPrinted(core);
      } else {
        f := AnyIsPrinted(core);
      }
      assert Spells(f, tokens, c);
    }
    if exists f :: Spells(f, tokens, c) {
      var f :| Spells(f, tokens, c);
      if f.InList? { InListParses(f); } else { AnyArrayParses(f); }
    }
  }

  lemma {:induction false} StripKeepsWords(tokens: seq<Token>)
    requires WordsAreWords(tokens)
    ensures WordsAreWords(Strip(tokens))
    decreases |tokens|
  {
    if Wrapped(tokens) {
      var inner := tokens[1..|tokens| - 1];
      assert forall t :: t in inner ==> t in tokens;
      StripKeepsWords(inner);
    }
  }
}
