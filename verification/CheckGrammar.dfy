/**
 Bracket groups, comma lists and outer parentheses in a token sequence.

 Each loop of the program is proved against a recursive function, and each function is
 characterised without recursion: a group ends where the tokens between are balanced, a
 list splits into exactly the parts that join back to it, and stripping removes exactly
 the redundant outer parentheses.
 */
module CheckGrammar {
  import opened Wrappers
  import opened CheckLexer

  const OPEN := Token(Punctuation, "(")
  const CLOSE := Token(Punctuation, ")")
  const LEFT := Token(Punctuation, "[")
  const RIGHT := Token(Punctuation, "]")
  const COMMA := Token(Punctuation, ",")

  /* ---------- Groups ---------- */

  /** Position of the token that closes `depth` open groups. */
  function CloseAt(tokens: seq<Token>, depth: nat, opening: Token, closing: Token): (r: Option<nat>)
    requires depth > 0
    ensures r.Some? ==> r.value < |tokens|
  {
    if tokens == [] then None
    else if tokens[0] == opening then Shift(1, CloseAt(tokens[1..], depth + 1, opening, closing))
    else if tokens[0] == closing then
      if depth == 1 then Some(0) else Shift(1, CloseAt(tokens[1..], depth - 1, opening, closing))
    else Shift(1, CloseAt(tokens[1..], depth, opening, closing))
  }

  /** Position of the token that closes the group opened at `start`. */
  function GroupEnd(tokens: seq<Token>, start: nat, opening: Token, closing: Token): (r: Option<nat>)
    ensures r.Some? ==> start < r.value < |tokens|
  {
    if start >= |tokens| || tokens[start] != opening then None
    else Shift(start + 1, CloseAt(tokens[start + 1..], 1, opening, closing))
  }

  method MatchingGroupEnd(tokens: seq<Token>, start: nat, opening: Token, closing: Token)
    returns (end: Option<nat>)
    requires opening != closing
    ensures end == GroupEnd(tokens, start, opening, closing)
  {
    if start >= |tokens| || tokens[start] != opening {
      return None;
    }
    var depth := 0;
    for index := start to |tokens|
      invariant depth == 0 <==> index == start
      invariant depth >= 0
      invariant depth > 0 ==>
                  GroupEnd(tokens, start, opening, closing)
                  == Shift(index, CloseAt(tokens[index..], depth, opening, closing))
    {
      assert tokens[index..][1..] == tokens[index + 1..];
      if tokens[index] == opening {
        depth := depth + 1;
      } else if tokens[index] == closing {
        depth := depth - 1;
        if depth == 0 {
          return Some(index);
        }
      }
    }
    return None;
  }

  /** Depth after the tokens, or None once a closing token has nothing to close. */
  function Run(tokens: seq<Token>, depth: nat, opening: Token, closing: Token): Option<nat> {
    if tokens == [] then Some(depth)
    else if tokens[0] == opening then Run(tokens[1..], depth + 1, opening, closing)
    else if tokens[0] == closing then
      if depth == 0 then None else Run(tokens[1..], depth - 1, opening, closing)
    else Run(tokens[1..], depth, opening, closing)
  }

  predicate Balanced(tokens: seq<Token>, opening: Token, closing: Token) {
    Run(tokens, 0, opening, closing) == Some(0)
  }

  lemma {:induction false} CloseAtIsFirstUnmatched(
    tokens: seq<Token>, depth: nat, opening: Token, closing: Token, end: nat)
    requires depth > 0 && opening != closing
    ensures CloseAt(tokens, depth, opening, closing) == Some(end) <==>
            end < |tokens| && tokens[end] == closing && Run(tokens[..end], depth - 1, opening, closing) == Some(0)
  {
    if tokens != [] {
      var rest := tokens[1..];
      if end > 0 && end <= |tokens| {
        assert tokens[..end][1..] == rest[..end - 1];
      }
      if tokens[0] == opening {
        if end > 0 { CloseAtIsFirstUnmatched(rest, depth + 1, opening, closing, end - 1); }
      } else if tokens[0] == closing {
        if depth > 1 && end > 0 { CloseAtIsFirstUnmatched(rest, depth - 1, opening, closing, end - 1); }
      } else {
        if end > 0 { CloseAtIsFirstUnmatched(rest, depth, opening, closing, end - 1); }
      }
    }
  }

  /** A group ends at `end` exactly when what lies between its brackets is balanced. */
  lemma GroupEndsWhereBalanced(tokens: seq<Token>, start: nat, opening: Token, closing: Token, end: nat)
    requires opening != closing
    ensures GroupEnd(tokens, start, opening, closing) == Some(end) <==>
            start < end < |tokens| && tokens[start] == opening && tokens[end] == closing
            && Balanced(tokens[start + 1..end], opening, closing)
  {
    if start < |tokens| && start < end {
      var rest := tokens[start + 1..];
      CloseAtIsFirstUnmatched(rest, 1, opening, closing, end - start - 1);
      if end <= |tokens| {
        assert rest[..end - start - 1] == tokens[start + 1..end];
      }
    }
  }

  lemma {:induction false} RunConcat(a: seq<Token>, b: seq<Token>, depth: nat, opening: Token, closing: Token)
    ensures Run(a + b, depth, opening, closing) ==
            var middle := Run(a, depth, opening, closing);
            if middle.None? then None else Run(b, middle.value, opening, closing)
  {
    if a == [] {
      assert a + b == b;
    } else {
      assert (a + b)[1..] == a[1..] + b;
      if a[0] == opening {
        RunConcat(a[1..], b, depth + 1, opening, closing);
      } else if a[0] == closing {
        if depth > 0 { RunConcat(a[1..], b, depth - 1, opening, closing); }
      } else {
        RunConcat(a[1..], b, depth, opening, closing);
      }
    }
  }

  lemma {:induction false} RunSkips(tokens: seq<Token>, depth: nat, opening: Token, closing: Token)
    requires opening !in tokens && closing !in tokens
    ensures Run(tokens, depth, opening, closing) == Some(depth)
  {
    if tokens != [] {
      RunSkips(tokens[1..], depth, opening, closing);
    }
  }

  /* ---------- Redundant outer parentheses ---------- */

  predicate Wrapped(tokens: seq<Token>) {
    tokens != [] && tokens[0] == OPEN && GroupEnd(tokens, 0, OPEN, CLOSE) == Some(|tokens| - 1)
  }

  function Strip(tokens: seq<Token>): seq<Token> {
    if Wrapped(tokens) then Strip(tokens[1..|tokens| - 1]) else tokens
  }

  method StripOuterParentheses(tokens: seq<Token>) returns (core: seq<Token>)
    ensures core == Strip(tokens)
  {
    core := tokens;
    while core != [] && core[0] == OPEN
      invariant Strip(core) == Strip(tokens)
      decreases |core|
    {
      var end := MatchingGroupEnd(core, 0, OPEN, CLOSE);
      if end != Some(|core| - 1) {
        break;
      }
      core := core[1..|core| - 1];
    }
  }

  /** The tokens inside `layers` pairs of parentheses. */
  function Wrap(tokens: seq<Token>, layers: nat): seq<Token> {
    if layers == 0 then tokens else [OPEN] + Wrap(tokens, layers - 1) + [CLOSE]
  }

  /** Stripping leaves a core with no redundant parentheses and removes nothing but them. */
  lemma {:induction false} StripIsWrapInverse(tokens: seq<Token>) returns (layers: nat)
    ensures tokens == Wrap(Strip(tokens), layers)
    ensures !Wrapped(Strip(tokens))
    decreases |tokens|
  {
    if Wrapped(tokens) {
      var inner := tokens[1..|tokens| - 1];
      GroupEndsWhereBalanced(tokens, 0, OPEN, CLOSE, |tokens| - 1);
      layers := StripIsWrapInverse(inner);
      layers := layers + 1;
      assert tokens == [OPEN] + inner + [CLOSE];
    } else {
      layers := 0;
    }
  }

  lemma StripIsIdempotent(tokens: seq<Token>)
    ensures Strip(Strip(tokens)) == Strip(tokens)
  {
    var _ := StripIsWrapInverse(tokens);
  }

  /** Parentheses around a balanced text are redundant. */
  lemma StripIgnoresWrapping(tokens: seq<Token>)
    requires Balanced(tokens, OPEN, CLOSE)
    ensures Strip([OPEN] + tokens + [CLOSE]) == Strip(tokens)
  {
    var wrapped := [OPEN] + tokens + [CLOSE];
    assert wrapped[1..|wrapped| - 1] == tokens;
    GroupEndsWhereBalanced(wrapped, 0, OPEN, CLOSE, |wrapped| - 1);
  }

  /* ---------- Comma lists ---------- */

  /** Depths after one token: round first, square second. */
  function Deeper(t: Token, round: int, square: int): (int, int) {
    if t == OPEN then (round + 1, square)
    else if t == CLOSE then (round - 1, square)
    else if t == LEFT then (round, square + 1)
    else if t == RIGHT then (round, square - 1)
    else (round, square)
  }

  /** Splits the rest of a list whose current part has been read as `part`. */
  function SplitRun(tokens: seq<Token>, part: seq<Token>, round: nat, square: nat): Option<seq<seq<Token>>> {
    if tokens == [] then
      if round == 0 && square == 0 then Some([part]) else None
    else if tokens[0] == COMMA && round == 0 && square == 0 then
      PrependPart([part], SplitRun(tokens[1..], [], 0, 0))
    else
      var (r, s) := Deeper(tokens[0], round, square);
      if r < 0 || s < 0 then None else SplitRun(tokens[1..], part + [tokens[0]], r, s)
  }

  function PrependPart(parts: seq<seq<Token>>, rest: Option<seq<seq<Token>>>): Option<seq<seq<Token>>> {
    if rest.Some? then Some(parts + rest.value) else None
  }

  function Split(tokens: seq<Token>): Option<seq<seq<Token>>> {
    SplitRun(tokens, [], 0, 0)
  }

  method SplitCheckList(tokens: seq<Token>) returns (result: Option<seq<seq<Token>>>)
    ensures result == Split(tokens)
  {
    var parts: seq<seq<Token>> := [];
    var start := 0;
    var round, square := 0, 0;
    assert tokens[0..] == tokens;
    PrependNothing(Split(tokens));
    for index := 0 to |tokens|
      invariant 0 <= start <= index && round >= 0 && square >= 0
      invariant Split(tokens) == PrependPart(parts, SplitRun(tokens[index..], tokens[start..index], round, square))
    {
      assert tokens[index..][1..] == tokens[index + 1..];
      assert tokens[start..index] + [tokens[index]] == tokens[start..index + 1];
      if tokens[index] == COMMA && round == 0 && square == 0 {
        PrependParts(parts, tokens[start..index], SplitRun(tokens[index + 1..], [], 0, 0));
        parts := parts + [tokens[start..index]];
        start := index + 1;
        assert tokens[start..index + 1] == [];
      } else {
        var depths := Deeper(tokens[index], round, square);
        round, square := depths.0, depths.1;
        if round < 0 || square < 0 {
          return None;
        }
      }
    }
    assert tokens[|tokens|..] == [] && tokens[start..|tokens|] == tokens[start..];
    if round != 0 || square != 0 {
      return None;
    }
    return Some(parts + [tokens[start..]]);
  }

  lemma PrependNothing(rest: Option<seq<seq<Token>>>)
    ensures PrependPart([], rest) == rest
  {
    if rest.Some? {
      assert [] + rest.value == rest.value;
    }
  }

  lemma PrependParts(parts: seq<seq<Token>>, part: seq<Token>, rest: Option<seq<seq<Token>>>)
    ensures PrependPart(parts, PrependPart([part], rest)) == PrependPart(parts + [part], rest)
  {
    if rest.Some? {
      assert parts + ([part] + rest.value) == (parts + [part]) + rest.value;
    }
  }

  /** Depths after tokens that hold no separating comma; None when there is one or a bracket has no partner. */
  function PartRun(tokens: seq<Token>, round: nat, square: nat): Option<(nat, nat)> {
    if tokens == [] then Some((round, square))
    else if tokens[0] == COMMA && round == 0 && square == 0 then None
    else
      var (r, s) := Deeper(tokens[0], round, square);
      if r < 0 || s < 0 then None else PartRun(tokens[1..], r, s)
  }

  /** One member of a list: brackets matched, no comma outside them. */
  predicate IsPart(tokens: seq<Token>) {
    PartRun(tokens, 0, 0) == Some((0, 0))
  }

  function Join(parts: seq<seq<Token>>): seq<Token>
    requires parts != []
  {
    if |parts| == 1 then parts[0] else parts[0] + [COMMA] + Join(parts[1..])
  }

  lemma {:induction false} PartRunConcat(a: seq<Token>, b: seq<Token>, round: nat, square: nat)
    ensures PartRun(a + b, round, square) ==
            var middle := PartRun(a, round, square);
            if middle.None? then None else PartRun(b, middle.value.0, middle.value.1)
  {
    if a == [] {
      assert a + b == b;
    } else {
      assert (a + b)[1..] == a[1..] + b;
      var (r, s) := Deeper(a[0], round, square);
      if r >= 0 && s >= 0 {
        PartRunConcat(a[1..], b, r, s);
      }
    }
  }

  lemma PartGrows(part: seq<Token>, t: Token, round: nat, square: nat)
    requires PartRun(part, 0, 0) == Some((round, square)) && !(t == COMMA && round == 0 && square == 0)
    ensures var (r, s) := Deeper(t, round, square);
            r >= 0 && s >= 0 ==> PartRun(part + [t], 0, 0) == Some((r, s))
  {
    PartRunConcat(part, [t], 0, 0);
    assert [t][1..] == [];
  }

  lemma SplitRunStep(tokens: seq<Token>, part: seq<Token>, round: nat, square: nat)
    requires tokens != [] && SplitRun(tokens, part, round, square).Some?
    ensures tokens[0] == COMMA && round == 0 && square == 0 ==>
              var rest := SplitRun(tokens[1..], [], 0, 0);
              rest.Some? && SplitRun(tokens, part, round, square).value == [part] + rest.value
    ensures !(tokens[0] == COMMA && round == 0 && square == 0) ==>
              var (r, s) := Deeper(tokens[0], round, square);
              r >= 0 && s >= 0 && SplitRun(tokens, part, round, square) == SplitRun(tokens[1..], part + [tokens[0]], r, s)
  {
    hide Deeper;
  }

  lemma NothingSplits(part: seq<Token>, round: nat, square: nat)
    ensures SplitRun([], part, round, square) == if round == 0 && square == 0 then Some([part]) else None
  {
  }

  lemma EmptyPartRuns()
    ensures PartRun([], 0, 0) == Some((0, 0))
  {
  }

  lemma {:induction false} SplitRunJoins(tokens: seq<Token>, part: seq<Token>, round: nat, square: nat)
    requires PartRun(part, 0, 0) == Some((round, square))
    requires SplitRun(tokens, part, round, square).Some?
    ensures var parts := SplitRun(tokens, part, round, square).value;
            parts != [] && (forall p :: p in parts ==> IsPart(p)) && Join(parts) == part + tokens
    decreases |tokens|
  {
    hide Deeper, PartRun, SplitRun;
    if tokens == [] {
      NothingSplits(part, round, square);
      assert part + tokens == part;
    } else if tokens[0] == COMMA && round == 0 && square == 0 {
      EmptyPartRuns();
      SplitRunStep(tokens, part, round, square);
      SplitRunJoins(tokens[1..], [], 0, 0);
      var rest := SplitRun(tokens[1..], [], 0, 0).value;
      assert ([part] + rest)[1..] == rest;
      assert [] + tokens[1..] == tokens[1..];
      assert part + [COMMA] + tokens[1..] == part + tokens;
    } else {
      var (r, s) := Deeper(tokens[0], round, square);
      PartGrows(part, tokens[0], round, square);
      SplitRunStep(tokens, part, round, square);
      SplitRunJoins(tokens[1..], part + [tokens[0]], r, s);
      assert (part + [tokens[0]]) + tokens[1..] == part + tokens;
    }
  }

  lemma {:induction false} SplitRunReads(
    rest: seq<Token>, others: seq<seq<Token>>, part: seq<Token>, round: nat, square: nat)
    requires PartRun(rest, round, square) == Some((0, 0))
    requires forall p :: p in others ==> IsPart(p)
    ensures SplitRun(Join([rest] + others), part, round, square) == Some([part + rest] + others)
    decreases |others|, |rest|
  {
    var all := [rest] + others;
    var joined := Join(all);
    if rest == [] {
      assert part + rest == part;
      if others != [] {
        assert all[1..] == others && others == [others[0]] + others[1..];
        assert joined[1..] == Join(others);
        assert IsPart(others[0]);
        SplitRunReads(others[0], others[1..], [], 0, 0);
        assert [] + others[0] == others[0];
      } else {
        assert [part] + others == [part];
      }
    } else {
      var (r, s) := Deeper(rest[0], round, square);
      var shorter := [rest[1..]] + others;
      assert joined[0] == rest[0] && joined[1..] == Join(shorter) by {
        assert all[1..] == others && shorter[1..] == others;
      }
      SplitRunReads(rest[1..], others, part + [rest[0]], r, s);
      assert (part + [rest[0]]) + rest[1..] == part + rest;
    }
  }

  /** Splitting and joining undo each other on lists of members. */
  lemma SplitIsJoinInverse(tokens: seq<Token>, parts: seq<seq<Token>>)
    ensures Split(tokens) == Some(parts) <==>
            parts != [] && (forall p :: p in parts ==> IsPart(p)) && Join(parts) == tokens
  {
    if Split(tokens) == Some(parts) {
      SplitRunJoins(tokens, [], 0, 0);
      assert [] + tokens == tokens;
    }
    if parts != [] && (forall p :: p in parts ==> IsPart(p)) && Join(parts) == tokens {
      assert IsPart(parts[0]);
      assert [parts[0]] + parts[1..] == parts && [] + parts[0] == parts[0];
      SplitRunReads(parts[0], parts[1..], [], 0, 0);
    }
  }

  lemma {:induction false} NoPunctuationIsPart(tokens: seq<Token>, round: nat, square: nat)
    requires forall t :: t in tokens ==> t.kind != Punctuation
    ensures PartRun(tokens, round, square) == Some((round, square))
  {
    if tokens != [] {
      NoPunctuationIsPart(tokens[1..], round, square);
    }
  }
}
