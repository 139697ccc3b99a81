/**
 Exactly which CHECKs the comparator takes for equivalent, and which column types it takes
 for text and for varchar.
 */
module EquivalenceLaws {
  import opened CheckLexer
  import CheckLexerLaws
  import opened CheckGrammar
  import opened CheckMeaning
  import opened CheckEquivalence
  import opened Formats
  import opened Wrappers

  /* ---------- Column types ---------- */

  /** A word of a type name: no white space in it. */
  predicate IsChunk(s: string) {
    s != "" && forall k :: 0 <= k < |s| ==> !IsSpace(s[k])
  }

  predicate AreChunks(chunks: seq<string>) {
    forall i :: 0 <= i < |chunks| ==> IsChunk(chunks[i])
  }

  /** White space before every chunk; between two chunks there must be some. */
  predicate AreGaps(gaps: seq<string>) {
    forall i :: 0 <= i < |gaps| ==> AllSpace(gaps[i]) && (i > 0 ==> gaps[i] != "")
  }

  function Spread(chunks: seq<string>, gaps: seq<string>): string
    requires |chunks| == |gaps|
  {
    if chunks == [] then "" else gaps[0] + chunks[0] + Spread(chunks[1..], gaps[1..])
  }

  function Upper(s: string): (r: string)
    ensures |r| == |s|
  {
    seq(|s|, i requires 0 <= i < |s| => if 'a' <= s[i] <= 'z' then (s[i] as int - 32) as char else s[i])
  }

  /** The chunks in capitals with one space between neighbours; one in front if some came before. */
  function Squeezed(chunks: seq<string>, started: bool): string {
    if chunks == [] then "" else (if started then " " else "") + Upper(chunks[0]) + Squeezed(chunks[1..], true)
  }

  lemma {:induction false} SpacesVanish(gap: string, rest: string, pending: bool, started: bool)
    requires AllSpace(gap) && (pending ==> started)
    ensures Normalized(gap + rest, pending, started) == Normalized(rest, pending || (started && gap != ""), started)
  {
    if gap == "" {
      assert gap + rest == rest;
    } else {
      assert (gap + rest)[1..] == gap[1..] + rest;
      assert AllSpace(gap[1..]);
      SpacesVanish(gap[1..], rest, started, started);
    }
  }

  lemma {:induction false} ChunkStays(chunk: string, rest: string, pending: bool, started: bool)
    requires IsChunk(chunk)
    ensures Normalized(chunk + rest, pending, started) == (if pending then " " else "") + Upper(chunk) + Normalized(rest, false, true)
  {
    hide Upper;
    var tail := chunk[1..];
    assert (chunk + rest)[1..] == tail + rest;
    UpperStep(chunk);
    if tail == "" {
      assert tail + rest == rest;
    } else {
      assert forall k :: 0 <= k < |tail| ==> tail[k] == chunk[k + 1];
      ChunkStays(tail, rest, false, true);
    }
  }

  lemma UpperStep(s: string)
    requires s != ""
    ensures Upper(s) == [UpperChar(s[0])] + Upper(s[1..]) && Upper("") == ""
  {
  }

  lemma {:induction false} SpreadIsSqueezed(chunks: seq<string>, gaps: seq<string>, end: string, started: bool)
    requires |chunks| == |gaps| && AreChunks(chunks) && AllSpace(end)
    requires forall i :: 0 <= i < |gaps| ==> AllSpace(gaps[i]) && (i > 0 || started ==> gaps[i] != "")
    ensures Normalized(Spread(chunks, gaps) + end, false, started) == Squeezed(chunks, started)
  {
    hide Normalized, IsChunk;
    if chunks == [] {
      assert "" + end == end && end + "" == end;
      SpacesVanish(end, "", false, started);
      NothingLeft(started);
    } else {
      var rest := Spread(chunks[1..], gaps[1..]) + end;
      assert Spread(chunks, gaps) + end == gaps[0] + (chunks[0] + rest);
      SpacesVanish(gaps[0], chunks[0] + rest, false, started);
      ChunkStays(chunks[0], rest, started, started);
      if !started {
        ChunkStays(chunks[0], rest, false, started);
      }
      SpreadIsSqueezed(chunks[1..], gaps[1..], end, true);
    }
  }

  lemma NothingLeft(started: bool)
    ensures Normalized("", started, started) == "" && Normalized("", false, started) == ""
  {
  }

  /** The text is the chunks with the white space before them and at the end. */
  predicate IsSpread(s: string, chunks: seq<string>, gaps: seq<string>, end: string) {
    |chunks| == |gaps| && AreChunks(chunks) && AreGaps(gaps) && AllSpace(end) && s == Spread(chunks, gaps) + end
  }

  /** Every type name is chunks with white space around them. */
  lemma {:induction false} EveryNameIsSpread(s: string) returns (chunks: seq<string>, gaps: seq<string>, end: string)
    ensures IsSpread(s, chunks, gaps, end)
    decreases |s|
  {
    hide IsSpread, IsChunk, AllSpace, Leading;
    var a := Leading(s, 0, true);
    var b := Leading(s, a, false);
    if a == b {
      chunks, gaps, end := [], [], s;
      AllSpaceIs(s, |s|);
      assert s[..|s|] == s;
      NothingIsSpread(s);
    } else {
      var c, g, e := EveryNameIsSpread(s[b..]);
      chunks, gaps, end := [s[a..b]] + c, [s[..a]] + g, e;
      AllSpaceIs(s, a);
      ChunkIs(s, a, b);
      ChunkInFront(s, a, b, c, g, e);
    }
  }

  lemma NothingIsSpread(s: string)
    requires AllSpace(s)
    ensures IsSpread(s, [], [], s)
  {
    assert "" + s == s;
  }

  lemma ChunkInFront(s: string, a: nat, b: nat, c: seq<string>, g: seq<string>, e: string)
    requires a < b <= |s| && IsSpread(s[b..], c, g, e) && (b < |s| ==> IsSpace(s[b]))
    requires AllSpace(s[..a]) && IsChunk(s[a..b])
    ensures IsSpread(s, [s[a..b]] + c, [s[..a]] + g, e)
  {
    hide IsChunk, AllSpace, AreChunks, AreGaps;
    GapIsSome(s, b, c, g, e);
    FrontFits(s[a..b], s[..a], c, g);
    SpreadStep(s[a..b], s[..a], c, g);
    assert s == s[..a] + s[a..b] + s[b..];
  }

  lemma SpreadStep(chunk: string, gap: string, c: seq<string>, g: seq<string>)
    requires |c| == |g|
    ensures Spread([chunk] + c, [gap] + g) == gap + chunk + Spread(c, g)
  {
    assert ([chunk] + c)[1..] == c && ([gap] + g)[1..] == g;
  }

  lemma FrontFits(chunk: string, gap: string, c: seq<string>, g: seq<string>)
    requires AreChunks(c) && AreGaps(g) && AllSpace(gap) && IsChunk(chunk) && (g != [] ==> g[0] != "")
    ensures AreChunks([chunk] + c) && AreGaps([gap] + g)
  {
    hide IsChunk, AllSpace;
  }

  /** Where the white space, or else the chunk, that starts at `from` ends. */
  function Leading(s: string, from: nat, space: bool): (to: nat)
    requires from <= |s|
    ensures from <= to <= |s| && (to < |s| ==> IsSpace(s[to]) != space)
    ensures forall k :: from <= k < to ==> IsSpace(s[k]) == space
    decreases |s| - from
  {
    if from < |s| && IsSpace(s[from]) == space then Leading(s, from + 1, space) else from
  }

  lemma GapIsSome(s: string, b: nat, chunks: seq<string>, gaps: seq<string>, end: string)
    requires b <= |s| && IsSpread(s[b..], chunks, gaps, end) && (b < |s| ==> IsSpace(s[b]))
    ensures gaps != [] ==> gaps[0] != ""
  {
    hide IsSpread;
    if gaps != [] && gaps[0] == "" {
      StartsWithChunk(s[b..], chunks, gaps, end);
    }
  }

  lemma StartsWithChunk(s: string, chunks: seq<string>, gaps: seq<string>, end: string)
    requires IsSpread(s, chunks, gaps, end) && gaps != [] && gaps[0] == ""
    ensures s != "" && !IsSpace(s[0])
  {
    assert IsChunk(chunks[0]);
    assert s[0] == chunks[0][0];
  }

  lemma AllSpaceIs(s: string, a: nat)
    requires a <= |s| && forall k :: 0 <= k < a ==> IsSpace(s[k])
    ensures AllSpace(s[..a])
  {
  }

  lemma ChunkIs(s: string, a: nat, b: nat)
    requires a < b <= |s| && forall k :: a <= k < b ==> !IsSpace(s[k])
    ensures IsChunk(s[a..b])
  {
  }

  /** Nothing, or a number in parentheses, with white space anywhere between them. */
  predicate IsLength(s: string) {
    || s == ""
    || exists i, j, k :: 0 <= i < j < k < |s| && IsLengthAt(s, i, j, k)
  }

  predicate IsLengthAt(s: string, i: int, j: int, k: int)
    requires 0 <= i < j < k < |s|
  {
    && AllSpace(s[..i]) && s[i] == '(' && AllSpace(s[i + 1..j]) && (forall n :: j <= n < k ==> '0' <= s[n] <= '9')
    && AllSpace(s[k..|s| - 1]) && s[|s| - 1] == ')'
  }

  lemma {:induction false} SkipIs(s: string, n: nat)
    requires n <= |s| && AllSpace(s[..n]) && (n == |s| || !IsSpace(s[n]))
    ensures SkipSpaces(s) == s[n..]
  {
    if n > 0 {
      assert s[..n][0] == s[0];
      assert s[1..][..n - 1] == s[..n][1..];
      SkipIs(s[1..], n - 1);
      assert s[1..][n - 1..] == s[n..];
    } else {
      assert s[0..] == s;
    }
  }

  lemma SkipsSome(s: string) returns (n: nat)
    ensures n <= |s| && AllSpace(s[..n]) && (n == |s| || !IsSpace(s[n])) && SkipSpaces(s) == s[n..]
  {
    n := Leading(s, 0, true);
    assert forall k :: 0 <= k < n ==> s[..n][k] == s[k];
    SkipIs(s, n);
  }

  lemma DigitsEnd(s: string, n: nat)
    requires n <= |s|
    ensures DigitsLength(s) == n <==> (forall k :: 0 <= k < n ==> IsDigit(s[k])) && (n == |s| || !IsDigit(s[n]))
  {
    CheckLexerLaws.DigitsRun(s, n);
  }

  /** The test of the length in a type name. */
  lemma LengthExactly(s: string)
    ensures IsLengthSuffix(s) <==> IsLength(s)
  {
    if IsLengthSuffix(s) {
      LengthIsRead(s);
    }
    if s != "" && IsLength(s) {
      var i, j, k :| 0 <= i < j < k < |s| && IsLengthAt(s, i, j, k);
      LengthIsFound(s, i, j, k);
    }
  }

  lemma SkipsInside(s: string, from: nat, to: nat)
    requires from <= to <= |s| && AllSpace(s[from..to]) && (to == |s| || !IsSpace(s[to]))
    ensures SkipSpaces(s[from..]) == s[to..]
  {
    hide SkipSpaces, AllSpace;
    assert s[from..][..to - from] == s[from..to];
    SkipIs(s[from..], to - from);
    assert s[from..][to - from..] == s[to..];
  }

  lemma DigitsInside(s: string, from: nat, to: nat)
    requires from <= to < |s| && (forall n :: from <= n < to ==> IsDigit(s[n])) && !IsDigit(s[to])
    ensures DigitsLength(s[from..]) == to - from && s[from..][to - from..] == s[to..]
  {
    hide DigitsLength;
    DigitsEnd(s[from..], to - from);
  }

  lemma LengthIsFound(s: string, i: nat, j: nat, k: nat)
    requires i < j < k < |s| && IsLengthAt(s, i, j, k)
    ensures IsLengthSuffix(s)
  {
    hide SkipSpaces, DigitsLength, AllSpace;
    SpacesEnd(s, k);
    assert s[0..] == s && s[0..i] == s[..i];
    SkipsInside(s, 0, i);
    assert s[i..][1..] == s[i + 1..];
    SkipsInside(s, i + 1, j);
    DigitsInside(s, j, k);
    SkipsInside(s, k, |s| - 1);
    assert s[|s| - 1..] == ")";
  }

  lemma SpacesEnd(s: string, k: nat)
    requires k < |s| && AllSpace(s[k..|s| - 1]) && s[|s| - 1] == ')'
    ensures !IsDigit(s[k])
  {
    assert k == |s| - 1 || s[k] == s[k..|s| - 1][0];
  }

  lemma LengthIsRead(s: string)
    requires IsLengthSuffix(s)
    ensures IsLength(s)
  {
    hide SkipSpaces, DigitsLength, IsLength, AllSpace;
    if s == "" {
      EmptyIsLength();
    } else {
      var i := SkipsSome(s);
      var inner := s[i..][1..];
      var a := SkipsSome(inner);
      var digits := inner[a..];
      var n := DigitsLength(digits);
      DigitsEnd(digits, n);
      var rest := digits[n..];
      var b := SkipsSome(rest);
      assert rest[b..] == ")";
      LengthIsAssembled(s, i, inner, a, digits, n, rest, b);
    }
  }

  lemma EmptyIsLength()
    ensures IsLength("")
  {
  }

  lemma LengthIsAssembled(s: string, i: nat, inner: string, a: nat, digits: string, n: nat, rest: string, b: nat)
    requires i < |s| && AllSpace(s[..i]) && s[i] == '(' && inner == s[i..][1..]
    requires a <= |inner| && AllSpace(inner[..a]) && digits == inner[a..]
    requires 0 < n <= |digits| && (forall k :: 0 <= k < n ==> IsDigit(digits[k])) && rest == digits[n..]
    requires b <= |rest| && AllSpace(rest[..b]) && rest[b..] == ")"
    ensures IsLength(s)
  {
    hide AllSpace;
    var j, k := i + 1 + a, i + 1 + a + n;
    assert digits == s[j..] && rest == s[k..];
    assert s[|s| - 1] == rest[b];
    assert s[k..|s| - 1] == rest[..b] && s[i + 1..j] == inner[..a];
    assert forall m :: j <= m < k ==> s[m] == digits[m - j];
    assert IsLengthAt(s, i, j, k);
  }

  predicate IsVarchar(name: string) {
    || ("VARCHAR" <= name && IsLength(name[7..]))
    || ("CHARACTER VARYING" <= name && IsLength(name[17..]))
  }

  /** Which family a column type is of, whatever its case and white space. */
  lemma FamilyExactly(sqlType: string, chunks: seq<string>, gaps: seq<string>, end: string)
    requires IsSpread(sqlType, chunks, gaps, end)
    ensures var name := Squeezed(chunks, false);
            TypeFamily(sqlType) ==
              if name == "TEXT" then Some(TextFamily) else if IsVarchar(name) then Some(VarcharFamily) else None
  {
    hide IsLengthSuffix, IsLength, Normalized, Spread, Squeezed;
    SpreadIsSqueezed(chunks, gaps, end, false);
    var name := Squeezed(chunks, false);
    if "VARCHAR" <= name {
      LengthExactly(name[7..]);
    }
    if "CHARACTER VARYING" <= name {
      LengthExactly(name[17..]);
    }
  }

  /* ---------- Equivalent CHECKs ---------- */

  /** How PostgreSQL prints an IN list on a column of the family. */
  predicate IsDeparsed(f: Form, family: Family) {
    f.AnyArray? &&
    match family
    case TextFamily => f.left == Bare && f.style == Plain && f.member == AsText
    case VarcharFamily =>
      && f.left in {Cast, ParenthesizedCast}
      && ((f.style in {CastArray, CastParenthesized} && f.member == AsVarchar) || (f.style == Plain && f.member == AsVarcharText))
  }

  /** A plain IN list of quoted texts. */
  predicate IsDeclared(f: Form) {
    f.InList? && f.literals != [] && forall i :: 0 <= i < |f.literals| ==> f.literals[i] != "" && f.literals[i][0] == '\''
  }

  predicate Prints(f: Form, tokens: seq<Token>) {
    f.literals != [] && PrintForm(f) == tokens
  }

  /** One CHECK is an IN list, the other the printing of the same list for the family of the column on both sides. */
  ghost predicate AreSameList(
    declared: seq<Token>, deparsed: seq<Token>, expectedTypes: map<string, string>, actualTypes: map<string, string>)
  {
    exists e: Form, a: Form, family ::
      && Prints(e, declared) && Prints(a, deparsed) && IsDeclared(e) && IsDeparsed(a, family)
      && e.column == a.column && e.literals == a.literals
      && TypeIn(e.column, expectedTypes) == Some(family) && TypeIn(e.column, actualTypes) == Some(family)
  }

  lemma AcceptedExactly(f: Form)
    ensures Accepted(f) <==> f.literals != [] && (IsDeclared(f) || IsDeparsed(f, TextFamily) || IsDeparsed(f, VarcharFamily))
    ensures Accepted(f) && f.AnyArray? ==> IsDeparsed(f, CandidateOf(f).family)
    ensures f.literals != [] ==> forall family :: IsDeparsed(f, family) ==> Accepted(f) && CandidateOf(f).family == family
  {
  }

  /** The candidate of tokens without outer parentheses. */
  lemma CandidateExactly(tokens: seq<Token>, c: Candidate)
    requires WordsAreWords(tokens) && Strip(tokens) == tokens
    ensures StringInCandidate(tokens) == Some(c) <==> exists f :: Accepted(f) && Prints(f, tokens) && CandidateOf(f) == c
  {
    hide StringInCandidate, PrintForm, Strip, WordsAreWords, Accepted;
    ParserIsPrinterInverse(tokens, c);
    if StringInCandidate(tokens) == Some(c) {
      var f :| Spells(f, tokens, c);
      AcceptedExactly(f);
    }
    if f :| Accepted(f) && Prints(f, tokens) && CandidateOf(f) == c {
      assert Spells(f, tokens, c);
    }
  }

  /** The comparator's test on the candidates of a declared and of a deparsed list. */
  lemma SameListExactly(
    declared: seq<Token>, deparsed: seq<Token>, ec: Candidate, ac: Candidate,
    expectedTypes: map<string, string>, actualTypes: map<string, string>)
    requires WordsAreWords(declared) && Strip(declared) == declared && WordsAreWords(deparsed) && Strip(deparsed) == deparsed
    requires StringInCandidate(declared) == Some(ec) && StringInCandidate(deparsed) == Some(ac)
    ensures AreSameList(declared, deparsed, expectedTypes, actualTypes) <==>
              && ec.DeclaredIn? && ac.PostgresAny? && ec.column == ac.column && ec.literals == ac.literals
              && ColumnFamily(ec.column, expectedTypes, actualTypes) == Some(ac.family)
  {
    hide StringInCandidate, Strip, WordsAreWords, AreSameList, ColumnFamily;
    if AreSameList(declared, deparsed, expectedTypes, actualTypes) {
      SameListsAgree(declared, deparsed, ec, ac, expectedTypes, actualTypes);
    }
    if && ec.DeclaredIn? && ac.PostgresAny? && ec.column == ac.column && ec.literals == ac.literals
       && ColumnFamily(ec.column, expectedTypes, actualTypes) == Some(ac.family) {
      AgreeingAreSameList(declared, deparsed, ec, ac, expectedTypes, actualTypes);
    }
  }

  lemma AgreeingAreSameList(
    declared: seq<Token>, deparsed: seq<Token>, ec: Candidate, ac: Candidate,
    expectedTypes: map<string, string>, actualTypes: map<string, string>)
    requires WordsAreWords(declared) && Strip(declared) == declared && WordsAreWords(deparsed) && Strip(deparsed) == deparsed
    requires StringInCandidate(declared) == Some(ec) && StringInCandidate(deparsed) == Some(ac)
    requires && ec.DeclaredIn? && ac.PostgresAny? && ec.column == ac.column && ec.literals == ac.literals
             && ColumnFamily(ec.column, expectedTypes, actualTypes) == Some(ac.family)
    ensures AreSameList(declared, deparsed, expectedTypes, actualTypes)
  {
    hide StringInCandidate, PrintForm, Strip, WordsAreWords, Accepted, TypeFamily, IsDeclared, IsDeparsed;
    CandidateExactly(declared, ec);
    CandidateExactly(deparsed, ac);
    var e: Form :| Accepted(e) && Prints(e, declared) && CandidateOf(e) == ec;
    var a: Form :| Accepted(a) && Prints(a, deparsed) && CandidateOf(a) == ac;
    AcceptedExactly(a);
    FormKinds(e);
  }

  lemma SameListsAgree(
    declared: seq<Token>, deparsed: seq<Token>, ec: Candidate, ac: Candidate,
    expectedTypes: map<string, string>, actualTypes: map<string, string>)
    requires WordsAreWords(declared) && Strip(declared) == declared && WordsAreWords(deparsed) && Strip(deparsed) == deparsed
    requires StringInCandidate(declared) == Some(ec) && StringInCandidate(deparsed) == Some(ac)
    requires AreSameList(declared, deparsed, expectedTypes, actualTypes)
    ensures ec.DeclaredIn? && ac.PostgresAny? && ec.column == ac.column && ec.literals == ac.literals
    ensures ColumnFamily(ec.column, expectedTypes, actualTypes) == Some(ac.family)
  {
    hide StringInCandidate, PrintForm, Strip, WordsAreWords, Accepted, TypeFamily, IsDeclared, IsDeparsed;
    var f: Form, g: Form, family :|
      && Prints(f, declared) && Prints(g, deparsed) && IsDeclared(f) && IsDeparsed(g, family)
      && f.column == g.column && f.literals == g.literals
      && TypeIn(f.column, expectedTypes) == Some(family) && TypeIn(f.column, actualTypes) == Some(family);
    AcceptedExactly(f);
    AcceptedExactly(g);
    FormKinds(f);
    FormKinds(g);
    CandidateExactly(declared, CandidateOf(f));
    CandidateExactly(deparsed, CandidateOf(g));
  }

  lemma FormKinds(f: Form)
    ensures IsDeclared(f) ==> f.InList?
    ensures forall family :: IsDeparsed(f, family) ==> f.AnyArray?
    ensures Accepted(f) && f.InList? ==> IsDeclared(f)
  {
  }

  /**
   Two canonical CHECKs are found equivalent exactly when one is an IN list and the other is
   how the same list is printed for the family that the column has on both sides.
   */
  lemma EquivalentExactly(
    expected: Canonical, actual: Canonical, expectedTypes: map<string, string>, actualTypes: map<string, string>)
    requires expected.Tokens? ==> WordsAreWords(expected.tokens) && Strip(expected.tokens) == expected.tokens
    requires actual.Tokens? ==> WordsAreWords(actual.tokens) && Strip(actual.tokens) == actual.tokens
    ensures ChecksEquivalent(expected, actual, expectedTypes, actualTypes) <==>
              && expected.Tokens? && actual.Tokens?
              && (AreSameList(expected.tokens, actual.tokens, expectedTypes, actualTypes)
                  || AreSameList(actual.tokens, expected.tokens, expectedTypes, actualTypes))
  {
    hide StringInCandidate, PrintForm, Strip, WordsAreWords, Accepted, TypeFamily, IsDeclared, IsDeparsed, AreSameList, ColumnFamily;
    if expected.Tokens? && actual.Tokens? {
      var x, y := StringInCandidate(expected.tokens), StringInCandidate(actual.tokens);
      if x.Some? && y.Some? {
        SameListExactly(expected.tokens, actual.tokens, x.value, y.value, expectedTypes, actualTypes);
        SameListExactly(actual.tokens, expected.tokens, y.value, x.value, expectedTypes, actualTypes);
      } else {
        ListsAreCandidates(expected.tokens, actual.tokens, expectedTypes, actualTypes);
        ListsAreCandidates(actual.tokens, expected.tokens, expectedTypes, actualTypes);
      }
    }
  }

  lemma ListsAreCandidates(
    declared: seq<Token>, deparsed: seq<Token>, expectedTypes: map<string, string>, actualTypes: map<string, string>)
    requires WordsAreWords(declared) && Strip(declared) == declared && WordsAreWords(deparsed) && Strip(deparsed) == deparsed
    ensures AreSameList(declared, deparsed, expectedTypes, actualTypes) ==>
              StringInCandidate(declared).Some? && StringInCandidate(deparsed).Some?
  {
    hide StringInCandidate, PrintForm, Strip, WordsAreWords, Accepted, TypeFamily, IsDeclared, IsDeparsed;
    if AreSameList(declared, deparsed, expectedTypes, actualTypes) {
      var f: Form, g: Form, family :|
        && Prints(f, declared) && Prints(g, deparsed) && IsDeclared(f) && IsDeparsed(g, family)
        && f.column == g.column && f.literals == g.literals
        && TypeIn(f.column, expectedTypes) == Some(family) && TypeIn(f.column, actualTypes) == Some(family);
      AcceptedExactly(f);
      AcceptedExactly(g);
      CandidateExactly(declared, CandidateOf(f));
      CandidateExactly(deparsed, CandidateOf(g));
    }
  }
}
