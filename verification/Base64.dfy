/**
 Base64 with the URL alphabet and without padding, as admin_app/auth.py uses it
 (sections 3.2 and 5 of RFC 4648).

 Decoding is the lenient decoder of the Python library: it skips characters outside the
 alphabet, accepts both spellings of 62 and 63, and stops at a complete padding.
 */
module Base64 {
  import opened Bytes
  import opened Wrappers

  type Sextet = n: nat | n < 64

  /* ---------- Encoding ---------- */

  function Sextets(bytes: seq<Byte>): seq<Sextet> {
    if |bytes| == 0 then []
    else if |bytes| == 1 then [bytes[0] / 4, bytes[0] % 4 * 16]
    else if |bytes| == 2 then [bytes[0] / 4, bytes[0] % 4 * 16 + bytes[1] / 16, bytes[1] % 16 * 4]
    else
      [bytes[0] / 4, bytes[0] % 4 * 16 + bytes[1] / 16, bytes[1] % 16 * 4 + bytes[2] / 64, bytes[2] % 64]
      + Sextets(bytes[3..])
  }

  /** The character of the URL alphabet for a value. */
  function Letter(v: Sextet): char {
    if v < 26 then 'A' + v as char
    else if v < 52 then 'a' + (v - 26) as char
    else if v < 62 then '0' + (v - 52) as char
    else if v == 62 then '-'
    else '_'
  }

  function Spell(sextets: seq<Sextet>): (s: string)
    ensures |s| == |sextets|
  {
    if sextets == [] then "" else [Letter(sextets[0])] + Spell(sextets[1..])
  }

  function Equals(n: nat): string {
    seq(n, _ => '=')
  }

  function Padding(length: nat): string {
    match length % 4
    case 0 => ""
    case 1 => "==="
    case 2 => "=="
    case 3 => "="
  }

  /** The padded form of the library. */
  function UrlSafeEncode(bytes: seq<Byte>): string {
    Spell(Sextets(bytes)) + Padding(|Sextets(bytes)|)
  }

  function StripEnd(s: string, c: char): string {
    if s != "" && s[|s| - 1] == c then StripEnd(s[..|s| - 1], c) else s
  }

  function Encode(bytes: seq<Byte>): string {
    StripEnd(UrlSafeEncode(bytes), '=')
  }

  /* ---------- Decoding ---------- */

  function ValueOf(c: char): Option<Sextet> {
    if 'A' <= c <= 'Z' then Some(c as int - 'A' as int)
    else if 'a' <= c <= 'z' then Some(c as int - 'a' as int + 26)
    else if '0' <= c <= '9' then Some(c as int - '0' as int + 52)
    else if c == '-' || c == '+' then Some(62)
    else if c == '_' || c == '/' then Some(63)
    else None
  }

  /** The decoder between two characters: its place in the group of four, and the bits left over. */
  datatype State = State(place: nat, left: nat, pads: nat) {
    predicate Valid() {
      place < 4 && (place == 1 ==> left < 64) && (place == 2 ==> left < 16) && (place == 3 ==> left < 4)
    }
  }

  const START := State(0, 0, 0)

  function Output(state: State, v: Sextet): seq<Byte>
    requires state.Valid()
  {
    match state.place
    case 0 => []
    case 1 => [state.left * 4 + v / 16]
    case 2 => [state.left * 16 + v / 4]
    case 3 => [state.left * 64 + v]
  }

  function Next(state: State, v: Sextet): (r: State)
    requires state.Valid()
    ensures r.Valid()
  {
    match state.place
    case 0 => State(1, v, 0)
    case 1 => State(2, v % 16, 0)
    case 2 => State(3, v % 4, 0)
    case 3 => START
  }

  function Decoded(s: string, state: State): Option<seq<Byte>>
    requires state.Valid()
    decreases |s|
  {
    if s == "" then if state.place == 0 then Some([]) else None
    else if s[0] == '=' then
      if state.place >= 2 && state.place + state.pads + 1 >= 4 then Some([])
      else Decoded(s[1..], if state.place >= 2 then state.(pads := state.pads + 1) else state)
    else
      var v := ValueOf(s[0]);
      if v.None? then Decoded(s[1..], state)
      else
        var rest := Decoded(s[1..], Next(state, v.value));
        if rest.None? then None else Some(Output(state, v.value) + rest.value)
  }

  /** The padding the source adds: the negated length modulo four. */
  function Decode(s: string): Option<seq<Byte>> {
    Decoded(s + Equals((-|s|) % 4), START)
  }

  /* ---------- Encoding and decoding undo each other ---------- */

  predicate IsUrlLetter(c: char) {
    ValueOf(c).Some? && c != '+' && c != '/'
  }

  lemma LettersAreUnique(v: Sextet, c: char)
    ensures IsUrlLetter(Letter(v)) && ValueOf(Letter(v)) == Some(v)
    ensures IsUrlLetter(c) ==> Letter(ValueOf(c).value) == c
  {
  }

  lemma {:induction false} SpelledLetters(vs: seq<Sextet>)
    ensures forall c :: c in Spell(vs) ==> IsUrlLetter(c)
  {
    if vs != [] {
      LettersAreUnique(vs[0], 'A');
      SpelledLetters(vs[1..]);
    }
  }

  lemma {:induction false} StripPadding(s: string, n: nat)
    requires forall c :: c in s ==> c != '='
    ensures StripEnd(s + Equals(n), '=') == s
  {
    var t := s + Equals(n);
    if n > 0 {
      assert t[..|t| - 1] == s + Equals(n - 1);
      StripPadding(s, n - 1);
    } else {
      assert t == s && (s != "" ==> s[|s| - 1] in s);
    }
  }

  /** Encoding is the spelling of the six-bit values, and nothing else. */
  lemma EncodeIsSpell(bytes: seq<Byte>)
    ensures Encode(bytes) == Spell(Sextets(bytes))
    ensures forall c :: c in Encode(bytes) ==> IsUrlLetter(c)
  {
    var s := Spell(Sextets(bytes));
    SpelledLetters(Sextets(bytes));
    var n := |Padding(|s|)|;
    assert Padding(|s|) == Equals(n);
    StripPadding(s, n);
  }

  lemma DecodedLetter(c: char, rest: string, state: State)
    requires state.Valid() && IsUrlLetter(c)
    ensures var tail := Decoded(rest, Next(state, ValueOf(c).value));
            Decoded([c] + rest, state) ==
            if tail.None? then None else Some(Output(state, ValueOf(c).value) + tail.value)
  {
    assert ([c] + rest)[1..] == rest;
  }

  function First(p: Sextet, q: Sextet): Byte {
    p * 4 + q / 16
  }

  function Second(q: Sextet, r: Sextet): Byte {
    q % 16 * 16 + r / 4
  }

  function Third(r: Sextet, t: Sextet): Byte {
    r % 4 * 64 + t
  }

  lemma OutputIs(p: Sextet, q: Sextet, r: Sextet, t: Sextet)
    ensures Output(START, p) == []
    ensures Output(Next(START, p), q) == [First(p, q)]
    ensures Output(Next(Next(START, p), q), r) == [Second(q, r)]
    ensures Output(Next(Next(Next(START, p), q), r), t) == [Third(r, t)]
    ensures Next(Next(Next(Next(START, p), q), r), t) == START
  {
  }

  /** A full group of four letters gives three bytes and leaves the decoder at the start. */
  lemma DecodedGroup(a: char, b: char, c: char, d: char, rest: string)
    requires IsUrlLetter(a) && IsUrlLetter(b) && IsUrlLetter(c) && IsUrlLetter(d)
    ensures var (p, q, r, t) := (ValueOf(a).value, ValueOf(b).value, ValueOf(c).value, ValueOf(d).value);
            var tail := Decoded(rest, START);
            Decoded([a, b, c, d] + rest, START) ==
            if tail.None? then None
            else Some([First(p, q), Second(q, r), Third(r, t)] + tail.value)
  {
    hide Decoded, Output, First, Second, Third, ValueOf;
    var p, q, r, t := ValueOf(a).value, ValueOf(b).value, ValueOf(c).value, ValueOf(d).value;
    var second := Next(START, p);
    var third := Next(second, q);
    var fourth := Next(third, r);
    DecodedLetter(a, [b, c, d] + rest, START);
    DecodedLetter(b, [c, d] + rest, second);
    DecodedLetter(c, [d] + rest, third);
    DecodedLetter(d, rest, fourth);
    OutputIs(p, q, r, t);
    var tail := Decoded(rest, START);
    if tail.Some? {
      var v := tail.value;
      assert [] + ([First(p, q)] + ([Second(q, r)] + ([Third(r, t)] + v))) == [First(p, q), Second(q, r), Third(r, t)] + v;
    }
    assert [a, b, c, d] + rest == [a] + ([b, c, d] + rest);
    assert [b, c, d] + rest == [b] + ([c, d] + rest);
    assert [c, d] + rest == [c] + ([d] + rest);
  }

  lemma DecodedPadding(state: State)
    requires state.Valid() && state.pads == 0
    ensures state.place == 2 ==> Decoded("==", state) == Some([])
    ensures state.place == 3 ==> Decoded("=", state) == Some([])
  {
    assert "=="[1..] == "=";
  }

  lemma DecodedPair(a: char, b: char)
    requires IsUrlLetter(a) && IsUrlLetter(b)
    ensures Decoded([a, b] + "==", START) == Some([First(ValueOf(a).value, ValueOf(b).value)])
  {
    hide Decoded, Output, First, Second, Third, ValueOf;
    var second := Next(START, ValueOf(a).value);
    var third := Next(second, ValueOf(b).value);
    DecodedPadding(third);
    DecodedLetter(b, "==", second);
    DecodedLetter(a, [b] + "==", START);
    OutputIs(ValueOf(a).value, ValueOf(b).value, 0, 0);
    assert [a, b] + "==" == [a] + ([b] + "==");
    var only := First(ValueOf(a).value, ValueOf(b).value);
    assert [] + ([only] + []) == [only];
  }

  lemma DecodedTriple(a: char, b: char, c: char)
    requires IsUrlLetter(a) && IsUrlLetter(b) && IsUrlLetter(c)
    ensures var (p, q, r) := (ValueOf(a).value, ValueOf(b).value, ValueOf(c).value);
            Decoded([a, b, c] + "=", START) == Some([First(p, q), Second(q, r)])
  {
    hide Decoded, Output, First, Second, Third, ValueOf;
    var p, q, r := ValueOf(a).value, ValueOf(b).value, ValueOf(c).value;
    var second := Next(START, p);
    var third := Next(second, q);
    var fourth := Next(third, r);
    DecodedPadding(fourth);
    DecodedLetter(c, "=", third);
    DecodedLetter(b, [c] + "=", second);
    DecodedLetter(a, [b, c] + "=", START);
    OutputIs(p, q, r, 0);
    assert [a, b, c] + "=" == [a] + ([b, c] + "=") && [b, c] + "=" == [b] + ([c] + "=");
    assert [] + ([First(p, q)] + ([Second(q, r)] + [])) == [First(p, q), Second(q, r)];
  }

  /** Spelling three bytes and putting the bits together again. */
  lemma BitsRecombine(x: Byte, y: Byte, z: Byte)
    ensures First(x / 4, x % 4 * 16 + y / 16) == x
    ensures Second(x % 4 * 16 + y / 16, y % 16 * 4 + z / 64) == y
    ensures Third(y % 16 * 4 + z / 64, z % 64) == z
  {
  }

  lemma {:induction false} SpellMore(head: seq<Sextet>, tail: seq<Sextet>)
    ensures Spell(head + tail) == Spell(head) + Spell(tail)
  {
    if head == [] {
      assert head + tail == tail;
    } else {
      assert (head + tail)[1..] == head[1..] + tail;
      SpellMore(head[1..], tail);
    }
  }

  lemma SpellFew(p: Sextet, q: Sextet, r: Sextet, t: Sextet)
    ensures Spell([p, q]) == [Letter(p), Letter(q)]
    ensures Spell([p, q, r]) == [Letter(p), Letter(q), Letter(r)]
    ensures Spell([p, q, r, t]) == [Letter(p), Letter(q), Letter(r), Letter(t)]
  {
    hide Letter;
    assert [p, q, r, t][1..] == [q, r, t] && [q, r, t][1..] == [r, t] && [r, t][1..] == [t];
    assert [p, q, r][1..] == [q, r] && [q, r][1..] == [r] && [p, q][1..] == [q];
    assert Spell([t]) == [Letter(t)] && Spell([r]) == [Letter(r)] && Spell([q, r]) == [Letter(q), Letter(r)];
    assert Spell([r, t]) == [Letter(r), Letter(t)] && Spell([q, r, t]) == [Letter(q), Letter(r), Letter(t)];
  }

  lemma FewLetters(p: Sextet, q: Sextet, r: Sextet, t: Sextet)
    ensures IsUrlLetter(Letter(p)) && IsUrlLetter(Letter(q)) && IsUrlLetter(Letter(r)) && IsUrlLetter(Letter(t))
    ensures ValueOf(Letter(p)) == Some(p) && ValueOf(Letter(q)) == Some(q)
    ensures ValueOf(Letter(r)) == Some(r) && ValueOf(Letter(t)) == Some(t)
  {
    hide *;
    LettersAreUnique(p, 'A');
    LettersAreUnique(q, 'A');
    LettersAreUnique(r, 'A');
    LettersAreUnique(t, 'A');
  }

  lemma SpelledPair(p: Sextet, q: Sextet)
    ensures Decoded(Spell([p, q]) + Equals(2), START) == Some([First(p, q)])
  {
    hide Decoded, First, ValueOf, Letter, Spell;
    SpellFew(p, q, q, q);
    FewLetters(p, q, q, q);
    DecodedPair(Letter(p), Letter(q));
    assert Equals(2) == "==";
  }

  lemma SpelledTriple(p: Sextet, q: Sextet, r: Sextet)
    ensures Decoded(Spell([p, q, r]) + Equals(1), START) == Some([First(p, q), Second(q, r)])
  {
    hide Decoded, First, Second, ValueOf, Letter, Spell;
    SpellFew(p, q, r, r);
    FewLetters(p, q, r, r);
    DecodedTriple(Letter(p), Letter(q), Letter(r));
    assert Equals(1) == "=";
  }

  lemma SpelledGroup(p: Sextet, q: Sextet, r: Sextet, t: Sextet, rest: string)
    ensures var tail := Decoded(rest, START);
            Decoded(Spell([p, q, r, t]) + rest, START) ==
            if tail.None? then None else Some([First(p, q), Second(q, r), Third(r, t)] + tail.value)
  {
    hide Decoded, First, Second, Third, ValueOf, Letter, Spell;
    SpellFew(p, q, r, t);
    FewLetters(p, q, r, t);
    DecodedGroup(Letter(p), Letter(q), Letter(r), Letter(t), rest);
  }

  /** Decoding a spelling takes its first four letters off. */
  lemma DecodedStep(vs: seq<Sextet>, pads: string)
    requires |vs| >= 4
    ensures var tail := Decoded(Spell(vs[4..]) + pads, START);
            Decoded(Spell(vs) + pads, START) ==
            if tail.None? then None
            else Some([First(vs[0], vs[1]), Second(vs[1], vs[2]), Third(vs[2], vs[3])] + tail.value)
  {
    hide *;
    var group, rest := [vs[0], vs[1], vs[2], vs[3]], vs[4..];
    SpelledGroup(vs[0], vs[1], vs[2], vs[3], Spell(rest) + pads);
    assert vs == group + rest;
    SpellMore(group, rest);
    assert Spell(vs) + pads == Spell(group) + (Spell(rest) + pads);
  }

  lemma {:induction false} DecodedSpelling(bytes: seq<Byte>)
    ensures Decoded(Spell(Sextets(bytes)) + Equals((-|Sextets(bytes)|) % 4), START) == Some(bytes)
  {
    hide Decoded, First, Second, Third, Spell, Equals;
    var vs := Sextets(bytes);
    if |bytes| == 0 {
      DecodedNothing();
    } else if |bytes| == 1 {
      BitsRecombine(bytes[0], 0, 0);
      SpelledPair(vs[0], vs[1]);
      assert vs == [vs[0], vs[1]] && bytes == [bytes[0]];
      assert First(vs[0], vs[1]) == bytes[0];
    } else if |bytes| == 2 {
      BitsRecombine(bytes[0], bytes[1], 0);
      SpelledTriple(vs[0], vs[1], vs[2]);
      assert vs == [vs[0], vs[1], vs[2]] && bytes == [bytes[0], bytes[1]];
      assert First(vs[0], vs[1]) == bytes[0] && Second(vs[1], vs[2]) == bytes[1];
    } else {
      DecodedSpelling(bytes[3..]);
      assert vs[4..] == Sextets(bytes[3..]);
      BitsRecombine(bytes[0], bytes[1], bytes[2]);
      DecodedStep(vs, Equals((-|vs|) % 4));
      assert bytes == [bytes[0], bytes[1], bytes[2]] + bytes[3..];
    }
  }

  lemma DecodedNothing()
    ensures Decoded(Spell([]) + Equals(0), START) == Some([])
  {
  }

  /** Decoding undoes encoding, for every string of bytes. */
  lemma DecodeUndoesEncode(bytes: seq<Byte>)
    ensures Decode(Encode(bytes)) == Some(bytes)
  {
    EncodeIsSpell(bytes);
    DecodedSpelling(bytes);
  }

  /* ---------- Which texts decode ---------- */

  function Values(s: string): (r: seq<Sextet>)
    requires forall c :: c in s ==> IsUrlLetter(c)
    ensures |r| == |s|
  {
    if s == "" then []
    else
      assert s[0] in s && IsUrlLetter(s[0]);
      [ValueOf(s[0]).value] + Values(s[1..])
  }

  lemma {:induction false} SpelledValues(s: string)
    requires forall c :: c in s ==> IsUrlLetter(c)
    ensures Spell(Values(s)) == s
  {
    hide ValueOf, Letter;
    if s != "" {
      LettersAreUnique(0, s[0]);
      SpelledValues(s[1..]);
    }
  }

  /** The bits of the last letter that no byte uses are zero. */
  predicate IsCanonical(vs: seq<Sextet>) {
    && (|vs| % 4 == 2 ==> vs[|vs| - 1] % 16 == 0)
    && (|vs| % 4 == 3 ==> vs[|vs| - 1] % 4 == 0)
  }

  function Packed(vs: seq<Sextet>): seq<Byte>
    requires |vs| % 4 != 1
  {
    if |vs| == 0 then []
    else if |vs| == 2 then [First(vs[0], vs[1])]
    else if |vs| == 3 then [First(vs[0], vs[1]), Second(vs[1], vs[2])]
    else [First(vs[0], vs[1]), Second(vs[1], vs[2]), Third(vs[2], vs[3])] + Packed(vs[4..])
  }

  lemma {:induction false} DecodedPacked(vs: seq<Sextet>)
    requires |vs| % 4 != 1
    ensures Decoded(Spell(vs) + Equals((-|vs|) % 4), START) == Some(Packed(vs))
  {
    hide *;
    if |vs| < 4 {
      DecodedTail(vs);
    } else {
      DecodedPacked(vs[4..]);
      PackedGroup(vs);
      DecodedStep(vs, Equals((-|vs|) % 4));
    }
  }

  lemma DecodedTail(vs: seq<Sextet>)
    requires |vs| < 4 && |vs| != 1
    ensures Decoded(Spell(vs) + Equals((-|vs|) % 4), START) == Some(Packed(vs))
  {
    hide Decoded, First, Second, Third, Spell, Equals;
    if |vs| == 0 {
      DecodedNothing();
      assert vs == [];
    } else if |vs| == 2 {
      SpelledPair(vs[0], vs[1]);
      assert vs == [vs[0], vs[1]];
    } else {
      SpelledTriple(vs[0], vs[1], vs[2]);
      assert vs == [vs[0], vs[1], vs[2]];
    }
  }

  lemma BitsOf(p: Sextet, q: Sextet, r: Sextet, t: Sextet)
    ensures First(p, q) / 4 == p
    ensures First(p, q) % 4 * 16 == q / 16 * 16
    ensures First(p, q) % 4 * 16 + Second(q, r) / 16 == q
    ensures Second(q, r) % 16 * 4 == r / 4 * 4
    ensures Second(q, r) % 16 * 4 + Third(r, t) / 64 == r
    ensures Third(r, t) % 64 == t
  {
  }

  lemma SextetsOfGroup(p: Sextet, q: Sextet, r: Sextet, t: Sextet, rest: seq<Byte>)
    ensures Sextets([First(p, q), Second(q, r), Third(r, t)] + rest) == [p, q, r, t] + Sextets(rest)
  {
    hide First, Second, Third;
    BitsOf(p, q, r, t);
    var bytes := [First(p, q), Second(q, r), Third(r, t)] + rest;
    assert bytes[3..] == rest;
  }

  lemma SextetsOfPair(p: Sextet, q: Sextet)
    ensures Sextets([First(p, q)]) == [p, q] <==> q % 16 == 0
  {
    BitsOf(p, q, 0, 0);
    hide First;
    assert Sextets([First(p, q)]) == [p, q / 16 * 16];
    assert [p, q / 16 * 16][1] == q / 16 * 16;
  }

  lemma SextetsOfTriple(p: Sextet, q: Sextet, r: Sextet)
    ensures Sextets([First(p, q), Second(q, r)]) == [p, q, r] <==> r % 4 == 0
  {
    BitsOf(p, q, r, 0);
    hide First, Second;
    assert Sextets([First(p, q), Second(q, r)]) == [p, q, r / 4 * 4];
    assert [p, q, r / 4 * 4][2] == r / 4 * 4;
  }

  lemma NothingPacked()
    ensures Sextets(Packed([])) == []
  {
  }

  lemma PackedTail(vs: seq<Sextet>)
    requires |vs| < 4 && |vs| != 1
    ensures Sextets(Packed(vs)) == vs <==> IsCanonical(vs)
  {
    hide First, Second, Third, Sextets;
    if |vs| == 0 {
      NothingPacked();
      assert vs == [];
    } else if |vs| == 2 {
      SextetsOfPair(vs[0], vs[1]);
      assert vs == [vs[0], vs[1]];
    } else {
      SextetsOfTriple(vs[0], vs[1], vs[2]);
      assert vs == [vs[0], vs[1], vs[2]];
    }
  }

  lemma {:induction false} PackedSextets(vs: seq<Sextet>)
    requires |vs| % 4 != 1
    ensures Sextets(Packed(vs)) == vs <==> IsCanonical(vs)
  {
    hide *;
    if |vs| < 4 {
      PackedTail(vs);
    } else {
      PackedSextets(vs[4..]);
      SextetsOfGroup(vs[0], vs[1], vs[2], vs[3], Packed(vs[4..]));
      PackedGroup(vs);
      CanonicalGroup(vs);
      var group, rest := [vs[0], vs[1], vs[2], vs[3]], Sextets(Packed(vs[4..]));
      assert vs == group + vs[4..];
      assert (group + rest)[4..] == rest;
    }
  }

  lemma CanonicalGroup(vs: seq<Sextet>)
    requires |vs| >= 4
    ensures IsCanonical(vs) <==> IsCanonical(vs[4..])
  {
  }

  lemma PackedGroup(vs: seq<Sextet>)
    requires |vs| % 4 != 1 && |vs| >= 4
    ensures Packed(vs) == [First(vs[0], vs[1]), Second(vs[1], vs[2]), Third(vs[2], vs[3])] + Packed(vs[4..])
  {
  }

  lemma {:induction false} LoneLetter(vs: seq<Sextet>)
    requires |vs| % 4 == 1
    ensures Decoded(Spell(vs) + Equals(3), START) == None
  {
    hide Decoded, First, Second, Third, Spell, Equals;
    if |vs| == 1 {
      OneLetter(vs[0]);
      assert vs == [vs[0]];
    } else {
      LoneLetter(vs[4..]);
      DecodedStep(vs, Equals(3));
    }
  }

  lemma OneLetter(v: Sextet)
    ensures Decoded(Spell([v]) + Equals(3), START) == None
  {
    LettersAreUnique(v, 'A');
    DecodedLetter(Letter(v), Equals(3), START);
    assert Equals(3) == "===" && "==="[1..] == "==" && "=="[1..] == "=";
    var state := Next(START, v);
    assert Decoded("=", state) == None;
    assert Decoded("==", state) == None;
  }

  lemma DecodeIs(s: string)
    ensures Decode(s) == Decoded(s + Equals((-|s|) % 4), START)
  {
    hide Decoded;
  }

  lemma DecodeText(s: string)
    requires forall c :: c in s ==> IsUrlLetter(c)
    ensures |s| % 4 == 1 ==> Decode(s) == None
    ensures |s| % 4 != 1 ==> Decode(s) == Some(Packed(Values(s)))
  {
    hide *;
    DecodeIs(s);
    SpelledValues(s);
    if |s| % 4 == 1 {
      LoneLetter(Values(s));
    } else {
      DecodedPacked(Values(s));
    }
  }

  /**
   A text over the URL alphabet decodes exactly when its length is not one more than a
   multiple of four, and encoding gives the text back exactly when its unused bits are zero.
   */
  lemma EncodeUndoesDecode(s: string)
    requires forall c :: c in s ==> IsUrlLetter(c)
    ensures Decode(s).Some? <==> |s| % 4 != 1
    ensures Decode(s).Some? ==> (Encode(Decode(s).value) == s <==> IsCanonical(Values(s)))
  {
    hide *;
    DecodeText(s);
    if |s| % 4 != 1 {
      var vs := Values(s);
      SpelledValues(s);
      PackedSextets(vs);
      EncodeIsSpell(Packed(vs));
      SpellIsInjective(Sextets(Packed(vs)), vs);
    }
  }

  lemma {:induction false} SpellIsInjective(a: seq<Sextet>, b: seq<Sextet>)
    ensures Spell(a) == Spell(b) ==> a == b
  {
    hide Letter;
    if Spell(a) == Spell(b) && a != [] && b != [] {
      LettersAreUnique(a[0], 'A');
      LettersAreUnique(b[0], 'A');
      assert Spell(a)[0] == Spell(b)[0] && Spell(a)[1..] == Spell(a[1..]) && Spell(b)[1..] == Spell(b[1..]);
      SpellIsInjective(a[1..], b[1..]);
      assert a == [a[0]] + a[1..] && b == [b[0]] + b[1..];
    }
  }

  /* ---------- Other texts ---------- */

  /** A character outside both alphabets that is no padding is skipped wherever it stands. */
  lemma {:induction false} StrayIsSkipped(a: string, c: char, b: string, state: State)
    requires state.Valid() && !IsUrlLetter(c) && c != '+' && c != '/' && c != '='
    ensures Decoded(a + [c] + b, state) == Decoded(a + b, state)
  {
    hide Output, Next;
    if a == "" {
      assert a + [c] + b == [c] + b && a + b == b;
      assert ([c] + b)[1..] == b;
    } else {
      assert (a + [c] + b)[1..] == a[1..] + [c] + b && (a + b)[1..] == a[1..] + b;
      StrayIsSkipped(a[1..], c, b, state);
      if a[0] == '=' && state.place >= 2 {
        StrayIsSkipped(a[1..], c, b, state.(pads := state.pads + 1));
      }
      if ValueOf(a[0]).Some? {
        StrayIsSkipped(a[1..], c, b, Next(state, ValueOf(a[0]).value));
      }
    }
  }

  /** The two letters of the standard alphabet read as those of the URL alphabet. */
  lemma {:induction false} StandardLettersRead(a: string, b: string, state: State)
    requires state.Valid()
    ensures Decoded(a + "+" + b, state) == Decoded(a + "-" + b, state)
    ensures Decoded(a + "/" + b, state) == Decoded(a + "_" + b, state)
  {
    hide Output, Next;
    if a == "" {
      forall c: char ensures (a + [c] + b)[1..] == b && (a + [c] + b)[0] == c {
      }
    } else {
      forall c: char ensures (a + [c] + b)[1..] == a[1..] + [c] + b {
      }
      StandardLettersRead(a[1..], b, state);
      if a[0] == '=' && state.place >= 2 {
        StandardLettersRead(a[1..], b, state.(pads := state.pads + 1));
      }
      if ValueOf(a[0]).Some? {
        StandardLettersRead(a[1..], b, Next(state, ValueOf(a[0]).value));
      }
    }
  }
}
