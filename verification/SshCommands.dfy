/**
 The commands scripts/public_sync_ssh_wrapper.py accepts, and the ones it rebuilds.

 Each accepted command is the rendering of the action it is parsed to, character by
 character, and every well-formed action parses back from its rendering.
 */
module SshCommands {
  import opened Formats
  import opened TextOrder
  import opened Wrappers

  datatype Mode = StageOnly | AcceptStaged | Promote

  datatype Action =
    | Upload(release: string)
    | Read(release: string, inns: seq<string>)
    | Import(release: string, mode: Mode)
    | Rollback(release: string)

  datatype Rejection = Interactive | UploadDiffers | UnsortedInns | ImportDiffers | NotAllowed

  /* ---------- Texts ---------- */

  function IncomingRoot(): string {
    "/var/lib/" + "nextcompany/incoming/"
  }

  function UploadHead(): string {
    "sudo install -d -o " + ("nextcompany-importer " + ("-g nextcompany -m 0750 " + IncomingRoot()))
  }

  function UploadMiddle(): string {
    " && sudo -u " + ("nextcompany-importer tar -C " + IncomingRoot())
  }

  function UploadTail(): string {
    " -xf -"
  }

  function OuterPrefix(): string {
    "sudo -u " + ("nextcompany-importer " + "/bin/bash -lc '")
  }

  function ImporterPrefix(): string {
    "set -a; source " + ("/etc/nextcompany/" + ("importer.env; set +a; " + ("/opt/nextcompany/" + "current/.venv/bin/python ")))
  }

  function ScriptRoot(): string {
    "/opt/nextcompany/" + "current/scripts/"
  }

  function ReadScript(): string {
    "read_public_release.py" + ReleaseOption()
  }

  function ImportScript(): string {
    "import_public_release.py " + IncomingRoot()
  }

  function ReleaseOption(): string {
    " --expected-release-id "
  }

  function RollbackScript(): string {
    "rollback_public_release.py "
  }

  function InnOption(): string {
    " --inn "
  }

  function ModeText(mode: Mode): string {
    match mode
    case StageOnly => " --stage-only"
    case AcceptStaged => " --accept-staged"
    case Promote => " --promote"
  }

  const QUOTE := "'"

  /* ---------- Parts of a command ---------- */

  /** The text after a literal prefix. */
  function Skip(s: string, prefix: string): Option<string> {
    if prefix <= s then Some(s[|prefix|..]) else None
  }

  function SafeLength(s: string): (n: nat)
    ensures n <= |s|
  {
    if s == "" || !IsSafeChar(s[0]) then 0 else 1 + SafeLength(s[1..])
  }

  /** The longest run of release characters, when its length is right, and the text after it. */
  function TakeRelease(s: string): Option<(string, string)> {
    var n := SafeLength(s);
    if 8 <= n <= 120 then Some((s[..n], s[n..])) else None
  }

  function TakeInns(s: string): (r: (seq<string>, string))
    decreases |s|
  {
    var digits := Skip(s, InnOption());
    if digits.Some? && |digits.value| >= 10 && IsInn(digits.value[..10]) then
      var (inns, rest) := TakeInns(digits.value[10..]);
      ([digits.value[..10]] + inns, rest)
    else ([], s)
  }

  function ModeOf(s: string): Option<Mode> {
    if s == ModeText(StageOnly) + QUOTE then Some(StageOnly)
    else if s == ModeText(AcceptStaged) + QUOTE then Some(AcceptStaged)
    else if s == ModeText(Promote) + QUOTE then Some(Promote)
    else None
  }

  /* ---------- The four shapes ---------- */

  /** The two release ids of an upload. */
  function MatchUpload(command: string): Option<(string, string)> {
    var head := Skip(command, UploadHead());
    if head.None? then None
    else
      var directory := TakeRelease(head.value);
      if directory.None? then None
      else
        var middle := Skip(directory.value.1, UploadMiddle());
        if middle.None? then None
        else
          var target := TakeRelease(middle.value);
          if target.None? || target.value.1 != UploadTail() then None
          else Some((directory.value.0, target.value.0))
  }

  /** What the outer shell is asked to run, of one script. */
  function ScriptPrefix(script: string): string {
    OuterPrefix() + ImporterPrefix() + ScriptRoot() + script
  }

  function MatchRead(command: string): Option<(string, seq<string>)> {
    var head := Skip(command, ScriptPrefix(ReadScript()));
    if head.None? then None
    else
      var release := TakeRelease(head.value);
      if release.None? then None
      else
        var (inns, rest) := TakeInns(release.value.1);
        if rest == QUOTE then Some((release.value.0, inns)) else None
  }

  function MatchImport(command: string): Option<(string, string, Mode)> {
    var head := Skip(command, ScriptPrefix(ImportScript()));
    if head.None? then None
    else
      var directory := TakeRelease(head.value);
      if directory.None? then None
      else
        var middle := Skip(directory.value.1, ReleaseOption());
        if middle.None? then None
        else
          var expected := TakeRelease(middle.value);
          if expected.None? || ModeOf(expected.value.1).None? then None
          else Some((directory.value.0, expected.value.0, ModeOf(expected.value.1).value))
  }

  function MatchRollback(command: string): Option<string> {
    var head := Skip(command, ScriptPrefix(RollbackScript()));
    if head.None? then None
    else
      var release := TakeRelease(head.value);
      if release.None? || release.value.1 != QUOTE then None else Some(release.value.0)
  }

  function Parse(command: Option<string>): Result<Action, Rejection> {
    if command.None? || command.value == "" then Err(Interactive)
    else
      var upload := MatchUpload(command.value);
      if upload.Some? then
        if upload.value.0 != upload.value.1 then Err(UploadDiffers) else Ok(Upload(upload.value.0))
      else
        var read := MatchRead(command.value);
        if read.Some? then
          if !(Sorted(read.value.1) && Distinct(read.value.1)) then Err(UnsortedInns)
          else Ok(Read(read.value.0, read.value.1))
        else
          var imported := MatchImport(command.value);
          if imported.Some? then
            if imported.value.0 != imported.value.1 then Err(ImportDiffers)
            else Ok(Import(imported.value.0, imported.value.2))
          else
            var rollback := MatchRollback(command.value);
            if rollback.Some? then Ok(Rollback(rollback.value)) else Err(NotAllowed)
  }

  /* ---------- Rebuilding the command ---------- */

  predicate IsWellFormed(a: Action) {
    IsSafeRelease(a.release)
    && (a.Read? ==> Sorted(a.inns) && Distinct(a.inns) && forall i :: 0 <= i < |a.inns| ==> IsInn(a.inns[i]))
  }

  function InnOptions(inns: seq<string>): string {
    if inns == [] then "" else InnOption() + inns[0] + InnOptions(inns[1..])
  }

  /** The shell input the wrapper runs as the importer; uploads run two fixed programs instead. */
  function Inner(a: Action): string
    requires !a.Upload?
  {
    match a
    case Read(release, inns) => ImporterPrefix() + ScriptRoot() + ReadScript() + release + InnOptions(inns)
    case Import(release, mode) =>
      ImporterPrefix() + ScriptRoot() + ImportScript() + release + ReleaseOption() + release + ModeText(mode)
    case Rollback(release) => ImporterPrefix() + ScriptRoot() + RollbackScript() + release
  }

  /** The command the transport sends for an action. */
  function Render(a: Action): string {
    if a.Upload? then UploadHead() + a.release + UploadMiddle() + a.release + UploadTail()
    else OuterPrefix() + Inner(a) + QUOTE
  }

  /* ---------- Each part of a command is recognised exactly ---------- */

  lemma SkipIs(s: string, prefix: string, rest: string)
    ensures Skip(s, prefix) == Some(rest) <==> s == prefix + rest
  {
    if s == prefix + rest {
      assert s[..|prefix|] == prefix && s[|prefix|..] == rest;
    }
    if Skip(s, prefix) == Some(rest) {
      assert s == s[..|prefix|] + s[|prefix|..];
    }
  }

  predicate EndsRelease(rest: string) {
    rest == "" || !IsSafeChar(rest[0])
  }

  lemma {:induction false} SafeLengthIs(s: string, n: nat)
    requires n <= |s|
    ensures SafeLength(s) == n <==> (forall c :: c in s[..n] ==> IsSafeChar(c)) && EndsRelease(s[n..])
  {
    if s != "" {
      if n > 0 {
        SafeLengthIs(s[1..], n - 1);
        assert s[..n] == [s[0]] + s[1..][..n - 1] && s[1..][n - 1..] == s[n..];
        assert s[0] in s[..n];
      } else {
        assert s[..0] == "" && s[0..] == s;
      }
    }
  }

  lemma TakeReleaseIs(s: string, id: string, rest: string)
    ensures TakeRelease(s) == Some((id, rest)) <==> s == id + rest && IsSafeRelease(id) && EndsRelease(rest)
  {
    if s == id + rest {
      assert s[..|id|] == id && s[|id|..] == rest;
      SafeLengthIs(s, |id|);
    }
    var n := SafeLength(s);
    SafeLengthIs(s, n);
    assert s == s[..n] + s[n..];
  }

  lemma InnOptionFacts()
    ensures Skip(QUOTE, InnOption()) == None
    ensures |InnOption()| == 7
  {
  }

  lemma {:induction false} TakeInnsSplits(s: string)
    ensures s == InnOptions(TakeInns(s).0) + TakeInns(s).1
    ensures forall i :: 0 <= i < |TakeInns(s).0| ==> IsInn(TakeInns(s).0[i])
    decreases |s|
  {
    hide IsInn, InnOption, Skip;
    var digits := Skip(s, InnOption());
    if digits.Some? && |digits.value| >= 10 && IsInn(digits.value[..10]) {
      var inn, after := digits.value[..10], digits.value[10..];
      SkipIs(s, InnOption(), digits.value);
      InnOptionFacts();
      TakeInnsSplits(after);
      assert digits.value == inn + after;
      var inns := TakeInns(after).0;
      assert ([inn] + inns)[1..] == inns;
      assert InnOption() + (inn + (InnOptions(inns) + TakeInns(after).1)) == InnOption() + inn + InnOptions(inns) + TakeInns(after).1;
    }
  }

  lemma TakeOneInn(inn: string, after: string)
    requires IsInn(inn)
    ensures TakeInns(InnOption() + (inn + after)) == ([inn] + TakeInns(after).0, TakeInns(after).1)
  {
    hide InnOption, Skip;
    SkipIs(InnOption() + (inn + after), InnOption(), inn + after);
    assert (inn + after)[..10] == inn && (inn + after)[10..] == after;
  }

  lemma {:induction false} TakeInnsOfOptions(inns: seq<string>)
    requires forall i :: 0 <= i < |inns| ==> IsInn(inns[i])
    ensures TakeInns(InnOptions(inns) + QUOTE) == (inns, QUOTE)
  {
    hide InnOption;
    InnOptionFacts();
    if inns == [] {
      assert InnOptions(inns) + QUOTE == QUOTE;
    } else {
      TakeInnsOfOptions(inns[1..]);
      var after := InnOptions(inns[1..]) + QUOTE;
      assert InnOptions(inns) + QUOTE == InnOption() + (inns[0] + after);
      TakeOneInn(inns[0], after);
      assert [inns[0]] + inns[1..] == inns;
    }
  }

  lemma ModeOfIs(s: string, mode: Mode)
    ensures ModeOf(s) == Some(mode) <==> s == ModeText(mode) + QUOTE
  {
    assert ModeText(StageOnly)[3] == 's' && ModeText(AcceptStaged)[3] == 'a' && ModeText(Promote)[3] == 'p';
    assert forall m: Mode :: (ModeText(m) + QUOTE)[3] == ModeText(m)[3];
  }

  lemma UploadTextFacts()
    ensures EndsRelease(UploadMiddle()) && EndsRelease(UploadTail())
  {
  }

  lemma ScriptTextFacts()
    ensures EndsRelease(ReleaseOption()) && EndsRelease(QUOTE) && EndsRelease(InnOption())
    ensures InnOption() != ""
    ensures forall mode :: ModeText(mode) != "" && EndsRelease(ModeText(mode))
  {
  }

  lemma EndsReleaseMore(a: string, b: string)
    requires a != "" && EndsRelease(a)
    ensures EndsRelease(a + b)
  {
  }

  /* ---------- Each shape is one way of writing a command ---------- */

  lemma MatchUploadIs(command: string, directory: string, target: string)
    ensures MatchUpload(command) == Some((directory, target)) <==>
              && IsSafeRelease(directory) && IsSafeRelease(target)
              && command == UploadHead() + directory + UploadMiddle() + target + UploadTail()
  {
    hide Skip, TakeRelease, IsSafeRelease, UploadHead, UploadMiddle, UploadTail, EndsRelease;
    UploadTextFacts();
    UploadMiddleIsText();
    EndsReleaseMore(UploadMiddle(), target + UploadTail());
    if MatchUpload(command) == Some((directory, target)) {
      var head := Skip(command, UploadHead()).value;
      SkipIs(command, UploadHead(), head);
      var after := TakeRelease(head).value.1;
      TakeReleaseIs(head, directory, after);
      var middle := Skip(after, UploadMiddle()).value;
      SkipIs(after, UploadMiddle(), middle);
      TakeReleaseIs(middle, target, UploadTail());
    }
    var tail := target + UploadTail();
    if IsSafeRelease(directory) && IsSafeRelease(target) && command == UploadHead() + directory + UploadMiddle() + tail {
      SkipIs(command, UploadHead(), directory + (UploadMiddle() + tail));
      TakeReleaseIs(directory + (UploadMiddle() + tail), directory, UploadMiddle() + tail);
      SkipIs(UploadMiddle() + tail, UploadMiddle(), tail);
      TakeReleaseIs(tail, target, UploadTail());
      assert command == UploadHead() + (directory + (UploadMiddle() + tail));
    }
  }

  lemma UploadMiddleIsText()
    ensures UploadMiddle() != ""
  {
  }

  lemma MatchReadIs(command: string, release: string, inns: seq<string>)
    ensures MatchRead(command) == Some((release, inns)) <==>
              && IsSafeRelease(release) && (forall i :: 0 <= i < |inns| ==> IsInn(inns[i]))
              && command == ScriptPrefix(ReadScript()) + release + InnOptions(inns) + QUOTE
  {
    hide Skip, TakeRelease, IsSafeRelease, ScriptPrefix, ReadScript, EndsRelease, IsInn, TakeInns, InnOptions, InnOption;
    var prefix := ScriptPrefix(ReadScript());
    InnsEndRelease(inns);
    if MatchRead(command) == Some((release, inns)) {
      var head := Skip(command, prefix).value;
      SkipIs(command, prefix, head);
      var after := TakeRelease(head).value.1;
      TakeReleaseIs(head, release, after);
      TakeInnsSplits(after);
    }
    var options := InnOptions(inns) + QUOTE;
    if IsSafeRelease(release) && (forall i :: 0 <= i < |inns| ==> IsInn(inns[i])) && command == prefix + release + InnOptions(inns) + QUOTE {
      assert command == prefix + (release + options);
      SkipIs(command, prefix, release + options);
      TakeReleaseIs(release + options, release, options);
      TakeInnsOfOptions(inns);
    }
  }

  lemma InnsEndRelease(inns: seq<string>)
    ensures EndsRelease(InnOptions(inns) + QUOTE)
  {
    hide InnOption, EndsRelease;
    ScriptTextFacts();
    if inns == [] {
      assert InnOptions(inns) + QUOTE == QUOTE;
    } else {
      EndsReleaseMore(InnOption(), inns[0] + InnOptions(inns[1..]) + QUOTE);
      assert InnOptions(inns) + QUOTE == InnOption() + (inns[0] + InnOptions(inns[1..]) + QUOTE);
    }
  }

  lemma MatchImportIs(command: string, directory: string, expected: string, mode: Mode)
    ensures MatchImport(command) == Some((directory, expected, mode)) <==>
              && IsSafeRelease(directory) && IsSafeRelease(expected)
              && command == ScriptPrefix(ImportScript()) + directory + ReleaseOption() + expected + ModeText(mode) + QUOTE
  {
    hide Skip, TakeRelease, IsSafeRelease, ScriptPrefix, ImportScript, ReleaseOption, EndsRelease, ModeOf, ModeText;
    ScriptTextFacts();
    ReleaseOptionIsText();
    var prefix := ScriptPrefix(ImportScript());
    var last := ModeText(mode) + QUOTE;
    var tail := expected + last;
    EndsReleaseMore(ReleaseOption(), tail);
    EndsReleaseMore(ModeText(mode), QUOTE);
    ModeOfIs(last, mode);
    if MatchImport(command) == Some((directory, expected, mode)) {
      var head := Skip(command, prefix).value;
      SkipIs(command, prefix, head);
      var after := TakeRelease(head).value.1;
      TakeReleaseIs(head, directory, after);
      var middle := Skip(after, ReleaseOption()).value;
      SkipIs(after, ReleaseOption(), middle);
      var end := TakeRelease(middle).value.1;
      TakeReleaseIs(middle, expected, end);
      ModeOfIs(end, mode);
    }
    if IsSafeRelease(directory) && IsSafeRelease(expected)
       && command == prefix + directory + ReleaseOption() + expected + ModeText(mode) + QUOTE {
      assert command == prefix + (directory + (ReleaseOption() + tail));
      SkipIs(command, prefix, directory + (ReleaseOption() + tail));
      TakeReleaseIs(directory + (ReleaseOption() + tail), directory, ReleaseOption() + tail);
      SkipIs(ReleaseOption() + tail, ReleaseOption(), tail);
      TakeReleaseIs(tail, expected, last);
    }
  }

  lemma ReleaseOptionIsText()
    ensures ReleaseOption() != ""
  {
  }

  lemma MatchRollbackIs(command: string, release: string)
    ensures MatchRollback(command) == Some(release) <==>
              IsSafeRelease(release) && command == ScriptPrefix(RollbackScript()) + release + QUOTE
  {
    hide Skip, TakeRelease, IsSafeRelease, ScriptPrefix, RollbackScript, EndsRelease;
    ScriptTextFacts();
    var prefix := ScriptPrefix(RollbackScript());
    if MatchRollback(command) == Some(release) {
      var head := Skip(command, prefix).value;
      SkipIs(command, prefix, head);
      TakeReleaseIs(head, release, QUOTE);
    }
    if IsSafeRelease(release) && command == prefix + release + QUOTE {
      assert command == prefix + (release + QUOTE);
      SkipIs(command, prefix, release + QUOTE);
      TakeReleaseIs(release + QUOTE, release, QUOTE);
    }
  }

  /* ---------- The shapes never overlap ---------- */

  lemma UploadLetters()
    ensures |UploadHead()| > 5 && UploadHead()[5] == 'i'
  {
    hide IncomingRoot;
    assert "sudo install -d -o "[5] == 'i';
  }

  lemma ScriptLetters(script: string)
    ensures |ScriptPrefix(script)| > 5 && ScriptPrefix(script)[5] == '-'
  {
    hide ImporterPrefix, ScriptRoot;
  }

  lemma ReadLetters()
    ensures |ReadScript()| > 1 && ReadScript()[0] == 'r' && ReadScript()[1] == 'e'
  {
    hide ReleaseOption;
    assert "read_public_release.py"[1] == 'e';
  }

  lemma ImportLetters()
    ensures |ImportScript()| > 1 && ImportScript()[0] == 'i'
  {
    hide IncomingRoot;
    assert "import_public_release.py "[0] == 'i';
  }

  lemma RollbackLetters()
    ensures |RollbackScript()| > 1 && RollbackScript()[0] == 'r' && RollbackScript()[1] == 'o'
  {
  }

  /** Different script names cannot both start the same command. */
  lemma ScriptsDiffer(command: string, a: string, b: string, i: nat)
    requires i < |a| && i < |b| && a[i] != b[i]
    ensures Skip(command, ScriptPrefix(a)).None? || Skip(command, ScriptPrefix(b)).None?
  {
    var common := OuterPrefix() + ImporterPrefix() + ScriptRoot();
    hide OuterPrefix, ImporterPrefix, ScriptRoot;
    assert ScriptPrefix(a)[|common| + i] == a[i] && ScriptPrefix(b)[|common| + i] == b[i];
  }

  lemma ShapesAreDisjoint(command: string)
    ensures MatchUpload(command).Some? ==> MatchRead(command).None? && MatchImport(command).None? && MatchRollback(command).None?
    ensures MatchRead(command).Some? ==> MatchImport(command).None? && MatchRollback(command).None?
    ensures MatchImport(command).Some? ==> MatchRollback(command).None?
  {
    hide UploadHead, ScriptPrefix, ReadScript, ImportScript, RollbackScript, UploadMiddle, UploadTail, ReleaseOption;
    hide TakeRelease, TakeInns, ModeOf;
    UploadLetters();
    ScriptLetters(ReadScript());
    ScriptLetters(ImportScript());
    ScriptLetters(RollbackScript());
    ReadLetters();
    ImportLetters();
    RollbackLetters();
    ScriptsDiffer(command, ReadScript(), ImportScript(), 0);
    ScriptsDiffer(command, ReadScript(), RollbackScript(), 1);
    ScriptsDiffer(command, ImportScript(), RollbackScript(), 0);
  }

  /* ---------- Parsing and rendering undo each other ---------- */

  lemma ParseByShape(command: string, a: Action)
    requires command != ""
    ensures Parse(Some(command)) == Ok(a) <==>
              match a
              case Upload(release) => MatchUpload(command) == Some((release, release))
              case Read(release, inns) => MatchRead(command) == Some((release, inns)) && Sorted(inns) && Distinct(inns)
              case Import(release, mode) => MatchImport(command) == Some((release, release, mode))
              case Rollback(release) => MatchRollback(command) == Some(release)
  {
    ShapesAreDisjoint(command);
    hide MatchUpload, MatchRead, MatchImport, MatchRollback, Sorted, Distinct;
  }

  lemma RenderIsText(a: Action)
    ensures Render(a) != ""
  {
    hide UploadHead, Inner, UploadMiddle, UploadTail;
    UploadLetters();
  }

  lemma RenderedScript(script: string, rest: string)
    ensures OuterPrefix() + (ImporterPrefix() + ScriptRoot() + script + rest) + QUOTE == ScriptPrefix(script) + rest + QUOTE
  {
    hide OuterPrefix, ImporterPrefix, ScriptRoot;
  }

  lemma AcceptedIsRendered(command: string, a: Action)
    ensures IsWellFormed(a) && command == Render(a) <==>
              match a
              case Upload(release) => MatchUpload(command) == Some((release, release))
              case Read(release, inns) => MatchRead(command) == Some((release, inns)) && Sorted(inns) && Distinct(inns)
              case Import(release, mode) => MatchImport(command) == Some((release, release, mode))
              case Rollback(release) => MatchRollback(command) == Some(release)
  {
    hide MatchUpload, MatchRead, MatchImport, MatchRollback, Sorted, Distinct, IsInn, IsSafeRelease, InnOptions;
    hide OuterPrefix, ImporterPrefix, ScriptRoot, ScriptPrefix, ReadScript, ImportScript, RollbackScript;
    hide UploadHead, UploadMiddle, UploadTail, ReleaseOption, ModeText;
    var start := ImporterPrefix() + ScriptRoot();
    match a
    case Upload(release) => MatchUploadIs(command, release, release);
    case Read(release, inns) => {
      MatchReadIs(command, release, inns);
      RenderedScript(ReadScript(), release + InnOptions(inns));
      assert start + ReadScript() + (release + InnOptions(inns)) == Inner(a);
      assert ScriptPrefix(ReadScript()) + (release + InnOptions(inns)) == ScriptPrefix(ReadScript()) + release + InnOptions(inns);
    }
    case Import(release, mode) => {
      MatchImportIs(command, release, release, mode);
      var rest := release + ReleaseOption() + release + ModeText(mode);
      RenderedScript(ImportScript(), rest);
      assert start + ImportScript() + rest == Inner(a);
      assert ScriptPrefix(ImportScript()) + rest == ScriptPrefix(ImportScript()) + release + ReleaseOption() + release + ModeText(mode);
    }
    case Rollback(release) => {
      MatchRollbackIs(command, release);
      RenderedScript(RollbackScript(), release);
    }
  }

  /** A command is accepted as an action exactly when it is the rendering of that well-formed action. */
  lemma ParserIsPrinterInverse(command: string, a: Action)
    ensures Parse(Some(command)) == Ok(a) <==> IsWellFormed(a) && command == Render(a)
  {
    RenderIsText(a);
    if command != "" {
      ParseByShape(command, a);
      AcceptedIsRendered(command, a);
    }
  }

  /* ---------- Quoting ---------- */

  predicate HasNoQuote(s: string) {
    '\'' !in s
  }

  lemma RootsHaveNoQuote()
    ensures HasNoQuote(IncomingRoot()) && HasNoQuote(ScriptRoot()) && HasNoQuote(InnOption()) && HasNoQuote(ReleaseOption())
  {
    assert HasNoQuote("/opt/nextcompany/") && HasNoQuote("current/scripts/");
    assert HasNoQuote("/var/lib/") && HasNoQuote("nextcompany/incoming/");
  }

  lemma PrefixHasNoQuote()
    ensures HasNoQuote(ImporterPrefix())
  {
    assert HasNoQuote("set -a; source ") && HasNoQuote("/etc/nextcompany/") && HasNoQuote("importer.env; set +a; ");
    assert HasNoQuote("/opt/nextcompany/") && HasNoQuote("current/.venv/bin/python ");
  }

  lemma ScriptsHaveNoQuote()
    ensures HasNoQuote(ReadScript()) && HasNoQuote(ImportScript()) && HasNoQuote(RollbackScript())
    ensures forall mode :: HasNoQuote(ModeText(mode))
  {
    RootsHaveNoQuote();
    assert HasNoQuote("read_public_release.py") && HasNoQuote("import_public_release.py ");
    hide IncomingRoot, ReleaseOption;
  }

  lemma {:induction false} OptionsHaveNoQuote(inns: seq<string>)
    requires forall i :: 0 <= i < |inns| ==> IsInn(inns[i])
    ensures HasNoQuote(InnOptions(inns))
  {
    RootsHaveNoQuote();
    hide InnOption;
    if inns != [] {
      OptionsHaveNoQuote(inns[1..]);
      assert forall c :: c in inns[0] ==> '0' <= c <= '9';
    }
  }

  /** The quotes around the shell input of an accepted command are its only ones. */
  lemma ShellInputHasNoQuote(command: string, a: Action)
    requires Parse(Some(command)) == Ok(a) && !a.Upload?
    ensures HasNoQuote(Inner(a)) && command == OuterPrefix() + Inner(a) + QUOTE
  {
    hide Parse, OuterPrefix, ImporterPrefix, ScriptRoot, ReadScript, ImportScript, RollbackScript, ReleaseOption, ModeText;
    hide InnOptions, IsInn, Sorted, Distinct;
    ParserIsPrinterInverse(command, a);
    RootsHaveNoQuote();
    PrefixHasNoQuote();
    ScriptsHaveNoQuote();
    assert HasNoQuote(a.release);
    if a.Read? {
      OptionsHaveNoQuote(a.inns);
    }
  }
}
