/** The texts of the triton-import check: classifying diff lines, recognising
    the forbidden import, and rendering a structured diff. */
module TritonText {
  import opened Options
  import opened Sequences
  import opened Text
  import opened TritonDiff

  const ALLOWED_PREFIX := "from vllm.triton_utils import "
  const ALLOWED_LINES := {ALLOWED_PREFIX + "triton", ALLOWED_PREFIX + "tl", ALLOWED_PREFIX + "tl, triton"}

  const ALLOWED_FILE := Path("vllm/triton_utils/importing.py")

  predicate IsAllowedFile(file: Path) {
    file == ALLOWED_FILE
  }

  /** `^(from|import)\s+triton(\s|\.|$)` on a stripped line. */
  predicate MatchesImport(s: string) {
    || (StartsWith(s, "from") && TritonFollows(s[4..]))
    || (StartsWith(s, "import") && TritonFollows(s[6..]))
  }

  predicate TritonFollows(s: string) {
    s != [] && IsSpace(s[0]) &&
    var t := LStrip(s);
    StartsWith(t, "triton") && (|t| == 6 || IsSpace(t[6]) || t[6] == '.')
  }

  predicate IsForbiddenImport(code: Code) {
    var stripped := Strip(code.text);
    MatchesImport(stripped) && stripped !in ALLOWED_LINES
  }

  predicate StartsWithPlus(code: Code) {
    StartsWith(code.text, "+")
  }

  /** What an added line names when, with its plus sign in front, it reads like
      a file header. */
  function HeaderPath(code: Code): Option<Path> {
    if StartsWith(code.text, "++ b/") then Some(Path(code.text[5..])) else None
  }

  function TheTests(): Tests {
    Tests((c: Code) => IsForbiddenImport(c), (f: Path) => IsAllowedFile(f), (c: Code) => StartsWithPlus(c),
          (c: Code) => HeaderPath(c))
  }

  // ---- the forbidden pattern, by its parts

  ghost predicate IsTritonImport(text: string) {
    exists w1, k, w2, rest, w3 :: ImportParts(text, w1, k, w2, rest, w3)
  }

  /** `k` is the keyword, `rest` what follows the word triton. */
  predicate ImportParts(text: string, w1: string, k: string, w2: string, rest: string, w3: string) {
    && AllSpace(w1) && AllSpace(w3) && w2 != [] && AllSpace(w2)
    && (k == "from" || k == "import")
    && (rest != [] ==> IsSpace(rest[0]) || rest[0] == '.')
    && text == w1 + (k + (w2 + ("triton" + rest))) + w3
  }

  predicate FollowsWell(rest: string) {
    rest != [] ==> IsSpace(rest[0]) || rest[0] == '.'
  }

  lemma TritonFollowsParts(s: string) returns (w2: string, rest: string)
    requires TritonFollows(s)
    ensures w2 != [] && AllSpace(w2) && FollowsWell(rest) && s == w2 + ("triton" + rest)
  {
    w2 := LStripMeans(s);
    var t := LStrip(s);
    rest := t[6..];
    assert t[..6] == "triton";
    assert t == "triton" + rest;
    assert w2 == [] ==> s == t;
  }

  lemma PartsFollow(w2: string, rest: string)
    requires w2 != [] && AllSpace(w2) && FollowsWell(rest)
    ensures TritonFollows(w2 + ("triton" + rest))
  {
    var t := "triton" + rest;
    assert t[0] == 't';
    LStripOf(w2, t);
    assert t[..6] == "triton";
    assert rest != [] ==> t[6] == rest[0];
    assert (w2 + t)[0] == w2[0];
  }

  lemma KeywordMatches(k: string, w2: string, rest: string)
    requires k == "from" || k == "import"
    requires w2 != [] && AllSpace(w2) && FollowsWell(rest)
    ensures MatchesImport(k + (w2 + ("triton" + rest)))
  {
    var u := w2 + ("triton" + rest);
    PartsFollow(w2, rest);
    assert (k + u)[|k|..] == u;
  }

  lemma MatchParts(s: string) returns (k: string, w2: string, rest: string)
    requires MatchesImport(s)
    ensures (k == "from" || k == "import") && w2 != [] && AllSpace(w2) && FollowsWell(rest)
    ensures s == k + (w2 + ("triton" + rest))
  {
    if StartsWith(s, "from") && TritonFollows(s[4..]) {
      k := "from";
      w2, rest := TritonFollowsParts(s[4..]);
      assert s[..4] == k && s == s[..4] + s[4..];
    } else {
      k := "import";
      w2, rest := TritonFollowsParts(s[6..]);
      assert s[..6] == k && s == s[..6] + s[6..];
    }
  }

  /** The last character of a triton import that is not white space stands in
      the word triton or in the rest. */
  lemma StripParts(text: string, w1: string, k: string, w2: string, rest: string, w3: string) returns (rest': string)
    requires ImportParts(text, w1, k, w2, rest, w3)
    ensures FollowsWell(rest') && Strip(text) == k + (w2 + ("triton" + rest'))
  {
    var w := RStripMeans(rest + w3);
    rest' := RStrip(rest + w3);
    TailFollows(rest, w3);
    CoreEnds(k, w2, rest');
    MoveTail(k, w2, "triton", rest, w3);
    MoveTail(k, w2, "triton", rest', w);
    AppendAssoc(w1, k + (w2 + ("triton" + rest)), w3);
    StripOf(w1, k + (w2 + ("triton" + rest')), w);
  }

  lemma MoveTail(a: string, b: string, c: string, d: string, e: string)
    ensures a + (b + (c + d)) + e == a + (b + (c + (d + e)))
  {
    AppendAssoc(a, b + (c + d), e);
    AppendAssoc(b, c + d, e);
    AppendAssoc(c, d, e);
  }

  lemma TailFollows(rest: string, w3: string)
    requires FollowsWell(rest) && AllSpace(w3)
    ensures FollowsWell(RStrip(rest + w3))
  {
    var tail := rest + w3;
    var w := RStripMeans(tail);
    if RStrip(tail) != [] {
      assert RStrip(tail)[0] == tail[0];
    }
  }

  lemma CoreEnds(k: string, w2: string, rest: string)
    requires k == "from" || k == "import"
    requires rest != [] ==> !IsSpace(rest[|rest| - 1])
    ensures
      var core := k + (w2 + ("triton" + rest));
      core != [] && !IsSpace(core[0]) && !IsSpace(core[|core| - 1])
  {
    var core := k + (w2 + ("triton" + rest));
    assert core[0] == k[0] && "from"[0] == 'f' && "import"[0] == 'i';
    if rest == [] {
      assert core[|core| - 1] == "triton"[5] == 'n';
    } else {
      assert core[|core| - 1] == rest[|rest| - 1];
    }
  }

  /** A line is forbidden exactly when it is, between white space, `from` or
      `import`, white space, and triton as a whole word or before a dot. */
  lemma ForbiddenExactly(code: Code)
    ensures IsForbiddenImport(code) <==> IsTritonImport(code.text)
  {
    var text := code.text;
    if IsForbiddenImport(code) {
      var w1 := LStripMeans(text);
      var w3 := RStripMeans(LStrip(text));
      var k, w2, rest := MatchParts(Strip(text));
      assert text == w1 + (Strip(text) + w3);
      AppendAssoc(w1, Strip(text), w3);
      assert ImportParts(text, w1, k, w2, rest, w3);
    }
    if IsTritonImport(text) {
      var w1, k, w2, rest, w3 :| ImportParts(text, w1, k, w2, rest, w3);
      var rest' := StripParts(text, w1, k, w2, rest, w3);
      KeywordMatches(k, w2, rest');
      if Strip(text) in ALLOWED_LINES {
        AllowedLinesRedundant(Strip(text));
        assert false;
      }
    }
  }

  lemma FromTritonIsForbidden(rest: string)
    requires rest != [] ==> IsSpace(rest[0]) || rest[0] == '.'
    ensures IsForbiddenImport(Code("from triton" + rest))
  {
    var text := "from triton" + rest;
    assert text == "" + ("from" + (" " + ("triton" + rest))) + "";
    assert ImportParts(text, "", "from", " ", rest, "");
    ForbiddenExactly(Code(text));
  }

  lemma PlusIsNotForbidden(code: Code)
    requires StartsWithPlus(code)
    ensures !IsForbiddenImport(code)
  {
    StripKeepsFirst(code.text);
  }

  lemma TheTestsAreSane()
    ensures Sane(TheTests())
  {
    forall c: Code | TheTests().forbidden(c) ensures !TheTests().plus(c) {
      if StartsWithPlus(c) {
        PlusIsNotForbidden(c);
        assert false;
      }
    }
    forall c: Code | TheTests().header(c).Some? ensures TheTests().plus(c) {
      HeaderPathIsPlus(c);
    }
  }

  lemma HeaderPathIsPlus(code: Code)
    requires HeaderPath(code).Some?
    ensures StartsWithPlus(code)
  {
    assert code.text[0] == "++ b/"[0] == '+';
    assert code.text[..1] == "+";
  }

  /** The order of the tests in the loop: file header, hunk header, added line.
      The skip flag is not consulted here. */
  function Classify(line: string): Kind {
    if StartsWith(line, "+++ b/") then FileHeader(Path(line[6..]))
    else if StartsWith(line, "@@") then HunkHeader(NumberAfterPlus(line))
    else if StartsWith(line, "+") && !StartsWith(line, "++") then AddedLine(Code(line[1..]))
    else Ignored
  }

  function Kinds(lines: seq<string>): seq<Kind> {
    Map(Classify, lines)
  }

  datatype Outcome = Violations(list: seq<Violation>) | TypeError

  /** What the tracker makes of a list of lines. */
  function ParseResult(lines: seq<string>): Outcome {
    var s := Run(TheTests(), INITIAL, Kinds(lines));
    if s.crashed then TypeError else Violations(s.violations)
  }

  /** The loop over the diff. */
  method ParseDiff(lines: seq<string>) returns (r: Outcome)
    ensures r == ParseResult(lines)
  {
    var violations: seq<Violation> := [];
    var currentFile: Option<Path> := None;
    var currentLineno: Option<int> := None;
    var skipAllowedFile := false;
    ghost var ts, ks := TheTests(), Kinds(lines);
    for i := 0 to |lines|
      invariant Run(ts, INITIAL, ks[..i]) == State(currentFile, currentLineno, skipAllowedFile, violations, false)
    {
      var line := lines[i];
      ghost var s := State(currentFile, currentLineno, skipAllowedFile, violations, false);
      RunNext(ts, ks, i);
      MapAt(Classify, lines, i);
      StepCases(s, line);
      if StartsWith(line, "+++ b/") {
        currentFile := Some(Path(line[6..]));
        skipAllowedFile := IsAllowedFile(currentFile.value);
      } else if skipAllowedFile {
        continue;
      } else if StartsWith(line, "@@") {
        var found := NumberAfterPlus(line);
        if found.Some? {
          currentLineno := Some((found.value as int) - 1);
        }
      } else if StartsWith(line, "+") && !StartsWith(line, "++") {
        if currentLineno.None? {
          CrashIsFinal(ts, ks, i + 1);
          return TypeError;
        }
        currentLineno := Some(currentLineno.value + 1);
        var code := Code(line[1..]);
        if IsForbiddenImport(code) {
          violations := violations + [Violation(currentFile, currentLineno.value, code)];
        }
      }
    }
    assert ks[..|lines|] == ks;
    r := Violations(violations);
  }

  /** One loop iteration, test by test, is one step of the tracker. */
  lemma StepCases(s: State, line: string)
    requires !s.crashed
    ensures
      Step(TheTests(), s, Classify(line)) ==
      if StartsWith(line, "+++ b/") then s.(file := Some(Path(line[6..])), skip := IsAllowedFile(Path(line[6..])))
      else if s.skip then s
      else if StartsWith(line, "@@") then
        if NumberAfterPlus(line).Some? then s.(lineno := Some(NumberAfterPlus(line).value - 1)) else s
      else if StartsWith(line, "+") && !StartsWith(line, "++") then
        if s.lineno.None? then s.(crashed := true)
        else if IsForbiddenImport(Code(line[1..])) then
          s.(lineno := Some(s.lineno.value + 1),
             violations := s.violations + [Violation(s.file, s.lineno.value + 1, Code(line[1..]))])
        else s.(lineno := Some(s.lineno.value + 1))
      else s
  {
    assert s.violations + [] == s.violations;
  }

  /** On any lines at all, the type error occurs exactly when some added line
      outside exempt files comes before every hunk header outside them. */
  lemma TypeErrorExactly(lines: seq<string>)
    ensures ParseResult(lines).TypeError? <==> Uncountable(TheTests(), Kinds(lines))
  {
    CrashExactly(TheTests(), Kinds(lines));
  }

  lemma RunNext(ts: Tests, ks: seq<Kind>, i: nat)
    requires i < |ks|
    ensures Run(ts, INITIAL, ks[..i + 1]) == Step(ts, Run(ts, INITIAL, ks[..i]), ks[i])
  {
    assert ks[..i + 1][..i] == ks[..i];
  }

  lemma {:induction false} CrashIsFinal(ts: Tests, ks: seq<Kind>, i: nat)
    requires i <= |ks| && Run(ts, INITIAL, ks[..i]).crashed
    ensures Run(ts, INITIAL, ks).crashed
    decreases |ks| - i
  {
    if i == |ks| {
      assert ks[..i] == ks;
    } else {
      RunNext(ts, ks, i);
      CrashIsFinal(ts, ks, i + 1);
    }
  }

  // ---- rendering

  /** The parts of a hunk header that the tracker does not read hold no plus
      sign before the new start, and no digit right behind it. */
  predicate HunkTextOk(l: Line) {
    l.HunkStart? ==> '+' !in l.oldRange && (l.rest == [] || !IsDigit(l.rest[0]))
  }

  function RenderLine(l: Line): string {
    match l
    case HunkStart(start, oldRange, rest) => "@@ -" + oldRange + " +" + Dec(start) + rest
    case Removed(text) => "-" + text
    case Added(code) => "+" + code.text
    case NoNewline => "\\ No newline at end of file"
  }

  function RenderName(name: NewFile): string {
    match name
    case Plain(path) => "+++ b/" + path.text
    case Misread(_, seen) => "+++ b/" + seen.text
    case Unread(_, written) => "+++ " + written
    case Deleted => "+++ /dev/null"
  }

  /** Lines before the new file name: `diff --git`, `index`, modes, the old
      name. None of them begins like a line the tracker reads. */
  predicate PreambleOk(lines: seq<string>) {
    forall i :: 0 <= i < |lines| ==> !StartsWith(lines[i], "+") && !StartsWith(lines[i], "@@")
  }

  /** Every line `+++ …` is one of the four kinds: what begins with `b/` is
      read. */
  predicate NameOk(name: NewFile) {
    name.Unread? ==> !StartsWith(name.written, "b/")
  }

  ghost predicate TextOk(f: FileDiff) {
    PreambleOk(f.preamble) && NameOk(f.name) && forall p :: 0 <= p < |f.lines| ==> HunkTextOk(f.lines[p])
  }

  function RenderFile(f: FileDiff): seq<string> {
    f.preamble + ([RenderName(f.name)] + Map(RenderLine, f.lines))
  }

  function RenderDiff(d: seq<FileDiff>): seq<string> {
    if d == [] then [] else RenderDiff(d[..|d| - 1]) + RenderFile(d[|d| - 1])
  }

  // ---- classifying what was rendered

  lemma KindsCons(line: string, lines: seq<string>)
    ensures Kinds([line] + lines) == [Classify(line)] + Kinds(lines)
  {
    MapAppend(Classify, [line], lines);
    assert [line][..0] == [];
  }

  lemma {:induction false} PreambleKinds(lines: seq<string>)
    requires PreambleOk(lines)
    ensures Kinds(lines) == IgnoredLines(|lines|)
  {
    if lines != [] {
      PreambleKinds(lines[..|lines| - 1]);
      PlainLineIgnored(lines[|lines| - 1]);
      assert IgnoredLines(|lines|) == IgnoredLines(|lines| - 1) + [Ignored];
    }
  }

  lemma PlainLineIgnored(line: string)
    requires !StartsWith(line, "+") && !StartsWith(line, "@@")
    ensures Classify(line) == Ignored
  {
    PlusStarts(line);
    HeaderStarts(line);
  }

  lemma PlusStarts(line: string)
    ensures StartsWith(line, "+") <==> line != [] && line[0] == '+'
  {
    if line != [] {
      assert line[..1] == [line[0]];
    }
  }

  lemma HeaderStarts(line: string)
    ensures StartsWith(line, "+++ b/") ==> |line| >= 6 && line[0] == '+' && line[1..6] == "++ b/"
  {
    var h := "+++ b/";
    assert h[0] == '+' && h[1..6] == "++ b/";
    if h <= line {
      assert line[..6] == h;
    }
  }

  lemma PlainHeader(text: string)
    ensures Classify("+++ b/" + text) == FileHeader(Path(text))
  {
    var line := "+++ b/" + text;
    assert line[..6] == "+++ b/" && line[6..] == text;
  }

  lemma UnreadHeader(written: string)
    requires !StartsWith(written, "b/")
    ensures Classify("+++ " + written) == Ignored
  {
    var line := "+++ " + written;
    assert line[0] == line[1] == '+' && "@@"[0] == '@';
    assert line[..2] == "++";
    NameStarts(written);
  }

  lemma NameStarts(written: string)
    ensures StartsWith("+++ " + written, "+++ b/") ==> StartsWith(written, "b/")
  {
    var line, h := "+++ " + written, "+++ b/";
    if StartsWith(line, h) {
      assert line[..6] == h && h[4] == 'b' && h[5] == '/';
      assert written[0] == line[4] && written[1] == line[5];
      assert written[..2] == "b/";
    }
  }

  lemma NameKind(name: NewFile)
    requires NameOk(name)
    ensures Classify(RenderName(name)) == HeaderKind(name)
  {
    match name
    case Plain(path) =>
      PlainHeader(path.text);
    case Misread(_, seen) =>
      PlainHeader(seen.text);
    case Unread(_, written) =>
      UnreadHeader(written);
    case Deleted =>
      assert "/dev/null"[0] == '/' && "b/"[0] == 'b';
      UnreadHeader("/dev/null");
      assert "+++ /dev/null" == "+++ " + "/dev/null";
  }

  lemma HunkHeaderKind(l: Line)
    requires l.HunkStart? && HunkTextOk(l)
    ensures Classify(RenderLine(l)) == HunkHeader(Some(l.start))
  {
    var line := RenderLine(l);
    assert line[0] == '@' && "+++ b/"[0] == '+';
    assert line[..2] == "@@";
    var left := "@@ -" + l.oldRange + " ";
    assert line == left + "+" + Dec(l.start) + l.rest;
    NumberFound(left, l.start, l.rest);
  }

  lemma AddedKind(code: Code)
    ensures Classify(RenderLine(Added(code))) == KindOf(TheTests(), Added(code))
  {
    var line := RenderLine(Added(code));
    assert line[0] == '+' && line[1..] == code.text;
    HeaderLikeLine(line, code);
    assert "@@"[0] == '@';
    assert line[..1] == "+";
    AddedPlus(line, code);
  }

  lemma HeaderLikeLine(line: string, code: Code)
    requires line == "+" + code.text
    ensures StartsWith(line, "+++ b/") <==> StartsWith(code.text, "++ b/")
    ensures StartsWith(line, "+++ b/") ==> line[6..] == code.text[5..]
  {
    HeaderStarts(line);
    if StartsWith(code.text, "++ b/") {
      assert code.text[..5] == "++ b/";
      assert line[..6] == "+" + code.text[..5];
    }
    if |line| >= 6 {
      assert line[1..6] == code.text[..5];
    }
  }

  /** A rendered line is classified as what it was rendered from; an added line
      that reads like a file header is one to the tracker. */
  lemma LineKind(l: Line)
    requires HunkTextOk(l)
    ensures Classify(RenderLine(l)) == KindOf(TheTests(), l)
  {
    match l
    case HunkStart(_, _, _) =>
      HunkHeaderKind(l);
    case Removed(text) =>
      assert RenderLine(l)[0] == '-';
      PlainLineIgnored(RenderLine(l));
    case NoNewline =>
      assert RenderLine(l)[0] == '\\';
      PlainLineIgnored(RenderLine(l));
    case Added(code) =>
      AddedKind(code);
  }

  lemma AddedPlus(line: string, code: Code)
    requires line == "+" + code.text
    ensures StartsWith(line, "++") <==> StartsWithPlus(code)
  {
    if StartsWithPlus(code) {
      assert line[1] == code.text[0] == '+';
      assert line[..2] == "++";
    }
    if StartsWith(line, "++") {
      assert code.text[0] == line[1] == "++"[1];
      assert code.text[..1] == "+";
    }
  }

  lemma {:induction false} LinesKindsRendered(lines: seq<Line>)
    requires forall p :: 0 <= p < |lines| ==> HunkTextOk(lines[p])
    ensures Kinds(Map(RenderLine, lines)) == LinesKinds(TheTests(), lines)
  {
    if lines != [] {
      var front, l := lines[..|lines| - 1], lines[|lines| - 1];
      LinesKindsRendered(front);
      LineKind(l);
      MapAppend(Classify, Map(RenderLine, front), [RenderLine(l)]);
      KindsCons(RenderLine(l), []);
      assert [RenderLine(l)] + [] == [RenderLine(l)];
    }
  }

  lemma FileKindsRendered(f: FileDiff)
    requires TextOk(f)
    ensures Kinds(RenderFile(f)) == FileKinds(TheTests(), f)
  {
    PreambleKinds(f.preamble);
    NameKind(f.name);
    LinesKindsRendered(f.lines);
    KindsCons(RenderName(f.name), Map(RenderLine, f.lines));
    MapAppend(Classify, f.preamble, [RenderName(f.name)] + Map(RenderLine, f.lines));
  }

  lemma {:induction false} DiffKindsRendered(d: seq<FileDiff>)
    requires forall i :: 0 <= i < |d| ==> TextOk(d[i])
    ensures Kinds(RenderDiff(d)) == DiffKinds(TheTests(), d)
  {
    if d != [] {
      DiffKindsRendered(d[..|d| - 1]);
      FileKindsRendered(d[|d| - 1]);
      MapAppend(Classify, RenderDiff(d[..|d| - 1]), RenderFile(d[|d| - 1]));
    }
  }

  /** On every rendered zero-context diff: the check fails exactly when an added
      line outside exempt files, as the tracker sees them, comes before every
      hunk header outside them. Otherwise its report is put together file by
      file, and what a file contributes is the truth about it exactly when each
      of its forbidden lines is treated rightly. */
  method CheckRendered(d: seq<FileDiff>) returns (r: Outcome)
    requires forall i :: 0 <= i < |d| ==> TextOk(d[i]) && WellFormed(d[i])
    ensures r == ParseResult(RenderDiff(d))
    ensures r.TypeError? <==> Uncountable(TheTests(), DiffKinds(TheTests(), d))
    ensures r.Violations? ==> r.list == Flatten(FileReports(TheTests(), d))
    ensures r.Violations? ==>
              forall i :: 0 <= i < |d| ==>
                (FileReport(TheTests(), d, i) == TrueFile(TheTests(), d[i])
                 <==> ExactFile(TheTests(), Before(TheTests(), d, i), d[i]))
  {
    r := ParseDiff(RenderDiff(d));
    TheTestsAreSane();
    DiffKindsRendered(d);
    CrashExactly(TheTests(), DiffKinds(TheTests(), d));
    if r.Violations? {
      DiffExact(TheTests(), d);
    }
  }

  /** `r` reports, in order, the triton imports that the file `path` adds, at the
      places `at`, each with its number. */
  ghost predicate ImportsAt(path: Path, lines: seq<Line>, r: seq<Violation>, at: seq<nat>) {
    && |at| == |r| && Increasing(at)
    && (forall k :: 0 <= k < |at| ==>
          && at[k] < |lines| && lines[at[k]].Added? && IsTritonImport(lines[at[k]].code.text)
          && r[k].file == Some(path) && r[k].code == lines[at[k]].code && NumberAt(lines, at[k], r[k].lineno))
    && (forall p :: 0 <= p < |lines| && lines[p].Added? && IsTritonImport(lines[p].code.text) ==> p in at)
  }

  /** What must be said about a file: nothing when it is deleted or the exempt
      one, all its triton imports otherwise. */
  ghost predicate IsFileTruth(f: FileDiff, r: seq<Violation>) {
    if f.name.Deleted? || f.name.path == Path("vllm/triton_utils/importing.py") then r == []
    else exists at :: ImportsAt(f.name.path, f.lines, r, at)
  }

  lemma TrueFileMeans(f: FileDiff)
    requires WellFormed(f)
    ensures IsFileTruth(f, TrueFile(TheTests(), f))
  {
    if !f.name.Deleted? && !IsAllowedFile(f.name.path) {
      var lines := f.lines;
      var r := TrueLines(TheTests(), f.name.path, lines);
      var at := TrueLinesMean(TheTests(), f.name.path, lines);
      forall p | 0 <= p < |lines| && lines[p].Added?
        ensures Bad(TheTests(), lines[p]) <==> IsTritonImport(lines[p].code.text)
      {
        ForbiddenExactly(lines[p].code);
      }
      forall k | 0 <= k < |at| ensures NumberAt(lines, at[k], r[k].lineno) {
        assert ReportsAt(TheTests(), f.name.path, lines, r[k], at[k]);
        NumberIsNext(lines, at[k]);
      }
      assert ImportsAt(f.name.path, lines, r, at);
    }
  }

  /** No added line begins with a plus sign. */
  ghost predicate NoPlus(lines: seq<Line>) {
    forall p :: 0 <= p < |lines| && lines[p].Added? && lines[p].code.text != [] ==> lines[p].code.text[0] != '+'
  }

  ghost predicate NoImport(lines: seq<Line>) {
    forall p :: 0 <= p < |lines| && lines[p].Added? ==> !IsTritonImport(lines[p].code.text)
  }

  /** On a diff whose added lines never begin with a plus sign, and with triton
      imports only in plainly named files, the check is right: file by file it
      reports the triton imports that are added outside the exempt file, each
      with its file and its number, and nothing else. */
  lemma CheckIsRight(d: seq<FileDiff>) returns (parts: seq<seq<Violation>>)
    requires forall i :: 0 <= i < |d| ==> TextOk(d[i]) && WellFormed(d[i]) && NoPlus(d[i].lines)
    requires forall i :: 0 <= i < |d| ==> d[i].name.Plain? || NoImport(d[i].lines)
    ensures ParseResult(RenderDiff(d)) == Violations(Flatten(parts))
    ensures |parts| == |d| && forall i :: 0 <= i < |d| ==> IsFileTruth(d[i], parts[i])
  {
    TheTestsAreSane();
    DiffKindsRendered(d);
    forall i | 0 <= i < |d|
      ensures NoPlusLed(TheTests(), d[i].lines) && (NoImport(d[i].lines) ==> NoBad(TheTests(), d[i].lines))
    {
      OrdinaryLines(d[i].lines);
    }
    OrdinaryReport(TheTests(), d);
    parts := Map((f: FileDiff) => TrueFile(TheTests(), f), d);
    forall i | 0 <= i < |d| ensures IsFileTruth(d[i], parts[i]) {
      MapAt((f: FileDiff) => TrueFile(TheTests(), f), d, i);
      TrueFileMeans(d[i]);
    }
  }

  lemma OrdinaryLines(lines: seq<Line>)
    requires NoPlus(lines)
    ensures NoPlusLed(TheTests(), lines) && (NoImport(lines) ==> NoBad(TheTests(), lines))
  {
    forall p | 0 <= p < |lines| && lines[p].Added?
      ensures !PlusLed(TheTests(), lines[p])
      ensures Bad(TheTests(), lines[p]) <==> IsTritonImport(lines[p].code.text)
    {
      PlusStarts(lines[p].code.text);
      ForbiddenExactly(lines[p].code);
    }
  }

  /** The set of allowed lines changes nothing: none of them matches the
      forbidden pattern. */
  lemma AllowedLinesRedundant(s: string)
    requires s in ALLOWED_LINES
    ensures !MatchesImport(s)
  {
    AllowedLineStarts(s);
    AnotherModule(s);
  }

  lemma AllowedLineStarts(s: string)
    requires s in ALLOWED_LINES
    ensures |s| > 5 && s[0] == 'f' && s[4] == ' ' && s[5] == 'v'
  {
    var p := ALLOWED_PREFIX;
    assert |p| == 30 && p[0] == 'f' && p[4] == ' ' && p[5] == 'v';
    assert s[..30] == p;
  }

  lemma AnotherModule(s: string)
    requires |s| > 5 && s[0] == 'f' && s[4] == ' ' && s[5] == 'v'
    ensures !MatchesImport(s)
  {
    var t := s[4..];
    assert t[1..][0] == 'v';
    assert LStrip(t) == LStrip(t[1..]);
    assert "triton"[0] == 't' && "import"[0] == 'i';
  }

  // ---- concrete inputs

  lemma StripTight(s: string)
    requires s != [] && !IsSpace(s[0]) && !IsSpace(s[|s| - 1])
    ensures Strip(s) == s
  {
  }

  lemma TritonAlone()
    ensures TritonFollows(" triton")
  {
    var t := " triton";
    assert t[1..] == "triton";
    assert "triton"[0] == 't';
    assert LStrip("triton") == "triton";
    assert LStrip(t) == LStrip(t[1..]);
  }

  lemma ImportTritonIsForbidden()
    ensures IsForbiddenImport(Code("import triton"))
  {
    var s := "import triton";
    assert s[0] == 'i' && s[12] == 'n';
    StripTight(s);
    assert s[..6] == "import" && s[6..] == " triton";
    TritonAlone();
    forall l | l in ALLOWED_LINES ensures l != s {
      AllowedLineStarts(l);
    }
  }

  /** A hunk header as git prints it, with the given new start. */
  function PlainHunk(start: nat): Line {
    HunkStart(start, "0,0", ",1 @@")
  }

  predicate PlainHunks(f: FileDiff) {
    f.preamble == [] && NameOk(f.name) &&
    forall p :: 0 <= p < |f.lines| && f.lines[p].HunkStart? ==> f.lines[p] == PlainHunk(f.lines[p].start)
  }

  lemma PlainHunksOk(f: FileDiff)
    requires PlainHunks(f)
    ensures TextOk(f)
  {
    assert HunkTextOk(PlainHunk(0)) by {
      assert '+' !in "0,0" && ",1 @@"[0] == ',';
    }
    forall p | 0 <= p < |f.lines| ensures HunkTextOk(f.lines[p]) {
      assert f.lines[p].HunkStart? ==> f.lines[p] == PlainHunk(f.lines[p].start);
    }
  }

  lemma RenderedResult(d: seq<FileDiff>)
    requires forall i :: 0 <= i < |d| ==> PlainHunks(d[i])
    ensures Kinds(RenderDiff(d)) == DiffKinds(TheTests(), d)
  {
    forall i | 0 <= i < |d| ensures TextOk(d[i]) {
      PlainHunksOk(d[i]);
    }
    DiffKindsRendered(d);
  }

  lemma NotAllowed(text: string)
    requires text != [] && text[0] != 'v'
    ensures !IsAllowedFile(Path(text))
  {
    assert "vllm/triton_utils/importing.py"[0] == 'v';
  }

  lemma OrdinaryFile()
    ensures !IsAllowedFile(Path("a.py"))
  {
    assert "a.py"[0] == 'a';
    NotAllowed("a.py");
  }

  lemma FakeHeader(text: string)
    ensures HeaderPath(Code("++ b/" + text)) == Some(Path(text))
  {
    var s := "++ b/" + text;
    assert s[..5] == "++ b/" && s[5..] == text;
  }

  lemma ShiftedText(name: Path, plus: Code, bad: Code)
    requires !IsAllowedFile(name) && StartsWithPlus(plus) && HeaderPath(plus).None? && IsForbiddenImport(bad)
    ensures
      var d := [FileDiff([], Plain(name), [PlainHunk(1), Added(plus), Added(bad)])];
      && ParseResult(RenderDiff(d)) == Violations([Violation(Some(name), 1, bad)])
      && TrueDiff(TheTests(), d) == [Violation(Some(name), 2, bad)]
  {
    var d := [FileDiff([], Plain(name), [PlainHunk(1), Added(plus), Added(bad)])];
    TheTestsAreSane();
    RenderedResult(d);
    ShiftedNumber(TheTests(), name, PlainHunk(1), plus, bad);
  }

  /** The forbidden import is the second line of the new file and is reported as
      the first. */
  lemma PlusLedLineShiftsNumber()
    ensures
      var bad := Code("import triton");
      var d := [FileDiff([], Plain(Path("a.py")), [PlainHunk(1), Added(Code("+")), Added(bad)])];
      && ParseResult(RenderDiff(d)) == Violations([Violation(Some(Path("a.py")), 1, bad)])
      && TrueDiff(TheTests(), d) == [Violation(Some(Path("a.py")), 2, bad)]
  {
    ImportTritonIsForbidden();
    OrdinaryFile();
    assert HeaderPath(Code("+")).None?;
    ShiftedText(Path("a.py"), Code("+"), Code("import triton"));
  }

  lemma LostText(name: Path, fake: Code, bad: Code)
    requires !IsAllowedFile(name) && IsForbiddenImport(bad)
    requires HeaderPath(fake).Some? && IsAllowedFile(HeaderPath(fake).value)
    ensures
      var d := [FileDiff([], Plain(name), [PlainHunk(1), Added(fake), PlainHunk(5), Added(bad)])];
      && ParseResult(RenderDiff(d)) == Violations([])
      && TrueDiff(TheTests(), d) == [Violation(Some(name), 5, bad)]
  {
    var d := [FileDiff([], Plain(name), [PlainHunk(1), Added(fake), PlainHunk(5), Added(bad)])];
    TheTestsAreSane();
    RenderedResult(d);
    LostViolation(TheTests(), name, PlainHunk(1), fake, PlainHunk(5), bad);
  }

  /** An added line that reads like the header of the exempt file hides a
      forbidden import further down: nothing is reported. */
  lemma FakeHeaderLosesViolation()
    ensures
      var bad := Code("import triton");
      var fake := Added(Code("++ b/" + ALLOWED_FILE.text));
      var d := [FileDiff([], Plain(Path("a.py")), [PlainHunk(1), fake, PlainHunk(5), Added(bad)])];
      && ParseResult(RenderDiff(d)) == Violations([])
      && TrueDiff(TheTests(), d) == [Violation(Some(Path("a.py")), 5, bad)]
  {
    ImportTritonIsForbidden();
    OrdinaryFile();
    FakeHeader(ALLOWED_FILE.text);
    LostText(Path("a.py"), Code("++ b/" + ALLOWED_FILE.text), Code("import triton"));
  }

  lemma FailingText(fake: Code, c: Code)
    requires HeaderPath(fake).Some? && !IsAllowedFile(HeaderPath(fake).value)
    requires !StartsWithPlus(c) && HeaderPath(c).None?
    ensures ParseResult(RenderDiff([FileDiff([], Plain(ALLOWED_FILE), [PlainHunk(1), Added(fake), Added(c)])])) == TypeError
  {
    RenderedResult([FileDiff([], Plain(ALLOWED_FILE), [PlainHunk(1), Added(fake), Added(c)])]);
    FailingExemptFile(TheTests(), ALLOWED_FILE, PlainHunk(1), fake, c);
  }

  /** In the exempt file an added line that reads like another file's header
      makes the check fail. */
  lemma FakeHeaderFails()
    ensures
      var d := [FileDiff([], Plain(ALLOWED_FILE), [PlainHunk(1), Added(Code("++ b/x.py")), Added(Code("y"))])];
      ParseResult(RenderDiff(d)) == TypeError
  {
    FakeHeader("x.py");
    assert "++ b/" + "x.py" == "++ b/x.py";
    assert "x.py"[0] == 'x';
    NotAllowed("x.py");
    assert "y"[0] == 'y' && "++ b/"[0] == '+';
    FailingText(Code("++ b/x.py"), Code("y"));
  }

  /** A file whose name is not read, behind the exempt file: the import is
      passed over although no added line begins with a plus sign. */
  lemma UnreadText(name: Path, written: string, bad: Code)
    requires !IsAllowedFile(name) && IsForbiddenImport(bad) && !StartsWith(written, "b/")
    ensures
      var d := [FileDiff([], Plain(ALLOWED_FILE), [PlainHunk(1)]),
                FileDiff([], Unread(name, written), [PlainHunk(1), Added(bad)])];
      && ParseResult(RenderDiff(d)) == Violations([])
      && TrueDiff(TheTests(), d) == [Violation(Some(name), 1, bad)]
  {
    var d := [FileDiff([], Plain(ALLOWED_FILE), [PlainHunk(1)]),
              FileDiff([], Unread(name, written), [PlainHunk(1), Added(bad)])];
    TheTestsAreSane();
    RenderedResult(d);
    UnreadLost(TheTests(), ALLOWED_FILE, PlainHunk(1), name, written, PlainHunk(1), bad);
  }

  lemma QuotedIsUnread(escaped: string)
    ensures !StartsWith("\"b/" + escaped + "\"", "b/")
  {
    assert ("\"b/" + escaped + "\"")[0] == '"' && "b/"[0] == 'b';
  }

  /** The same for the file `a"b`, which is written `"b/a\"b"`. */
  lemma QuotedNameLosesViolation()
    ensures
      var bad := Code("import triton");
      var d := [FileDiff([], Plain(ALLOWED_FILE), [PlainHunk(1)]),
                FileDiff([], Quoted(Path("a\"b"), "a\\\"b"), [PlainHunk(1), Added(bad)])];
      && ParseResult(RenderDiff(d)) == Violations([])
      && TrueDiff(TheTests(), d) == [Violation(Some(Path("a\"b")), 1, bad)]
  {
    ImportTritonIsForbidden();
    assert "a\"b"[0] == 'a';
    NotAllowed("a\"b");
    QuotedIsUnread("a\\\"b");
    UnreadText(Path("a\"b"), Quoted(Path("a\"b"), "a\\\"b").written, Code("import triton"));
  }
}
