/** The tracker that walks a unified diff and reports forbidden imports with
    file name and line number. The lines are already classified here; the texts
    are in the module TritonText. */
module TritonDiff {
  import opened Options
  import opened Sequences

  datatype Path = Path(text: string)
  datatype Code = Code(text: string)
  datatype Violation = Violation(file: Option<Path>, lineno: int, code: Code)

  /** What a diff line is to the tracker. */
  datatype Kind =
    | FileHeader(file: Path)
    | HunkHeader(start: Option<nat>)
    | AddedLine(code: Code)
    | Ignored

  /** The tracker's variables. `crashed` is the type error of counting before
      any hunk header gave a number. */
  datatype State = State(file: Option<Path>, lineno: Option<int>, skip: bool,
                         violations: seq<Violation>, crashed: bool)

  const INITIAL := State(None, None, false, [], false)

  /** The tests on texts: forbidden import, exempt file, an added line that
      itself begins with a plus sign, and the path that an added line names when
      it reads like a file header once its plus sign is in front. */
  datatype Tests = Tests(forbidden: Code -> bool, allowedFile: Path -> bool, plus: Code -> bool,
                         header: Code -> Option<Path>)

  /** A forbidden import does not begin with a plus sign; a header-like line
      does. */
  ghost predicate Sane(ts: Tests) {
    && (forall c :: ts.forbidden(c) ==> !ts.plus(c))
    && (forall c :: ts.header(c).Some? ==> ts.plus(c))
  }

  function Step(ts: Tests, s: State, k: Kind): State {
    if s.crashed then s
    else if k.FileHeader? then s.(file := Some(k.file), skip := ts.allowedFile(k.file))
    else if s.skip then s
    else if k.HunkHeader? then (if k.start.Some? then s.(lineno := Some(k.start.value - 1)) else s)
    else if k.AddedLine? then
      if s.lineno.None? then s.(crashed := true)
      else
        var n := s.lineno.value + 1;
        s.(lineno := Some(n),
           violations := s.violations + if ts.forbidden(k.code) then [Violation(s.file, n, k.code)] else [])
    else s
  }

  function Run(ts: Tests, s: State, ks: seq<Kind>): State {
    if ks == [] then s else Step(ts, Run(ts, s, ks[..|ks| - 1]), ks[|ks| - 1])
  }

  lemma {:induction false} RunAppend(ts: Tests, s: State, a: seq<Kind>, b: seq<Kind>)
    ensures Run(ts, s, a + b) == Run(ts, Run(ts, s, a), b)
  {
    if b == [] {
      assert a + b == a;
    } else {
      RunAppend(ts, s, a, b[..|b| - 1]);
      assert (a + b)[..|a + b| - 1] == a + b[..|b| - 1];
    }
  }

  lemma RunSnoc(ts: Tests, s: State, ks: seq<Kind>, k: Kind)
    ensures Run(ts, s, ks + [k]) == Step(ts, Run(ts, s, ks), k)
  {
    assert (ks + [k])[..|ks|] == ks;
  }

  lemma RunOne(ts: Tests, s: State, k: Kind)
    ensures Run(ts, s, [k]) == Step(ts, s, k)
  {
    assert [k][..0] == [];
  }

  lemma {:induction false} CrashStays(ts: Tests, s: State, ks: seq<Kind>)
    requires s.crashed
    ensures Run(ts, s, ks) == s
  {
    if ks != [] {
      CrashStays(ts, s, ks[..|ks| - 1]);
    }
  }

  // ---- when the tracker fails

  /** The file named by the last file header of `ks`. */
  function FileOf(ks: seq<Kind>): Option<Path> {
    if ks == [] then None
    else if ks[|ks| - 1].FileHeader? then Some(ks[|ks| - 1].file)
    else FileOf(ks[..|ks| - 1])
  }

  /** The tracker passes over the lines of the file it believes in. */
  predicate Skips(ts: Tests, file: Option<Path>) {
    file.Some? && ts.allowedFile(file.value)
  }

  predicate Skipping(ts: Tests, ks: seq<Kind>) {
    Skips(ts, FileOf(ks))
  }

  /** Line q gives the tracker a number: a hunk header outside exempt files. */
  predicate GivesNumber(ts: Tests, ks: seq<Kind>, q: nat)
    requires q < |ks|
  {
    ks[q].HunkHeader? && ks[q].start.Some? && !Skipping(ts, ks[..q])
  }

  /** Line p is counted: an added line outside exempt files. */
  predicate IsCounted(ts: Tests, ks: seq<Kind>, p: nat)
    requires p < |ks|
  {
    ks[p].AddedLine? && !Skipping(ts, ks[..p])
  }

  /** A counted line with no number given above it. */
  ghost predicate Uncountable(ts: Tests, ks: seq<Kind>) {
    exists p :: 0 <= p < |ks| && IsCounted(ts, ks, p) && NoNumberBefore(ts, ks, p)
  }

  ghost predicate NoNumberBefore(ts: Tests, ks: seq<Kind>, p: nat)
    requires p <= |ks|
  {
    forall q :: 0 <= q < p ==> !GivesNumber(ts, ks, q)
  }

  lemma UncountableNext(ts: Tests, ks: seq<Kind>)
    requires ks != []
    ensures
      var n := |ks| - 1;
      var front := ks[..n];
      && (Uncountable(ts, ks) <==>
            Uncountable(ts, front) || (IsCounted(ts, ks, n) && NoNumberBefore(ts, front, n)))
      && (NoNumberBefore(ts, ks, n + 1) <==> NoNumberBefore(ts, front, n) && !GivesNumber(ts, ks, n))
  {
    var n := |ks| - 1;
    var front := ks[..n];
    forall p | 0 <= p < n
      ensures IsCounted(ts, ks, p) == IsCounted(ts, front, p) && GivesNumber(ts, ks, p) == GivesNumber(ts, front, p)
    {
      assert ks[..p] == front[..p];
    }
    forall p | 0 <= p <= n ensures NoNumberBefore(ts, ks, p) == NoNumberBefore(ts, front, p) {
    }
    if Uncountable(ts, front) {
      var p :| 0 <= p < |front| && IsCounted(ts, front, p) && NoNumberBefore(ts, front, p);
      assert IsCounted(ts, ks, p) && NoNumberBefore(ts, ks, p);
    }
  }

  /** The type error, for every sequence of lines: it occurs exactly when an
      added line is counted before any number was given. */
  lemma {:induction false} CrashExactly(ts: Tests, ks: seq<Kind>)
    ensures
      var s := Run(ts, INITIAL, ks);
      && (s.crashed <==> Uncountable(ts, ks))
      && (!s.crashed ==>
            && s.file == FileOf(ks) && s.skip == Skipping(ts, ks)
            && (s.lineno.None? <==> NoNumberBefore(ts, ks, |ks|)))
  {
    if ks != [] {
      CrashExactly(ts, ks[..|ks| - 1]);
      UncountableNext(ts, ks);
    }
  }

  // ---- structured zero-context diffs

  /** A line of a changed file: a hunk header with the new start line and the
      text around it, or a line of a hunk's body. */
  datatype Line =
    | HunkStart(start: nat, oldRange: string, rest: string)
    | Removed(text: string)
    | Added(code: Code)
    | NoNewline

  /** The line that names the new file. It can name it plainly, read like the
      name of another file, not be read at all, or say that the file is
      deleted. */
  datatype NewFile = Plain(path: Path) | Misread(path: Path, seen: Path) | Unread(path: Path, written: string) | Deleted

  /** A name with a space has a tab behind it. */
  function Tabbed(path: Path): NewFile {
    Misread(path, Path(path.text + "\t"))
  }

  /** A name with special characters is quoted and escaped. */
  function Quoted(path: Path, escaped: string): NewFile {
    Unread(path, "\"b/" + escaped + "\"")
  }

  /** A changed file. */
  datatype FileDiff = FileDiff(preamble: seq<string>, name: NewFile, lines: seq<Line>)

  /** What the tracker takes the file to be, when it reads the line at all. */
  function ReadAs(name: NewFile): Option<Path> {
    match name
    case Plain(path) => Some(path)
    case Misread(_, seen) => Some(seen)
    case Unread(_, _) => None
    case Deleted => None
  }

  predicate Bad(ts: Tests, l: Line) {
    l.Added? && ts.forbidden(l.code)
  }

  predicate PlusLed(ts: Tests, l: Line) {
    l.Added? && ts.plus(l.code)
  }

  predicate HeaderLike(ts: Tests, l: Line) {
    l.Added? && ts.header(l.code).Some?
  }

  ghost predicate NoHeaderLike(ts: Tests, lines: seq<Line>) {
    forall p :: 0 <= p < |lines| ==> !HeaderLike(ts, lines[p])
  }

  /** The number in the new file of a line added after `lines`. */
  function NextNumber(lines: seq<Line>): nat {
    if lines == [] then 0
    else
      var l := lines[|lines| - 1];
      if l.HunkStart? then l.start
      else NextNumber(lines[..|lines| - 1]) + (if l.Added? then 1 else 0)
  }

  /** Lines begin with a hunk header, and hunks come in order without overlap. */
  ghost predicate InOrder(lines: seq<Line>) {
    && (lines != [] ==> lines[0].HunkStart?)
    && (forall p :: 0 <= p < |lines| && lines[p].HunkStart? ==> NextNumber(lines[..p]) <= lines[p].start)
  }

  /** The truth about a file: its forbidden added lines with their numbers. */
  function TrueLines(ts: Tests, name: Path, lines: seq<Line>): seq<Violation> {
    if lines == [] then []
    else
      var front, l := lines[..|lines| - 1], lines[|lines| - 1];
      TrueLines(ts, name, front) + (if Bad(ts, l) then [Violation(Some(name), NextNumber(front), l.code)] else [])
  }

  /** The truth about a file called `name`: nothing when it is exempt. */
  function Truth(ts: Tests, name: Path, lines: seq<Line>): seq<Violation> {
    if ts.allowedFile(name) then [] else TrueLines(ts, name, lines)
  }

  function TrueFile(ts: Tests, f: FileDiff): seq<Violation> {
    if f.name.Deleted? then [] else Truth(ts, f.name.path, f.lines)
  }

  /** Forbidden added lines of the files that are not exempt, in order. */
  function TrueDiff(ts: Tests, d: seq<FileDiff>): seq<Violation> {
    Flatten(Map((f: FileDiff) => TrueFile(ts, f), d))
  }

  // ---- the truth by places

  /** Line q is the last hunk header above place p. */
  ghost predicate HunkAbove(lines: seq<Line>, p: nat, q: nat) {
    q < p <= |lines| && lines[q].HunkStart? && forall j :: q < j < p ==> !lines[j].HunkStart?
  }

  ghost function AddedBetween(lines: seq<Line>, q: nat, p: nat): set<int>
    requires p <= |lines|
  {
    set j | q < j < p && lines[j].Added?
  }

  /** The line at place p has the number n in the new file: the start of its hunk
      plus the added lines before it in the hunk. */
  ghost predicate NumberAt(lines: seq<Line>, p: nat, n: int) {
    p <= |lines| && exists q: nat :: HunkAbove(lines, p, q) && n == lines[q].start + |AddedBetween(lines, q, p)|
  }

  lemma NextNumberStep(lines: seq<Line>, p: nat)
    requires 0 < p <= |lines|
    ensures NextNumber(lines[..p]) ==
              if lines[p - 1].HunkStart? then lines[p - 1].start
              else NextNumber(lines[..p - 1]) + (if lines[p - 1].Added? then 1 else 0)
  {
    assert lines[..p][..p - 1] == lines[..p - 1];
  }

  lemma AddedStep(lines: seq<Line>, q: nat, p: nat)
    requires q < p - 1 < |lines|
    ensures |AddedBetween(lines, q, p)| == |AddedBetween(lines, q, p - 1)| + (if lines[p - 1].Added? then 1 else 0)
  {
    if lines[p - 1].Added? {
      assert AddedBetween(lines, q, p) == AddedBetween(lines, q, p - 1) + {p - 1};
    } else {
      assert AddedBetween(lines, q, p) == AddedBetween(lines, q, p - 1);
    }
  }

  lemma {:induction false} NextNumberMeans(lines: seq<Line>, p: nat, q: nat)
    requires HunkAbove(lines, p, q)
    ensures NextNumber(lines[..p]) == lines[q].start + |AddedBetween(lines, q, p)|
    decreases p
  {
    NextNumberStep(lines, p);
    if q == p - 1 {
      assert AddedBetween(lines, q, p) == {};
    } else {
      NextNumberMeans(lines, p - 1, q);
      AddedStep(lines, q, p);
    }
  }

  lemma {:induction false} HunkAboveExists(lines: seq<Line>, p: nat) returns (q: nat)
    requires 0 < p <= |lines| && lines[0].HunkStart?
    ensures HunkAbove(lines, p, q)
  {
    if lines[p - 1].HunkStart? {
      q := p - 1;
    } else {
      q := HunkAboveExists(lines, p - 1);
    }
  }

  lemma NumberIsNext(lines: seq<Line>, p: nat)
    requires 0 < p <= |lines| && lines[0].HunkStart?
    ensures NumberAt(lines, p, NextNumber(lines[..p]))
  {
    var q := HunkAboveExists(lines, p);
    NextNumberMeans(lines, p, q);
  }

  /** v reports the forbidden line at place p. */
  ghost predicate ReportsAt(ts: Tests, name: Path, lines: seq<Line>, v: Violation, p: nat) {
    && p < |lines| && Bad(ts, lines[p])
    && v == Violation(Some(name), NextNumber(lines[..p]), lines[p].code)
  }

  /** `r` reports, in order, the forbidden lines at the places `at`, and those
      are all. */
  ghost predicate TrueAt(ts: Tests, name: Path, lines: seq<Line>, r: seq<Violation>, at: seq<nat>) {
    && |at| == |r| && Increasing(at) && Covers(ts, lines, at)
    && forall k :: 0 <= k < |at| ==> ReportsAt(ts, name, lines, r[k], at[k])
  }

  ghost predicate Covers(ts: Tests, lines: seq<Line>, at: seq<nat>) {
    forall p :: 0 <= p < |lines| && Bad(ts, lines[p]) ==> p in at
  }

  lemma CoversNext(ts: Tests, front: seq<Line>, l: Line, at: seq<nat>)
    requires Covers(ts, front, at)
    ensures Covers(ts, front + [l], at + [|front|])
    ensures !Bad(ts, l) ==> Covers(ts, front + [l], at)
  {
    var lines := front + [l];
    assert (at + [|front|])[|at|] == |front|;
    forall p | 0 <= p < |front| && Bad(ts, lines[p]) ensures p in at {
      assert front[p] == lines[p];
    }
  }

  lemma ReportsAtStays(ts: Tests, name: Path, front: seq<Line>, l: Line, v: Violation, p: nat)
    requires ReportsAt(ts, name, front, v, p)
    ensures ReportsAt(ts, name, front + [l], v, p)
  {
    assert (front + [l])[..p] == front[..p];
  }

  lemma TrueAtSame(ts: Tests, name: Path, front: seq<Line>, l: Line, r: seq<Violation>, at: seq<nat>)
    requires TrueAt(ts, name, front, r, at) && !Bad(ts, l)
    ensures TrueAt(ts, name, front + [l], r, at)
  {
    forall k | 0 <= k < |at| ensures ReportsAt(ts, name, front + [l], r[k], at[k]) {
      ReportsAtStays(ts, name, front, l, r[k], at[k]);
    }
    CoversNext(ts, front, l, at);
  }

  lemma TrueAtNext(ts: Tests, name: Path, front: seq<Line>, l: Line, r: seq<Violation>, at: seq<nat>)
    requires TrueAt(ts, name, front, r, at) && Bad(ts, l)
    ensures TrueAt(ts, name, front + [l], r + [Violation(Some(name), NextNumber(front), l.code)], at + [|front|])
  {
    var lines, v := front + [l], Violation(Some(name), NextNumber(front), l.code);
    assert lines[..|front|] == front;
    assert ReportsAt(ts, name, lines, v, |front|);
    forall k | 0 <= k < |at| ensures at[k] < |front| && ReportsAt(ts, name, lines, r[k], at[k]) {
      assert ReportsAt(ts, name, front, r[k], at[k]);
      ReportsAtStays(ts, name, front, l, r[k], at[k]);
    }
    IncreasingSnoc(at, |front|);
    CoversNext(ts, front, l, at);
  }

  lemma IncreasingSnoc(at: seq<nat>, n: nat)
    requires Increasing(at) && forall k :: 0 <= k < |at| ==> at[k] < n
    ensures Increasing(at + [n])
  {
  }

  lemma {:induction false} TrueLinesMean(ts: Tests, name: Path, lines: seq<Line>) returns (at: seq<nat>)
    ensures TrueAt(ts, name, lines, TrueLines(ts, name, lines), at)
  {
    at := [];
    if lines != [] {
      var front, l := lines[..|lines| - 1], lines[|lines| - 1];
      assert lines == front + [l];
      at := TrueLinesMean(ts, name, front);
      if Bad(ts, l) {
        TrueAtNext(ts, name, front, l, TrueLines(ts, name, front), at);
        at := at + [|front|];
      } else {
        TrueAtSame(ts, name, front, l, TrueLines(ts, name, front), at);
        assert TrueLines(ts, name, front) + [] == TrueLines(ts, name, front);
      }
    }
  }

  // ---- what disturbs the tracker inside a file

  /** The file that the tracker believes in after `lines`, when it believed in
      `start` before: the one named by the last header-like line, if any. */
  function Believed(ts: Tests, start: Option<Path>, lines: seq<Line>): Option<Path> {
    if lines == [] then start
    else
      var l := lines[|lines| - 1];
      if HeaderLike(ts, l) then ts.header(l.code) else Believed(ts, start, lines[..|lines| - 1])
  }

  lemma {:induction false} BelievedUntouched(ts: Tests, start: Option<Path>, lines: seq<Line>)
    requires NoHeaderLike(ts, lines)
    ensures Believed(ts, start, lines) == start
  {
    if lines != [] {
      BelievedUntouched(ts, start, lines[..|lines| - 1]);
    }
  }

  lemma {:induction false} BelievedIsLast(ts: Tests, start: Option<Path>, lines: seq<Line>, i: nat)
    requires i < |lines| && HeaderLike(ts, lines[i]) && NoHeaderLike(ts, lines[i + 1..])
    ensures Believed(ts, start, lines) == ts.header(lines[i].code)
  {
    var n := |lines| - 1;
    if i < n {
      assert lines[i + 1..][n - i - 1] == lines[n];
      assert lines[..n][i + 1..] == lines[i + 1..][..n - i - 1];
      BelievedIsLast(ts, start, lines[..n], i);
    }
  }

  /** An added line that begins with a plus sign stands in the current hunk. */
  predicate PlusInHunk(ts: Tests, lines: seq<Line>) {
    lines != [] &&
    var l := lines[|lines| - 1];
    !l.HunkStart? && (PlusLed(ts, l) || PlusInHunk(ts, lines[..|lines| - 1]))
  }

  /** Line i is plus-led and no hunk header follows it. */
  ghost predicate PlusAt(ts: Tests, lines: seq<Line>, i: nat)
    requires i < |lines|
  {
    PlusLed(ts, lines[i]) && forall j :: i < j < |lines| ==> !lines[j].HunkStart?
  }

  lemma PlusAtNext(ts: Tests, lines: seq<Line>, i: nat)
    requires i < |lines| - 1
    ensures PlusAt(ts, lines, i) <==> PlusAt(ts, lines[..|lines| - 1], i) && !lines[|lines| - 1].HunkStart?
  {
    var front := lines[..|lines| - 1];
    assert forall j :: 0 <= j < |front| ==> front[j] == lines[j];
  }

  lemma {:induction false} PlusInHunkMeans(ts: Tests, lines: seq<Line>)
    ensures PlusInHunk(ts, lines) <==> exists i :: 0 <= i < |lines| && PlusAt(ts, lines, i)
  {
    if lines != [] {
      var n := |lines| - 1;
      PlusInHunkMeans(ts, lines[..n]);
      forall i | 0 <= i < n
        ensures PlusAt(ts, lines, i) <==> PlusAt(ts, lines[..n], i) && !lines[n].HunkStart?
      {
        PlusAtNext(ts, lines, i);
      }
      assert PlusAt(ts, lines, n) <==> PlusLed(ts, lines[n]);
    }
  }

  /** Some hunk header of the file is met while nothing is skipped. */
  predicate HunkRead(ts: Tests, start: Option<Path>, lines: seq<Line>) {
    lines != [] &&
    var front := lines[..|lines| - 1];
    HunkRead(ts, start, front) || (lines[|lines| - 1].HunkStart? && !Skips(ts, Believed(ts, start, front)))
  }

  /** Added lines, not plus-led, met while nothing is skipped. */
  function CountedIn(ts: Tests, start: Option<Path>, lines: seq<Line>): nat {
    if lines == [] then 0
    else
      var front, l := lines[..|lines| - 1], lines[|lines| - 1];
      CountedIn(ts, start, front)
      + (if l.Added? && !ts.plus(l.code) && !Skips(ts, Believed(ts, start, front)) then 1 else 0)
  }

  /** The next counted line gets its number in the new file: the hunk holds no
      plus-led line or, when no hunk header of this file was read, the number
      left over from the files before happens to fit. */
  predicate NumberFits(ts: Tests, start: Option<Path>, left: Option<int>, above: seq<Line>) {
    if HunkRead(ts, start, above) then !PlusInHunk(ts, above)
    else left.Some? && left.value + CountedIn(ts, start, above) + 1 == NextNumber(above)
  }

  /** A forbidden line of the file `name`, below `above`, is treated rightly: in
      an exempt file it is skipped, in another it is reported with its name and
      its number. */
  predicate Right(ts: Tests, name: Path, start: Option<Path>, left: Option<int>, above: seq<Line>) {
    if ts.allowedFile(name) then Skips(ts, Believed(ts, start, above))
    else Believed(ts, start, above) == Some(name) && NumberFits(ts, start, left, above)
  }

  ghost predicate AllRight(ts: Tests, name: Path, start: Option<Path>, left: Option<int>, lines: seq<Line>) {
    forall p :: 0 <= p < |lines| && Bad(ts, lines[p]) ==> Right(ts, name, start, left, lines[..p])
  }

  /** What the tracker believes when it comes to the lines of a file. */
  function StartOf(s: State, f: FileDiff): Option<Path> {
    if ReadAs(f.name).Some? then ReadAs(f.name) else s.file
  }

  /** Met in the state s, every forbidden line of the file is treated rightly. */
  ghost predicate ExactFile(ts: Tests, s: State, f: FileDiff) {
    !f.name.Deleted? ==> AllRight(ts, f.name.path, StartOf(s, f), s.lineno, f.lines)
  }

  lemma AllRightNext(ts: Tests, name: Path, start: Option<Path>, left: Option<int>, lines: seq<Line>)
    requires lines != []
    ensures
      var n := |lines| - 1;
      AllRight(ts, name, start, left, lines) <==>
        AllRight(ts, name, start, left, lines[..n]) && (Bad(ts, lines[n]) ==> Right(ts, name, start, left, lines[..n]))
  {
    var n := |lines| - 1;
    forall p | 0 <= p < n ensures lines[..p] == lines[..n][..p] {
    }
  }

  // ---- what that amounts to, by the way the file is named

  lemma {:induction false} ReadAtOnce(ts: Tests, start: Option<Path>, lines: seq<Line>)
    requires lines != [] && lines[0].HunkStart? && !Skips(ts, start)
    ensures HunkRead(ts, start, lines)
  {
    if |lines| > 1 {
      ReadAtOnce(ts, start, lines[..|lines| - 1]);
    }
  }

  /** A forbidden line under a header that names its file plainly. In an exempt
      file: the last header-like line above, if any, names an exempt path. In
      another file: it names this very file, and no plus-led line stands above
      in the hunk. */
  predicate PlainlyRight(ts: Tests, name: Path, above: seq<Line>) {
    if ts.allowedFile(name) then Skips(ts, Believed(ts, Some(name), above))
    else Believed(ts, Some(name), above) == Some(name) && !PlusInHunk(ts, above)
  }

  /** For a plainly named file exactness depends on its own lines alone. */
  lemma PlainExact(ts: Tests, s: State, f: FileDiff)
    requires f.name.Plain? && InOrder(f.lines)
    ensures ExactFile(ts, s, f) <==>
            forall p :: 0 <= p < |f.lines| && Bad(ts, f.lines[p]) ==> PlainlyRight(ts, f.name.path, f.lines[..p])
  {
    var name, lines := f.name.path, f.lines;
    forall p | 0 <= p < |lines| && Bad(ts, lines[p])
      ensures Right(ts, name, Some(name), s.lineno, lines[..p]) <==> PlainlyRight(ts, name, lines[..p])
    {
      if !ts.allowedFile(name) {
        assert p > 0 && lines[..p][0] == lines[0];
        ReadAtOnce(ts, Some(name), lines[..p]);
      }
    }
  }

  ghost predicate NoBad(ts: Tests, lines: seq<Line>) {
    forall p :: 0 <= p < |lines| ==> !Bad(ts, lines[p])
  }

  /** A file whose header is not read as its name, and that has no header-like
      line: exact only without a forbidden line, or when the file is exempt and
      the tracker is skipping anyway. */
  lemma MisnamedExact(ts: Tests, s: State, f: FileDiff)
    requires !f.name.Deleted? && StartOf(s, f) != Some(f.name.path) && NoHeaderLike(ts, f.lines)
    ensures ExactFile(ts, s, f) <==>
            NoBad(ts, f.lines) || (ts.allowedFile(f.name.path) && Skips(ts, StartOf(s, f)))
  {
    forall p | 0 <= p < |f.lines| && Bad(ts, f.lines[p])
      ensures Right(ts, f.name.path, StartOf(s, f), s.lineno, f.lines[..p]) <==>
              ts.allowedFile(f.name.path) && Skips(ts, StartOf(s, f))
    {
      BelievedUntouched(ts, StartOf(s, f), f.lines[..p]);
    }
  }

  /** A name followed by a tab is read as another name. */
  lemma TabbedIsMisnamed(path: Path)
    ensures ReadAs(Tabbed(path)) != Some(path)
  {
    assert |path.text + "\t"| == |path.text| + 1;
  }

  lemma InOrderNext(lines: seq<Line>)
    requires InOrder(lines) && lines != []
    ensures
      var n := |lines| - 1;
      InOrder(lines[..n]) && (lines[n].HunkStart? ==> NextNumber(lines[..n]) <= lines[n].start)
      && (n == 0 ==> lines[0].HunkStart?)
  {
    var n := |lines| - 1;
    forall p | 0 <= p < n ensures lines[..p] == lines[..n][..p] {
    }
  }

  // ---- the kinds of the lines of a rendered diff

  function KindOf(ts: Tests, l: Line): Kind {
    match l
    case HunkStart(start, _, _) => HunkHeader(Some(start))
    case Added(c) =>
      if ts.header(c).Some? then FileHeader(ts.header(c).value)
      else if ts.plus(c) then Ignored
      else AddedLine(c)
    case _ => Ignored
  }

  function LinesKinds(ts: Tests, lines: seq<Line>): seq<Kind> {
    Map((l: Line) => KindOf(ts, l), lines)
  }

  function IgnoredLines(n: nat): seq<Kind> {
    seq(n, _ => Ignored)
  }

  function HeaderKind(name: NewFile): Kind {
    if ReadAs(name).Some? then FileHeader(ReadAs(name).value) else Ignored
  }

  function FileKinds(ts: Tests, f: FileDiff): seq<Kind> {
    IgnoredLines(|f.preamble|) + ([HeaderKind(f.name)] + LinesKinds(ts, f.lines))
  }

  function DiffKinds(ts: Tests, d: seq<FileDiff>): seq<Kind> {
    if d == [] then [] else DiffKinds(ts, d[..|d| - 1]) + FileKinds(ts, d[|d| - 1])
  }

  // ---- one file

  /** The tracker's state after `lines`, when it began them believing in `start`
      with the number `left`; `seen` is what it reported since. Once a hunk
      header of the file was read, its number is right outside disturbed hunks
      and too small in them. */
  ghost predicate Tracking(ts: Tests, start: Option<Path>, left: Option<int>, lines: seq<Line>,
                           before: seq<Violation>, seen: seq<Violation>, s: State)
  {
    && !s.crashed
    && s.file == Believed(ts, start, lines) && s.skip == Skips(ts, s.file)
    && s.violations == before + seen
    && NumberTracked(ts, start, left, lines, s)
  }

  ghost predicate NumberTracked(ts: Tests, start: Option<Path>, left: Option<int>, lines: seq<Line>, s: State) {
    if HunkRead(ts, start, lines) then
      && s.lineno.Some?
      && s.lineno.value + 1 <= NextNumber(lines)
      && (PlusInHunk(ts, lines) ==> s.lineno.value + 1 < NextNumber(lines))
      && (!PlusInHunk(ts, lines) && !s.skip ==> s.lineno.value + 1 == NextNumber(lines))
    else s.lineno == if left.Some? then Some(left.value + CountedIn(ts, start, lines)) else None
  }

  /** `seen` against the truth: equal exactly when every forbidden line was
      treated rightly. */
  ghost predicate Compared(ts: Tests, name: Path, start: Option<Path>, left: Option<int>, lines: seq<Line>,
                           seen: seq<Violation>)
  {
    && (!ts.allowedFile(name) ==> |seen| <= |Truth(ts, name, lines)|)
    && (seen == Truth(ts, name, lines) <==> AllRight(ts, name, start, left, lines))
  }

  /** What one line adds to the report in state s. */
  function Reported(ts: Tests, s: State, l: Line): seq<Violation> {
    if Bad(ts, l) && !s.skip && s.lineno.Some? then [Violation(s.file, s.lineno.value + 1, l.code)] else []
  }

  lemma NumberNext(ts: Tests, start: Option<Path>, left: Option<int>, lines: seq<Line>, s: State)
    requires Sane(ts) && lines != [] && InOrder(lines) && !s.crashed
    requires s.file == Believed(ts, start, lines[..|lines| - 1]) && s.skip == Skips(ts, s.file)
    requires NumberTracked(ts, start, left, lines[..|lines| - 1], s)
    requires !Step(ts, s, KindOf(ts, lines[|lines| - 1])).crashed
    ensures NumberTracked(ts, start, left, lines, Step(ts, s, KindOf(ts, lines[|lines| - 1])))
  {
    InOrderNext(lines);
  }

  lemma TrackingNext(ts: Tests, start: Option<Path>, left: Option<int>, lines: seq<Line>,
                     before: seq<Violation>, seen: seq<Violation>, s: State)
    requires Sane(ts) && lines != [] && InOrder(lines)
    requires Tracking(ts, start, left, lines[..|lines| - 1], before, seen, s)
    requires !Step(ts, s, KindOf(ts, lines[|lines| - 1])).crashed
    ensures
      var l := lines[|lines| - 1];
      Tracking(ts, start, left, lines, before, seen + Reported(ts, s, l), Step(ts, s, KindOf(ts, l)))
  {
    NumberNext(ts, start, left, lines, s);
    AppendAssoc(before, seen, Reported(ts, s, lines[|lines| - 1]));
  }

  lemma SamePieces(a: seq<Violation>, b: seq<Violation>, a': seq<Violation>, b': seq<Violation>)
    requires |a| == |a'|
    ensures a + b == a' + b' <==> a == a' && b == b'
  {
    if a + b == a' + b' {
      assert a == (a + b)[..|a|] && a' == (a' + b')[..|a|];
      assert b == (a + b)[|a|..] && b' == (a' + b')[|a|..];
    }
  }

  /** One forbidden line of a file that is not exempt: its report is the truth
      exactly when it is treated rightly. */
  lemma ReportedRightly(ts: Tests, name: Path, start: Option<Path>, left: Option<int>, front: seq<Line>,
                        before: seq<Violation>, seen: seq<Violation>, s: State, l: Line)
    requires Tracking(ts, start, left, front, before, seen, s) && !ts.allowedFile(name) && Bad(ts, l)
    ensures Reported(ts, s, l) == [Violation(Some(name), NextNumber(front), l.code)]
            <==> Right(ts, name, start, left, front)
  {
  }

  lemma ComparedNext(ts: Tests, name: Path, start: Option<Path>, left: Option<int>, lines: seq<Line>,
                     before: seq<Violation>, seen: seq<Violation>, s: State)
    requires Sane(ts) && lines != [] && Tracking(ts, start, left, lines[..|lines| - 1], before, seen, s)
    requires !Step(ts, s, KindOf(ts, lines[|lines| - 1])).crashed
    requires Compared(ts, name, start, left, lines[..|lines| - 1], seen)
    ensures Compared(ts, name, start, left, lines, seen + Reported(ts, s, lines[|lines| - 1]))
  {
    var front, l := lines[..|lines| - 1], lines[|lines| - 1];
    AllRightNext(ts, name, start, left, lines);
    if !ts.allowedFile(name) {
      var truth := if Bad(ts, l) then [Violation(Some(name), NextNumber(front), l.code)] else [];
      if Bad(ts, l) {
        ReportedRightly(ts, name, start, left, front, before, seen, s, l);
      }
      if |seen| == |TrueLines(ts, name, front)| {
        SamePieces(seen, Reported(ts, s, l), TrueLines(ts, name, front), truth);
      }
    }
  }

  lemma {:induction false} TrackedFile(ts: Tests, name: Path, lines: seq<Line>, s: State)
    returns (seen: seq<Violation>)
    requires Sane(ts) && InOrder(lines) && !s.crashed && s.skip == Skips(ts, s.file)
    requires !Run(ts, s, LinesKinds(ts, lines)).crashed
    ensures Tracking(ts, s.file, s.lineno, lines, s.violations, seen, Run(ts, s, LinesKinds(ts, lines)))
    ensures Compared(ts, name, s.file, s.lineno, lines, seen)
  {
    seen := [];
    if lines == [] {
      assert s.violations + [] == s.violations;
    } else {
      var front, l := lines[..|lines| - 1], lines[|lines| - 1];
      InOrderNext(lines);
      var s' := Run(ts, s, LinesKinds(ts, front));
      RunSnoc(ts, s, LinesKinds(ts, front), KindOf(ts, l));
      seen := TrackedFile(ts, name, front, s);
      TrackingNext(ts, s.file, s.lineno, lines, s.violations, seen, s');
      ComparedNext(ts, name, s.file, s.lineno, lines, s.violations, seen, s');
      seen := seen + Reported(ts, s', l);
    }
  }

  /** A file begun without skipping cannot make the tracker fail. */
  lemma {:induction false} CountingNeverCrashes(ts: Tests, lines: seq<Line>, s: State)
    requires (lines != [] ==> lines[0].HunkStart?) && !s.crashed && !s.skip
    ensures
      var r := Run(ts, s, LinesKinds(ts, lines));
      !r.crashed && (lines != [] ==> r.lineno.Some?)
  {
    if lines != [] {
      CountingNeverCrashes(ts, lines[..|lines| - 1], s);
      RunSnoc(ts, s, LinesKinds(ts, lines[..|lines| - 1]), KindOf(ts, lines[|lines| - 1]));
    }
  }

  // ---- a deleted file

  ghost predicate AddsNothing(lines: seq<Line>) {
    forall p :: 0 <= p < |lines| ==> !lines[p].Added?
  }

  lemma {:induction false} DeletedFile(ts: Tests, lines: seq<Line>, s: State)
    requires AddsNothing(lines)
    ensures
      var r := Run(ts, s, LinesKinds(ts, lines));
      r.violations == s.violations && r.crashed == s.crashed
  {
    if lines != [] {
      DeletedFile(ts, lines[..|lines| - 1], s);
      RunSnoc(ts, s, LinesKinds(ts, lines[..|lines| - 1]), KindOf(ts, lines[|lines| - 1]));
    }
  }

  // ---- the whole diff

  ghost predicate WellFormed(f: FileDiff) {
    InOrder(f.lines) && (f.name.Deleted? ==> AddsNothing(f.lines))
  }

  lemma {:induction false} RunIgnored(ts: Tests, s: State, n: nat)
    ensures Run(ts, s, IgnoredLines(n)) == s
  {
    if n > 0 {
      RunIgnored(ts, s, n - 1);
      assert IgnoredLines(n)[..n - 1] == IgnoredLines(n - 1);
    }
  }

  lemma RunToLines(ts: Tests, s: State, f: FileDiff)
    ensures Run(ts, s, FileKinds(ts, f)) == Run(ts, Step(ts, s, HeaderKind(f.name)), LinesKinds(ts, f.lines))
  {
    RunAppend(ts, s, IgnoredLines(|f.preamble|), [HeaderKind(f.name)] + LinesKinds(ts, f.lines));
    RunIgnored(ts, s, |f.preamble|);
    RunAppend(ts, s, [HeaderKind(f.name)], LinesKinds(ts, f.lines));
    RunOne(ts, s, HeaderKind(f.name));
  }

  /** What one file adds to the report, in whatever state the tracker meets it,
      is the truth about it exactly when every forbidden line of it is treated
      rightly. */
  lemma FileExact(ts: Tests, s: State, f: FileDiff) returns (seen: seq<Violation>)
    requires Sane(ts) && WellFormed(f) && !s.crashed && s.skip == Skips(ts, s.file)
    requires !Run(ts, s, FileKinds(ts, f)).crashed
    ensures Run(ts, s, FileKinds(ts, f)).violations == s.violations + seen
    ensures seen == TrueFile(ts, f) <==> ExactFile(ts, s, f)
  {
    RunToLines(ts, s, f);
    var s' := Step(ts, s, HeaderKind(f.name));
    if f.name.Deleted? {
      DeletedFile(ts, f.lines, s');
      seen := [];
      assert s.violations + [] == s.violations;
    } else {
      seen := TrackedFile(ts, f.name.path, f.lines, s');
    }
  }

  /** A file whose new name is read as that of a file that is not exempt cannot
      make the tracker fail. */
  lemma TrackedFileNeverCrashes(ts: Tests, s: State, f: FileDiff)
    requires WellFormed(f) && !s.crashed && ReadAs(f.name).Some? && !Skips(ts, ReadAs(f.name))
    ensures !Run(ts, s, FileKinds(ts, f)).crashed
  {
    RunToLines(ts, s, f);
    CountingNeverCrashes(ts, f.lines, Step(ts, s, HeaderKind(f.name)));
  }

  /** The tracker's state when it comes to the i-th file. */
  function Before(ts: Tests, d: seq<FileDiff>, i: nat): State
    requires i <= |d|
  {
    Run(ts, INITIAL, DiffKinds(ts, d[..i]))
  }

  /** The part of the report that the i-th file contributes. */
  function FileReport(ts: Tests, d: seq<FileDiff>, i: nat): seq<Violation>
    requires i < |d|
  {
    var before, after := Before(ts, d, i).violations, Before(ts, d, i + 1).violations;
    if |before| <= |after| then after[|before|..] else []
  }

  function FileReports(ts: Tests, d: seq<FileDiff>): seq<seq<Violation>> {
    seq(|d|, i requires 0 <= i < |d| => FileReport(ts, d, i))
  }

  lemma DiffNext(ts: Tests, d: seq<FileDiff>)
    requires d != []
    ensures Run(ts, INITIAL, DiffKinds(ts, d)) ==
            Run(ts, Run(ts, INITIAL, DiffKinds(ts, d[..|d| - 1])), FileKinds(ts, d[|d| - 1]))
  {
    RunAppend(ts, INITIAL, DiffKinds(ts, d[..|d| - 1]), FileKinds(ts, d[|d| - 1]));
  }

  lemma FileReportPrefix(ts: Tests, d: seq<FileDiff>, n: nat, i: nat)
    requires i < n <= |d|
    ensures FileReport(ts, d[..n], i) == FileReport(ts, d, i)
  {
    assert d[..n][..i] == d[..i] && d[..n][..i + 1] == d[..i + 1];
  }

  lemma FileReportsNext(ts: Tests, d: seq<FileDiff>, seen: seq<Violation>)
    requires d != [] && FileReport(ts, d, |d| - 1) == seen
    ensures FileReports(ts, d) == FileReports(ts, d[..|d| - 1]) + [seen]
  {
    var n := |d| - 1;
    forall i | 0 <= i < n ensures FileReport(ts, d[..n], i) == FileReport(ts, d, i) {
      FileReportPrefix(ts, d, n, i);
    }
  }

  lemma {:induction false} PrefixNeverCrashed(ts: Tests, d: seq<FileDiff>, n: nat)
    requires n <= |d| && !Run(ts, INITIAL, DiffKinds(ts, d)).crashed
    ensures !Run(ts, INITIAL, DiffKinds(ts, d[..n])).crashed
    decreases |d|
  {
    if n == |d| {
      assert d[..n] == d;
    } else {
      DiffNext(ts, d);
      var s := Run(ts, INITIAL, DiffKinds(ts, d[..|d| - 1]));
      if s.crashed {
        CrashStays(ts, s, FileKinds(ts, d[|d| - 1]));
      }
      PrefixNeverCrashed(ts, d[..|d| - 1], n);
      assert d[..|d| - 1][..n] == d[..n];
    }
  }

  lemma FileAdds(ts: Tests, d: seq<FileDiff>, i: nat) returns (seen: seq<Violation>)
    requires Sane(ts) && i < |d| && WellFormed(d[i])
    requires !Before(ts, d, i).crashed && !Before(ts, d, i + 1).crashed
    ensures Before(ts, d, i + 1).violations == Before(ts, d, i).violations + seen
    ensures seen == TrueFile(ts, d[i]) <==> ExactFile(ts, Before(ts, d, i), d[i])
  {
    var upto := d[..i + 1];
    assert upto[..i] == d[..i];
    DiffNext(ts, upto);
    CrashExactly(ts, DiffKinds(ts, d[..i]));
    seen := FileExact(ts, Before(ts, d, i), d[i]);
  }

  /** One file within a diff. */
  lemma FileReportExact(ts: Tests, d: seq<FileDiff>, i: nat)
    requires Sane(ts) && i < |d| && WellFormed(d[i])
    requires !Run(ts, INITIAL, DiffKinds(ts, d)).crashed
    ensures Before(ts, d, i + 1).violations == Before(ts, d, i).violations + FileReport(ts, d, i)
    ensures FileReport(ts, d, i) == TrueFile(ts, d[i]) <==> ExactFile(ts, Before(ts, d, i), d[i])
  {
    PrefixNeverCrashed(ts, d, i);
    PrefixNeverCrashed(ts, d, i + 1);
    var seen := FileAdds(ts, d, i);
    SuffixOf(Before(ts, d, i).violations, seen);
  }

  lemma SuffixOf<T>(a: seq<T>, b: seq<T>)
    ensures (a + b)[|a|..] == b
  {
  }

  /** The file that the tracker believes in between two files is named by the
      last line so far that reads like a file header. */
  lemma BelievedBefore(ts: Tests, d: seq<FileDiff>, i: nat)
    requires i <= |d| && !Run(ts, INITIAL, DiffKinds(ts, d)).crashed
    ensures Before(ts, d, i).file == FileOf(DiffKinds(ts, d[..i]))
    ensures Before(ts, d, i).skip == Skipping(ts, DiffKinds(ts, d[..i]))
  {
    PrefixNeverCrashed(ts, d, i);
    CrashExactly(ts, DiffKinds(ts, d[..i]));
  }

  lemma {:induction false} ReportIsFlat(ts: Tests, d: seq<FileDiff>)
    requires Sane(ts) && forall i :: 0 <= i < |d| ==> WellFormed(d[i])
    requires !Run(ts, INITIAL, DiffKinds(ts, d)).crashed
    ensures Run(ts, INITIAL, DiffKinds(ts, d)).violations == Flatten(FileReports(ts, d))
  {
    if d != [] {
      var n := |d| - 1;
      PrefixNeverCrashed(ts, d, n);
      ReportIsFlat(ts, d[..n]);
      FileReportExact(ts, d, n);
      assert d[..n + 1] == d;
      FileReportsNext(ts, d, FileReport(ts, d, n));
      FlattenSnoc(FileReports(ts, d[..n]), FileReport(ts, d, n));
    }
  }

  /** The whole report is put together file by file, and what a file contributes
      is the truth about it exactly when every forbidden line of it is treated
      rightly. Stated per file, since a line lost in one file and one invented
      in another could cancel out. */
  lemma DiffExact(ts: Tests, d: seq<FileDiff>)
    requires Sane(ts) && forall i :: 0 <= i < |d| ==> WellFormed(d[i])
    requires !Run(ts, INITIAL, DiffKinds(ts, d)).crashed
    ensures Run(ts, INITIAL, DiffKinds(ts, d)).violations == Flatten(FileReports(ts, d))
    ensures forall i :: 0 <= i < |d| ==>
              (FileReport(ts, d, i) == TrueFile(ts, d[i]) <==> ExactFile(ts, Before(ts, d, i), d[i]))
  {
    ReportIsFlat(ts, d);
    forall i | 0 <= i < |d|
      ensures FileReport(ts, d, i) == TrueFile(ts, d[i]) <==> ExactFile(ts, Before(ts, d, i), d[i])
    {
      FileReportExact(ts, d, i);
    }
  }

  /** When all files are exact the report is the true one. */
  lemma ExactReport(ts: Tests, d: seq<FileDiff>)
    requires Sane(ts) && forall i :: 0 <= i < |d| ==> WellFormed(d[i]) && ExactFile(ts, Before(ts, d, i), d[i])
    requires !Run(ts, INITIAL, DiffKinds(ts, d)).crashed
    ensures Run(ts, INITIAL, DiffKinds(ts, d)).violations == TrueDiff(ts, d)
  {
    DiffExact(ts, d);
    var truth := Map((f: FileDiff) => TrueFile(ts, f), d);
    forall i | 0 <= i < |d| ensures FileReports(ts, d)[i] == truth[i] {
      MapAt((f: FileDiff) => TrueFile(ts, f), d, i);
    }
    assert FileReports(ts, d) == truth;
  }

  /** Without a header-like line in a file whose name is not read, or read as an
      exempt one, the tracker never fails. */
  lemma {:induction false} NeverCrashes(ts: Tests, d: seq<FileDiff>)
    requires forall i :: 0 <= i < |d| ==> WellFormed(d[i])
    requires forall i :: 0 <= i < |d| && (ReadAs(d[i].name).None? || Skips(ts, ReadAs(d[i].name))) ==>
               NoHeaderLike(ts, d[i].lines)
    ensures !Run(ts, INITIAL, DiffKinds(ts, d)).crashed
  {
    if d != [] {
      var n := |d| - 1;
      NeverCrashes(ts, d[..n]);
      DiffNext(ts, d);
      var s := Run(ts, INITIAL, DiffKinds(ts, d[..n]));
      RunToLines(ts, s, d[n]);
      var s' := Step(ts, s, HeaderKind(d[n].name));
      if s'.skip {
        SkippedLines(ts, d[n].lines, s');
      } else {
        CountingNeverCrashes(ts, d[n].lines, s');
      }
    }
  }

  ghost predicate NoPlusLed(ts: Tests, lines: seq<Line>) {
    forall p :: 0 <= p < |lines| ==> !PlusLed(ts, lines[p])
  }

  lemma {:induction false} NoPlusLedNoneInHunk(ts: Tests, lines: seq<Line>)
    requires NoPlusLed(ts, lines)
    ensures !PlusInHunk(ts, lines)
  {
    if lines != [] {
      NoPlusLedNoneInHunk(ts, lines[..|lines| - 1]);
    }
  }

  /** A plainly named file without plus-led lines is exact. */
  lemma OrdinaryFileExact(ts: Tests, s: State, f: FileDiff)
    requires Sane(ts) && f.name.Plain? && InOrder(f.lines) && NoPlusLed(ts, f.lines)
    ensures ExactFile(ts, s, f)
  {
    PlainExact(ts, s, f);
    forall p | 0 <= p < |f.lines| && Bad(ts, f.lines[p]) ensures PlainlyRight(ts, f.name.path, f.lines[..p]) {
      BelievedUntouched(ts, Some(f.name.path), f.lines[..p]);
      NoPlusLedNoneInHunk(ts, f.lines[..p]);
    }
  }

  /** On a diff without plus-led lines, and without forbidden lines in files
      that are not plainly named, the report is the true one. */
  lemma OrdinaryReport(ts: Tests, d: seq<FileDiff>)
    requires Sane(ts) && forall i :: 0 <= i < |d| ==> WellFormed(d[i]) && NoPlusLed(ts, d[i].lines)
    requires forall i :: 0 <= i < |d| ==> d[i].name.Plain? || NoBad(ts, d[i].lines)
    ensures !Run(ts, INITIAL, DiffKinds(ts, d)).crashed
    ensures Run(ts, INITIAL, DiffKinds(ts, d)).violations == TrueDiff(ts, d)
  {
    forall i | 0 <= i < |d| ensures NoHeaderLike(ts, d[i].lines) {
      forall p | 0 <= p < |d[i].lines| ensures !HeaderLike(ts, d[i].lines[p]) {
        assert !PlusLed(ts, d[i].lines[p]);
      }
    }
    NeverCrashes(ts, d);
    forall i | 0 <= i < |d| ensures ExactFile(ts, Before(ts, d, i), d[i]) {
      if d[i].name.Plain? {
        OrdinaryFileExact(ts, Before(ts, d, i), d[i]);
      }
    }
    ExactReport(ts, d);
  }

  lemma {:induction false} SkippedLines(ts: Tests, lines: seq<Line>, s: State)
    requires NoHeaderLike(ts, lines) && s.skip
    ensures Run(ts, s, LinesKinds(ts, lines)) == s
  {
    if lines != [] {
      SkippedLines(ts, lines[..|lines| - 1], s);
      RunSnoc(ts, s, LinesKinds(ts, lines[..|lines| - 1]), KindOf(ts, lines[|lines| - 1]));
    }
  }

  // ---- inputs on which the report is not the truth

  lemma RunLine(ts: Tests, s: State, front: seq<Line>, l: Line)
    ensures Run(ts, s, LinesKinds(ts, front + [l])) == Step(ts, Run(ts, s, LinesKinds(ts, front)), KindOf(ts, l))
  {
    assert (front + [l])[..|front|] == front;
    RunSnoc(ts, s, LinesKinds(ts, front), KindOf(ts, l));
  }

  lemma TrueLine(ts: Tests, name: Path, front: seq<Line>, l: Line)
    ensures TrueLines(ts, name, front + [l]) ==
            TrueLines(ts, name, front) + if Bad(ts, l) then [Violation(Some(name), NextNumber(front), l.code)] else []
    ensures NextNumber(front + [l]) ==
            if l.HunkStart? then l.start else NextNumber(front) + (if l.Added? then 1 else 0)
  {
    assert (front + [l])[..|front|] == front;
  }

  lemma OneFile(ts: Tests, f: FileDiff)
    ensures Run(ts, INITIAL, DiffKinds(ts, [f])) ==
            Run(ts, Step(ts, INITIAL, HeaderKind(f.name)), LinesKinds(ts, f.lines))
    ensures TrueDiff(ts, [f]) == TrueFile(ts, f)
  {
    assert [f][..0] == [];
    assert [] + FileKinds(ts, f) == FileKinds(ts, f);
    RunToLines(ts, INITIAL, f);
    var truth := Map((g: FileDiff) => TrueFile(ts, g), [f]);
    MapAt((g: FileDiff) => TrueFile(ts, g), [f], 0);
    assert truth == [TrueFile(ts, f)];
    FlattenOne(TrueFile(ts, f));
  }

  lemma DisplayAppends<T>(a: T, b: T, c: T)
    ensures [] + [a] == [a] && [a] + [b] == [a, b] && [a, b] + [c] == [a, b, c]
  {
  }

  lemma ShiftedTruth(ts: Tests, name: Path, h: Line, plus: Code, bad: Code)
    requires Sane(ts) && h.HunkStart? && ts.plus(plus) && ts.forbidden(bad)
    ensures TrueLines(ts, name, [h, Added(plus), Added(bad)]) == [Violation(Some(name), h.start + 1, bad)]
  {
    DisplayAppends(h, Added(plus), Added(bad));
    TrueLine(ts, name, [], h);
    TrueLine(ts, name, [h], Added(plus));
    TrueLine(ts, name, [h, Added(plus)], Added(bad));
  }

  lemma ShiftedRun(ts: Tests, s: State, h: Line, plus: Code, bad: Code)
    requires Sane(ts) && h.HunkStart? && ts.plus(plus) && ts.header(plus).None? && ts.forbidden(bad)
    requires !s.crashed && !s.skip && s.violations == []
    ensures
      var r := Run(ts, s, LinesKinds(ts, [h, Added(plus), Added(bad)]));
      !r.crashed && r.violations == [Violation(s.file, h.start, bad)]
  {
    DisplayAppends(h, Added(plus), Added(bad));
    RunLine(ts, s, [], h);
    RunLine(ts, s, [h], Added(plus));
    RunLine(ts, s, [h, Added(plus)], Added(bad));
    assert KindOf(ts, Added(plus)) == Ignored && KindOf(ts, Added(bad)) == AddedLine(bad);
  }

  /** A plus-led line above a forbidden one: the number is one too small. */
  lemma ShiftedNumber(ts: Tests, name: Path, h: Line, plus: Code, bad: Code)
    requires Sane(ts) && !ts.allowedFile(name) && h.HunkStart?
    requires ts.plus(plus) && ts.header(plus).None? && ts.forbidden(bad)
    ensures
      var d := [FileDiff([], Plain(name), [h, Added(plus), Added(bad)])];
      && Run(ts, INITIAL, DiffKinds(ts, d)).violations == [Violation(Some(name), h.start, bad)]
      && !Run(ts, INITIAL, DiffKinds(ts, d)).crashed
      && TrueDiff(ts, d) == [Violation(Some(name), h.start + 1, bad)]
  {
    OneFile(ts, FileDiff([], Plain(name), [h, Added(plus), Added(bad)]));
    ShiftedRun(ts, Step(ts, INITIAL, HeaderKind(Plain(name))), h, plus, bad);
    ShiftedTruth(ts, name, h, plus, bad);
  }

  lemma LostTruth(ts: Tests, name: Path, h1: Line, fake: Code, h2: Line, bad: Code)
    requires Sane(ts) && h1.HunkStart? && h2.HunkStart? && ts.header(fake).Some? && ts.forbidden(bad)
    ensures TrueLines(ts, name, [h1, Added(fake), h2, Added(bad)]) == [Violation(Some(name), h2.start, bad)]
  {
    DisplayAppends(h1, Added(fake), h2);
    assert [h1, Added(fake), h2] + [Added(bad)] == [h1, Added(fake), h2, Added(bad)];
    TrueLine(ts, name, [], h1);
    TrueLine(ts, name, [h1], Added(fake));
    TrueLine(ts, name, [h1, Added(fake)], h2);
    TrueLine(ts, name, [h1, Added(fake), h2], Added(bad));
  }

  lemma LostRun(ts: Tests, s: State, h1: Line, fake: Code, h2: Line, bad: Code)
    requires h1.HunkStart? && h2.HunkStart? && !s.crashed && !s.skip && s.violations == []
    requires ts.header(fake).Some? && ts.allowedFile(ts.header(fake).value) && ts.header(bad).None?
    ensures
      var r := Run(ts, s, LinesKinds(ts, [h1, Added(fake), h2, Added(bad)]));
      !r.crashed && r.violations == []
  {
    DisplayAppends(h1, Added(fake), h2);
    assert [h1, Added(fake), h2] + [Added(bad)] == [h1, Added(fake), h2, Added(bad)];
    RunLine(ts, s, [], h1);
    RunLine(ts, s, [h1], Added(fake));
    RunLine(ts, s, [h1, Added(fake)], h2);
    RunLine(ts, s, [h1, Added(fake), h2], Added(bad));
  }

  /** An added line that names an exempt file hides the rest of the file. */
  lemma LostViolation(ts: Tests, name: Path, h1: Line, fake: Code, h2: Line, bad: Code)
    requires Sane(ts) && !ts.allowedFile(name) && h1.HunkStart? && h2.HunkStart?
    requires ts.header(fake).Some? && ts.allowedFile(ts.header(fake).value) && ts.forbidden(bad)
    ensures
      var d := [FileDiff([], Plain(name), [h1, Added(fake), h2, Added(bad)])];
      && Run(ts, INITIAL, DiffKinds(ts, d)).violations == []
      && !Run(ts, INITIAL, DiffKinds(ts, d)).crashed
      && TrueDiff(ts, d) == [Violation(Some(name), h2.start, bad)]
  {
    OneFile(ts, FileDiff([], Plain(name), [h1, Added(fake), h2, Added(bad)]));
    assert ts.header(bad).None?;
    LostRun(ts, Step(ts, INITIAL, HeaderKind(Plain(name))), h1, fake, h2, bad);
    LostTruth(ts, name, h1, fake, h2, bad);
  }

  lemma FailingRun(ts: Tests, s: State, h: Line, fake: Code, c: Code)
    requires h.HunkStart? && s.skip && s.lineno.None? && !s.crashed
    requires ts.header(fake).Some? && !ts.allowedFile(ts.header(fake).value)
    requires !ts.plus(c) && ts.header(c).None?
    ensures Run(ts, s, LinesKinds(ts, [h, Added(fake), Added(c)])).crashed
  {
    DisplayAppends(h, Added(fake), Added(c));
    RunLine(ts, s, [], h);
    assert Run(ts, s, LinesKinds(ts, [h])) == s;
    RunLine(ts, s, [h], Added(fake));
    RunLine(ts, s, [h, Added(fake)], Added(c));
  }

  /** In an exempt file an added line that names another file makes the tracker
      count, without ever having read a hunk header. */
  lemma FailingExemptFile(ts: Tests, name: Path, h: Line, fake: Code, c: Code)
    requires ts.allowedFile(name) && h.HunkStart?
    requires ts.header(fake).Some? && !ts.allowedFile(ts.header(fake).value)
    requires !ts.plus(c) && ts.header(c).None?
    ensures Run(ts, INITIAL, DiffKinds(ts, [FileDiff([], Plain(name), [h, Added(fake), Added(c)])])).crashed
  {
    OneFile(ts, FileDiff([], Plain(name), [h, Added(fake), Added(c)]));
    FailingRun(ts, Step(ts, INITIAL, HeaderKind(Plain(name))), h, fake, c);
  }

  /** A file whose name is not read, met while the tracker skips, leaves no
      trace, whatever it adds. */
  lemma UnreadAfterExempt(ts: Tests, s: State, f: FileDiff)
    requires f.name.Unread? && s.skip && NoHeaderLike(ts, f.lines)
    ensures Run(ts, s, FileKinds(ts, f)) == s
  {
    RunToLines(ts, s, f);
    SkippedLines(ts, f.lines, s);
  }

  /** Behind an exempt file a forbidden line of such a file is not reported. */
  lemma UnreadLost(ts: Tests, exempt: Path, h1: Line, name: Path, written: string, h2: Line, bad: Code)
    requires Sane(ts) && ts.allowedFile(exempt) && !ts.allowedFile(name) && ts.forbidden(bad)
    requires h1.HunkStart? && h2.HunkStart?
    ensures
      var d := [FileDiff([], Plain(exempt), [h1]), FileDiff([], Unread(name, written), [h2, Added(bad)])];
      && Run(ts, INITIAL, DiffKinds(ts, d)).violations == []
      && !Run(ts, INITIAL, DiffKinds(ts, d)).crashed
      && TrueDiff(ts, d) == [Violation(Some(name), h2.start, bad)]
  {
    var f1, f2 := FileDiff([], Plain(exempt), [h1]), FileDiff([], Unread(name, written), [h2, Added(bad)]);
    OneFile(ts, f1);
    SkippedLines(ts, [h1], Step(ts, INITIAL, HeaderKind(f1.name)));
    DiffNext(ts, [f1, f2]);
    assert [f1, f2][..1] == [f1];
    UnreadAfterExempt(ts, Run(ts, INITIAL, DiffKinds(ts, [f1])), f2);
    TwoTruths(ts, f1, f2);
    FirstTruth(ts, name, h2, bad);
  }

  lemma FirstTruth(ts: Tests, name: Path, h: Line, bad: Code)
    requires h.HunkStart? && ts.forbidden(bad)
    ensures TrueLines(ts, name, [h, Added(bad)]) == [Violation(Some(name), h.start, bad)]
  {
    DisplayAppends(h, Added(bad), h);
    TrueLine(ts, name, [], h);
    TrueLine(ts, name, [h], Added(bad));
  }

  lemma TwoTruths(ts: Tests, f1: FileDiff, f2: FileDiff)
    ensures TrueDiff(ts, [f1, f2]) == TrueFile(ts, f1) + TrueFile(ts, f2)
  {
    var truth := Map((g: FileDiff) => TrueFile(ts, g), [f1, f2]);
    MapAt((g: FileDiff) => TrueFile(ts, g), [f1, f2], 0);
    MapAt((g: FileDiff) => TrueFile(ts, g), [f1, f2], 1);
    assert truth == [TrueFile(ts, f1)] + [TrueFile(ts, f2)];
    FlattenSnoc([TrueFile(ts, f1)], TrueFile(ts, f2));
    FlattenOne(TrueFile(ts, f1));
  }
}
