/** Splitting a text into lines and writing lines back. */
module Lines {
  import opened Sequences

  /** A line with its newline, the only one in it. */
  predicate Terminated(l: string) {
    l != [] && l[|l| - 1] == '\n' && '\n' !in l[..|l| - 1]
  }

  /** A last line without newline. */
  predicate Unterminated(l: string) {
    l != [] && '\n' !in l
  }

  /** The lines of a file: every line is terminated, except perhaps the last. */
  ghost predicate ProperLines(ls: seq<string>) {
    && (forall i :: 0 <= i < |ls| - 1 ==> Terminated(ls[i]))
    && (ls != [] ==> Terminated(ls[|ls| - 1]) || Unterminated(ls[|ls| - 1]))
  }

  /** One past the first newline, or the length. */
  function LineEnd(s: string): (n: nat)
    requires s != []
    ensures 0 < n <= |s|
  {
    if s[0] == '\n' || |s| == 1 then 1 else 1 + LineEnd(s[1..])
  }

  function ReadLines(s: string): seq<string> {
    if s == [] then [] else [s[..LineEnd(s)]] + ReadLines(s[LineEnd(s)..])
  }

  lemma {:induction false} LineEndIs(s: string)
    requires s != []
    ensures Terminated(s[..LineEnd(s)]) || (LineEnd(s) == |s| && Unterminated(s))
  {
    if s[0] != '\n' && |s| > 1 {
      LineEndIs(s[1..]);
      var n := LineEnd(s[1..]);
      assert s[..1 + n] == [s[0]] + s[1..][..n];
      if Terminated(s[1..][..n]) {
        assert s[..1 + n][..n] == [s[0]] + s[1..][..n - 1];
      } else {
        assert s == [s[0]] + s[1..];
      }
    } else if s[0] == '\n' {
      assert s[..1] == "\n" && s[..1][..0] == [];
    } else {
      assert s == [s[0]];
    }
  }

  lemma {:induction false} ReadLinesProper(s: string)
    ensures ProperLines(ReadLines(s)) && Flatten(ReadLines(s)) == s
    ensures ReadLines(s) == [] <==> s == []
  {
    if s != [] {
      var n := LineEnd(s);
      ReadLinesProper(s[n..]);
      LineEndIs(s);
      assert s == s[..n] + s[n..];
      assert n == |s| ==> s[..n] == s;
      assert ReadLines(s)[1..] == ReadLines(s[n..]);
    }
  }

  lemma {:induction false} LineEndAt(l: string, rest: string)
    requires Terminated(l) || (Unterminated(l) && rest == [])
    ensures l + rest != [] && LineEnd(l + rest) == |l|
  {
    if |l| > 1 {
      assert l[0] in l[..|l| - 1];
      var l' := l[1..];
      assert l'[..|l'| - 1] == l[1..|l| - 1];
      LineEndAt(l', rest);
      assert (l + rest)[1..] == l' + rest;
    }
  }

  lemma {:induction false} ReadConcat(ls: seq<string>)
    requires ProperLines(ls)
    ensures ReadLines(Flatten(ls)) == ls
  {
    if ls != [] {
      var rest := Flatten(ls[1..]);
      assert |ls| == 1 ==> ls[1..] == [];
      LineEndAt(ls[0], rest);
      assert (ls[0] + rest)[..|ls[0]|] == ls[0] && (ls[0] + rest)[|ls[0]|..] == rest;
      ReadConcat(ls[1..]);
    }
  }

  ghost predicate AllTerminated(ls: seq<string>) {
    forall i :: 0 <= i < |ls| ==> Terminated(ls[i])
  }

  lemma ConcatFuse(front: seq<string>, u: string, v: string, rest: seq<string>)
    ensures Flatten(front + ([u, v] + rest)) == Flatten(front + ([u + v] + rest))
  {
    FlattenAppend(front, [u, v] + rest);
    FlattenAppend(front, [u + v] + rest);
    assert ([u, v] + rest)[1..] == [v] + rest && ([v] + rest)[1..] == rest && ([u + v] + rest)[1..] == rest;
    assert u + (v + Flatten(rest)) == (u + v) + Flatten(rest);
  }

  lemma TerminatedFuse(u: string, v: string)
    requires Unterminated(u) && Terminated(v)
    ensures Terminated(u + v)
  {
    assert (u + v)[..|u + v| - 1] == u + v[..|v| - 1];
  }

  /** Writing an unterminated line before another fuses the two. */
  lemma FuseLines(front: seq<string>, u: string, v: string, rest: seq<string>)
    requires AllTerminated(front) && Unterminated(u) && Terminated(v) && AllTerminated(rest)
    ensures ReadLines(Flatten(front + ([u, v] + rest))) == front + ([u + v] + rest)
    ensures AllTerminated(front + ([u + v] + rest))
  {
    ConcatFuse(front, u, v, rest);
    TerminatedFuse(u, v);
    ReadConcat(front + ([u + v] + rest));
  }
}

/** Checking and completing the two-line licence header of a source file. */
module SpdxHeader {
  import opened Lines
  import opened Sequences
  import opened Text

  datatype Status = Empty | Complete | MissingLicense | MissingCopyright | MissingBoth

  const LICENSE_LINE := "# SPDX-License-Identifier: Apache-2.0"
  const COPYRIGHT_TAG := "# SPDX-FileCopyrightText: "
  const COPYRIGHT_OWNER := "Copyright contributors to the vLLM project"
  const COPYRIGHT_LINE := COPYRIGHT_TAG + COPYRIGHT_OWNER

  /** The two header lines, and what the repair relies on about them. */
  datatype Header = Header(license: string, copyright: string)

  predicate HeaderLine(l: string) {
    |l| >= 2 && !IsSpace(l[0]) && !IsSpace(l[|l| - 1]) && '\n' !in l && l[1] != '!'
  }

  predicate HeaderOk(h: Header) {
    HeaderLine(h.license) && HeaderLine(h.copyright) && h.license != h.copyright
  }

  function TheHeader(): Header {
    Header(LICENSE_LINE, COPYRIGHT_LINE)
  }

  lemma LicenseLineIsOk()
    ensures HeaderLine(LICENSE_LINE) && |LICENSE_LINE| == 37
  {
    var l := LICENSE_LINE;
    assert l[0] == '#' && l[1] == ' ' && l[36] == '0';
  }

  lemma HeaderLineOfParts(a: string, b: string)
    requires |a| >= 2 && a[0] == '#' && a[1] == ' ' && '\n' !in a
    requires b != [] && !IsSpace(b[|b| - 1]) && '\n' !in b
    ensures HeaderLine(a + b)
  {
    var s := a + b;
    assert s[0] == a[0] && s[1] == a[1] && s[|s| - 1] == b[|b| - 1];
  }

  lemma CopyrightTagIsOk()
    ensures |COPYRIGHT_TAG| == 26 && COPYRIGHT_TAG[0] == '#' && COPYRIGHT_TAG[1] == ' ' && '\n' !in COPYRIGHT_TAG
  {
  }

  lemma CopyrightOwnerIsOk()
    ensures |COPYRIGHT_OWNER| == 42 && COPYRIGHT_OWNER[41] == 't' && '\n' !in COPYRIGHT_OWNER
  {
  }

  lemma TheHeaderIsOk()
    ensures HeaderOk(TheHeader())
  {
    LicenseLineIsOk();
    CopyrightTagIsOk();
    CopyrightOwnerIsOk();
    HeaderLineOfParts(COPYRIGHT_TAG, COPYRIGHT_OWNER);
  }

  predicate Shebang(l: string) {
    |l| >= 2 && l[0] == '#' && l[1] == '!'
  }

  /** Index of the first line that is looked at. */
  function Start(ls: seq<string>): nat {
    if ls != [] && Shebang(ls[0]) then 1 else 0
  }

  ghost predicate Has(ls: seq<string>, line: string) {
    exists i :: Start(ls) <= i < |ls| && Strip(ls[i]) == line
  }

  ghost function StatusOf(h: Header, ls: seq<string>): Status {
    if ls == [] then Empty
    else if Has(ls, h.license) then (if Has(ls, h.copyright) then Complete else MissingCopyright)
    else if Has(ls, h.copyright) then MissingLicense
    else MissingBoth
  }

  method CheckStatus(h: Header, content: string) returns (status: Status)
    requires HeaderOk(h)
    ensures status == StatusOf(h, ReadLines(content))
  {
    var lines := ReadLines(content);
    if lines == [] {
      return Empty;
    }
    var startIdx := 0;
    if Shebang(lines[0]) {
      startIdx := 1;
    }
    var hasLicense, hasCopyright := false, false;
    for i := startIdx to |lines|
      invariant hasLicense <==> exists k :: startIdx <= k < i && Strip(lines[k]) == h.license
      invariant hasCopyright <==> exists k :: startIdx <= k < i && Strip(lines[k]) == h.copyright
    {
      var line := Strip(lines[i]);
      if line == h.license {
        hasLicense := true;
      } else if line == h.copyright {
        hasCopyright := true;
      }
    }
    if hasLicense && hasCopyright {
      status := Complete;
    } else if hasLicense && !hasCopyright {
      status := MissingCopyright;
    } else if !hasLicense && hasCopyright {
      status := MissingLicense;
    } else {
      status := MissingBoth;
    }
  }

  // ---- the repair

  /** Index of the first line that strips to `line`, or the length. */
  function FirstIndex(ls: seq<string>, line: string): (n: nat)
    ensures n <= |ls|
    ensures n < |ls| ==> Strip(ls[n]) == line
    ensures forall i :: 0 <= i < n ==> Strip(ls[i]) != line
  {
    if ls == [] || Strip(ls[0]) == line then 0 else 1 + FirstIndex(ls[1..], line)
  }

  /** Where the missing lines go, and which they are. */
  function Place(h: Header, ls: seq<string>, status: Status): nat {
    match status
    case MissingBoth => Start(ls)
    case MissingCopyright =>
      var i := FirstIndex(ls, h.license);
      if i < |ls| then i + 1 else |ls|
    case MissingLicense => FirstIndex(ls, h.copyright)
    case _ => 0
  }

  function NewLines(h: Header, status: Status): seq<string> {
    match status
    case MissingBoth => [h.license + "\n", h.copyright + "\n"]
    case MissingCopyright => [h.copyright + "\n"]
    case MissingLicense => [h.license + "\n"]
    case _ => []
  }

  ghost predicate Incomplete(s: Status) {
    s.MissingBoth? || s.MissingCopyright? || s.MissingLicense?
  }

  function Inserted(ls: seq<string>, p: nat, extra: seq<string>): seq<string>
    requires p <= |ls|
  {
    ls[..p] + (extra + ls[p..])
  }

  /** The search loop of the two single-line repairs. */
  method FindLine(lines: seq<string>, line: string) returns (i: nat)
    ensures i == FirstIndex(lines, line)
  {
    i := 0;
    while i < |lines| && Strip(lines[i]) != line
      invariant i <= |lines| && forall k :: 0 <= k < i ==> Strip(lines[k]) != line
    {
      i := i + 1;
    }
  }

  /** Writes both header lines, behind a shebang if there is one. */
  method AddBoth(h: Header, lines: seq<string>) returns (written: string)
    ensures written == Flatten(Inserted(lines, Start(lines), NewLines(h, MissingBoth)))
  {
    var header := h.license + "\n" + h.copyright;
    if lines != [] && Shebang(lines[0]) {
      written := lines[0];
      written := written + (header + "\n");
      written := written + Flatten(lines[1..]);
      BehindShebang(h, lines);
    } else {
      written := header + "\n";
      written := written + Flatten(lines);
      AtTheTop(h, lines);
    }
  }

  lemma BehindShebang(h: Header, lines: seq<string>)
    requires lines != []
    ensures Flatten(Inserted(lines, 1, NewLines(h, MissingBoth)))
         == lines[0] + (h.license + "\n" + h.copyright + "\n") + Flatten(lines[1..])
  {
    var both := NewLines(h, MissingBoth);
    FlattenCons(lines[0], both + lines[1..]);
    assert lines[..1] == [lines[0]];
    TwoLines(h, lines[1..]);
    AppendAssoc(lines[0], h.license + "\n" + h.copyright + "\n", Flatten(lines[1..]));
  }

  lemma AtTheTop(h: Header, lines: seq<string>)
    ensures Flatten(Inserted(lines, 0, NewLines(h, MissingBoth)))
         == (h.license + "\n" + h.copyright + "\n") + Flatten(lines)
  {
    var both := NewLines(h, MissingBoth);
    assert Inserted(lines, 0, both) == both + lines;
    TwoLines(h, lines);
  }

  lemma TwoLines(h: Header, rest: seq<string>)
    ensures Flatten(NewLines(h, MissingBoth) + rest) == (h.license + "\n" + h.copyright + "\n") + Flatten(rest)
  {
    var a, b := h.license + "\n", h.copyright + "\n";
    assert NewLines(h, MissingBoth) + rest == [a] + ([b] + rest);
    FlattenCons(a, [b] + rest);
    FlattenCons(b, rest);
    AppendAssoc(a, b, Flatten(rest));
    AppendAssoc(a, h.copyright, "\n");
  }

  /** Writes the copyright line behind the licence line, if there is one. */
  method AddCopyright(h: Header, lines: seq<string>) returns (written: string)
    ensures
      var i := FirstIndex(lines, h.license);
      written == Flatten(if i < |lines| then Inserted(lines, i + 1, [h.copyright + "\n"]) else lines)
  {
    var i := FindLine(lines, h.license);
    var longer := lines;
    if i < |lines| {
      longer := lines[..i + 1] + ([h.copyright + "\n"] + lines[i + 1..]);
    }
    written := Flatten(longer);
  }

  /** Writes the licence line before the copyright line, if there is one. */
  method AddLicense(h: Header, lines: seq<string>) returns (written: string)
    ensures
      var i := FirstIndex(lines, h.copyright);
      written == Flatten(if i < |lines| then Inserted(lines, i, [h.license + "\n"]) else lines)
  {
    var i := FindLine(lines, h.copyright);
    var longer := lines;
    if i < |lines| {
      longer := lines[..i] + ([h.license + "\n"] + lines[i..]);
    }
    written := Flatten(longer);
  }

  /** Rewrites the file: the written text is the old lines with the missing
      ones inserted. */
  method AddHeader(h: Header, content: string, status: Status) returns (written: string)
    requires Incomplete(status) && status == StatusOf(h, ReadLines(content))
    ensures
      var ls := ReadLines(content);
      Place(h, ls, status) <= |ls| &&
      written == Flatten(Inserted(ls, Place(h, ls, status), NewLines(h, status)))
  {
    var lines := ReadLines(content);
    match status {
      case MissingBoth =>
        written := AddBoth(h, lines);
      case MissingCopyright =>
        HasIsFound(lines, h.license);
        written := AddCopyright(h, lines);
      case MissingLicense =>
        HasIsFound(lines, h.copyright);
        written := AddLicense(h, lines);
    }
  }

  // ---- reading back what was written

  lemma StripHeaderLine(l: string)
    requires HeaderLine(l)
    ensures Strip(l + "\n") == l && Terminated(l + "\n")
  {
    var s := l + "\n";
    assert s[..|s| - 1] == l;
    assert LStrip(s) == s;
    assert RStrip(s) == RStrip(l) == l;
  }

  /** A shebang line is neither header line. */
  lemma ShebangIsNoHeader(s: string, l: string)
    requires Shebang(s) && HeaderLine(l)
    ensures Strip(s) != l
  {
    assert !IsSpace(s[0]) && !IsSpace(s[1]);
    assert LStrip(s) == s;
    RStripKeeps(s, 1);
  }

  lemma HeaderIsNoShebang(l: string)
    requires HeaderLine(l)
    ensures !Shebang(l + "\n")
  {
    assert (l + "\n")[1] == l[1];
  }

  /** The repair hits the end of an unterminated last line, and so fuses it with
      the first inserted line: a lone shebang, or a licence line at the very end
      of the file, without newline. */
  ghost predicate Fuses(h: Header, ls: seq<string>, status: Status) {
    ls != [] && Unterminated(ls[|ls| - 1]) &&
    match status
    case MissingBoth => |ls| == 1 && Shebang(ls[0])
    case MissingCopyright => Strip(ls[|ls| - 1]) == h.license && FirstIndex(ls, h.license) == |ls| - 1
    case _ => false
  }

  lemma HasIsFound(ls: seq<string>, line: string)
    requires Has(ls, line)
    ensures FirstIndex(ls, line) < |ls|
  {
    var i :| Start(ls) <= i < |ls| && Strip(ls[i]) == line;
  }

  lemma PlaceFuses(h: Header, ls: seq<string>, status: Status)
    requires HeaderOk(h) && ls != [] && Incomplete(status) && status == StatusOf(h, ls)
    ensures Place(h, ls, status) <= |ls|
    ensures Fuses(h, ls, status) <==> Place(h, ls, status) == |ls| && Unterminated(ls[|ls| - 1])
  {
    match status {
      case MissingBoth =>
      case MissingCopyright =>
        HasIsFound(ls, h.license);
      case MissingLicense =>
        HasIsFound(ls, h.copyright);
    }
  }

  lemma NewLinesTerminated(h: Header, status: Status)
    requires HeaderOk(h)
    ensures AllTerminated(NewLines(h, status))
  {
    StripHeaderLine(h.license);
    StripHeaderLine(h.copyright);
  }

  lemma InsertedProper(ls: seq<string>, p: nat, extra: seq<string>)
    requires ProperLines(ls) && AllTerminated(extra) && p <= |ls|
    requires p == |ls| > 0 ==> Terminated(ls[|ls| - 1])
    ensures ProperLines(Inserted(ls, p, extra))
  {
    var r := Inserted(ls, p, extra);
    forall i | 0 <= i < |r| - 1 ensures Terminated(r[i]) {
      if i < p {
        assert r[i] == ls[i];
      } else if i < p + |extra| {
        assert r[i] == extra[i - p];
      } else {
        assert r[i] == ls[i - |extra|];
      }
    }
    if r != [] {
      var last := |r| - 1;
      if p < |ls| {
        assert r[last] == ls[|ls| - 1];
      } else if extra != [] {
        assert r[last] == extra[|extra| - 1];
      } else {
        assert r[last] == ls[|ls| - 1];
      }
    }
  }

  /** Where the lines are inserted: both on top, past a shebang only; the
      copyright line right behind the first licence line; the licence line right
      before the first copyright line. */
  ghost predicate PlacedWell(h: Header, ls: seq<string>, status: Status) {
    var p := Place(h, ls, status);
    p <= |ls| &&
    match status
    case MissingBoth => p == if ls != [] && Shebang(ls[0]) then 1 else 0
    case MissingCopyright => p > 0 && Strip(ls[p - 1]) == h.license && forall i :: 0 <= i < p - 1 ==> Strip(ls[i]) != h.license
    case MissingLicense => p < |ls| && Strip(ls[p]) == h.copyright && forall i :: 0 <= i < p ==> Strip(ls[i]) != h.copyright
    case _ => true
  }

  /** What is written there: the licence line before the copyright line, or the
      one that is missing. */
  ghost predicate WrittenWell(h: Header, p: nat, status: Status, after: seq<string>) {
    match status
    case MissingBoth => p + 1 < |after| && after[p] == h.license + "\n" && after[p + 1] == h.copyright + "\n"
    case MissingCopyright => p < |after| && after[p] == h.copyright + "\n"
    case MissingLicense => p < |after| && after[p] == h.license + "\n"
    case _ => true
  }

  lemma WrittenMeans(h: Header, ls: seq<string>, p: nat, status: Status)
    requires p <= |ls|
    ensures WrittenWell(h, p, status, Inserted(ls, p, NewLines(h, status)))
  {
    var extra := NewLines(h, status);
    forall i | 0 <= i < |extra| ensures Inserted(ls, p, extra)[p + i] == extra[i] {
    }
    if status.MissingBoth? {
      assert Inserted(ls, p, extra)[p + 0] == extra[0] && Inserted(ls, p, extra)[p + 1] == extra[1];
    } else if extra != [] {
      assert Inserted(ls, p, extra)[p + 0] == extra[0];
    }
  }

  lemma PlaceMeans(h: Header, ls: seq<string>, status: Status)
    requires HeaderOk(h) && ls != [] && Incomplete(status) && status == StatusOf(h, ls)
    ensures PlacedWell(h, ls, status)
  {
    match status {
      case MissingBoth =>
      case MissingCopyright => HasIsFound(ls, h.license);
      case MissingLicense => HasIsFound(ls, h.copyright);
    }
  }

  /** Away from fusion the file reads back as the original lines, in order, with
      exactly the missing lines inserted, and it is complete. */
  lemma RepairCompletes(h: Header, ls: seq<string>, status: Status)
    requires HeaderOk(h) && ProperLines(ls) && ls != []
    requires Incomplete(status) && status == StatusOf(h, ls) && !Fuses(h, ls, status)
    ensures Place(h, ls, status) <= |ls|
    ensures
      var after := Inserted(ls, Place(h, ls, status), NewLines(h, status));
      && ReadLines(Flatten(after)) == after
      && StatusOf(h, after) == Complete
      && (Shebang(ls[0]) ==> after[0] == ls[0])
    ensures PlacedWell(h, ls, status)
    ensures WrittenWell(h, Place(h, ls, status), status, Inserted(ls, Place(h, ls, status), NewLines(h, status)))
  {
    PlaceMeans(h, ls, status);
    WrittenMeans(h, ls, Place(h, ls, status), status);
    var p, extra := Place(h, ls, status), NewLines(h, status);
    PlaceFuses(h, ls, status);
    NewLinesTerminated(h, status);
    InsertedProper(ls, p, extra);
    ReadConcat(Inserted(ls, p, extra));
    match status {
      case MissingBoth => BothInserted(h, ls);
      case MissingCopyright => CopyrightInserted(h, ls);
      case MissingLicense => LicenseInserted(h, ls);
    }
  }

  lemma BothInserted(h: Header, ls: seq<string>)
    requires HeaderOk(h) && ls != []
    ensures StatusOf(h, Inserted(ls, Start(ls), NewLines(h, MissingBoth))) == Complete
    ensures Shebang(ls[0]) ==> Inserted(ls, Start(ls), NewLines(h, MissingBoth))[0] == ls[0]
  {
    var p := Start(ls);
    var r := Inserted(ls, p, NewLines(h, MissingBoth));
    StripHeaderLine(h.license);
    StripHeaderLine(h.copyright);
    HeaderIsNoShebang(h.license);
    assert r[p] == h.license + "\n" && r[p + 1] == h.copyright + "\n";
    assert Start(r) == p;
    assert Has(r, h.license) && Has(r, h.copyright);
  }

  lemma HasAt(ls: seq<string>, line: string, k: nat)
    requires Start(ls) <= k < |ls| && Strip(ls[k]) == line
    ensures Has(ls, line)
  {
  }

  /** A header line is found past a shebang. */
  lemma FoundPastShebang(ls: seq<string>, line: string)
    requires HeaderLine(line) && Has(ls, line)
    ensures Start(ls) <= FirstIndex(ls, line) < |ls|
  {
    HasIsFound(ls, line);
    if Shebang(ls[0]) {
      ShebangIsNoHeader(ls[0], line);
    }
  }

  lemma OneInserted(ls: seq<string>, p: nat, x: string)
    requires p <= |ls|
    ensures
      var r := Inserted(ls, p, [x]);
      && |r| == |ls| + 1 && r[p] == x
      && (p > 0 ==> r[p - 1] == ls[p - 1] && r[0] == ls[0])
      && (p < |ls| ==> r[p + 1] == ls[p])
  {
  }

  lemma CopyrightBehind(h: Header, ls: seq<string>, i: nat)
    requires HeaderOk(h) && Start(ls) <= i < |ls| && Strip(ls[i]) == h.license
    ensures
      var r := Inserted(ls, i + 1, [h.copyright + "\n"]);
      Has(r, h.license) && Has(r, h.copyright) && r[0] == ls[0]
  {
    var r := Inserted(ls, i + 1, [h.copyright + "\n"]);
    OneInserted(ls, i + 1, h.copyright + "\n");
    StripHeaderLine(h.copyright);
    HasAt(r, h.license, i);
    HasAt(r, h.copyright, i + 1);
  }

  lemma CompleteWith(h: Header, ls: seq<string>)
    requires ls != [] && Has(ls, h.license) && Has(ls, h.copyright)
    ensures StatusOf(h, ls) == Complete
  {
  }

  lemma CopyrightCompletes(h: Header, ls: seq<string>)
    requires HeaderOk(h) && ls != [] && Has(ls, h.license)
    ensures FirstIndex(ls, h.license) < |ls|
    ensures
      var r := Inserted(ls, FirstIndex(ls, h.license) + 1, [h.copyright + "\n"]);
      StatusOf(h, r) == Complete && r[0] == ls[0]
  {
    FoundPastShebang(ls, h.license);
    CopyrightBehind(h, ls, FirstIndex(ls, h.license));
    CompleteWith(h, Inserted(ls, FirstIndex(ls, h.license) + 1, [h.copyright + "\n"]));
  }

  lemma CopyrightInserted(h: Header, ls: seq<string>)
    requires HeaderOk(h) && ls != [] && StatusOf(h, ls) == MissingCopyright
    ensures Place(h, ls, MissingCopyright) <= |ls|
    ensures
      var r := Inserted(ls, Place(h, ls, MissingCopyright), NewLines(h, MissingCopyright));
      StatusOf(h, r) == Complete && r[0] == ls[0]
  {
    CopyrightCompletes(h, ls);
  }

  lemma LicenseBefore(h: Header, ls: seq<string>, i: nat)
    requires HeaderOk(h) && Start(ls) <= i < |ls| && Strip(ls[i]) == h.copyright
    ensures
      var r := Inserted(ls, i, [h.license + "\n"]);
      Has(r, h.license) && Has(r, h.copyright) && (Shebang(ls[0]) ==> r[0] == ls[0])
  {
    var r := Inserted(ls, i, [h.license + "\n"]);
    OneInserted(ls, i, h.license + "\n");
    StripHeaderLine(h.license);
    HeaderIsNoShebang(h.license);
    HasAt(r, h.license, i);
    HasAt(r, h.copyright, i + 1);
  }

  lemma LicenseInserted(h: Header, ls: seq<string>)
    requires HeaderOk(h) && ls != [] && StatusOf(h, ls) == MissingLicense
    ensures Place(h, ls, MissingLicense) <= |ls|
    ensures
      var r := Inserted(ls, Place(h, ls, MissingLicense), NewLines(h, MissingLicense));
      StatusOf(h, r) == Complete && (Shebang(ls[0]) ==> r[0] == ls[0])
  {
    FoundPastShebang(ls, h.copyright);
    LicenseBefore(h, ls, FirstIndex(ls, h.copyright));
  }

  // ---- fusion

  /** The lines read back after a fusing repair. */
  function FusedLines(h: Header, ls: seq<string>, status: Status): seq<string>
    requires ls != [] && NewLines(h, status) != []
  {
    var n, extra := |ls| - 1, NewLines(h, status);
    ls[..n] + ([ls[n] + extra[0]] + extra[1..])
  }

  lemma FusedRead(h: Header, ls: seq<string>, status: Status)
    requires HeaderOk(h) && ProperLines(ls) && ls != []
    requires Incomplete(status) && status == StatusOf(h, ls) && Fuses(h, ls, status)
    ensures Place(h, ls, status) == |ls|
    ensures ReadLines(Flatten(Inserted(ls, |ls|, NewLines(h, status)))) == FusedLines(h, ls, status)
    ensures AllTerminated(FusedLines(h, ls, status))
  {
    var n, extra := |ls| - 1, NewLines(h, status);
    PlaceFuses(h, ls, status);
    NewLinesTerminated(h, status);
    AppendedLines(ls, extra);
    FuseLines(ls[..n], ls[n], extra[0], extra[1..]);
  }

  lemma AppendedLines(ls: seq<string>, extra: seq<string>)
    requires ls != [] && extra != []
    ensures Inserted(ls, |ls|, extra) == ls[..|ls| - 1] + ([ls[|ls| - 1], extra[0]] + extra[1..])
  {
  }

  /** A lone shebang swallows the licence line. */
  lemma FusedShebang(h: Header, ls: seq<string>)
    requires HeaderOk(h) && |ls| == 1 && Shebang(ls[0])
    ensures StatusOf(h, FusedLines(h, ls, MissingBoth)) == MissingLicense
  {
    var r := FusedLines(h, ls, MissingBoth);
    var extra := NewLines(h, MissingBoth);
    assert r == [ls[0] + extra[0], extra[1]];
    assert Shebang(r[0]);
    StripHeaderLine(h.copyright);
    assert Strip(r[1]) == h.copyright;
    assert !Has(r, h.license);
    assert Has(r, h.copyright);
  }

  /** A licence line that ends the file swallows the copyright line, and is
      itself no licence line any more. */
  lemma FusedLicense(h: Header, ls: seq<string>)
    requires HeaderOk(h) && ls != [] && StatusOf(h, ls) == MissingCopyright && Fuses(h, ls, MissingCopyright)
    ensures StatusOf(h, FusedLines(h, ls, MissingCopyright)) == MissingBoth
  {
    var n := |ls| - 1;
    var r := FusedLines(h, ls, MissingCopyright);
    var fused := ls[n] + (h.copyright + "\n");
    assert |r| == |ls| && r[n] == fused;
    assert forall i :: 0 <= i < n ==> r[i] == ls[i];
    FusedIsNoHeader(h, ls[n]);
    if Shebang(ls[n]) {
      ShebangIsNoHeader(ls[n], h.license);
    }
    LicenseStart(ls[n], h.license);
    assert n > 0 ==> r[0] == ls[0];
    assert Start(r) == Start(ls);
    assert !Has(r, h.license) && !Has(r, h.copyright);
  }

  lemma LicenseStart(s: string, l: string)
    requires HeaderLine(l) && Strip(s) == l
    ensures |s| >= 2
  {
    StripShortens(s);
  }

  lemma {:induction false} StripShortens(s: string)
    ensures |LStrip(s)| <= |s| && |RStrip(s)| <= |s| && |Strip(s)| <= |s|
    decreases |s|
  {
    LStripShortens(s);
    RStripShortens(s);
    RStripShortens(LStrip(s));
  }

  lemma {:induction false} LStripShortens(s: string)
    ensures |LStrip(s)| <= |s|
    ensures forall i :: 0 <= i < |s| - |LStrip(s)| ==> IsSpace(s[i])
    ensures LStrip(s) != [] ==> !IsSpace(LStrip(s)[0]) && LStrip(s) == s[|s| - |LStrip(s)|..]
  {
    if s != [] && IsSpace(s[0]) {
      LStripShortens(s[1..]);
      assert s == [s[0]] + s[1..];
    }
  }

  lemma {:induction false} RStripShortens(s: string)
    ensures |RStrip(s)| <= |s| && RStrip(s) == s[..|RStrip(s)|]
  {
    if s != [] && IsSpace(s[|s| - 1]) {
      RStripShortens(s[..|s| - 1]);
    }
  }

  lemma FusedIsNoHeader(h: Header, u: string)
    requires HeaderOk(h) && Strip(u) == h.license
    ensures |Strip(u + (h.copyright + "\n"))| > |h.copyright|
    ensures |Strip(u + (h.copyright + "\n"))| > |h.license|
  {
    var s := u + (h.copyright + "\n");
    LStripShortens(u);
    RStripShortens(LStrip(u));
    var i := |u| - |LStrip(u)|;
    assert !IsSpace(u[i]) && s[i] == u[i];
    assert |LStrip(u)| >= |h.license|;
    var j := |u| + |h.copyright| - 1;
    assert s[j] == h.copyright[|h.copyright| - 1];
    StripSpans(s, i, j);
  }

  // ---- the whole pass

  /** What one check-and-repair pass leaves in the file. */
  ghost function Repaired(h: Header, content: string): string {
    var ls, status := ReadLines(content), StatusOf(h, ReadLines(content));
    if Incomplete(status) && Place(h, ls, status) <= |ls|
    then Flatten(Inserted(ls, Place(h, ls, status), NewLines(h, status)))
    else content
  }

  method Repair(h: Header, content: string) returns (after: string)
    requires HeaderOk(h)
    ensures after == Repaired(h, content)
  {
    var status := CheckStatus(h, content);
    if status == MissingBoth || status == MissingCopyright || status == MissingLicense {
      after := AddHeader(h, content, status);
    } else {
      after := content;
    }
  }

  /** A pass over a file with an incomplete header completes it exactly when it
      does not fuse lines. Then the file holds the original lines, all in order,
      with the missing ones inserted, and a shebang stays first. */
  lemma RepairExact(h: Header, content: string)
    requires HeaderOk(h) && Incomplete(StatusOf(h, ReadLines(content)))
    ensures
      var ls, status, after := ReadLines(content), StatusOf(h, ReadLines(content)), ReadLines(Repaired(h, content));
      && (StatusOf(h, after) == Complete <==> !Fuses(h, ls, status))
      && (!Fuses(h, ls, status) ==>
            && Place(h, ls, status) <= |ls|
            && after == Inserted(ls, Place(h, ls, status), NewLines(h, status))
            && (Shebang(ls[0]) ==> after[0] == ls[0]))
      && (Fuses(h, ls, status) ==> Incomplete(StatusOf(h, after)) && AllTerminated(after))
  {
    ReadLinesProper(content);
    var ls, status := ReadLines(content), StatusOf(h, ReadLines(content));
    if Fuses(h, ls, status) {
      FusedRead(h, ls, status);
      if status == MissingBoth {
        FusedShebang(h, ls);
      } else {
        FusedLicense(h, ls);
      }
    } else {
      RepairCompletes(h, ls, status);
    }
  }

  /** Two passes complete every file that is not empty, whatever its last line;
      a pass over a complete file changes nothing. */
  lemma RepairConverges(h: Header, content: string)
    requires HeaderOk(h) && content != []
    ensures
      var twice := Repaired(h, Repaired(h, content));
      StatusOf(h, ReadLines(twice)) == Complete && Repaired(h, twice) == twice
  {
    ReadLinesProper(content);
    var once := Repaired(h, content);
    if Incomplete(StatusOf(h, ReadLines(content))) {
      RepairExact(h, content);
      if Incomplete(StatusOf(h, ReadLines(once))) {
        RepairExact(h, once);
        var ls := ReadLines(once);
        assert AllTerminated(ls);
        TerminatedNeverFuses(h, ls, StatusOf(h, ls));
      }
    }
  }

  lemma TerminatedNeverFuses(h: Header, ls: seq<string>, status: Status)
    requires AllTerminated(ls)
    ensures !Fuses(h, ls, status)
  {
    if ls != [] {
      var l := ls[|ls| - 1];
      assert Terminated(l) && l[|l| - 1] == '\n';
    }
  }

  /** The smallest failing file: a shebang without newline. */
  lemma LoneShebangIsNotCompleted(h: Header)
    requires HeaderOk(h)
    ensures StatusOf(h, ReadLines(Repaired(h, "#!x"))) != Complete
  {
    FlattenOne("#!x");
    ReadConcat(["#!x"]);
    var ls := ["#!x"];
    assert Start(ls) == 1;
    assert !Has(ls, h.license) && !Has(ls, h.copyright);
    assert StatusOf(h, ls) == MissingBoth && Fuses(h, ls, MissingBoth);
    RepairExact(h, "#!x");
  }
}
