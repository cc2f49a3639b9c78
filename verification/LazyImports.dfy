/** The checker that keeps imports of the package lazy: a syntax-tree visitor
    with a mutable flag. */
module LazyImports {

  import opened Options
  import opened Sequences
  import opened Text

  /** The condition of an `if`, as far as the checker looks at it. */
  datatype Test = Name(id: string) | AttributeOfName(id: string, attr: string) | OtherTest

  /** A syntax tree. `Other` is any node that is neither an import nor an `if`;
      its children are visited in order. */
  datatype Node =
    | If(test: Test, body: seq<Node>, orelse: seq<Node>)
    | Import(lineno: int, names: seq<string>)
    | ImportFrom(lineno: int, fromModule: Option<string>, level: nat)
    | Other(children: seq<Node>)

  datatype Violation = EagerImport(lineno: int, name: string) | EagerFrom(lineno: int, name: string)

  predicate IsInternal(name: Option<string>, level: nat) {
    level > 0 || (name.Some? && (StartsWith(name.value, "vllm.") || name.value == "vllm"))
  }

  predicate IsGuard(test: Test) {
    match test
    case AttributeOfName(id, attr) => id == "typing" && attr == "TYPE_CHECKING"
    case Name(id) => id == "TYPE_CHECKING"
    case OtherTest => false
  }

  const ALLOWED_IMPORTS := {"vllm.env_override"}
  const ALLOWED_FROM_MODULES := {".version"}

  function Dots(level: nat): string {
    if level == 0 then "" else "." + Dots(level - 1)
  }

  function AsWritten(fromModule: Option<string>, level: nat): string {
    Dots(level) + (if fromModule.Some? then fromModule.value else "")
  }

  // ---- declarative reading: every import with the ifs around it

  datatype Branch = Branch(test: Test, inBody: bool)

  /** An import and the branches that lead to it, outermost first. */
  datatype Occurrence = Occurrence(node: Node, path: seq<Branch>)

  /** All import statements of a tree in source order. */
  function Occurrences(node: Node, path: seq<Branch>): seq<Occurrence> {
    match node
    case Import(_, _) => [Occurrence(node, path)]
    case ImportFrom(_, _, _) => [Occurrence(node, path)]
    case If(test, body, orelse) =>
      OccurrencesIn(body, path + [Branch(test, true)]) + OccurrencesIn(orelse, path + [Branch(test, false)])
    case Other(children) => OccurrencesIn(children, path)
  }

  function OccurrencesIn(nodes: seq<Node>, path: seq<Branch>): seq<Occurrence> {
    if nodes == [] then []
    else
      OccurrencesIn(nodes[..|nodes| - 1], path) + Occurrences(nodes[|nodes| - 1], path)
  }

  predicate GuardBody(b: Branch) {
    b.inBody && IsGuard(b.test)
  }

  /** Exempt: some enclosing `if` is a type-checking guard entered through its
      body. */
  predicate Exempt(path: seq<Branch>) {
    path != [] && (Exempt(path[..|path| - 1]) || GuardBody(path[|path| - 1]))
  }

  lemma {:induction false} ExemptMeans(path: seq<Branch>)
    ensures Exempt(path) <==> exists i :: 0 <= i < |path| && GuardBody(path[i])
  {
    if path != [] {
      ExemptMeans(path[..|path| - 1]);
      assert path == path[..|path| - 1] + [path[|path| - 1]];
    }
  }

  // ---- the same by position in the tree

  /** One step down: to the k-th child of an `Other`, or into a branch of an
      `If`. */
  datatype Side = Child | Body | Else
  datatype Step = Step(side: Side, k: nat)

  type Position = seq<Step>

  function Below(node: Node, side: Side): seq<Node> {
    match side
    case Child => if node.Other? then node.children else []
    case Body => if node.If? then node.body else []
    case Else => if node.If? then node.orelse else []
  }

  function Down(node: Node, step: Step): Option<Node> {
    var nodes := Below(node, step.side);
    if step.k < |nodes| then Some(nodes[step.k]) else None
  }

  function At(root: Node, pos: Position): Option<Node> {
    if pos == [] then Some(root)
    else
      var next := Down(root, pos[0]);
      if next.None? then None else At(next.value, pos[1..])
  }

  /** The branches taken on the way to a position. */
  function Along(root: Node, pos: Position): seq<Branch> {
    if pos == [] || Down(root, pos[0]).None? then []
    else Taken(root, pos[0]) + Along(Down(root, pos[0]).value, pos[1..])
  }

  function Taken(node: Node, step: Step): seq<Branch> {
    if node.If? then [Branch(node.test, step.side.Body?)] else []
  }

  predicate IsImport(node: Node) {
    node.Import? || node.ImportFrom?
  }

  predicate ImportAt(root: Node, pos: Position) {
    At(root, pos).Some? && IsImport(At(root, pos).value)
  }

  /** Source order: an earlier sibling first, the body of an `if` before its
      else branch. */
  predicate StepBefore(a: Step, b: Step) {
    (a.side.Body? && b.side.Else?) || (a.side == b.side && a.k < b.k)
  }

  predicate Precedes(p: Position, q: Position) {
    p != [] && q != [] && if p[0] == q[0] then Precedes(p[1..], q[1..]) else StepBefore(p[0], q[0])
  }

  ghost predicate Ordered(ps: seq<Position>) {
    forall i, j :: 0 <= i < j < |ps| ==> Precedes(ps[i], ps[j])
  }

  function Prefixed(step: Step, ps: seq<Position>): (r: seq<Position>)
    ensures |r| == |ps| && forall i :: 0 <= i < |ps| ==> r[i] == [step] + ps[i]
  {
    seq(|ps|, i requires 0 <= i < |ps| => [step] + ps[i])
  }

  /** The positions of the imports of a tree. */
  function Positions(node: Node): seq<Position> {
    match node
    case Import(_, _) => [[]]
    case ImportFrom(_, _, _) => [[]]
    case If(_, body, orelse) => PositionsIn(body, Body) + PositionsIn(orelse, Else)
    case Other(children) => PositionsIn(children, Child)
  }

  function PositionsIn(nodes: seq<Node>, side: Side): seq<Position> {
    if nodes == [] then []
    else
      var n := |nodes| - 1;
      PositionsIn(nodes[..n], side) + Prefixed(Step(side, n), Positions(nodes[n]))
  }

  /** The occurrence o is the import at a position. */
  ghost predicate Meets(root: Node, path: seq<Branch>, pos: Position, o: Occurrence) {
    At(root, pos) == Some(o.node) && IsImport(o.node) && o.path == path + Along(root, pos)
  }

  ghost predicate AllMeet(root: Node, path: seq<Branch>, ps: seq<Position>, occs: seq<Occurrence>) {
    |ps| == |occs| && forall i :: 0 <= i < |ps| ==> Meets(root, path, ps[i], occs[i])
  }

  lemma MeetsBelow(parent: Node, step: Step, path: seq<Branch>, pos: Position, o: Occurrence)
    requires Down(parent, step).Some?
    requires Meets(Down(parent, step).value, path + Taken(parent, step), pos, o)
    ensures Meets(parent, path, [step] + pos, o)
  {
    assert ([step] + pos)[1..] == pos;
    AppendAssoc(path, Taken(parent, step), Along(Down(parent, step).value, pos));
  }

  lemma AllMeetBelow(parent: Node, step: Step, path: seq<Branch>, ps: seq<Position>, occs: seq<Occurrence>)
    requires Down(parent, step).Some?
    requires AllMeet(Down(parent, step).value, path + Taken(parent, step), ps, occs)
    ensures AllMeet(parent, path, Prefixed(step, ps), occs)
  {
    forall i | 0 <= i < |ps| ensures Meets(parent, path, [step] + ps[i], occs[i]) {
      MeetsBelow(parent, step, path, ps[i], occs[i]);
    }
  }

  lemma AllMeetAppend(root: Node, path: seq<Branch>, ps: seq<Position>, occs: seq<Occurrence>,
                      ps': seq<Position>, occs': seq<Occurrence>)
    requires AllMeet(root, path, ps, occs) && AllMeet(root, path, ps', occs')
    ensures AllMeet(root, path, ps + ps', occs + occs')
  {
  }

  /** The nodes come first below that side of the parent, through the branches
      `taken`. */
  ghost predicate LeadsTo(parent: Node, side: Side, taken: seq<Branch>, nodes: seq<Node>) {
    && nodes <= Below(parent, side)
    && forall k: nat :: Taken(parent, Step(side, k)) == taken
  }

  lemma {:induction false} PositionsMeet(node: Node, path: seq<Branch>)
    ensures AllMeet(node, path, Positions(node), Occurrences(node, path))
    decreases node, 1
  {
    match node
    case Import(_, _) =>
      assert path + [] == path;
    case ImportFrom(_, _, _) =>
      assert path + [] == path;
    case If(test, body, orelse) =>
      PositionsInMeet(node, Body, [Branch(test, true)], body, path);
      PositionsInMeet(node, Else, [Branch(test, false)], orelse, path);
      AllMeetAppend(node, path, PositionsIn(body, Body), OccurrencesIn(body, path + [Branch(test, true)]),
                    PositionsIn(orelse, Else), OccurrencesIn(orelse, path + [Branch(test, false)]));
    case Other(children) =>
      assert path + [] == path;
      PositionsInMeet(node, Child, [], children, path);
  }

  lemma {:induction false} PositionsInMeet(parent: Node, side: Side, taken: seq<Branch>, nodes: seq<Node>,
                                           path: seq<Branch>)
    requires LeadsTo(parent, side, taken, nodes)
    ensures AllMeet(parent, path, PositionsIn(nodes, side), OccurrencesIn(nodes, path + taken))
    decreases nodes, 0
  {
    if nodes != [] {
      var n := |nodes| - 1;
      assert LeadsTo(parent, side, taken, nodes[..n]);
      PositionsInMeet(parent, side, taken, nodes[..n], path);
      PositionsMeet(nodes[n], path + taken);
      AllMeetBelow(parent, Step(side, n), path, Positions(nodes[n]), Occurrences(nodes[n], path + taken));
      AllMeetAppend(parent, path, PositionsIn(nodes[..n], side), OccurrencesIn(nodes[..n], path + taken),
                    Prefixed(Step(side, n), Positions(nodes[n])), Occurrences(nodes[n], path + taken));
    }
  }

  lemma {:induction false} PositionsInHas(nodes: seq<Node>, side: Side, k: nat, pos: Position)
    requires k < |nodes| && pos in Positions(nodes[k])
    ensures [Step(side, k)] + pos in PositionsIn(nodes, side)
    decreases |nodes|
  {
    var n := |nodes| - 1;
    var last := Prefixed(Step(side, n), Positions(nodes[n]));
    if k < n {
      PositionsInHas(nodes[..n], side, k, pos);
    } else {
      var i :| 0 <= i < |Positions(nodes[n])| && Positions(nodes[n])[i] == pos;
      assert last[i] == [Step(side, k)] + pos;
    }
  }

  /** No import is left out. */
  lemma {:induction false} PositionsComplete(root: Node, pos: Position)
    requires ImportAt(root, pos)
    ensures pos in Positions(root)
    decreases |pos|
  {
    if pos != [] {
      assert pos == [pos[0]] + pos[1..];
      PositionsComplete(Down(root, pos[0]).value, pos[1..]);
      PositionsInHas(Below(root, pos[0].side), pos[0].side, pos[0].k, pos[1..]);
    }
  }

  /** The positions begin with steps to the first n children. */
  ghost predicate Begin(ps: seq<Position>, side: Side, n: nat) {
    forall i :: 0 <= i < |ps| ==> ps[i] != [] && ps[i][0].side == side && ps[i][0].k < n
  }

  lemma OrderedAppend(ps: seq<Position>, qs: seq<Position>)
    requires Ordered(ps) && Ordered(qs)
    requires forall i, j :: 0 <= i < |ps| && 0 <= j < |qs| ==> Precedes(ps[i], qs[j])
    ensures Ordered(ps + qs)
  {
  }

  lemma PrefixedOrdered(step: Step, ps: seq<Position>)
    requires Ordered(ps)
    ensures Ordered(Prefixed(step, ps))
  {
    var r := Prefixed(step, ps);
    forall i, j | 0 <= i < j < |r| ensures Precedes(r[i], r[j]) {
      assert r[i][1..] == ps[i] && r[j][1..] == ps[j];
    }
  }

  lemma {:induction false} PositionsInOrdered(nodes: seq<Node>, side: Side)
    ensures Ordered(PositionsIn(nodes, side)) && Begin(PositionsIn(nodes, side), side, |nodes|)
    decreases nodes, 0
  {
    if nodes != [] {
      var n := |nodes| - 1;
      var ps, qs := PositionsIn(nodes[..n], side), Prefixed(Step(side, n), Positions(nodes[n]));
      PositionsInOrdered(nodes[..n], side);
      PositionsOrdered(nodes[n]);
      PrefixedOrdered(Step(side, n), Positions(nodes[n]));
      OrderedAppend(ps, qs);
    }
  }

  lemma {:induction false} PositionsOrdered(node: Node)
    ensures Ordered(Positions(node))
    decreases node, 1
  {
    match node
    case Import(_, _) =>
    case ImportFrom(_, _, _) =>
    case Other(children) =>
      PositionsInOrdered(children, Child);
    case If(_, body, orelse) =>
      PositionsInOrdered(body, Body);
      PositionsInOrdered(orelse, Else);
      BodyFirst(PositionsIn(body, Body), PositionsIn(orelse, Else), |body|, |orelse|);
      OrderedAppend(PositionsIn(body, Body), PositionsIn(orelse, Else));
  }

  lemma BodyFirst(ps: seq<Position>, qs: seq<Position>, m: nat, n: nat)
    requires Begin(ps, Body, m) && Begin(qs, Else, n)
    ensures forall i, j :: 0 <= i < |ps| && 0 <= j < |qs| ==> Precedes(ps[i], qs[j])
  {
    forall i, j | 0 <= i < |ps| && 0 <= j < |qs| ensures Precedes(ps[i], qs[j]) {
      assert ps[i][0].side.Body? && qs[j][0].side.Else?;
    }
  }

  /** The occurrences are exactly the imports that lie in the tree, one for each
      position, in source order, each with the branches on the way to it. */
  lemma OccurrencesExactly(root: Node, path: seq<Branch>) returns (ps: seq<Position>)
    ensures Ordered(ps) && forall pos :: pos in ps <==> ImportAt(root, pos)
    ensures AllMeet(root, path, ps, Occurrences(root, path))
  {
    ps := Positions(root);
    PositionsOrdered(root);
    PositionsMeet(root, path);
    forall pos ensures pos in ps <==> ImportAt(root, pos) {
      if ImportAt(root, pos) {
        PositionsComplete(root, pos);
      }
      if pos in ps {
        var i :| 0 <= i < |ps| && ps[i] == pos;
        assert Meets(root, path, ps[i], Occurrences(root, path)[i]);
      }
    }
  }

  // ---- what one import makes

  /** The eager imports that one statement makes. */
  function Eager(node: Node): seq<Violation> {
    match node
    case Import(lineno, names) => EagerNames(lineno, names)
    case ImportFrom(lineno, m, level) =>
      if IsInternal(m, level) && AsWritten(m, level) !in ALLOWED_FROM_MODULES
      then [EagerFrom(lineno, AsWritten(m, level))] else []
    case _ => []
  }

  function EagerNames(lineno: int, names: seq<string>): seq<Violation> {
    if names == [] then []
    else
      var name := names[|names| - 1];
      EagerNames(lineno, names[..|names| - 1])
      + (if IsInternal(Some(name), 0) && name !in ALLOWED_IMPORTS then [EagerImport(lineno, name)] else [])
  }

  /** A name of the package or of something in it. */
  predicate PackageName(name: string) {
    name == "vllm" || (|name| >= 5 && name[..5] == "vllm.")
  }

  predicate Imports(lineno: int, name: string, v: Violation) {
    v == EagerImport(lineno, name)
  }

  /** One violation per package name but `vllm.env_override`, in order. */
  lemma {:induction false} EagerNamesMean(lineno: int, names: seq<string>) returns (at: seq<nat>)
    ensures Picked(names, (n: string) => PackageName(n) && n != "vllm.env_override",
                   (n: string, v: Violation) => Imports(lineno, n, v), EagerNames(lineno, names), at)
  {
    var p := (n: string) => PackageName(n) && n != "vllm.env_override";
    var rel := (n: string, v: Violation) => Imports(lineno, n, v);
    at := [];
    if names != [] {
      var front, name := names[..|names| - 1], names[|names| - 1];
      at := EagerNamesMean(lineno, front);
      assert names == front + [name];
      PickedNext(front, name, p, rel, EagerNames(lineno, front), at, EagerImport(lineno, name));
      assert EagerNames(lineno, front) + [] == EagerNames(lineno, front);
      if p(name) {
        at := at + [|front|];
      }
    }
  }

  lemma {:induction false} DotsMean(level: nat)
    ensures |Dots(level)| == level && forall i :: 0 <= i < level ==> Dots(level)[i] == '.'
  {
    if level > 0 {
      DotsMean(level - 1);
    }
  }

  /** The one relative import that is allowed is `from .version`. */
  lemma VersionMeans(m: Option<string>, level: nat)
    requires level > 0
    ensures AsWritten(m, level) in ALLOWED_FROM_MODULES <==> level == 1 && m == Some("version")
  {
    DotsMean(level);
    var written := AsWritten(m, level);
    assert ".version" == "." + "version" && ".version"[0] == '.' && ".version"[1] == 'v';
    if level == 1 {
      assert Dots(1) == ".";
      assert written[1..] == m.GetOr("");
      assert ".version"[1..] == "version";
    } else {
      assert written[1] == '.';
    }
  }

  /** A `from` import is reported, as written, when it is relative and not `from
      .version`, or names the package. */
  lemma EagerFromMeans(lineno: int, m: Option<string>, level: nat)
    ensures Eager(ImportFrom(lineno, m, level)) ==
              if (level > 0 && !(level == 1 && m == Some("version"))) || (level == 0 && m.Some? && PackageName(m.value))
              then [EagerFrom(lineno, Dots(level) + m.GetOr(""))] else []
  {
    if level > 0 {
      VersionMeans(m, level);
    } else if m.Some? && PackageName(m.value) {
      assert m.value[0] == 'v' && ".version"[0] == '.';
      assert AsWritten(m, level) == m.value;
    }
  }

  /** An import that may be anywhere. */
  ghost predicate Harmless(node: Node) {
    match node
    case Import(_, names) => forall i :: 0 <= i < |names| && PackageName(names[i]) ==> names[i] == "vllm.env_override"
    case ImportFrom(_, m, level) => if level == 0 then m.Some? ==> !PackageName(m.value) else level == 1 && m == Some("version")
    case _ => true
  }

  lemma HarmlessMeans(node: Node)
    ensures Eager(node) == [] <==> Harmless(node)
  {
    match node
    case Import(lineno, names) =>
      var at := EagerNamesMean(lineno, names);
      if Eager(node) != [] {
        assert at[0] < |names| && PackageName(names[at[0]]) && names[at[0]] != "vllm.env_override";
      }
    case ImportFrom(lineno, m, level) =>
      EagerFromMeans(lineno, m, level);
    case _ =>
  }

  function Reported(o: Occurrence): seq<Violation> {
    if Exempt(o.path) then [] else Eager(o.node)
  }

  /** What must be reported: the eager imports of every occurrence that is not
      exempt, in source order. */
  function Report(occs: seq<Occurrence>): seq<Violation> {
    Flatten(Map(Reported, occs))
  }

  lemma ReportAppend(a: seq<Occurrence>, b: seq<Occurrence>)
    ensures Report(a + b) == Report(a) + Report(b)
  {
    MapAppend(Reported, a, b);
    FlattenAppend(Map(Reported, a), Map(Reported, b));
  }

  lemma ExemptExtend(path: seq<Branch>, b: Branch)
    ensures Exempt(path + [b]) <==> Exempt(path) || GuardBody(b)
  {
    assert (path + [b])[..|path|] == path;
  }

  lemma ReportIf(node: Node, path: seq<Branch>)
    requires node.If?
    ensures
      var thenPath, elsePath := path + [Branch(node.test, true)], path + [Branch(node.test, false)];
      && Exempt(thenPath) == (Exempt(path) || IsGuard(node.test))
      && Exempt(elsePath) == Exempt(path)
      && Report(Occurrences(node, path)) ==
           Report(OccurrencesIn(node.body, thenPath)) + Report(OccurrencesIn(node.orelse, elsePath))
  {
    var thenPath, elsePath := path + [Branch(node.test, true)], path + [Branch(node.test, false)];
    ExemptExtend(path, Branch(node.test, true));
    ExemptExtend(path, Branch(node.test, false));
    ReportAppend(OccurrencesIn(node.body, thenPath), OccurrencesIn(node.orelse, elsePath));
  }

  lemma ReportLeaf(node: Node, path: seq<Branch>)
    requires node.Import? || node.ImportFrom?
    ensures Report(Occurrences(node, path)) == if Exempt(path) then [] else Eager(node)
  {
    var o := Occurrence(node, path);
    assert [o][..0] == [];
    assert Map(Reported, [o]) == [Reported(o)];
    FlattenOne(Reported(o));
  }

  lemma ReportNext(nodes: seq<Node>, i: nat, path: seq<Branch>)
    requires i < |nodes|
    ensures Report(OccurrencesIn(nodes[..i + 1], path)) ==
            Report(OccurrencesIn(nodes[..i], path)) + Report(Occurrences(nodes[i], path))
  {
    assert nodes[..i + 1][..i] == nodes[..i];
    ReportAppend(OccurrencesIn(nodes[..i], path), Occurrences(nodes[i], path));
  }

  // ---- the visitor

  class Visitor {
    var inTypeChecking: bool
    var violations: seq<Violation>

    constructor ()
      ensures !inTypeChecking && violations == []
    {
      inTypeChecking := false;
      violations := [];
    }

    /** Visiting a subtree reached through `path` appends exactly the required
        report and leaves the flag as it found it. */
    method Visit(node: Node, ghost path: seq<Branch>)
      requires inTypeChecking == Exempt(path)
      modifies this
      ensures inTypeChecking == old(inTypeChecking)
      ensures violations == old(violations) + Report(Occurrences(node, path))
      decreases node, 1
    {
      match node
      case Import(_, _) =>
        ReportLeaf(node, path);
        VisitImport(node);
      case ImportFrom(_, _, _) =>
        ReportLeaf(node, path);
        VisitImportFrom(node);
      case If(_, _, _) =>
        VisitIf(node, path);
      case Other(children) =>
        VisitAll(children, path);
    }

    method VisitAll(nodes: seq<Node>, ghost path: seq<Branch>)
      requires inTypeChecking == Exempt(path)
      modifies this
      ensures inTypeChecking == old(inTypeChecking)
      ensures violations == old(violations) + Report(OccurrencesIn(nodes, path))
      decreases nodes, 0
    {
      for i := 0 to |nodes|
        invariant inTypeChecking == old(inTypeChecking)
        invariant violations == old(violations) + Report(OccurrencesIn(nodes[..i], path))
      {
        ReportNext(nodes, i, path);
        Visit(nodes[i], path);
      }
      assert nodes[..|nodes|] == nodes;
    }

    method VisitIf(node: Node, ghost path: seq<Branch>)
      requires node.If? && inTypeChecking == Exempt(path)
      modifies this
      ensures inTypeChecking == old(inTypeChecking)
      ensures violations == old(violations) + Report(Occurrences(node, path))
      decreases node, 0
    {
      var If(test, body, orelse) := node;
      ghost var thenPath, elsePath := path + [Branch(test, true)], path + [Branch(test, false)];
      ReportIf(node, path);
      var guardIsTypeChecking := IsGuard(test);
      if guardIsTypeChecking {
        var prev := inTypeChecking;
        inTypeChecking := true;
        VisitAll(body, thenPath);
        inTypeChecking := prev;
      } else {
        VisitAll(body, thenPath);
      }
      assert violations == old(violations) + Report(OccurrencesIn(body, thenPath));
      VisitAll(orelse, elsePath);
      AppendAssoc(old(violations), Report(OccurrencesIn(body, thenPath)), Report(OccurrencesIn(orelse, elsePath)));
    }

    method VisitImport(node: Node)
      requires node.Import?
      modifies this`violations
      ensures violations == old(violations) + (if inTypeChecking then [] else Eager(node))
    {
      if inTypeChecking {
        return;
      }
      for i := 0 to |node.names|
        invariant violations == old(violations) + EagerNames(node.lineno, node.names[..i])
      {
        assert node.names[..i + 1][..i] == node.names[..i];
        var moduleName := node.names[i];
        if IsInternal(Some(moduleName), 0) && moduleName !in ALLOWED_IMPORTS {
          violations := violations + [EagerImport(node.lineno, moduleName)];
        }
      }
      assert node.names[..|node.names|] == node.names;
    }

    method VisitImportFrom(node: Node)
      requires node.ImportFrom?
      modifies this`violations
      ensures violations == old(violations) + (if inTypeChecking then [] else Eager(node))
    {
      if inTypeChecking {
        return;
      }
      var moduleAsWritten := AsWritten(node.fromModule, node.level);
      if IsInternal(node.fromModule, node.level) && moduleAsWritten !in ALLOWED_FROM_MODULES {
        violations := violations + [EagerFrom(node.lineno, moduleAsWritten)];
      }
    }
  }

  /** The position lies in the body of an `if` that tests `TYPE_CHECKING` or
      `typing.TYPE_CHECKING`. */
  ghost predicate Guarded(root: Node, pos: Position) {
    exists j :: 0 <= j < |Along(root, pos)| && IsTypeCheckingBody(Along(root, pos)[j])
  }

  predicate IsTypeCheckingBody(b: Branch) {
    b.inBody && (b.test == Name("TYPE_CHECKING") || b.test == AttributeOfName("typing", "TYPE_CHECKING"))
  }

  lemma GuardedIsExempt(root: Node, pos: Position)
    ensures Guarded(root, pos) <==> Exempt([] + Along(root, pos))
  {
    var path := Along(root, pos);
    assert [] + path == path;
    ExemptMeans(path);
    forall j | 0 <= j < |path| ensures GuardBody(path[j]) <==> IsTypeCheckingBody(path[j]) {
      GuardBodyIs(path[j]);
    }
  }

  lemma GuardBodyIs(b: Branch)
    ensures GuardBody(b) <==> IsTypeCheckingBody(b)
  {
  }

  ghost predicate Clean(root: Node) {
    forall pos :: ImportAt(root, pos) ==> Harmless(At(root, pos).value) || Guarded(root, pos)
  }

  /** A tree gives no report exactly when every import that lies in it is
      harmless or in the body of a guard. */
  lemma CleanExactly(root: Node)
    ensures Report(Occurrences(root, [])) == [] <==> Clean(root)
  {
    var occs := Occurrences(root, []);
    var ps := OccurrencesExactly(root, []);
    FlattenEmpty(Map(Reported, occs));
    forall i | 0 <= i < |occs|
      ensures Map(Reported, occs)[i] == [] <==> Harmless(At(root, ps[i]).value) || Guarded(root, ps[i])
    {
      assert Meets(root, [], ps[i], occs[i]);
      MapAt(Reported, occs, i);
      HarmlessMeans(occs[i].node);
      GuardedIsExempt(root, ps[i]);
    }
    if Report(occs) == [] {
      forall pos | ImportAt(root, pos) ensures Harmless(At(root, pos).value) || Guarded(root, pos) {
        var i :| 0 <= i < |ps| && ps[i] == pos;
        assert Map(Reported, occs)[i] == [];
      }
    }
    if Clean(root) {
      forall i | 0 <= i < |occs| ensures Map(Reported, occs)[i] == [] {
        assert ps[i] in ps;
      }
    }
  }

  /** A module that imports an engine module at its top is reported. */
  lemma TopLevelImport(lineno: int, name: string)
    requires PackageName(name) && name != "vllm.env_override"
    ensures !Clean(Other([Import(lineno, [name])]))
  {
    var root := Other([Import(lineno, [name])]);
    var pos := [Step(Child, 0)];
    assert pos[1..] == [];
    assert At(root, pos) == Some(Import(lineno, [name]));
    assert [name][0] == name;
    assert !Harmless(At(root, pos).value);
    assert Along(root, pos) == [];
  }

  /** The whole check: the tree is clean exactly when every import that lies in
      it is harmless or in the body of a guard. */
  method CheckTree(tree: Node) returns (violations: seq<Violation>)
    ensures violations == Report(Occurrences(tree, []))
    ensures violations == [] <==> Clean(tree)
  {
    var visitor := new Visitor();
    visitor.Visit(tree, []);
    violations := visitor.violations;
    CleanExactly(tree);
  }
}
