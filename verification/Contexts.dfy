/** The context managers that install the forward context and the current
    configuration in module-level variables and put the old values back. */
module Contexts {

  import opened Options

  datatype Forward = Forward(id: int)
  datatype Config = Config(id: int)
  datatype Prefix = Prefix(text: string)

  /** Code that runs under the managers: reads of the variables, raising,
      sequencing, `with` blocks and `try` blocks. A forward block computes its
      metadata before it sets the variable, which may raise, and runs its
      statistics code before it restores it, which may raise too. A
      configuration block runs its checks only after a normal end. */
  datatype Code =
    | GetForward
    | GetConfig
    | GetPrefix
    | Raise
    | Then(first: Code, second: Code)
    | WithForward(forward: Forward, metadataRaises: bool, statisticsRaise: bool, body: Code)
    | WithConfig(config: Config, prefix: Option<Prefix>, checksRaise: bool, body: Code)
    | Try(body: Code, handler: Code)

  datatype Observation = SawForward(f: Forward) | SawConfig(c: Option<Config>) | SawPrefix(p: Prefix)

  // ---- the promise: a read sees the innermost open block

  datatype Block = ForwardBlock(f: Forward) | ConfigBlock(c: Config, p: Option<Prefix>)

  /** The values of the variables outside every block. */
  datatype Outer = Outer(forward: Option<Forward>, config: Option<Config>, prefix: Option<Prefix>)

  function InnermostForward(o: Outer, open: seq<Block>): Option<Forward> {
    if open == [] then o.forward
    else if open[|open| - 1].ForwardBlock? then Some(open[|open| - 1].f)
    else InnermostForward(o, open[..|open| - 1])
  }

  function InnermostConfig(o: Outer, open: seq<Block>): (Option<Config>, Option<Prefix>) {
    if open == [] then (o.config, o.prefix)
    else if open[|open| - 1].ConfigBlock? then (Some(open[|open| - 1].c), open[|open| - 1].p)
    else InnermostConfig(o, open[..|open| - 1])
  }

  lemma OpenForward(o: Outer, open: seq<Block>, f: Forward)
    ensures InnermostForward(o, open + [ForwardBlock(f)]) == Some(f)
    ensures InnermostConfig(o, open + [ForwardBlock(f)]) == InnermostConfig(o, open)
  {
    assert (open + [ForwardBlock(f)])[..|open|] == open;
  }

  lemma OpenConfig(o: Outer, open: seq<Block>, c: Config, p: Option<Prefix>)
    ensures InnermostForward(o, open + [ConfigBlock(c, p)]) == InnermostForward(o, open)
    ensures InnermostConfig(o, open + [ConfigBlock(c, p)]) == (Some(c), p)
  {
    assert (open + [ConfigBlock(c, p)])[..|open|] == open;
  }

  datatype Scoped = Scoped(seen: seq<Observation>, raised: bool)

  /** What code observes when every read sees the innermost open block. */
  function Promised(o: Outer, open: seq<Block>, code: Code): Scoped
    decreases code
  {
    match code
    case GetForward =>
      var f := InnermostForward(o, open);
      if f.Some? then Scoped([SawForward(f.value)], false) else Scoped([], true)
    case GetConfig => Scoped([SawConfig(InnermostConfig(o, open).0)], false)
    case GetPrefix =>
      var p := InnermostConfig(o, open).1;
      if p.Some? then Scoped([SawPrefix(p.value)], false) else Scoped([], true)
    case Raise => Scoped([], true)
    case Then(first, second) =>
      var a := Promised(o, open, first);
      if a.raised then a
      else
        var b := Promised(o, open, second);
        Scoped(a.seen + b.seen, b.raised)
    case WithForward(f, metadataRaises, statisticsRaise, body) =>
      if metadataRaises then Scoped([], true)
      else
        var a := Promised(o, open + [ForwardBlock(f)], body);
        a.(raised := a.raised || statisticsRaise)
    case WithConfig(c, p, checksRaise, body) =>
      var a := Promised(o, open + [ConfigBlock(c, p)], body);
      a.(raised := a.raised || checksRaise)
    case Try(body, handler) =>
      var a := Promised(o, open, body);
      if a.raised then
        var b := Promised(o, open, handler);
        Scoped(a.seen + b.seen, b.raised)
      else a
  }

  // ---- what really happens: statistics code that raises leaks the inner context

  /** `leak` is the forward context left behind, at the level the code runs on,
      by a block that was not restored. */
  datatype Result = Result(seen: seq<Observation>, raised: bool, leak: Option<Forward>)

  function Visible(o: Outer, open: seq<Block>, leak: Option<Forward>): Option<Forward> {
    if leak.Some? then leak else InnermostForward(o, open)
  }

  function Meaning(o: Outer, open: seq<Block>, leak: Option<Forward>, code: Code): Result
    decreases code
  {
    match code
    case GetForward =>
      var f := Visible(o, open, leak);
      if f.Some? then Result([SawForward(f.value)], false, leak) else Result([], true, leak)
    case GetConfig => Result([SawConfig(InnermostConfig(o, open).0)], false, leak)
    case GetPrefix =>
      var p := InnermostConfig(o, open).1;
      if p.Some? then Result([SawPrefix(p.value)], false, leak) else Result([], true, leak)
    case Raise => Result([], true, leak)
    case Then(first, second) =>
      var a := Meaning(o, open, leak, first);
      if a.raised then a
      else
        var b := Meaning(o, open, a.leak, second);
        Result(a.seen + b.seen, b.raised, b.leak)
    case WithForward(f, metadataRaises, statisticsRaise, body) =>
      if metadataRaises then Result([], true, leak)
      else
        var a := Meaning(o, open + [ForwardBlock(f)], None, body);
        if statisticsRaise then Result(a.seen, true, Some(a.leak.GetOr(f))) else a.(leak := leak)
    case WithConfig(c, p, checksRaise, body) =>
      var a := Meaning(o, open + [ConfigBlock(c, p)], leak, body);
      a.(raised := a.raised || checksRaise)
    case Try(body, handler) =>
      var a := Meaning(o, open, leak, body);
      if a.raised then
        var b := Meaning(o, open, a.leak, handler);
        Result(a.seen + b.seen, b.raised, b.leak)
      else a
  }

  /** The code enters a forward block, inside no other forward block of it,
      whose statistics code raises. */
  predicate StatisticsFail(o: Outer, open: seq<Block>, leak: Option<Forward>, code: Code)
    decreases code
  {
    match code
    case Then(first, second) =>
      var a := Meaning(o, open, leak, first);
      StatisticsFail(o, open, leak, first) || (!a.raised && StatisticsFail(o, open, a.leak, second))
    case WithForward(_, metadataRaises, statisticsRaise, _) => !metadataRaises && statisticsRaise
    case WithConfig(c, p, _, body) => StatisticsFail(o, open + [ConfigBlock(c, p)], leak, body)
    case Try(body, handler) =>
      var a := Meaning(o, open, leak, body);
      StatisticsFail(o, open, leak, body) || (a.raised && StatisticsFail(o, open, a.leak, handler))
    case _ => false
  }

  /** A context is left behind exactly when such statistics code raises:
      whatever happens inside a forward block that is restored stays inside. */
  lemma {:induction false} LeaksExactly(o: Outer, open: seq<Block>, leak: Option<Forward>, code: Code)
    ensures !StatisticsFail(o, open, leak, code) ==> Meaning(o, open, leak, code).leak == leak
    ensures StatisticsFail(o, open, leak, code) ==> Meaning(o, open, leak, code).leak.Some?
    ensures leak.Some? ==> Meaning(o, open, leak, code).leak.Some?
    ensures leak.None? ==> (Meaning(o, open, leak, code).leak.Some? <==> StatisticsFail(o, open, leak, code))
    decreases code
  {
    match code
    case Then(first, second) =>
      LeaksExactly(o, open, leak, first);
      LeaksExactly(o, open, Meaning(o, open, leak, first).leak, second);
    case WithConfig(c, p, _, body) =>
      LeaksExactly(o, open + [ConfigBlock(c, p)], leak, body);
    case Try(body, handler) =>
      LeaksExactly(o, open, leak, body);
      LeaksExactly(o, open, Meaning(o, open, leak, body).leak, handler);
    case _ =>
  }

  /** The contexts that the code installs. */
  function Installed(code: Code): set<Forward> {
    match code
    case Then(first, second) => Installed(first) + Installed(second)
    case WithForward(f, _, _, body) => {f} + Installed(body)
    case WithConfig(_, _, _, body) => Installed(body)
    case Try(body, handler) => Installed(body) + Installed(handler)
    case _ => {}
  }

  /** What is left behind is a context that the code installed. */
  lemma {:induction false} LeakIsInstalled(o: Outer, open: seq<Block>, leak: Option<Forward>, code: Code)
    requires StatisticsFail(o, open, leak, code)
    ensures
      var left := Meaning(o, open, leak, code).leak;
      left.Some? && left.value in Installed(code)
    decreases code
  {
    match code
    case Then(first, second) =>
      var a := Meaning(o, open, leak, first);
      if StatisticsFail(o, open, leak, first) {
        LeakIsInstalled(o, open, leak, first);
      }
      if !a.raised {
        LeaksExactly(o, open, a.leak, second);
        if StatisticsFail(o, open, a.leak, second) {
          LeakIsInstalled(o, open, a.leak, second);
        }
      }
    case WithForward(f, _, _, body) =>
      LeaksExactly(o, open + [ForwardBlock(f)], None, body);
      if StatisticsFail(o, open + [ForwardBlock(f)], None, body) {
        LeakIsInstalled(o, open + [ForwardBlock(f)], None, body);
      }
    case WithConfig(c, p, _, body) =>
      LeakIsInstalled(o, open + [ConfigBlock(c, p)], leak, body);
    case Try(body, handler) =>
      var a := Meaning(o, open, leak, body);
      if StatisticsFail(o, open, leak, body) {
        LeakIsInstalled(o, open, leak, body);
      }
      if a.raised {
        LeaksExactly(o, open, a.leak, handler);
        if StatisticsFail(o, open, a.leak, handler) {
          LeakIsInstalled(o, open, a.leak, handler);
        }
      }
  }

  /** Code that installs none of the contexts already visible leaves the forward
      variable as it found it exactly when no such statistics code raises,
      earlier leaks included. */
  lemma RestoredExactly(o: Outer, open: seq<Block>, leak: Option<Forward>, code: Code)
    requires Visible(o, open, leak).Some? ==> Visible(o, open, leak).value !in Installed(code)
    ensures Visible(o, open, Meaning(o, open, leak, code).leak) == Visible(o, open, leak)
            <==> !StatisticsFail(o, open, leak, code)
  {
    LeaksExactly(o, open, leak, code);
    if StatisticsFail(o, open, leak, code) {
      LeakIsInstalled(o, open, leak, code);
    }
  }

  /** No statistics code can raise anywhere in the code. */
  predicate StatisticsSafe(code: Code) {
    match code
    case Then(first, second) => StatisticsSafe(first) && StatisticsSafe(second)
    case WithForward(_, _, statisticsRaise, body) => !statisticsRaise && StatisticsSafe(body)
    case WithConfig(_, _, _, body) => StatisticsSafe(body)
    case Try(body, handler) => StatisticsSafe(body) && StatisticsSafe(handler)
    case _ => true
  }

  /** Without failing statistics code the promise is kept: every read sees the
      innermost open block and nothing is left behind. */
  lemma {:induction false} PromiseKept(o: Outer, open: seq<Block>, code: Code)
    requires StatisticsSafe(code)
    ensures Meaning(o, open, None, code) ==
              Result(Promised(o, open, code).seen, Promised(o, open, code).raised, None)
    decreases code
  {
    match code
    case Then(first, second) =>
      PromiseKept(o, open, first);
      PromiseKept(o, open, second);
    case WithForward(f, _, _, body) => PromiseKept(o, open + [ForwardBlock(f)], body);
    case WithConfig(c, p, _, body) => PromiseKept(o, open + [ConfigBlock(c, p)], body);
    case Try(body, handler) =>
      PromiseKept(o, open, body);
      PromiseKept(o, open, handler);
    case _ =>
  }

  /** A forward context read outside every block, after the failing statistics
      of a block were caught: the promise is an assertion failure, the code
      sees the context of the closed block. */
  lemma LeakIsSeen(o: Outer, f: Forward, body: Code)
    requires o.forward == None && StatisticsSafe(body)
    ensures
      var code := Try(WithForward(f, false, true, body), GetForward);
      && Promised(o, [], code).raised
      && !Meaning(o, [], None, code).raised
      && Meaning(o, [], None, code).seen == Promised(o, [], code).seen + [SawForward(f)]
  {
    var block := WithForward(f, false, true, body);
    PromiseKept(o, [] + [ForwardBlock(f)], body);
    assert Meaning(o, [], None, block).leak == Some(f);
  }

  // ---- the variables

  class Globals {
    var forwardContext: Option<Forward>
    var currentConfig: Option<Config>
    var currentPrefix: Option<Prefix>
    var log: seq<Observation>

    constructor (o: Outer)
      ensures forwardContext == o.forward && currentConfig == o.config && currentPrefix == o.prefix && log == []
    {
      forwardContext, currentConfig, currentPrefix, log := o.forward, o.config, o.prefix, [];
    }

    /** The variables hold the innermost open values, but for a leak. */
    ghost predicate Shows(o: Outer, open: seq<Block>, leak: Option<Forward>)
      reads this
    {
      forwardContext == Visible(o, open, leak) && (currentConfig, currentPrefix) == InnermostConfig(o, open)
    }

    /** Running code, however it ends, observes what `Meaning` says, leaves the
        configuration and the prefix as it found them, and leaves the forward
        context to what the leak makes visible. */
    method Run(code: Code, ghost o: Outer, ghost open: seq<Block>, ghost leak: Option<Forward>) returns (raised: bool)
      requires Shows(o, open, leak)
      modifies this
      ensures currentConfig == old(currentConfig) && currentPrefix == old(currentPrefix)
      ensures Shows(o, open, Meaning(o, open, leak, code).leak)
      ensures !StatisticsFail(o, open, leak, code) ==> forwardContext == old(forwardContext)
      ensures log == old(log) + Meaning(o, open, leak, code).seen && raised == Meaning(o, open, leak, code).raised
      decreases code, 1
    {
      LeaksExactly(o, open, leak, code);
      match code {
        case GetForward =>
          if forwardContext.None? {
            return true;
          }
          log := log + [SawForward(forwardContext.value)];
          raised := false;
        case GetConfig =>
          log := log + [SawConfig(currentConfig)];
          raised := false;
        case GetPrefix =>
          if currentPrefix.None? {
            return true;
          }
          log := log + [SawPrefix(currentPrefix.value)];
          raised := false;
        case Raise =>
          raised := true;
        case Then(first, second) =>
          raised := Run(first, o, open, leak);
          if !raised {
            raised := Run(second, o, open, Meaning(o, open, leak, first).leak);
          }
        case WithForward(_, _, _, _) =>
          raised := RunForward(code, o, open, leak);
        case WithConfig(_, _, _, _) =>
          raised := RunConfig(code, o, open, leak);
        case Try(body, handler) =>
          raised := Run(body, o, open, leak);
          if raised {
            raised := Run(handler, o, open, Meaning(o, open, leak, body).leak);
          }
      }
    }

    /** A configuration block: whatever its body and its checks do, the
        variables are restored. */
    method RunConfig(code: Code, ghost o: Outer, ghost open: seq<Block>, ghost leak: Option<Forward>)
      returns (raised: bool)
      requires code.WithConfig? && Shows(o, open, leak)
      modifies this
      ensures currentConfig == old(currentConfig) && currentPrefix == old(currentPrefix)
      ensures Shows(o, open, Meaning(o, open, leak, code).leak)
      ensures log == old(log) + Meaning(o, open, leak, code).seen && raised == Meaning(o, open, leak, code).raised
      decreases code, 0
    {
      var WithConfig(c, p, checksRaise, body) := code;
      OpenConfig(o, open, c, p);
      var oldConfig, oldPrefix := currentConfig, currentPrefix;
      currentConfig := Some(c);
      currentPrefix := p;
      raised := Run(body, o, open + [ConfigBlock(c, p)], leak);
      raised := raised || checksRaise;
      currentConfig := oldConfig;
      currentPrefix := oldPrefix;
    }

    /** A forward block. When its statistics code raises, the assignment that
        restores the variable is not reached. */
    method RunForward(code: Code, ghost o: Outer, ghost open: seq<Block>, ghost leak: Option<Forward>)
      returns (raised: bool)
      requires code.WithForward? && Shows(o, open, leak)
      modifies this
      ensures currentConfig == old(currentConfig) && currentPrefix == old(currentPrefix)
      ensures Shows(o, open, Meaning(o, open, leak, code).leak)
      ensures log == old(log) + Meaning(o, open, leak, code).seen && raised == Meaning(o, open, leak, code).raised
      decreases code, 0
    {
      var WithForward(f, metadataRaises, statisticsRaise, body) := code;
      if metadataRaises {
        return true;
      }
      OpenForward(o, open, f);
      var prevContext := forwardContext;
      forwardContext := Some(f);
      raised := Run(body, o, open + [ForwardBlock(f)], None);
      if statisticsRaise {
        return true;
      }
      forwardContext := prevContext;
    }
  }
}
