/** The serving benchmark: requests run under a semaphore and are gathered in
    launch order, then aggregated request by request. */
module Concurrency {

  import opened Options

  /** n requests under an optional concurrency limit; a limit of zero counts as
      none, and then there is no semaphore. */
  datatype Setup = Setup(n: nat, maxConcurrency: Option<nat>) {
    predicate Limited() {
      maxConcurrency.Some? && maxConcurrency.value > 0
    }
  }

  /** The task of one request: not yet launched, waiting for a permit, in flight
      with a permit, or done with its output. */
  datatype Task<O> = Pending | Waiting | InFlight | Done(output: O)

  datatype State<O> = State(launched: nat, tasks: seq<Task<O>>, permits: int)

  /** Tasks are launched in request order; the rest may happen in any order. */
  datatype Step<O> = Launch | Acquire(i: nat) | Finish(i: nat, output: O)

  function Initial<O>(c: Setup): State<O> {
    State(0, seq(c.n, _ => Pending), if c.Limited() then c.maxConcurrency.value else 0)
  }

  /** `answer(i, o)`: o can come back for request i. */
  predicate Enabled<O>(c: Setup, answer: (nat, O) -> bool, s: State<O>, step: Step<O>) {
    match step
    case Launch => s.launched < |s.tasks|
    case Acquire(i) => i < |s.tasks| && s.tasks[i].Waiting? && (!c.Limited() || s.permits > 0)
    case Finish(i, o) => i < |s.tasks| && s.tasks[i].InFlight? && answer(i, o)
  }

  function Apply<O>(c: Setup, answer: (nat, O) -> bool, s: State<O>, step: Step<O>): State<O>
    requires Enabled(c, answer, s, step)
  {
    match step
    case Launch => State(s.launched + 1, s.tasks[s.launched := Waiting], s.permits)
    case Acquire(i) => State(s.launched, s.tasks[i := InFlight], s.permits - 1)
    case Finish(i, o) => State(s.launched, s.tasks[i := Done(o)], s.permits + 1)
  }

  /** A run as the list of its states: each follows from the one before by an
      enabled step. */
  ghost predicate IsRun<O(!new)>(c: Setup, answer: (nat, O) -> bool, run: seq<State<O>>) {
    && run != [] && run[0] == Initial(c)
    && forall k :: 0 < k < |run| ==> Follows(c, answer, run[k - 1], run[k])
  }

  ghost predicate Follows<O(!new)>(c: Setup, answer: (nat, O) -> bool, s: State<O>, t: State<O>) {
    exists step :: Enabled(c, answer, s, step) && t == Apply(c, answer, s, step)
  }

  // ---- counting tasks

  function Total<O>(w: Task<O> -> int, tasks: seq<Task<O>>): int {
    if tasks == [] then 0 else Total(w, tasks[..|tasks| - 1]) + w(tasks[|tasks| - 1])
  }

  lemma {:induction false} TotalUpdate<O>(w: Task<O> -> int, tasks: seq<Task<O>>, i: nat, t: Task<O>)
    requires i < |tasks|
    ensures Total(w, tasks[i := t]) == Total(w, tasks) - w(tasks[i]) + w(t)
  {
    var n := |tasks| - 1;
    if i < n {
      assert tasks[i := t][..n] == tasks[..n][i := t];
      TotalUpdate(w, tasks[..n], i, t);
    } else {
      assert tasks[i := t][..n] == tasks[..n];
    }
  }

  lemma {:induction false} TotalConstant<O>(w: Task<O> -> int, tasks: seq<Task<O>>, k: int)
    requires forall i :: 0 <= i < |tasks| ==> w(tasks[i]) == k
    ensures Total(w, tasks) == k * |tasks|
  {
    if tasks != [] {
      TotalConstant(w, tasks[..|tasks| - 1], k);
      assert k * |tasks| == k * (|tasks| - 1) + k;
    }
  }

  lemma {:induction false} TotalNonNegative<O>(w: Task<O> -> int, tasks: seq<Task<O>>)
    requires forall i :: 0 <= i < |tasks| ==> w(tasks[i]) >= 0
    ensures Total(w, tasks) >= 0
    ensures Total(w, tasks) == 0 <==> forall i :: 0 <= i < |tasks| ==> w(tasks[i]) == 0
  {
    if tasks != [] {
      TotalNonNegative(w, tasks[..|tasks| - 1]);
    }
  }

  function IsFlying<O>(t: Task<O>): int {
    if t.InFlight? then 1 else 0
  }

  /** Steps a task still has to take. */
  function StepsLeft<O>(t: Task<O>): int {
    match t
    case Pending => 3
    case Waiting => 2
    case InFlight => 1
    case Done(_) => 0
  }

  function Flying<O>(s: State<O>): int {
    Total(t => IsFlying(t), s.tasks)
  }

  function Left<O>(s: State<O>): int {
    Total(t => StepsLeft(t), s.tasks)
  }

  // ---- what every reachable state satisfies

  ghost predicate Invariant<O>(c: Setup, answer: (nat, O) -> bool, s: State<O>) {
    && |s.tasks| == c.n && s.launched <= c.n
    && (forall i :: 0 <= i < c.n ==> (s.tasks[i].Pending? <==> s.launched <= i))
    && (forall i :: 0 <= i < c.n && s.tasks[i].Done? ==> answer(i, s.tasks[i].output))
    && (c.Limited() ==> s.permits >= 0 && s.permits + Flying(s) == c.maxConcurrency.value)
  }

  lemma InitialInvariant<O>(c: Setup, answer: (nat, O) -> bool)
    ensures Invariant(c, answer, Initial(c)) && Left<O>(Initial(c)) == 3 * c.n
  {
    var s: State<O> := Initial(c);
    TotalConstant(t => IsFlying(t), s.tasks, 0);
    TotalConstant(t => StepsLeft(t), s.tasks, 3);
  }

  lemma StepKeepsInvariant<O>(c: Setup, answer: (nat, O) -> bool, s: State<O>, step: Step<O>)
    requires Invariant(c, answer, s) && Enabled(c, answer, s, step)
    ensures Invariant(c, answer, Apply(c, answer, s, step))
    ensures Left(Apply(c, answer, s, step)) == Left(s) - 1
  {
    var i := if step.Launch? then s.launched else step.i;
    var t := Apply(c, answer, s, step).tasks[i];
    TotalUpdate(t => IsFlying(t), s.tasks, i, t);
    TotalUpdate(t => StepsLeft(t), s.tasks, i, t);
  }

  lemma {:induction false} RunKeepsInvariant<O(!new)>(c: Setup, answer: (nat, O) -> bool, run: seq<State<O>>, k: nat)
    requires IsRun(c, answer, run) && k < |run|
    ensures Invariant(c, answer, run[k]) && Left(run[k]) == 3 * c.n - k
  {
    if k == 0 {
      InitialInvariant(c, answer);
    } else {
      RunKeepsInvariant(c, answer, run, k - 1);
      assert Follows(c, answer, run[k - 1], run[k]);
      var step :| Enabled(c, answer, run[k - 1], step) && run[k] == Apply(c, answer, run[k - 1], step);
      StepKeepsInvariant(c, answer, run[k - 1], step);
    }
  }

  /** In every state of every run, whatever the completion order, no more than
      the permitted number of requests is in flight. */
  lemma BoundedConcurrency<O(!new)>(c: Setup, answer: (nat, O) -> bool, run: seq<State<O>>, k: nat)
    requires IsRun(c, answer, run) && k < |run| && c.Limited()
    ensures Flying(run[k]) <= c.maxConcurrency.value
  {
    RunKeepsInvariant(c, answer, run, k);
  }

  ghost predicate Finished<O>(s: State<O>) {
    forall i :: 0 <= i < |s.tasks| ==> s.tasks[i].Done?
  }

  ghost predicate Answerable<O(!new)>(answer: (nat, O) -> bool, i: nat) {
    exists o :: answer(i, o)
  }

  ghost predicate CanStep<O(!new)>(c: Setup, answer: (nat, O) -> bool, s: State<O>) {
    exists step :: Enabled(c, answer, s, step)
  }

  /** No deadlock: when the request function always comes back, a run that is not
      finished can go on. */
  lemma NoDeadlock<O(!new)>(c: Setup, answer: (nat, O) -> bool, run: seq<State<O>>)
    requires IsRun(c, answer, run)
    requires forall i: nat :: Answerable(answer, i)
    ensures Finished(run[|run| - 1]) || CanStep(c, answer, run[|run| - 1])
  {
    RunKeepsInvariant(c, answer, run, |run| - 1);
    var s := run[|run| - 1];
    if s.launched < c.n {
      assert Enabled(c, answer, s, Launch);
    } else if i :| 0 <= i < c.n && s.tasks[i].InFlight? {
      assert Answerable(answer, i);
      var o :| answer(i, o);
      assert Enabled(c, answer, s, Finish(i, o));
    } else if i :| 0 <= i < c.n && s.tasks[i].Waiting? {
      NoneFlying(s);
      assert Enabled(c, answer, s, Acquire(i));
    }
  }

  lemma NoneFlying<O>(s: State<O>)
    requires forall i :: 0 <= i < |s.tasks| ==> !s.tasks[i].InFlight?
    ensures Flying(s) == 0
  {
    TotalConstant(t => IsFlying(t), s.tasks, 0);
  }

  /** Every run takes at most three steps per request, and is finished exactly
      when it has taken them all. */
  lemma RunLength<O(!new)>(c: Setup, answer: (nat, O) -> bool, run: seq<State<O>>)
    requires IsRun(c, answer, run)
    ensures |run| - 1 <= 3 * c.n
    ensures Finished(run[|run| - 1]) <==> |run| - 1 == 3 * c.n
  {
    RunKeepsInvariant(c, answer, run, |run| - 1);
    var s := run[|run| - 1];
    TotalNonNegative(t => StepsLeft(t), s.tasks);
    assert forall i :: 0 <= i < |s.tasks| ==> (StepsLeft(s.tasks[i]) == 0 <==> s.tasks[i].Done?);
  }

  /** The gathered list: the output of task i at place i. */
  function Gather<O>(s: State<O>): (outputs: seq<O>)
    requires forall i :: 0 <= i < |s.tasks| ==> s.tasks[i].Done?
  {
    seq(|s.tasks|, i requires 0 <= i < |s.tasks| => s.tasks[i].output)
  }

  ghost predicate Answered<O>(answer: (nat, O) -> bool, outputs: seq<O>) {
    forall i :: 0 <= i < |outputs| ==> answer(i, outputs[i])
  }

  /** When a run is finished the i-th gathered output answers the i-th request. */
  lemma GatheredInOrder<O(!new)>(c: Setup, answer: (nat, O) -> bool, run: seq<State<O>>)
    requires IsRun(c, answer, run) && Finished(run[|run| - 1])
    ensures |Gather(run[|run| - 1])| == c.n && Answered(answer, Gather(run[|run| - 1]))
  {
    RunKeepsInvariant(c, answer, run, |run| - 1);
  }
}

/** Aggregating the gathered outputs. */
module Metrics {

  import opened Options
  import opened Requests
  import opened Sequences

  /** The service-level objectives, in milliseconds. */
  datatype Slo = Slo(ttft: Option<real>, tpot: Option<real>, e2el: Option<real>)

  datatype Totals = Totals(
    completed: nat,
    totalInput: int,
    goodCompleted: nat,
    actualOutputLens: seq<nat>,
    itls: seq<real>,
    tpots: seq<real>,
    allTpots: seq<real>,
    ttfts: seq<real>,
    e2els: seq<real>)

  const MILLISECONDS := 1000.0

  // ---- per-request meaning

  /** Tokens the server reports, counted by the tokenizer when it reports none. */
  function OutputLen(count: string -> nat, o: Output): nat {
    if o.outputTokens != 0 then o.outputTokens else count(o.text)
  }

  /** Time per output token after the first; zero for one token or none. */
  function Tpot(count: string -> nat, o: Output): real {
    var n := OutputLen(count, o);
    if n > 1 then (o.latency - o.ttft) / (n - 1) as real else 0.0
  }

  predicate Within(bound: Option<real>, x: real) {
    bound.Some? ==> bound.value / MILLISECONDS >= x
  }

  /** A request is good when it meets every configured objective. */
  predicate Good(count: string -> nat, slo: Slo, o: Output) {
    Within(slo.ttft, o.ttft) && Within(slo.tpot, Tpot(count, o)) && Within(slo.e2el, o.latency)
  }

  predicate Configured(slo: Slo) {
    slo.ttft.Some? || slo.tpot.Some? || slo.e2el.Some?
  }

  /** The successful outputs, in request order. */
  function Successes(outputs: seq<Output>): seq<Output> {
    if outputs == [] then []
    else
      var o := outputs[|outputs| - 1];
      if o.success then Successes(outputs[..|outputs| - 1]) + [o] else Successes(outputs[..|outputs| - 1])
  }

  function PromptSum(promptLens: seq<nat>, outputs: seq<Output>): int
    requires |promptLens| == |outputs|
  {
    if outputs == [] then 0
    else
      var n := |outputs| - 1;
      PromptSum(promptLens[..n], outputs[..n]) + (if outputs[n].success then promptLens[n] else 0)
  }

  function Each(f: Output -> real, s: seq<Output>): (r: seq<real>)
    ensures |r| == |s| && forall i :: 0 <= i < |s| ==> r[i] == f(s[i])
  {
    seq(|s|, i requires 0 <= i < |s| => f(s[i]))
  }

  lemma EachAppend(f: Output -> real, s: seq<Output>, o: Output)
    ensures Each(f, s + [o]) == Each(f, s) + [f(o)]
  {
  }

  function LensOf(count: string -> nat, outputs: seq<Output>): seq<nat> {
    seq(|outputs|, i requires 0 <= i < |outputs| =>
      if outputs[i].success then OutputLen(count, outputs[i]) else 0)
  }

  function JoinItl(s: seq<Output>): seq<real> {
    if s == [] then [] else JoinItl(s[..|s| - 1]) + s[|s| - 1].itl
  }

  /** Times per output token of the requests with more than one token. */
  function TpotsOf(count: string -> nat, s: seq<Output>): seq<real> {
    if s == [] then []
    else
      var o := s[|s| - 1];
      TpotsOf(count, s[..|s| - 1]) + (if OutputLen(count, o) > 1 then [Tpot(count, o)] else [])
  }

  function CountGood(count: string -> nat, slo: Slo, s: seq<Output>): nat {
    if s == [] then 0
    else CountGood(count, slo, s[..|s| - 1]) + (if Good(count, slo, s[|s| - 1]) then 1 else 0)
  }

  // ---- what these definitions amount to

  lemma ScaledBound(b: real, x: real)
    ensures b / MILLISECONDS >= x <==> b >= 1000.0 * x
  {
    assert b / 1000.0 * 1000.0 == b;
  }

  lemma SpreadBound(d: real, n: real, x: real)
    requires n > 0.0
    ensures d / n <= x <==> d <= x * n
  {
    assert d / n * n == d;
  }

  /** Good by the numbers: objectives are in milliseconds, times in seconds, and
      time per output token is the time behind the first token over the tokens
      behind it. */
  lemma GoodExactly(count: string -> nat, slo: Slo, o: Output)
    ensures
      var n := if o.outputTokens == 0 then count(o.text) else o.outputTokens;
      Good(count, slo, o) <==>
        && (slo.ttft.Some? ==> 1000.0 * o.ttft <= slo.ttft.value)
        && (slo.e2el.Some? ==> 1000.0 * o.latency <= slo.e2el.value)
        && (slo.tpot.Some? ==>
              if n > 1 then 1000.0 * (o.latency - o.ttft) <= slo.tpot.value * (n - 1) as real
              else 0.0 <= slo.tpot.value)
  {
    var n := OutputLen(count, o);
    if slo.ttft.Some? {
      ScaledBound(slo.ttft.value, o.ttft);
    }
    if slo.e2el.Some? {
      ScaledBound(slo.e2el.value, o.latency);
    }
    if slo.tpot.Some? {
      ScaledBound(slo.tpot.value, Tpot(count, o));
      if n > 1 {
        TpotBound(o.latency - o.ttft, (n - 1) as real, slo.tpot.value);
      }
    }
  }

  lemma TpotBound(d: real, n: real, b: real)
    requires n > 0.0
    ensures b >= 1000.0 * (d / n) <==> 1000.0 * d <= b * n
  {
    SpreadBound(1000.0 * d, n, b);
    assert 1000.0 * (d / n) == (1000.0 * d) / n;
  }

  ghost function GoodOnes(count: string -> nat, slo: Slo, s: seq<Output>): set<int> {
    set i | 0 <= i < |s| && Good(count, slo, s[i])
  }

  /** The good count is the number of good requests. */
  lemma {:induction false} CountGoodMeans(count: string -> nat, slo: Slo, s: seq<Output>)
    ensures CountGood(count, slo, s) == |GoodOnes(count, slo, s)|
  {
    if s == [] {
      assert GoodOnes(count, slo, s) == {};
    } else {
      var n := |s| - 1;
      CountGoodMeans(count, slo, s[..n]);
      assert forall i :: 0 <= i < n ==> s[..n][i] == s[i];
      if Good(count, slo, s[n]) {
        assert GoodOnes(count, slo, s) == GoodOnes(count, slo, s[..n]) + {n};
      } else {
        assert GoodOnes(count, slo, s) == GoodOnes(count, slo, s[..n]);
      }
    }
  }

  lemma {:induction false} SuccessesMean(outputs: seq<Output>) returns (at: seq<nat>)
    ensures Picked(outputs, (o: Output) => o.success, (o: Output, r: Output) => o == r, Successes(outputs), at)
  {
    at := [];
    if outputs != [] {
      var front, o := outputs[..|outputs| - 1], outputs[|outputs| - 1];
      at := SuccessesMean(front);
      assert outputs == front + [o];
      PickedNext(front, o, (o: Output) => o.success, (o: Output, r: Output) => o == r, Successes(front), at, o);
      if o.success {
        at := at + [|front|];
      }
    }
  }

  /** A request adds its prompt length exactly when it succeeded. */
  lemma {:induction false} PromptSumMeans(promptLens: seq<nat>, outputs: seq<Output>, i: nat, failed: Output)
    requires |promptLens| == |outputs| && i < |outputs| && !failed.success
    ensures PromptSum(promptLens, outputs) ==
            PromptSum(promptLens, outputs[i := failed]) + (if outputs[i].success then promptLens[i] else 0)
  {
    var n := |outputs| - 1;
    if i < n {
      PromptSumMeans(promptLens[..n], outputs[..n], i, failed);
      assert outputs[i := failed][..n] == outputs[..n][i := failed];
    } else {
      assert outputs[i := failed][..n] == outputs[..n];
    }
  }

  lemma {:induction false} NoSuccessNoPrompts(promptLens: seq<nat>, outputs: seq<Output>)
    requires |promptLens| == |outputs| && forall i :: 0 <= i < |outputs| ==> !outputs[i].success
    ensures PromptSum(promptLens, outputs) == 0
  {
    if outputs != [] {
      NoSuccessNoPrompts(promptLens[..|outputs| - 1], outputs[..|outputs| - 1]);
    }
  }

  lemma {:induction false} JoinItlMeans(s: seq<Output>)
    ensures JoinItl(s) == Flatten(Map((o: Output) => o.itl, s))
  {
    if s != [] {
      var front, o := s[..|s| - 1], s[|s| - 1];
      JoinItlMeans(front);
      FlattenSnoc(Map((o: Output) => o.itl, front), o.itl);
    }
  }

  lemma {:induction false} TpotsMean(count: string -> nat, s: seq<Output>) returns (at: seq<nat>)
    ensures Picked(s, (o: Output) => OutputLen(count, o) > 1, (o: Output, x: real) => x == Tpot(count, o),
                   TpotsOf(count, s), at)
  {
    at := [];
    if s != [] {
      var front, o := s[..|s| - 1], s[|s| - 1];
      at := TpotsMean(count, front);
      assert s == front + [o];
      PickedNext(front, o, (o: Output) => OutputLen(count, o) > 1, (o: Output, x: real) => x == Tpot(count, o),
                 TpotsOf(count, front), at, Tpot(count, o));
      if OutputLen(count, o) > 1 {
        at := at + [|front|];
      } else {
        assert TpotsOf(count, front) + [] == TpotsOf(count, front);
      }
    }
  }

  // ---- the loops

  /** The three metric lists that goodput reads are those of the successful
      requests, aligned. */
  ghost predicate Aligned(count: string -> nat, s: seq<Output>, t: Totals) {
    && t.completed == |s|
    && t.ttfts == Each((o: Output) => o.ttft, s)
    && t.allTpots == Each((o: Output) => Tpot(count, o), s)
    && t.e2els == Each((o: Output) => o.latency, s)
  }

  lemma AlignedNext(count: string -> nat, s: seq<Output>, t: Totals, o: Output)
    requires Aligned(count, s, t)
    ensures Aligned(count, s + [o],
                    t.(completed := t.completed + 1, ttfts := t.ttfts + [o.ttft],
                       allTpots := t.allTpots + [Tpot(count, o)], e2els := t.e2els + [o.latency]))
  {
    EachAppend((o: Output) => o.ttft, s, o);
    EachAppend((o: Output) => Tpot(count, o), s, o);
    EachAppend((o: Output) => o.latency, s, o);
  }

  const EMPTY := Totals(0, 0, 0, [], [], [], [], [], [])

  /** Folds one output into the totals. */
  method Record(count: string -> nat, promptLen: nat, o: Output, t: Totals, ghost s: seq<Output>) returns (r: Totals)
    requires Aligned(count, s, t)
    ensures Aligned(count, if o.success then s + [o] else s, r)
    ensures r.totalInput == t.totalInput + (if o.success then promptLen else 0)
    ensures r.actualOutputLens == t.actualOutputLens + [if o.success then OutputLen(count, o) else 0]
    ensures r.itls == t.itls + (if o.success then o.itl else [])
    ensures r.tpots == t.tpots + (if o.success && OutputLen(count, o) > 1 then [Tpot(count, o)] else [])
    ensures r.goodCompleted == t.goodCompleted
  {
    r := t;
    if o.success {
      AlignedNext(count, s, t, o);
      var outputLen := o.outputTokens;
      if outputLen == 0 {
        outputLen := count(o.text);
      }
      r := r.(actualOutputLens := r.actualOutputLens + [outputLen]);
      r := r.(totalInput := r.totalInput + promptLen);
      var tpot := 0.0;
      if outputLen > 1 {
        var latencyMinusTtft := o.latency - o.ttft;
        tpot := latencyMinusTtft / (outputLen - 1) as real;
        r := r.(tpots := r.tpots + [tpot]);
      }
      r := r.(allTpots := r.allTpots + [tpot], itls := r.itls + o.itl, ttfts := r.ttfts + [o.ttft],
              e2els := r.e2els + [o.latency], completed := r.completed + 1);
    } else {
      r := r.(actualOutputLens := r.actualOutputLens + [0]);
    }
  }

  /** Zips the configured metric lists with their objectives and counts the
      requests that meet them all. */
  method CountWithin(valid: seq<seq<real>>, slos: seq<real>, n: nat) returns (good: nat)
    requires |valid| == |slos| > 0 && forall j :: 0 <= j < |valid| ==> |valid[j]| == n
    ensures good == Meeting(valid, slos, n)
  {
    good := 0;
    for k := 0 to n
      invariant good == Meeting(valid, slos, k)
    {
      var isGood := true;
      for j := 0 to |valid|
        invariant isGood <==> forall i :: 0 <= i < j ==> slos[i] >= valid[i][k]
      {
        if !(slos[j] >= valid[j][k]) {
          isGood := false;
        }
      }
      if isGood {
        good := good + 1;
      }
    }
  }

  ghost function Meeting(valid: seq<seq<real>>, slos: seq<real>, n: nat): nat
    requires |valid| == |slos| && forall j :: 0 <= j < |valid| ==> |valid[j]| >= n
  {
    if n == 0 then 0
    else Meeting(valid, slos, n - 1)
         + (if MeetsAll(valid, slos, n - 1) then 1 else 0)
  }

  ghost predicate MeetsAll(valid: seq<seq<real>>, slos: seq<real>, k: nat)
    requires |valid| == |slos| && forall j :: 0 <= j < |valid| ==> |valid[j]| > k
  {
    forall j :: 0 <= j < |slos| ==> slos[j] >= valid[j][k]
  }

  /** Adds one objective, if it is configured, to the lists to be zipped. */
  method AddObjective(valid: seq<seq<real>>, slos: seq<real>, bound: Option<real>, list: seq<real>)
    returns (valid': seq<seq<real>>, slos': seq<real>)
    requires |valid| == |slos| && forall j :: 0 <= j < |valid| ==> |valid[j]| == |list|
    ensures |valid'| == |slos'| == |slos| + (if bound.Some? then 1 else 0)
    ensures forall j :: 0 <= j < |valid'| ==> |valid'[j]| == |list|
    ensures forall k :: 0 <= k < |list| ==>
              (MeetsAll(valid', slos', k) <==> MeetsAll(valid, slos, k) && Within(bound, list[k]))
  {
    valid', slos' := valid, slos;
    if bound.Some? {
      var b := bound.value / MILLISECONDS;
      valid', slos' := valid' + [list], slos' + [b];
      forall k | 0 <= k < |list|
        ensures MeetsAll(valid', slos', k) <==> MeetsAll(valid, slos, k) && b >= list[k]
      {
        MeetsOneMore(valid, slos, list, b, k);
      }
    }
  }

  lemma MeetsOneMore(valid: seq<seq<real>>, slos: seq<real>, list: seq<real>, b: real, k: nat)
    requires |valid| == |slos| && (forall j :: 0 <= j < |valid| ==> |valid[j]| > k) && k < |list|
    ensures MeetsAll(valid + [list], slos + [b], k) <==> MeetsAll(valid, slos, k) && b >= list[k]
  {
    var v, s := valid + [list], slos + [b];
    assert v[|valid|] == list && s[|slos|] == b;
    assert forall j :: 0 <= j < |slos| ==> v[j] == valid[j] && s[j] == slos[j];
  }

  lemma {:induction false} MeetingIsGood(count: string -> nat, slo: Slo, s: seq<Output>,
                                         valid: seq<seq<real>>, slos: seq<real>, k: nat)
    requires k <= |s| && |valid| == |slos| && forall j :: 0 <= j < |valid| ==> |valid[j]| == |s|
    requires forall i :: 0 <= i < |s| ==>
               (Good(count, slo, s[i]) <==> MeetsAll(valid, slos, i))
    ensures Meeting(valid, slos, k) == CountGood(count, slo, s[..k])
  {
    if k > 0 {
      MeetingIsGood(count, slo, s, valid, slos, k - 1);
      assert s[..k][..k - 1] == s[..k - 1];
    }
  }

  /** Goodput: how many successful requests meet every configured objective;
      none are counted when no objective is configured. */
  method Goodput(count: string -> nat, slo: Slo, t: Totals, ghost s: seq<Output>) returns (good: nat)
    requires Aligned(count, s, t)
    ensures good == if Configured(slo) then CountGood(count, slo, s) else 0
  {
    var valid: seq<seq<real>>, slos: seq<real> := [], [];
    valid, slos := AddObjective(valid, slos, slo.ttft, t.ttfts);
    valid, slos := AddObjective(valid, slos, slo.tpot, t.allTpots);
    valid, slos := AddObjective(valid, slos, slo.e2el, t.e2els);
    if |valid| == 0 {
      return 0;
    }
    good := CountWithin(valid, slos, t.completed);
    MeetingIsGood(count, slo, s, valid, slos, |s|);
    assert s[..|s|] == s;
  }

  /** The loop over the outputs. */
  method FoldOutputs(promptLens: seq<nat>, outputs: seq<Output>, count: string -> nat) returns (t: Totals)
    requires |promptLens| == |outputs|
    ensures Aligned(count, Successes(outputs), t)
    ensures t.totalInput == PromptSum(promptLens, outputs)
    ensures t.actualOutputLens == LensOf(count, outputs)
    ensures t.itls == JoinItl(Successes(outputs)) && t.tpots == TpotsOf(count, Successes(outputs))
  {
    t := EMPTY;
    for i := 0 to |outputs|
      invariant Aligned(count, Successes(outputs[..i]), t)
      invariant t.totalInput == PromptSum(promptLens[..i], outputs[..i])
      invariant t.actualOutputLens == LensOf(count, outputs[..i])
      invariant t.itls == JoinItl(Successes(outputs[..i])) && t.tpots == TpotsOf(count, Successes(outputs[..i]))
    {
      PrefixNext(promptLens, outputs, count, i);
      t := Record(count, promptLens[i], outputs[i], t, Successes(outputs[..i]));
    }
    assert outputs[..|outputs|] == outputs && promptLens[..|promptLens|] == promptLens;
  }

  /** Every request has its length: what the server reports, what the tokenizer
      counts if it reports none, zero for a failed one. */
  ghost predicate IsLength(count: string -> nat, o: Output, n: nat) {
    n == if !o.success then 0 else if o.outputTokens == 0 then count(o.text) else o.outputTokens
  }

  lemma LensMean(count: string -> nat, outputs: seq<Output>)
    ensures |LensOf(count, outputs)| == |outputs|
    ensures forall i :: 0 <= i < |outputs| ==> IsLength(count, outputs[i], LensOf(count, outputs)[i])
  {
  }

  /** The whole aggregation: counts, the per-request sums and the metric lists
      of the successful requests, aligned and in request order. */
  method CalculateMetrics(promptLens: seq<nat>, outputs: seq<Output>, count: string -> nat, slo: Slo)
    returns (t: Totals)
    requires |promptLens| == |outputs|
    ensures Aligned(count, Successes(outputs), t)
    ensures t.totalInput == PromptSum(promptLens, outputs)
    ensures t.itls == JoinItl(Successes(outputs)) && t.tpots == TpotsOf(count, Successes(outputs))
    ensures |t.actualOutputLens| == |outputs|
    ensures forall i :: 0 <= i < |outputs| ==> IsLength(count, outputs[i], t.actualOutputLens[i])
    ensures t.goodCompleted ==
              if slo.ttft.Some? || slo.tpot.Some? || slo.e2el.Some?
              then |GoodOnes(count, slo, Successes(outputs))| else 0
  {
    t := FoldOutputs(promptLens, outputs, count);
    var good := Goodput(count, slo, t, Successes(outputs));
    t := t.(goodCompleted := good);
    LensMean(count, outputs);
    CountGoodMeans(count, slo, Successes(outputs));
  }

  lemma PrefixNext(promptLens: seq<nat>, outputs: seq<Output>, count: string -> nat, i: nat)
    requires |promptLens| == |outputs| && i < |outputs|
    ensures
      var before, o, after := outputs[..i], outputs[i], outputs[..i + 1];
      && Successes(after) == (if o.success then Successes(before) + [o] else Successes(before))
      && PromptSum(promptLens[..i + 1], after) == PromptSum(promptLens[..i], before) + (if o.success then promptLens[i] else 0)
      && LensOf(count, after) == LensOf(count, before) + [if o.success then OutputLen(count, o) else 0]
      && JoinItl(Successes(after)) == JoinItl(Successes(before)) + (if o.success then o.itl else [])
      && TpotsOf(count, Successes(after)) ==
           TpotsOf(count, Successes(before)) + (if o.success && OutputLen(count, o) > 1 then [Tpot(count, o)] else [])
  {
    assert outputs[..i + 1][..i] == outputs[..i] && promptLens[..i + 1][..i] == promptLens[..i];
    var s, o := Successes(outputs[..i]), outputs[i];
    assert (s + [o])[..|s|] == s;
  }
}

/** From the streams of the TRT-LLM client to the reported metrics. */
module TrtBenchmark {
  import opened Requests
  import opened Metrics
  import Streaming

  datatype Request = Request(promptLen: nat, accepted: bool, st: real, chunks: seq<Streaming.TrtChunk>)

  /** The gaps account for everything behind the first token. */
  predicate Accounted(o: Output) {
    o.ttft + Sum(o.itl) == o.latency
  }

  lemma Cancel(a: real, b: real)
    requires b != 0.0
    ensures (a / b) * b == a
  {
  }

  /** Time per output token, over the tokens after the first, is the sum of the
      gaps. */
  lemma TpotSpreadsGaps(count: string -> nat, o: Output)
    requires Accounted(o) && OutputLen(count, o) > 1
    ensures Tpot(count, o) * (OutputLen(count, o) - 1) as real == Sum(o.itl)
  {
    Cancel(o.latency - o.ttft, (OutputLen(count, o) - 1) as real);
  }

  /** Nothing is lost between the lists: all latencies together are all
      first-token times and all gaps. */
  lemma {:induction false} TimesConserved(s: seq<Output>)
    requires forall i :: 0 <= i < |s| ==> Accounted(s[i])
    ensures Sum(Each((o: Output) => o.latency, s)) == Sum(Each((o: Output) => o.ttft, s)) + Sum(JoinItl(s))
  {
    if s != [] {
      var front, o := s[..|s| - 1], s[|s| - 1];
      assert s == front + [o];
      TimesConserved(front);
      EachAppend((o: Output) => o.latency, front, o);
      EachAppend((o: Output) => o.ttft, front, o);
      SumSnoc(Each((o: Output) => o.latency, front), o.latency);
      SumSnoc(Each((o: Output) => o.ttft, front), o.ttft);
      SumAppend(JoinItl(front), o.itl);
    }
  }

  lemma {:induction false} SuccessesAccounted(outputs: seq<Output>)
    requires forall i :: 0 <= i < |outputs| && outputs[i].success ==> Accounted(outputs[i])
    ensures forall i :: 0 <= i < |Successes(outputs)| ==> Accounted(Successes(outputs)[i])
  {
    if outputs != [] {
      SuccessesAccounted(outputs[..|outputs| - 1]);
    }
  }

  function PromptLens(requests: seq<Request>): (lens: seq<nat>)
    ensures |lens| == |requests|
  {
    seq(|requests|, i requires 0 <= i < |requests| => requests[i].promptLen)
  }

  /** The response is accepted and every chunk decodes. */
  predicate Succeeds(r: Request) {
    r.accepted && Streaming.TrtBad !in r.chunks
  }

  predicate Answers(r: Request, o: Output) {
    (o.success <==> Succeeds(r)) && (o.success ==> Accounted(o))
  }

  method Send(r: Request) returns (o: Output)
    ensures Answers(r, o)
  {
    o := Streaming.RequestTrtLlm(r.accepted, r.st, r.chunks);
  }

  method SendAll(requests: seq<Request>) returns (outputs: seq<Output>)
    ensures |outputs| == |requests| && forall i :: 0 <= i < |requests| ==> Answers(requests[i], outputs[i])
  {
    outputs := [];
    for n := 0 to |requests|
      invariant |outputs| == n
      invariant forall i :: 0 <= i < n ==> Answers(requests[i], outputs[i])
    {
      var o := Send(requests[n]);
      outputs := outputs + [o];
    }
  }

  lemma ListsConserved(count: string -> nat, outputs: seq<Output>, t: Totals)
    requires forall i :: 0 <= i < |outputs| && outputs[i].success ==> Accounted(outputs[i])
    requires Aligned(count, Successes(outputs), t) && t.itls == JoinItl(Successes(outputs))
    ensures Sum(t.e2els) == Sum(t.ttfts) + Sum(t.itls)
  {
    SuccessesAccounted(outputs);
    TimesConserved(Successes(outputs));
  }

  /** Sends every request and aggregates the outputs. In the reported lists the
      latencies add up to the first-token times and the gaps, and a request's
      time per output token spreads its gaps over the tokens after the first. */
  method Benchmark(requests: seq<Request>, count: string -> nat, slo: Slo)
    returns (outputs: seq<Output>, t: Totals)
    ensures |outputs| == |requests|
    ensures forall i :: 0 <= i < |requests| ==> (outputs[i].success <==> Succeeds(requests[i]))
    ensures Aligned(count, Successes(outputs), t)
    ensures Sum(t.e2els) == Sum(t.ttfts) + Sum(t.itls)
    ensures forall i :: 0 <= i < |outputs| && outputs[i].success && OutputLen(count, outputs[i]) > 1 ==>
              Tpot(count, outputs[i]) * (OutputLen(count, outputs[i]) - 1) as real == Sum(outputs[i].itl)
  {
    outputs := SendAll(requests);
    t := CalculateMetrics(PromptLens(requests), outputs, count, slo);
    assert forall i :: 0 <= i < |requests| ==> Answers(requests[i], outputs[i]);
    ListsConserved(count, outputs, t);
    forall i | 0 <= i < |outputs| && outputs[i].success && OutputLen(count, outputs[i]) > 1
      ensures Tpot(count, outputs[i]) * (OutputLen(count, outputs[i]) - 1) as real == Sum(outputs[i].itl)
    {
      TpotSpreadsGaps(count, outputs[i]);
    }
  }
}
