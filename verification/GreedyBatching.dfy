/** The batching loop of the Hugging Face throughput benchmark. */
module GreedyBatching {
  import opened Sequences

  datatype Prompt = Prompt(text: string)
  datatype Request = Request(prompt: Prompt, promptLen: nat, outputLen: nat)

  /** A generated batch: its prompts and the length it is generated to. */
  datatype Batch = Batch(prompts: seq<Prompt>, maxNewTokens: nat)

  const MAX_PADDED := 2048

  function Max(a: int, b: int): int {
    if a < b then b else a
  }

  function MaxPrompt(rs: seq<Request>): nat {
    if rs == [] then 0 else Max(MaxPrompt(rs[..|rs| - 1]), rs[|rs| - 1].promptLen)
  }

  function MaxOutput(rs: seq<Request>): nat {
    if rs == [] then 0 else Max(MaxOutput(rs[..|rs| - 1]), rs[|rs| - 1].outputLen)
  }

  /** A batch may hold one request whatever its size; several requests must fit
      the size cap and the padded length. */
  predicate Feasible(cap: int, rs: seq<Request>) {
    |rs| == 1 || (1 < |rs| <= cap && MaxPrompt(rs) + MaxOutput(rs) <= MAX_PADDED)
  }

  ghost predicate FeasiblePartition(cap: int, groups: seq<seq<Request>>) {
    forall i :: 0 <= i < |groups| ==> Feasible(cap, groups[i])
  }

  /** No group could have taken the first request of the next one. */
  ghost predicate Greedy(cap: int, groups: seq<seq<Request>>) {
    && FeasiblePartition(cap, groups)
    && forall i :: 0 < i < |groups| ==> !Feasible(cap, groups[i - 1] + [groups[i][0]])
  }

  // ---- feasibility is closed under contiguous sub-batches

  lemma {:induction false} MaximaBound(rs: seq<Request>, i: nat)
    requires i < |rs|
    ensures rs[i].promptLen <= MaxPrompt(rs) && rs[i].outputLen <= MaxOutput(rs)
  {
    if i < |rs| - 1 {
      MaximaBound(rs[..|rs| - 1], i);
    }
  }

  lemma {:induction false} MaximaLeast(rs: seq<Request>, p: nat, o: nat)
    requires forall i :: 0 <= i < |rs| ==> rs[i].promptLen <= p && rs[i].outputLen <= o
    ensures MaxPrompt(rs) <= p && MaxOutput(rs) <= o
  {
    if rs != [] {
      MaximaLeast(rs[..|rs| - 1], p, o);
    }
  }

  lemma {:induction false} MaximaReached(rs: seq<Request>)
    requires rs != []
    ensures exists i :: 0 <= i < |rs| && rs[i].promptLen == MaxPrompt(rs)
    ensures exists j :: 0 <= j < |rs| && rs[j].outputLen == MaxOutput(rs)
  {
    var front, last := rs[..|rs| - 1], rs[|rs| - 1];
    if front == [] {
      assert MaxPrompt(front) == 0 && MaxOutput(front) == 0;
      assert MaxPrompt(rs) == last.promptLen && MaxOutput(rs) == last.outputLen;
    } else {
      MaximaReached(front);
      var i :| 0 <= i < |front| && front[i].promptLen == MaxPrompt(front);
      var j :| 0 <= j < |front| && front[j].outputLen == MaxOutput(front);
      assert rs[i] == front[i] && rs[j] == front[j];
      assert MaxPrompt(rs) == last.promptLen || MaxPrompt(rs) == rs[i].promptLen;
      assert MaxOutput(rs) == last.outputLen || MaxOutput(rs) == rs[j].outputLen;
    }
  }

  /** A batch is feasible exactly when it is a single request, or holds at most
      the cap and any prompt of it padded together with any output of it fits
      2048 tokens. */
  lemma FeasibleExactly(cap: int, rs: seq<Request>)
    ensures Feasible(cap, rs) <==>
              || |rs| == 1
              || (1 < |rs| <= cap &&
                  forall i, j :: 0 <= i < |rs| && 0 <= j < |rs| ==> rs[i].promptLen + rs[j].outputLen <= 2048)
  {
    if |rs| > 1 {
      MaximaReached(rs);
      forall i | 0 <= i < |rs| ensures rs[i].promptLen <= MaxPrompt(rs) && rs[i].outputLen <= MaxOutput(rs) {
        MaximaBound(rs, i);
      }
    }
  }

  lemma SubBatchFeasible(cap: int, rs: seq<Request>, lo: nat, hi: nat)
    requires lo < hi <= |rs| && Feasible(cap, rs)
    ensures Feasible(cap, rs[lo..hi])
  {
    var sub := rs[lo..hi];
    forall i | 0 <= i < |sub|
      ensures sub[i].promptLen <= MaxPrompt(rs) && sub[i].outputLen <= MaxOutput(rs)
    {
      MaximaBound(rs, lo + i);
    }
    MaximaLeast(sub, MaxPrompt(rs), MaxOutput(rs));
  }

  // ---- greedy stays ahead

  lemma FlattenNonEmpty(cap: int, groups: seq<seq<Request>>)
    requires FeasiblePartition(cap, groups) && groups != []
    ensures Flatten(groups) != [] && Flatten(groups)[0] == groups[0][0]
  {
    assert groups[0] != [];
  }

  lemma PrefixesAgree(a: seq<Request>, b: seq<Request>, c: seq<Request>, d: seq<Request>)
    requires a + b == c + d && |c| < |a| && d != []
    ensures a[0..|c| + 1] == c + [d[0]]
  {
    assert a[0..|c| + 1] == (a + b)[..|c| + 1];
    assert c + [d[0]] == (c + d)[..|c| + 1];
  }

  lemma TailsAgree(a: seq<Request>, b: seq<Request>, c: seq<Request>, d: seq<Request>)
    requires a + b == c + d && |a| <= |c|
    ensures IsSuffix(d, b)
  {
    assert d == (c + d)[|c|..];
    assert b[|c| - |a|..] == (a + b)[|c|..];
  }

  /** The first greedy group reaches at least as far as any feasible batch that
      begins no later. `covered` is that batch's part from the greedy start. */
  lemma FirstGroupReaches(cap: int, greedy: seq<seq<Request>>, covered: seq<Request>, rest: seq<Request>)
    requires Greedy(cap, greedy) && greedy != []
    requires covered != [] && Feasible(cap, covered)
    requires Flatten(greedy) == covered + rest
    ensures |covered| <= |greedy[0]|
  {
    var g := greedy[0];
    assert Flatten(greedy) == g + Flatten(greedy[1..]);
    if |greedy| == 1 {
      assert greedy[1..] == [];
    } else {
      assert !Feasible(cap, greedy[1 - 1] + [greedy[1][0]]);
      assert FeasiblePartition(cap, greedy[1..]);
      FlattenNonEmpty(cap, greedy[1..]);
      if |g| < |covered| {
        PrefixesAgree(covered, rest, g, Flatten(greedy[1..]));
        SubBatchFeasible(cap, covered, 0, |g| + 1);
        assert false;
      }
    }
  }

  lemma GreedyTail(cap: int, greedy: seq<seq<Request>>)
    requires Greedy(cap, greedy) && greedy != []
    ensures Greedy(cap, greedy[1..])
  {
    var tail := greedy[1..];
    forall i | 0 <= i < |tail| ensures Feasible(cap, tail[i]) {
      assert tail[i] == greedy[i + 1];
    }
    forall i | 0 < i < |tail| ensures !Feasible(cap, tail[i - 1] + [tail[i][0]]) {
      assert tail[i - 1] == greedy[i] && tail[i] == greedy[i + 1];
      assert !Feasible(cap, greedy[i + 1 - 1] + [greedy[i + 1][0]]);
    }
  }

  /** A greedy partition of a suffix never needs more groups than a feasible
      partition of the whole. */
  lemma {:induction false} GreedyStaysAhead(cap: int, greedy: seq<seq<Request>>, other: seq<seq<Request>>)
    requires Greedy(cap, greedy) && FeasiblePartition(cap, other)
    requires IsSuffix(Flatten(greedy), Flatten(other))
    ensures |greedy| <= |other|
    decreases |other|
  {
    if greedy != [] {
      FlattenNonEmpty(cap, greedy);
      assert other != [];
      var first, rest := other[0], Flatten(other[1..]);
      var f := Flatten(greedy);
      assert FeasiblePartition(cap, other[1..]);
      if |f| <= |rest| {
        assert f == rest[|rest| - |f|..];
        GreedyStaysAhead(cap, greedy, other[1..]);
      } else {
        var n := |f| - |rest|;
        var covered := first[|first| - n..|first|];
        assert f == covered + rest;
        SubBatchFeasible(cap, first, |first| - n, |first|);
        FirstGroupReaches(cap, greedy, covered, rest);
        GreedyTail(cap, greedy);
        TailsAgree(covered, rest, greedy[0], Flatten(greedy[1..]));
        GreedyStaysAhead(cap, greedy[1..], other[1..]);
      }
    }
  }

  /** The greedy partition is optimal: no partition of the same requests, in
      order, into feasible batches uses fewer batches. */
  lemma GreedyIsOptimal(cap: int, greedy: seq<seq<Request>>, other: seq<seq<Request>>)
    requires Greedy(cap, greedy) && FeasiblePartition(cap, other)
    requires Flatten(greedy) == Flatten(other)
    ensures |greedy| <= |other|
  {
    GreedyStaysAhead(cap, greedy, other);
  }

  // ---- the loop

  function Prompts(rs: seq<Request>): seq<Prompt> {
    if rs == [] then [] else Prompts(rs[..|rs| - 1]) + [rs[|rs| - 1].prompt]
  }

  /** What is generated for a group of requests. */
  function Generate(rs: seq<Request>): Batch {
    Batch(Prompts(rs), MaxOutput(rs))
  }

  function GenerateAll(groups: seq<seq<Request>>): (batches: seq<Batch>)
    ensures |batches| == |groups| && forall i :: 0 <= i < |groups| ==> batches[i] == Generate(groups[i])
  {
    seq(|groups|, i requires 0 <= i < |groups| => Generate(groups[i]))
  }

  /** What generating a group means: its prompts in order, up to its largest
      output length. */
  ghost predicate Generates(rs: seq<Request>, b: Batch) {
    && |b.prompts| == |rs| && (forall i :: 0 <= i < |rs| ==> b.prompts[i] == rs[i].prompt)
    && (exists j :: 0 <= j < |rs| && rs[j].outputLen == b.maxNewTokens)
    && (forall j :: 0 <= j < |rs| ==> rs[j].outputLen <= b.maxNewTokens)
  }

  lemma {:induction false} PromptsAt(rs: seq<Request>)
    ensures |Prompts(rs)| == |rs| && forall i :: 0 <= i < |rs| ==> Prompts(rs)[i] == rs[i].prompt
  {
    if rs != [] {
      PromptsAt(rs[..|rs| - 1]);
    }
  }

  lemma GenerateMeans(rs: seq<Request>)
    requires rs != []
    ensures Generates(rs, Generate(rs))
  {
    PromptsAt(rs);
    MaximaReached(rs);
    forall j | 0 <= j < |rs| ensures rs[j].outputLen <= MaxOutput(rs) {
      MaximaBound(rs, j);
    }
  }

  lemma GenerateAppend(groups: seq<seq<Request>>, g: seq<Request>)
    ensures GenerateAll(groups + [g]) == GenerateAll(groups) + [Generate(g)]
  {
  }

  /** The loop variables describe the open group. */
  ghost predicate Describes(open: seq<Request>, batch: seq<Prompt>, maxPromptLen: nat, maxOutputLen: nat) {
    && |batch| == |open| && batch == Prompts(open)
    && maxPromptLen == MaxPrompt(open) && maxOutputLen == MaxOutput(open)
  }

  lemma AppendMaxima(rs: seq<Request>, r: Request)
    ensures MaxPrompt(rs + [r]) == Max(MaxPrompt(rs), r.promptLen)
    ensures MaxOutput(rs + [r]) == Max(MaxOutput(rs), r.outputLen)
    ensures Prompts(rs + [r]) == Prompts(rs) + [r.prompt]
  {
    assert (rs + [r])[..|rs|] == rs;
  }

  /** The loop state before request i: the closed groups are greedy, and the
      open one can take request i, whose group the closed ones cannot extend
      into. */
  ghost predicate LoopState(cap: int, requests: seq<Request>, i: nat,
                            groups: seq<seq<Request>>, open: seq<Request>)
    requires i <= |requests|
  {
    && Flatten(groups) + open == requests[..i]
    && Greedy(cap, groups)
    && (i == |requests| ==> open == [])
    && (i < |requests| ==>
          var taken := open + [requests[i]];
          && Feasible(cap, taken)
          && (groups != [] ==> !Feasible(cap, groups[|groups| - 1] + [taken[0]])))
  }

  lemma KeepOpen(cap: int, requests: seq<Request>, i: nat, groups: seq<seq<Request>>, open: seq<Request>)
    requires i + 1 < |requests| && LoopState(cap, requests, i, groups, open)
    requires Feasible(cap, open + [requests[i]] + [requests[i + 1]])
    ensures LoopState(cap, requests, i + 1, groups, open + [requests[i]])
  {
    assert requests[..i + 1] == requests[..i] + [requests[i]];
    assert Flatten(groups) + (open + [requests[i]]) == Flatten(groups) + open + [requests[i]];
  }

  lemma Flush(cap: int, requests: seq<Request>, i: nat, groups: seq<seq<Request>>, open: seq<Request>)
    requires i < |requests| && LoopState(cap, requests, i, groups, open)
    requires i + 1 < |requests| ==> !Feasible(cap, open + [requests[i]] + [requests[i + 1]])
    ensures LoopState(cap, requests, i + 1, groups + [open + [requests[i]]], [])
  {
    var g := open + [requests[i]];
    CloseGroup(cap, groups, g);
    FlattenSnoc(groups, g);
    assert requests[..i + 1] == requests[..i] + [requests[i]];
    assert Flatten(groups) + g + [] == Flatten(groups) + open + [requests[i]];
    if i + 1 < |requests| {
      assert [] + [requests[i + 1]] == [requests[i + 1]];
    }
  }

  /** The one-lookahead test decides whether the group can be extended. */
  lemma LookaheadTest(cap: int, open: seq<Request>, next: Request)
    requires open != []
    ensures Feasible(cap, open + [next]) <==>
            |open| < cap &&
            Max(MaxPrompt(open), next.promptLen) + Max(MaxOutput(open), next.outputLen) <= 2048
  {
    AppendMaxima(open, next);
  }

  lemma CloseGroup(cap: int, groups: seq<seq<Request>>, open: seq<Request>)
    requires Greedy(cap, groups) && Feasible(cap, open)
    requires groups != [] ==> !Feasible(cap, groups[|groups| - 1] + [open[0]])
    ensures Greedy(cap, groups + [open])
  {
    var longer := groups + [open];
    forall i | 0 <= i < |longer| ensures Feasible(cap, longer[i]) {
    }
    forall i | 0 < i < |longer| ensures !Feasible(cap, longer[i - 1] + [longer[i][0]]) {
      assert longer[i - 1] == groups[i - 1];
      if i < |groups| {
        assert longer[i] == groups[i];
      }
    }
  }

  /** Runs the loop: every group of requests is generated once, in order, and
      the groups are a greedy partition of the requests. A cap below one acts
      as a cap of one. */
  method RunHf(requests: seq<Request>, maxBatchSize: int)
    returns (batches: seq<Batch>)
    ensures exists groups :: Flatten(groups) == requests && Greedy(maxBatchSize, groups)
                             && |batches| == |groups|
                             && forall i :: 0 <= i < |groups| ==> Generates(groups[i], batches[i])
    ensures forall other :: FeasiblePartition(maxBatchSize, other) && Flatten(other) == requests
                            ==> |batches| <= |other|
  {
    var batch: seq<Prompt>, maxPromptLen: nat, maxOutputLen: nat := [], 0, 0;
    ghost var open: seq<Request> := [];
    ghost var groups: seq<seq<Request>> := [];
    batches := [];
    for i := 0 to |requests|
      invariant LoopState(maxBatchSize, requests, i, groups, open)
      invariant Describes(open, batch, maxPromptLen, maxOutputLen)
      invariant batches == GenerateAll(groups)
    {
      var r := requests[i];
      AppendMaxima(open, r);
      batch := batch + [r.prompt];
      maxPromptLen := Max(maxPromptLen, r.promptLen);
      maxOutputLen := Max(maxOutputLen, r.outputLen);
      if i + 1 < |requests| {
        LookaheadTest(maxBatchSize, open + [r], requests[i + 1]);
      }
      if |batch| < maxBatchSize && i != |requests| - 1 {
        var next := requests[i + 1];
        if Max(maxPromptLen, next.promptLen) + Max(maxOutputLen, next.outputLen) <= MAX_PADDED {
          KeepOpen(maxBatchSize, requests, i, groups, open);
          open := open + [r];
          continue;
        }
      }
      Flush(maxBatchSize, requests, i, groups, open);
      GenerateAppend(groups, open + [r]);
      batches := batches + [Batch(batch, maxOutputLen)];
      groups := groups + [open + [r]];
      batch, maxPromptLen, maxOutputLen, open := [], 0, 0, [];
    }
    LoopEnds(maxBatchSize, requests, groups);
    NoFewerGroups(maxBatchSize, groups);
    forall i | 0 <= i < |groups| ensures Generates(groups[i], batches[i]) {
      assert Feasible(maxBatchSize, groups[i]);
      GenerateMeans(groups[i]);
    }
  }

  lemma LoopEnds(cap: int, requests: seq<Request>, groups: seq<seq<Request>>)
    requires LoopState(cap, requests, |requests|, groups, [])
    ensures Flatten(groups) == requests && Greedy(cap, groups)
  {
    assert Flatten(groups) + [] == requests[..|requests|];
  }

  lemma NoFewerGroups(cap: int, groups: seq<seq<Request>>)
    requires Greedy(cap, groups)
    ensures forall other :: FeasiblePartition(cap, other) && Flatten(other) == Flatten(groups)
                            ==> |groups| <= |other|
  {
    forall other | FeasiblePartition(cap, other) && Flatten(other) == Flatten(groups)
      ensures |groups| <= |other|
    {
      GreedyIsOptimal(cap, groups, other);
    }
  }
}
