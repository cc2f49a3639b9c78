/** CUDA-graph capture sizes and the table that pads a batch to one of them. */
module CudaGraph {

  import opened Options
  import opened Sequences

  /** p is the smallest captured size that holds a batch of bs. */
  ghost predicate IsPadding(sizes: seq<nat>, bs: nat, p: nat) {
    p in sizes && bs <= p && forall s :: s in sizes && bs <= s ==> p <= s
  }

  ghost predicate IsLargest(sizes: seq<nat>, m: nat) {
    if sizes == [] then m == 0 else m in sizes && forall s :: s in sizes ==> s <= m
  }

  /** The table of a capture list: every batch size up to the largest capture
      is mapped to its padding, and the empty batch to zero. */
  ghost predicate IsTable(sizes: seq<nat>, maxCaptureSize: nat, table: seq<nat>) {
    && IsLargest(sizes, maxCaptureSize)
    && |table| == maxCaptureSize + 1
    && table[0] == 0
    && forall bs :: 1 <= bs <= maxCaptureSize ==> IsPadding(sizes, bs, table[bs])
  }

  /** Padding is monotone. */
  lemma TableMonotone(sizes: seq<nat>, maxCaptureSize: nat, table: seq<nat>, a: nat, b: nat)
    requires IsTable(sizes, maxCaptureSize, table) && a <= b <= maxCaptureSize
    ensures table[a] <= table[b]
  {
    if a > 0 {
      assert IsPadding(sizes, a, table[a]) && IsPadding(sizes, b, table[b]);
    }
  }

  /** Captured sizes are left alone, and padding twice is padding once. */
  lemma TableFixesCaptures(sizes: seq<nat>, maxCaptureSize: nat, table: seq<nat>, bs: nat)
    requires IsTable(sizes, maxCaptureSize, table) && bs <= maxCaptureSize
    ensures bs in sizes ==> table[bs] == bs
    ensures table[bs] <= maxCaptureSize && table[table[bs]] == table[bs]
  {
    if bs > 0 {
      assert IsPadding(sizes, bs, table[bs]);
      assert IsPadding(sizes, table[bs], table[table[bs]]);
    }
  }

  /** Order and repetition of the captures do not matter. */
  lemma TableOfMembers(sizes: seq<nat>, others: seq<nat>, maxCaptureSize: nat, table: seq<nat>)
    requires IsTable(sizes, maxCaptureSize, table) && forall x :: x in sizes <==> x in others
    ensures IsTable(others, maxCaptureSize, table)
  {
    if others != [] {
      assert others[0] in sizes;
    }
    forall bs | 1 <= bs <= maxCaptureSize ensures IsPadding(others, bs, table[bs]) {
      assert IsPadding(sizes, bs, table[bs]);
    }
  }

  lemma TableHoldsSizes(sizes: seq<nat>, maxCaptureSize: nat, table: seq<nat>, bs: nat)
    requires IsTable(sizes, maxCaptureSize, table) && bs <= maxCaptureSize
    ensures table[bs] == 0 || table[bs] in sizes
  {
    if bs > 0 {
      assert IsPadding(sizes, bs, table[bs]);
    }
  }

  // ---- sorting

  predicate Descending(s: seq<nat>) {
    forall i, j :: 0 <= i < j < |s| ==> s[i] >= s[j]
  }

  function Insert(s: seq<nat>, x: nat): seq<nat> {
    if s == [] || s[0] <= x then [x] + s else [s[0]] + Insert(s[1..], x)
  }

  lemma {:induction false} InsertMembers(s: seq<nat>, x: nat)
    ensures multiset(Insert(s, x)) == multiset(s) + multiset{x}
  {
    if s != [] && s[0] > x {
      InsertMembers(s[1..], x);
      assert s == [s[0]] + s[1..];
    }
  }

  lemma PrependDescends(x: nat, s: seq<nat>)
    requires Descending(s) && forall y :: y in s ==> y <= x
    ensures Descending([x] + s)
  {
    var r := [x] + s;
    forall i, j | 0 <= i < j < |r| ensures r[i] >= r[j] {
      assert r[j] == s[j - 1] && s[j - 1] in s;
      assert i > 0 ==> r[i] == s[i - 1];
    }
  }

  lemma {:induction false} InsertDescends(s: seq<nat>, x: nat)
    requires Descending(s)
    ensures Descending(Insert(s, x))
  {
    if s == [] || s[0] <= x {
      PrependDescends(x, s);
    } else {
      var rest := Insert(s[1..], x);
      InsertDescends(s[1..], x);
      InsertMembers(s[1..], x);
      forall y | y in rest ensures y <= s[0] {
        assert y in multiset(rest);
      }
      PrependDescends(s[0], rest);
    }
  }

  /** Stands for the library sort with `reverse=True`. */
  function SortDescending(s: seq<nat>): (r: seq<nat>)
    ensures Descending(r) && multiset(r) == multiset(s)
  {
    if s == [] then []
    else
      var r := SortDescending(s[1..]);
      InsertDescends(r, s[0]);
      InsertMembers(r, s[0]);
      assert s == [s[0]] + s[1..];
      Insert(r, s[0])
  }

  /** Stands for `list(set(s))`. */
  method Dedup<T(==)>(s: seq<T>) returns (r: seq<T>)
    ensures Distinct(r) && forall x :: x in r <==> x in s
  {
    r := [];
    for i := 0 to |s|
      invariant Distinct(r) && forall x :: x in r <==> x in s[..i]
    {
      if s[i] !in r {
        r := r + [s[i]];
      }
    }
  }

  // ---- filling the table

  /** Lower neighbour of the k-th size of a descending list. */
  function Lower(sizes: seq<nat>, k: nat): nat
    requires k < |sizes|
  {
    if k + 1 < |sizes| then sizes[k + 1] else 0
  }

  /** What an entry of the table must hold. */
  ghost predicate Entry(sizes: seq<nat>, bs: nat, p: nat) {
    if bs == 0 then p == 0 else IsPadding(sizes, bs, p)
  }

  lemma EntryBetween(sizes: seq<nat>, k: nat, bs: nat)
    requires Descending(sizes) && k < |sizes| && Lower(sizes, k) <= bs < sizes[k]
    ensures Entry(sizes, bs, if bs == Lower(sizes, k) then bs else sizes[k])
  {
    if bs == Lower(sizes, k) {
      if bs > 0 {
        assert sizes[k + 1] in sizes;
      }
    } else {
      assert sizes[k] in sizes;
      var low := Lower(sizes, k);
      forall s | s in sizes && bs <= s ensures sizes[k] <= s {
        var i :| 0 <= i < |sizes| && sizes[i] == s;
        assert k < i ==> s <= low;
      }
    }
  }

  /** Fills the entries from the k-th size's lower neighbour up to it. */
  method FillInterval(table: seq<nat>, start: nat, end: nat) returns (r: seq<nat>)
    requires end <= |table|
    ensures |r| == |table|
    ensures forall bs :: 0 <= bs < |table| ==>
              r[bs] == if start <= bs < end then (if bs == start then start else end) else table[bs]
  {
    r := table;
    var bs := start;
    while bs < end
      invariant start <= bs && (start <= end ==> bs <= end) && |r| == |table|
      invariant forall i :: 0 <= i < |table| ==>
                  r[i] == if start <= i < bs && i < end then (if i == start then start else end) else table[i]
    {
      if bs == start {
        r := r[bs := start];
      } else {
        r := r[bs := end];
      }
      bs := bs + 1;
    }
  }

  method BuildTable(sizes: seq<nat>) returns (maxCaptureSize: nat, table: seq<nat>)
    requires Descending(sizes)
    ensures IsTable(sizes, maxCaptureSize, table)
  {
    maxCaptureSize := if sizes == [] then 0 else sizes[0];
    table := seq(maxCaptureSize + 1, _ => 0);
    var starts := if sizes == [] then [] else sizes[1..] + [0];
    for k := 0 to |sizes|
      invariant |table| == maxCaptureSize + 1
      invariant forall bs :: (if k < |sizes| then sizes[k] else 0) <= bs < maxCaptureSize ==> Entry(sizes, bs, table[bs])
    {
      var end, start := sizes[k], starts[k];
      assert start == Lower(sizes, k) <= end <= maxCaptureSize;
      var filled := FillInterval(table, start, end);
      forall bs | start <= bs < maxCaptureSize ensures Entry(sizes, bs, filled[bs]) {
        if bs < end {
          EntryBetween(sizes, k, bs);
        }
      }
      table := filled;
    }
    table := table[maxCaptureSize := maxCaptureSize];
    TableFilled(sizes, maxCaptureSize, table);
  }

  lemma TableFilled(sizes: seq<nat>, m: nat, table: seq<nat>)
    requires Descending(sizes) && m == if sizes == [] then 0 else sizes[0]
    requires |table| == m + 1 && table[m] == m
    requires forall bs :: 0 <= bs < m ==> Entry(sizes, bs, table[bs])
    ensures IsTable(sizes, m, table)
  {
    if m > 0 {
      assert Entry(sizes, 0, table[0]);
      assert sizes[0] in sizes;
    }
    forall bs | 1 <= bs <= m ensures IsPadding(sizes, bs, table[bs]) {
      assert bs < m ==> Entry(sizes, bs, table[bs]);
    }
  }

  // ---- sizes to compile for

  /** A requested compile size: a number, the keyword that stands for all
      captured sizes, or any other string. */
  datatype CompileSize = Size(n: int) | CaptureSizes | Unrecognized(name: string)

  function AsSizes(captures: seq<nat>): seq<CompileSize> {
    seq(|captures|, i requires 0 <= i < |captures| => Size(captures[i]))
  }

  /** The requested sizes with the keyword replaced by the captured ones. */
  function Expand(items: seq<CompileSize>, captures: seq<nat>): seq<CompileSize> {
    if items == [] then []
    else
      var front, last := Expand(items[..|items| - 1], captures), items[|items| - 1];
      match last
      case Size(_) => front + [last]
      case CaptureSizes => front + AsSizes(captures)
      case Unrecognized(_) => front
  }

  /** A number is compiled for exactly when it was requested, by itself or as a
      captured size; nothing but numbers is left. */
  lemma {:induction false} ExpandMeans(items: seq<CompileSize>, captures: seq<nat>, x: CompileSize)
    ensures x in Expand(items, captures) <==>
              x.Size? && (x in items || (CaptureSizes in items && x.n in captures))
  {
    if items != [] {
      var front, last := items[..|items| - 1], items[|items| - 1];
      assert items == front + [last];
      ExpandMeans(front, captures, x);
      AsSizesMeans(captures, x);
    }
  }

  function Times(n: nat, m: nat): nat {
    if n == 0 then 0 else Times(n - 1, m) + m
  }

  /** How often x is listed for the requests: as often as it was requested, and
      once more per captured size equal to it and request for those. */
  function Listed(items: seq<CompileSize>, captures: seq<nat>, x: CompileSize): nat {
    if x.Size? then multiset(items)[x] + Times(multiset(items)[CaptureSizes], multiset(AsSizes(captures))[x]) else 0
  }

  lemma ListedNext(front: seq<CompileSize>, last: CompileSize, captures: seq<nat>, x: CompileSize)
    ensures Listed(front + [last], captures, x) == Listed(front, captures, x) +
              if !x.Size? then 0
              else if last == x then 1
              else if last == CaptureSizes then multiset(AsSizes(captures))[x]
              else 0
  {
    assert multiset(front + [last]) == multiset(front) + multiset{last};
  }

  lemma {:induction false} ExpandCounts(items: seq<CompileSize>, captures: seq<nat>, x: CompileSize)
    ensures multiset(Expand(items, captures))[x] == Listed(items, captures, x)
  {
    if items != [] {
      var front, last := items[..|items| - 1], items[|items| - 1];
      assert items == front + [last];
      ExpandCounts(front, captures, x);
      ListedNext(front, last, captures, x);
      AsSizesMeans(captures, x);
    }
  }

  lemma AsSizesMeans(captures: seq<nat>, x: CompileSize)
    ensures x in AsSizes(captures) <==> x.Size? && x.n in captures
  {
    if x.Size? && x.n in captures {
      var i :| 0 <= i < |captures| && captures[i] == x.n;
      assert AsSizes(captures)[i] == x;
    }
  }

  ghost predicate HasUnrecognized(items: seq<CompileSize>) {
    exists i :: 0 <= i < |items| && items[i].Unrecognized?
  }

  method ExpandSizes(items: seq<CompileSize>, captures: seq<nat>) returns (ok: bool, computed: seq<CompileSize>)
    ensures ok <==> !HasUnrecognized(items)
    ensures ok ==> computed == Expand(items, captures)
  {
    ok, computed := true, [];
    for k := 0 to |items|
      invariant !HasUnrecognized(items[..k])
      invariant computed == Expand(items[..k], captures)
    {
      assert items[..k + 1][..k] == items[..k];
      match items[k] {
        case CaptureSizes => computed := computed + AsSizes(captures);
        case Size(_) => computed := computed + [items[k]];
        case Unrecognized(_) => return false, computed;
      }
    }
    assert items[..|items|] == items;
  }

  lemma SameUnrecognized(items: seq<CompileSize>, others: seq<CompileSize>)
    requires forall x :: x in items <==> x in others
    ensures HasUnrecognized(items) <==> HasUnrecognized(others)
  {
    if HasUnrecognized(items) {
      var i :| 0 <= i < |items| && items[i].Unrecognized?;
      assert items[i] in others;
    }
    if HasUnrecognized(others) {
      var i :| 0 <= i < |others| && others[i].Unrecognized?;
      assert others[i] in items;
    }
  }

  lemma {:induction false} AsSizesCount(captures: seq<nat>, x: CompileSize)
    ensures multiset(AsSizes(captures))[x] == if x.Size? && x.n >= 0 then multiset(captures)[x.n] else 0
  {
    if captures != [] {
      var front, last := captures[..|captures| - 1], captures[|captures| - 1];
      AsSizesCount(front, x);
      assert captures == front + [last];
      assert AsSizes(captures) == AsSizes(front) + [Size(last)];
    }
  }

  lemma {:induction false} ExpandReordered(items: seq<CompileSize>, captures: seq<nat>, others: seq<nat>)
    requires multiset(captures) == multiset(others)
    ensures multiset(Expand(items, captures)) == multiset(Expand(items, others))
  {
    if items != [] {
      ExpandReordered(items[..|items| - 1], captures, others);
      forall x ensures multiset(AsSizes(captures))[x] == multiset(AsSizes(others))[x] {
        AsSizesCount(captures, x);
        AsSizesCount(others, x);
      }
      assert multiset(AsSizes(captures)) == multiset(AsSizes(others));
    }
  }

  /** Captured sizes given by the user replace the derived ones, without
      duplicates. */
  ghost predicate Chosen(user: Option<seq<nat>>, derived: seq<nat>, sizes: seq<nat>) {
    match user
    case None => multiset(sizes) == multiset(derived)
    case Some(us) => Distinct(sizes) && forall x :: x in sizes <==> x in us
  }

  lemma ChosenSorted(user: Option<seq<nat>>, derived: seq<nat>, sizes: seq<nat>, sorted: seq<nat>)
    requires Chosen(user, derived, sizes) && multiset(sorted) == multiset(sizes)
    ensures Chosen(user, derived, sorted)
  {
    forall x ensures x in sorted <==> x in sizes {
      SameMembers(sizes, sorted, x);
    }
    if user.Some? {
      PermutationDistinct(sizes, sorted);
    }
  }

  class CompilationConfig {
    var cudagraphCaptureSizes: Option<seq<nat>>
    var compileSizes: Option<seq<CompileSize>>
    var maxCaptureSize: nat
    var bsToPaddedGraphSize: seq<nat>

    constructor (userSizes: Option<seq<nat>>, compileSizes: Option<seq<CompileSize>>)
      ensures cudagraphCaptureSizes == userSizes && this.compileSizes == compileSizes
      ensures maxCaptureSize == 0 && bsToPaddedGraphSize == []
    {
      cudagraphCaptureSizes := userSizes;
      this.compileSizes := compileSizes;
      maxCaptureSize := 0;
      bsToPaddedGraphSize := [];
    }

    ghost predicate Ready()
      reads this
    {
      cudagraphCaptureSizes.Some? && Descending(cudagraphCaptureSizes.value) &&
      IsTable(cudagraphCaptureSizes.value, maxCaptureSize, bsToPaddedGraphSize)
    }

    method ChooseSizes(sizes: seq<nat>)
      modifies this`cudagraphCaptureSizes
      ensures cudagraphCaptureSizes.Some?
      ensures Chosen(old(cudagraphCaptureSizes), sizes, cudagraphCaptureSizes.value)
    {
      if cudagraphCaptureSizes.None? {
        cudagraphCaptureSizes := Some(sizes);
      } else {
        var dedup := Dedup(cudagraphCaptureSizes.value);
        cudagraphCaptureSizes := Some(dedup);
      }
    }

    /** Sorts the captured sizes and builds the table from them. */
    method BuildFromSizes()
      requires cudagraphCaptureSizes.Some?
      modifies this`cudagraphCaptureSizes, this`maxCaptureSize, this`bsToPaddedGraphSize
      ensures Ready()
      ensures multiset(cudagraphCaptureSizes.value) == multiset(old(cudagraphCaptureSizes).value)
    {
      cudagraphCaptureSizes := Some(SortDescending(cudagraphCaptureSizes.value));
      maxCaptureSize, bsToPaddedGraphSize := BuildTable(cudagraphCaptureSizes.value);
    }

    /** Completes the configuration: the captured sizes are chosen, the
        requested compile sizes expanded, the captured sizes sorted and the
        table built. `items` are the requested compile sizes without
        duplicates, and `sizes'` is the caller's list afterwards: taken over
        without a copy, it is sorted too. It fails exactly on an unrecognized
        compile size, before the table is touched. */
    method InitWithCudagraphSizes(sizes: seq<nat>)
      returns (ok: bool, sizes': seq<nat>, ghost items: seq<CompileSize>)
      modifies this
      ensures ok <==> old(compileSizes).None? || !HasUnrecognized(old(compileSizes).value)
      ensures cudagraphCaptureSizes.Some?
      ensures Chosen(old(cudagraphCaptureSizes), sizes, cudagraphCaptureSizes.value)
      ensures Distinct(items) && forall x :: x in items <==> old(compileSizes).Some? && x in old(compileSizes).value
      ensures ok ==>
                && Ready() && compileSizes.Some?
                && multiset(compileSizes.value) == multiset(Expand(items, cudagraphCaptureSizes.value))
      ensures sizes' == if ok && old(cudagraphCaptureSizes).None? then cudagraphCaptureSizes.value else sizes
      ensures !ok ==>
                && compileSizes == Some(items)
                && maxCaptureSize == old(maxCaptureSize) && bsToPaddedGraphSize == old(bsToPaddedGraphSize)
    {
      var takenOver := cudagraphCaptureSizes.None?;
      sizes' := sizes;
      ChooseSizes(sizes);
      var computed: seq<CompileSize> := [];
      ok, items := true, [];
      if compileSizes.Some? {
        var requested := Dedup(compileSizes.value);
        compileSizes, items := Some(requested), requested;
        ok, computed := ExpandSizes(requested, cudagraphCaptureSizes.value);
        SameUnrecognized(old(compileSizes).value, requested);
        if !ok {
          return;
        }
      }
      compileSizes := Some(computed);
      ghost var chosen := cudagraphCaptureSizes.value;
      BuildFromSizes();
      if takenOver {
        sizes' := cudagraphCaptureSizes.value;
      }
      ChosenSorted(old(cudagraphCaptureSizes), sizes, chosen, cudagraphCaptureSizes.value);
      ExpandReordered(items, chosen, cudagraphCaptureSizes.value);
    }

    /** `None` is the index error for a batch above the largest capture. */
    function PadForCudagraph(batchSize: nat): (r: Option<nat>)
      requires Ready()
      reads this
      ensures r.None? <==> batchSize > maxCaptureSize
      ensures batchSize == 0 ==> r == Some(0)
      ensures 1 <= batchSize <= maxCaptureSize ==> IsPadding(cudagraphCaptureSizes.value, batchSize, r.value)
    {
      if batchSize < |bsToPaddedGraphSize| then Some(bsToPaddedGraphSize[batchSize]) else None
    }
  }

}

/** The default capture list, as the engine configuration derives it. */
module CudaGraphSizes {
  import opened CudaGraph
  import opened Options
  import opened Sequences

  /** What the derivation reads from the configuration. */
  datatype Settings = Settings(
    useV1: bool,
    hasScheduler: bool,
    hasModel: bool,
    enforceEager: bool,
    cudaGraphSizes: seq<nat>,
    maxNumSeqs: int,
    maxNumBatchedTokens: int,
    tensorParallelSize: nat,
    sequenceParallelism: bool)

  datatype Captures = Sizes(list: seq<nat>) | TypeError | IndexError | AssertionError | AttributeError

  function Keep(sizes: seq<nat>, p: nat -> bool): seq<nat> {
    if sizes == [] then []
    else if p(sizes[0]) then [sizes[0]] + Keep(sizes[1..], p) else Keep(sizes[1..], p)
  }

  predicate Ascending(s: seq<nat>) {
    forall i, j :: 0 <= i < j < |s| ==> s[i] < s[j]
  }

  lemma {:induction false} KeepMembers(sizes: seq<nat>, p: nat -> bool, x: nat)
    ensures x in Keep(sizes, p) <==> x in sizes && p(x)
  {
    if sizes != [] {
      KeepMembers(sizes[1..], p, x);
      assert sizes == [sizes[0]] + sizes[1..];
    }
  }

  lemma PrependAscends(x: nat, s: seq<nat>)
    requires Ascending(s) && forall y :: y in s ==> x < y
    ensures Ascending([x] + s)
  {
    var r := [x] + s;
    forall i, j | 0 <= i < j < |r| ensures r[i] < r[j] {
      assert r[j] == s[j - 1] && s[j - 1] in s;
      assert i > 0 ==> r[i] == s[i - 1];
    }
  }

  lemma {:induction false} KeepAscends(sizes: seq<nat>, p: nat -> bool)
    requires Ascending(sizes)
    ensures Ascending(Keep(sizes, p))
  {
    if sizes != [] {
      var rest := Keep(sizes[1..], p);
      KeepAscends(sizes[1..], p);
      if p(sizes[0]) {
        forall y | y in rest ensures sizes[0] < y {
          KeepMembers(sizes[1..], p, y);
        }
        PrependAscends(sizes[0], rest);
      }
    }
  }

  /** `[1, 2, 4]` followed by the multiples of eight up to n. */
  function Candidates(n: int): seq<nat> {
    [1, 2, 4] + seq(if n < 8 then 0 else n / 8, i requires 0 <= i => 8 * (i + 1))
  }

  lemma CandidatesAre(n: int, x: nat)
    ensures x in Candidates(n) <==> x in {1, 2, 4} || (8 <= x <= n && x % 8 == 0)
  {
    if 8 <= x <= n && x % 8 == 0 {
      assert Candidates(n)[3 + (x / 8 - 1)] == x;
    }
    var c := Candidates(n);
    assert c[0] == 1 && c[1] == 2 && c[2] == 4;
    forall i | 3 <= i < |c| ensures 8 <= c[i] <= n && c[i] % 8 == 0 {
      assert c[i] == 8 * (i - 3 + 1);
    }
  }

  lemma CandidatesAscend(n: int)
    ensures Ascending(Candidates(n))
  {
  }

  predicate Filtered(st: Settings) {
    st.tensorParallelSize > 1 && st.sequenceParallelism
  }

  /** Drops the sizes that the tensor-parallel group cannot split evenly. */
  function UpdateSizesForSequenceParallelism(sizes: seq<nat>, tp: nat): seq<nat>
    requires tp > 0
  {
    Keep(sizes, x => x % tp == 0)
  }

  /** The derived list before the token limit (V1) or the sequence limit (V0). */
  function Surviving(st: Settings, sizes: seq<nat>): seq<nat> {
    if Filtered(st) then UpdateSizesForSequenceParallelism(sizes, st.tensorParallelSize) else sizes
  }

  /** With sequence parallelism over several ranks a size must split evenly. */
  predicate Survives(st: Settings, x: nat) {
    st.tensorParallelSize > 1 && st.sequenceParallelism ==> x % st.tensorParallelSize == 0
  }

  lemma SurvivingMembers(st: Settings, sizes: seq<nat>, x: nat)
    ensures x in Surviving(st, sizes) <==> x in sizes && Survives(st, x)
  {
    if Filtered(st) {
      KeepMembers(sizes, x => x % st.tensorParallelSize == 0, x);
    }
  }

  function DeriveV0(st: Settings): Captures {
    if !st.hasScheduler || !st.hasModel || st.enforceEager then Sizes([])
    else
      var possible := Surviving(st, Candidates(8192));
      var larger := Keep(possible, x => x >= st.maxNumSeqs);
      if larger == [] && possible == [] then IndexError
      else
        var largest := if larger != [] then larger[0] else possible[|possible| - 1];
        Sizes(Keep(possible, x => x <= largest))
  }

  function Reversed(s: seq<nat>): seq<nat> {
    if s == [] then [] else Reversed(s[1..]) + [s[0]]
  }

  /** Stands for the library sort: ascending. */
  function Sorted(s: seq<nat>): seq<nat> {
    Reversed(SortDescending(s))
  }

  predicate NonDescending(s: seq<nat>) {
    forall i, j :: 0 <= i < j < |s| ==> s[i] <= s[j]
  }

  lemma {:induction false} ReversedCounts(s: seq<nat>)
    ensures multiset(Reversed(s)) == multiset(s)
  {
    if s != [] {
      ReversedCounts(s[1..]);
      assert s == [s[0]] + s[1..];
    }
  }

  lemma AppendNonDescending(s: seq<nat>, x: nat)
    requires NonDescending(s) && forall y :: y in s ==> y <= x
    ensures NonDescending(s + [x])
  {
    var r := s + [x];
    forall i, j | 0 <= i < j < |r| ensures r[i] <= r[j] {
      assert r[i] == s[i] && s[i] in s;
      assert j < |s| ==> r[j] == s[j];
    }
  }

  lemma {:induction false} ReversedSorts(s: seq<nat>)
    requires Descending(s)
    ensures NonDescending(Reversed(s))
  {
    if s != [] {
      ReversedSorts(s[1..]);
      forall y | y in Reversed(s[1..]) ensures y <= s[0] {
        ReversedCounts(s[1..]);
        SameMembers(s[1..], Reversed(s[1..]), y);
        var i :| 0 <= i < |s[1..]| && s[1..][i] == y;
        assert s[i + 1] == y;
      }
      AppendNonDescending(Reversed(s[1..]), s[0]);
    }
  }

  lemma SortedSorts(s: seq<nat>)
    ensures NonDescending(Sorted(s)) && multiset(Sorted(s)) == multiset(s)
  {
    ReversedSorts(SortDescending(s));
    ReversedCounts(SortDescending(s));
  }

  lemma {:induction false} KeepCounts(s: seq<nat>, p: nat -> bool, x: nat)
    ensures multiset(Keep(s, p))[x] == if p(x) then multiset(s)[x] else 0
  {
    if s != [] {
      KeepCounts(s[1..], p, x);
      assert s == [s[0]] + s[1..];
    }
  }

  lemma PrependNonDescending(x: nat, s: seq<nat>)
    requires NonDescending(s) && forall y :: y in s ==> x <= y
    ensures NonDescending([x] + s)
  {
    var r := [x] + s;
    forall i, j | 0 <= i < j < |r| ensures r[i] <= r[j] {
      assert r[j] == s[j - 1] && s[j - 1] in s;
      assert i > 0 ==> r[i] == s[i - 1];
    }
  }

  lemma {:induction false} KeepSorted(s: seq<nat>, p: nat -> bool)
    requires NonDescending(s)
    ensures NonDescending(Keep(s, p))
  {
    if s != [] {
      var rest := Keep(s[1..], p);
      KeepSorted(s[1..], p);
      if p(s[0]) {
        forall y | y in rest ensures s[0] <= y {
          KeepMembers(s[1..], p, y);
        }
        PrependNonDescending(s[0], rest);
      }
    }
  }

  function DeriveV1(st: Settings): Captures {
    if !st.hasModel || st.enforceEager then Sizes([])
    else if !st.hasScheduler then AttributeError
    else if |st.cudaGraphSizes| == 0 then TypeError
    else
      var list := if |st.cudaGraphSizes| == 1 then Candidates(st.cudaGraphSizes[0]) else Sorted(st.cudaGraphSizes);
      Sizes(Keep(Surviving(st, list), x => x <= st.maxNumBatchedTokens))
  }

  function Derive(st: Settings): Captures {
    if st.useV1 then DeriveV1(st) else DeriveV0(st)
  }

  // ---- V1: how much padding the default list can cost

  predicate DefaultV1(st: Settings) {
    st.hasScheduler && st.hasModel && !st.enforceEager && |st.cudaGraphSizes| == 1
  }

  lemma V1Members(st: Settings, x: nat)
    requires DefaultV1(st)
    ensures DeriveV1(st).Sizes?
    ensures x in DeriveV1(st).list <==>
            (x in {1, 2, 4} || (8 <= x <= st.cudaGraphSizes[0] && x % 8 == 0))
            && Survives(st, x) && x <= st.maxNumBatchedTokens
  {
    var list := Candidates(st.cudaGraphSizes[0]);
    CandidatesAre(st.cudaGraphSizes[0], x);
    SurvivingMembers(st, list, x);
    KeepMembers(Surviving(st, list), x => x <= st.maxNumBatchedTokens, x);
  }

  /** The least size of the full progression that holds bs. */
  function RoundUp(bs: nat): nat {
    if bs <= 2 then bs else if bs <= 4 then 4 else (bs + 7) / 8 * 8
  }

  lemma RoundUpBounds(bs: nat)
    requires 1 <= bs
    ensures bs <= RoundUp(bs) <= bs + 7 && RoundUp(bs) < 2 * bs
    ensures RoundUp(bs) in {1, 2, 4} || (8 <= RoundUp(bs) && RoundUp(bs) % 8 == 0)
    ensures forall m: nat :: bs <= m && (m in {1, 2, 4} || m % 8 == 0) ==> RoundUp(bs) <= m
  {
    if bs > 4 {
      var q := (bs + 7) / 8;
      assert 8 * q <= bs + 7 < 8 * q + 8;
      forall m: nat | bs <= m && m % 8 == 0 ensures 8 * q <= m {
        assert m == 8 * (m / 8);
      }
    }
  }

  /** With the default list and no sequence-parallel filter, padding wastes at
      most seven slots and less than half the padded batch. */
  lemma PaddingWaste(st: Settings, m: nat, table: seq<nat>, bs: nat)
    requires DefaultV1(st) && !(st.tensorParallelSize > 1 && st.sequenceParallelism)
    requires DeriveV1(st).Sizes? && IsTable(DeriveV1(st).list, m, table)
    requires 1 <= bs <= m
    ensures table[bs] - bs <= 7 && table[bs] < 2 * bs
  {
    var list, up := DeriveV1(st).list, RoundUp(bs);
    assert IsPadding(list, bs, table[bs]);
    RoundUpBounds(bs);
    V1Members(st, m);
    V1Members(st, up);
    assert up <= m;
  }

  lemma V1Survives(st: Settings, x: nat)
    requires DeriveV1(st).Sizes? && x in DeriveV1(st).list
    ensures Survives(st, x)
  {
    var base := if |st.cudaGraphSizes| == 1 then Candidates(st.cudaGraphSizes[0]) else Sorted(st.cudaGraphSizes);
    KeepMembers(Surviving(st, base), x => x <= st.maxNumBatchedTokens, x);
    SurvivingMembers(st, base, x);
  }

  lemma DerivedSplitsEvenly(st: Settings, x: nat)
    requires st.tensorParallelSize > 1 && st.sequenceParallelism
    requires Derive(st).Sizes? && x in Derive(st).list
    ensures x % st.tensorParallelSize == 0
  {
    if st.useV1 {
      V1Survives(st, x);
    } else {
      V0Members(st, x);
    }
  }

  /** With the filter, every padded batch splits evenly. */
  lemma PaddingSplitsEvenly(st: Settings, m: nat, table: seq<nat>, bs: nat)
    requires st.tensorParallelSize > 1 && st.sequenceParallelism && bs <= m
    requires Derive(st).Sizes? && IsTable(Derive(st).list, m, table)
    ensures table[bs] % st.tensorParallelSize == 0
  {
    var p := table[bs];
    TableHoldsSizes(Derive(st).list, m, table, bs);
    if p != 0 {
      DerivedSplitsEvenly(st, p);
    }
  }

  // ---- V0: the list just covers the configured number of sequences

  lemma V0Members(st: Settings, x: nat)
    requires DeriveV0(st).Sizes? && x in DeriveV0(st).list
    ensures x in Candidates(8192) && Survives(st, x)
  {
    var possible := Surviving(st, Candidates(8192));
    var larger := Keep(possible, x => x >= st.maxNumSeqs);
    var largest := if larger != [] then larger[0] else possible[|possible| - 1];
    KeepMembers(possible, x => x <= largest, x);
    SurvivingMembers(st, Candidates(8192), x);
  }

  predicate DefaultV0(st: Settings) {
    st.hasScheduler && st.hasModel && !st.enforceEager
  }

  predicate Candidate(st: Settings, x: nat) {
    (x in {1, 2, 4} || (8 <= x <= 8192 && x % 8 == 0)) && Survives(st, x)
  }

  lemma SurvivingCandidates(st: Settings, x: nat)
    ensures x in Surviving(st, Candidates(8192)) <==> Candidate(st, x)
  {
    CandidatesAre(8192, x);
    SurvivingMembers(st, Candidates(8192), x);
  }

  lemma SurvivingAscends(st: Settings)
    ensures Ascending(Surviving(st, Candidates(8192)))
  {
    CandidatesAscend(8192);
    if Filtered(st) {
      KeepAscends(Candidates(8192), x => x % st.tensorParallelSize == 0);
    }
  }

  lemma V0FailsWithoutCandidate(st: Settings)
    requires DefaultV0(st)
    ensures DeriveV0(st).IndexError? <==> forall x: nat :: !Candidate(st, x)
  {
    var possible := Surviving(st, Candidates(8192));
    if possible == [] {
      forall x: nat ensures !Candidate(st, x) {
        SurvivingCandidates(st, x);
      }
    } else {
      SurvivingCandidates(st, possible[0]);
      assert Candidate(st, possible[0]);
    }
  }

  /** The greatest common divisor of n and eight. */
  function Gcd8(n: nat): nat {
    if n % 8 == 0 then 8 else if n % 4 == 0 then 4 else if n % 2 == 0 then 2 else 1
  }

  lemma Gcd8IsGreatest(n: nat)
    ensures n % Gcd8(n) == 0 && 8 % Gcd8(n) == 0
    ensures forall d: nat :: d > 0 && n % d == 0 && 8 % d == 0 ==> d <= Gcd8(n)
  {
    forall d: nat | d > 0 && n % d == 0 && 8 % d == 0 ensures d <= Gcd8(n) {
      DivisorIsSmaller(d, 8);
      assert d in {1, 2, 4, 8};
    }
  }

  lemma OddFactor(q: nat, m: nat, k: nat)
    requires q % 2 == 1 && q * m == 2 * k
    ensures m % 2 == 0 && q * (m / 2) == k
  {
    var a := q / 2;
    assert q == 2 * a + 1;
    assert q * m == 2 * (a * m) + m;
    assert m % 2 == 0;
    assert q * m == 2 * (q * (m / 2));
  }

  lemma OddTwice(q: nat, m: nat, k: nat)
    requires q % 2 == 1 && q * m == 4 * k
    ensures m % 4 == 0 && q * (m / 4) == k
  {
    OddFactor(q, m, 2 * k);
    OddFactor(q, m / 2, k);
    assert m / 2 / 2 == m / 4;
  }

  lemma OddThrice(q: nat, m: nat, k: nat)
    requires q % 2 == 1 && q * m == 8 * k
    ensures m % 8 == 0 && q * (m / 8) == k
  {
    OddTwice(q, m, 2 * k);
    OddFactor(q, m / 4, k);
    assert m / 4 / 2 == m / 8;
  }

  /** n divided by what it shares with eight. */
  function Reduced(n: nat): nat {
    if n % 8 == 0 then n / 8 else if n % 4 == 0 then n / 4 else if n % 2 == 0 then n / 2 else n
  }

  lemma ReducedIsQuotient(n: nat)
    ensures Reduced(n) == n / Gcd8(n)
  {
    if n % 8 == 0 {
      assert Gcd8(n) == 8;
    } else if n % 4 == 0 {
      assert Gcd8(n) == 4;
    } else if n % 2 == 0 {
      assert Gcd8(n) == 2;
    } else {
      assert Gcd8(n) == 1;
    }
  }

  lemma EightTimes(tp: nat, q: nat, m: nat, k: nat)
    requires tp == 8 * q && tp * m == 8 * k && k > 0
    ensures q <= k
  {
    assert tp * m == 8 * (q * m);
    AtMostProduct(q, m, k);
  }

  lemma FourTimes(tp: nat, q: nat, m: nat, k: nat)
    requires tp == 4 * q && tp * m == 8 * k && q % 2 == 1 && k > 0
    ensures q <= k
  {
    assert tp * m == 4 * (q * m);
    OddFactor(q, m, k);
    AtMostProduct(q, m / 2, k);
  }

  lemma TwoTimes(tp: nat, q: nat, m: nat, k: nat)
    requires tp == 2 * q && tp * m == 8 * k && q % 2 == 1 && k > 0
    ensures q <= k
  {
    assert tp * m == 2 * (q * m);
    OddTwice(q, m, k);
    AtMostProduct(q, m / 4, k);
  }

  lemma OddTimes(q: nat, m: nat, k: nat)
    requires q * m == 8 * k && q % 2 == 1 && k > 0
    ensures q <= k
  {
    OddThrice(q, m, k);
    AtMostProduct(q, m / 8, k);
  }

  /** q is what is left of n, by the power of two it shares with eight. */
  predicate IsReduced(n: nat, q: nat) {
    n == 8 * q || (q % 2 == 1 && (n == 4 * q || n == 2 * q || n == q))
  }

  lemma ReducedIs(n: nat)
    ensures IsReduced(n, Reduced(n))
  {
  }

  /** A common multiple 8 * k of eight and n is at least their least one. */
  lemma CommonMultiple(n: nat, q: nat, m: nat, k: nat)
    requires IsReduced(n, q) && k > 0 && n * m == 8 * k
    ensures q <= k
  {
    if n == 8 * q {
      EightTimes(n, q, m, k);
    } else if n == 4 * q {
      FourTimes(n, q, m, k);
    } else if n == 2 * q {
      TwoTimes(n, q, m, k);
    } else {
      OddTimes(q, m, k);
    }
  }

  lemma AtMostProduct(q: nat, m: nat, k: nat)
    requires q * m == k && k > 0
    ensures q <= k
  {
    assert m >= 1;
  }

  lemma LeastCommonMultiple(tp: nat)
    requires tp > 0
    ensures (8 * Reduced(tp)) % tp == 0 && Reduced(tp) > 0
  {
    var h := if tp % 8 == 0 then 1 else if tp % 4 == 0 then 2 else if tp % 2 == 0 then 4 else 8;
    assert 8 * Reduced(tp) == tp * h;
    MultipleOf(tp, h);
  }

  lemma MultipleOf(n: nat, h: nat)
    requires n > 0
    ensures (n * h) % n == 0
  {
    var q, r := (n * h) / n, (n * h) % n;
    assert n * h == n * q + r;
    SmallMultiple(n, h - q, r);
  }

  lemma SmallMultiple(n: nat, d: int, r: nat)
    requires n * d == r < n
    ensures r == 0
  {
    if d >= 1 {
      assert false;
    }
  }

  lemma ReachableCandidate(st: Settings)
    requires Filtered(st) && Reduced(st.tensorParallelSize) <= 1024
    ensures Candidate(st, 8 * Reduced(st.tensorParallelSize))
  {
    LeastCommonMultiple(st.tensorParallelSize);
  }

  lemma CandidateIsReachable(st: Settings, x: nat)
    requires Filtered(st) && Candidate(st, x)
    ensures Reduced(st.tensorParallelSize) <= 1024
  {
    var tp := st.tensorParallelSize;
    if x in {1, 2, 4} {
      DivisorIsSmaller(tp, x);
    } else {
      assert x == 8 * (x / 8);
      ReducedIs(tp);
      CommonMultiple(tp, Reduced(tp), x / tp, x / 8);
    }
  }

  lemma DivisorIsSmaller(n: nat, x: nat)
    requires n > 0 && x > 0 && x % n == 0
    ensures n <= x
  {
  }

  /** The derivation fails exactly when the tensor-parallel size, divided by
      what it shares with eight, is above 1024. */
  lemma V0Fails(st: Settings)
    requires DefaultV0(st)
    ensures DeriveV0(st).IndexError? <==>
              && st.tensorParallelSize > 1 && st.sequenceParallelism
              && st.tensorParallelSize / Gcd8(st.tensorParallelSize) > 1024
  {
    V0FailsWithoutCandidate(st);
    ReducedIsQuotient(st.tensorParallelSize);
    if !Filtered(st) {
      assert Candidate(st, 1);
    } else if Reduced(st.tensorParallelSize) <= 1024 {
      ReachableCandidate(st);
    } else {
      forall x: nat ensures !Candidate(st, x) {
        if Candidate(st, x) {
          CandidateIsReachable(st, x);
          assert false;
        }
      }
    }
  }

  /** A configuration on which the V0 derivation raises an index error. */
  lemma V0FailsAt1025(st: Settings)
    requires DefaultV0(st) && st.tensorParallelSize == 1025 && st.sequenceParallelism
    ensures DeriveV0(st) == IndexError
  {
    V0Fails(st);
  }

  /** The largest batch to capture. */
  function V0Limit(st: Settings): nat
    requires Surviving(st, Candidates(8192)) != []
  {
    var possible := Surviving(st, Candidates(8192));
    var larger := Keep(possible, x => x >= st.maxNumSeqs);
    if larger != [] then larger[0] else possible[|possible| - 1]
  }

  lemma V0LimitIsCandidate(st: Settings)
    requires Surviving(st, Candidates(8192)) != []
    ensures Candidate(st, V0Limit(st))
  {
    var possible := Surviving(st, Candidates(8192));
    var larger := Keep(possible, x => x >= st.maxNumSeqs);
    if larger != [] {
      KeepMembers(possible, x => x >= st.maxNumSeqs, larger[0]);
    }
    SurvivingCandidates(st, V0Limit(st));
  }

  lemma V0ListMembers(st: Settings, x: nat)
    requires DefaultV0(st) && Surviving(st, Candidates(8192)) != []
    ensures DeriveV0(st).Sizes?
    ensures x in DeriveV0(st).list <==> Candidate(st, x) && x <= V0Limit(st)
  {
    var limit := V0Limit(st);
    KeepMembers(Surviving(st, Candidates(8192)), x => x <= limit, x);
    SurvivingCandidates(st, x);
  }

  lemma V0LimitCovers(st: Settings, x: nat)
    requires Surviving(st, Candidates(8192)) != [] && Candidate(st, x)
    ensures x >= st.maxNumSeqs ==> st.maxNumSeqs <= V0Limit(st) <= x
    ensures V0Limit(st) < st.maxNumSeqs ==> x <= V0Limit(st)
  {
    var possible := Surviving(st, Candidates(8192));
    var larger := Keep(possible, x => x >= st.maxNumSeqs);
    SurvivingCandidates(st, x);
    SurvivingAscends(st);
    KeepAscends(possible, x => x >= st.maxNumSeqs);
    if x >= st.maxNumSeqs {
      LeastLarger(possible, larger, st.maxNumSeqs, x);
    }
    if larger != [] {
      KeepMembers(possible, x => x >= st.maxNumSeqs, larger[0]);
    } else {
      LastIsLargest(possible, x);
    }
  }

  /** The largest V0 capture is the least surviving candidate that holds the
      configured number of sequences, and the largest survivor if none does;
      every surviving candidate below it is captured. */
  lemma V0Largest(st: Settings, m: nat)
    requires DefaultV0(st) && DeriveV0(st).Sizes? && IsLargest(DeriveV0(st).list, m)
    ensures Candidate(st, m)
    ensures forall x: nat :: Candidate(st, x) && x >= st.maxNumSeqs ==> st.maxNumSeqs <= m <= x
    ensures m < st.maxNumSeqs ==> forall x: nat :: Candidate(st, x) ==> x <= m
    ensures forall x: nat :: x in DeriveV0(st).list <==> Candidate(st, x) && x <= m
  {
    var limit := V0Limit(st);
    V0LimitIsCandidate(st);
    V0ListMembers(st, limit);
    V0ListMembers(st, m);
    assert m == limit;
    forall x: nat ensures x in DeriveV0(st).list <==> Candidate(st, x) && x <= m {
      V0ListMembers(st, x);
    }
    forall x: nat | Candidate(st, x)
      ensures x >= st.maxNumSeqs ==> st.maxNumSeqs <= m <= x
      ensures m < st.maxNumSeqs ==> x <= m
    {
      V0LimitCovers(st, x);
    }
  }

  lemma LeastLarger(possible: seq<nat>, larger: seq<nat>, n: int, x: nat)
    requires larger == Keep(possible, x => x >= n) && Ascending(larger)
    requires x in possible && x >= n
    ensures larger != [] && larger[0] >= n && larger[0] <= x
  {
    KeepMembers(possible, x => x >= n, x);
    var i :| 0 <= i < |larger| && larger[i] == x;
    KeepMembers(possible, x => x >= n, larger[0]);
  }

  lemma LastIsLargest(possible: seq<nat>, x: nat)
    requires Ascending(possible) && x in possible
    ensures x <= possible[|possible| - 1]
  {
  }

  // ---- the whole derivation, said without its steps

  ghost predicate IsDerivedV1(st: Settings, r: Captures) {
    if !st.hasModel || st.enforceEager then r == Sizes([])
    else if !st.hasScheduler then r == AttributeError
    else if st.cudaGraphSizes == [] then r == TypeError
    else
      && r.Sizes? && NonDescending(r.list)
      && forall x: nat {:trigger multiset(r.list)[x]} ::
           multiset(r.list)[x] ==
             if !Survives(st, x) || x > st.maxNumBatchedTokens then 0
             else if |st.cudaGraphSizes| > 1 then multiset(st.cudaGraphSizes)[x]
             else if x in {1, 2, 4} || (8 <= x <= st.cudaGraphSizes[0] && x % 8 == 0) then 1 else 0
  }

  /** In V0 a candidate is captured unless a smaller one already holds the
      configured number of sequences. */
  ghost predicate IsDerivedV0(st: Settings, r: Captures) {
    if !st.hasScheduler || !st.hasModel || st.enforceEager then r == Sizes([])
    else if forall x: nat :: !Candidate(st, x) then r == IndexError
    else
      && r.Sizes? && Ascending(r.list)
      && forall x: nat :: x in r.list <==> Candidate(st, x) && forall y: nat :: Candidate(st, y) && y < x ==> y < st.maxNumSeqs
  }

  lemma AscendingCounts(s: seq<nat>, x: nat)
    requires Ascending(s)
    ensures multiset(s)[x] == if x in s then 1 else 0
  {
    CountDistinct(s, x);
  }

  /** The base list of V1, before the two filters. */
  function BaseV1(st: Settings): seq<nat>
    requires st.cudaGraphSizes != []
  {
    if |st.cudaGraphSizes| == 1 then Candidates(st.cudaGraphSizes[0]) else Sorted(st.cudaGraphSizes)
  }

  lemma BaseV1Is(st: Settings, x: nat)
    requires st.cudaGraphSizes != []
    ensures NonDescending(BaseV1(st))
    ensures multiset(BaseV1(st))[x] ==
              if |st.cudaGraphSizes| > 1 then multiset(st.cudaGraphSizes)[x]
              else if x in {1, 2, 4} || (8 <= x <= st.cudaGraphSizes[0] && x % 8 == 0) then 1 else 0
  {
    if |st.cudaGraphSizes| == 1 {
      CandidatesAscend(st.cudaGraphSizes[0]);
      CandidatesAre(st.cudaGraphSizes[0], x);
      AscendingCounts(Candidates(st.cudaGraphSizes[0]), x);
    } else {
      SortedSorts(st.cudaGraphSizes);
    }
  }

  lemma SurvivingCounts(st: Settings, sizes: seq<nat>, x: nat)
    requires NonDescending(sizes)
    ensures NonDescending(Surviving(st, sizes))
    ensures multiset(Surviving(st, sizes))[x] == if Survives(st, x) then multiset(sizes)[x] else 0
  {
    if Filtered(st) {
      KeepCounts(sizes, x => x % st.tensorParallelSize == 0, x);
      KeepSorted(sizes, x => x % st.tensorParallelSize == 0);
    }
  }

  lemma V1Exactly(st: Settings)
    ensures IsDerivedV1(st, DeriveV1(st))
  {
    if st.hasModel && !st.enforceEager && st.hasScheduler && st.cudaGraphSizes != [] {
      var some := Surviving(st, BaseV1(st));
      var r := DeriveV1(st);
      assert r.list == Keep(some, x => x <= st.maxNumBatchedTokens);
      BaseV1Is(st, 0);
      SurvivingCounts(st, BaseV1(st), 0);
      KeepSorted(some, x => x <= st.maxNumBatchedTokens);
      forall x: nat ensures multiset(r.list)[x] ==
             if !Survives(st, x) || x > st.maxNumBatchedTokens then 0
             else if |st.cudaGraphSizes| > 1 then multiset(st.cudaGraphSizes)[x]
             else if x in {1, 2, 4} || (8 <= x <= st.cudaGraphSizes[0] && x % 8 == 0) then 1 else 0
      {
        BaseV1Is(st, x);
        SurvivingCounts(st, BaseV1(st), x);
        KeepCounts(some, x => x <= st.maxNumBatchedTokens, x);
      }
    }
  }

  lemma V0Exactly(st: Settings)
    ensures IsDerivedV0(st, DeriveV0(st))
  {
    if DefaultV0(st) {
      V0FailsWithoutCandidate(st);
      if DeriveV0(st).Sizes? {
        var possible := Surviving(st, Candidates(8192));
        SurvivingAscends(st);
        KeepAscends(possible, x => x <= V0Limit(st));
        forall x: nat
          ensures x in DeriveV0(st).list <==>
                  Candidate(st, x) && forall y: nat :: Candidate(st, y) && y < x ==> y < st.maxNumSeqs
        {
          V0Captured(st, x);
        }
      }
    }
  }

  lemma V0Captured(st: Settings, x: nat)
    requires DefaultV0(st) && Surviving(st, Candidates(8192)) != []
    ensures DeriveV0(st).Sizes?
    ensures x in DeriveV0(st).list <==>
            Candidate(st, x) && forall y: nat :: Candidate(st, y) && y < x ==> y < st.maxNumSeqs
  {
    V0ListMembers(st, x);
    V0LimitIsCandidate(st);
    if Candidate(st, x) {
      V0LimitCovers(st, x);
      forall y: nat | Candidate(st, y) && y < x && x <= V0Limit(st) ensures y < st.maxNumSeqs {
        V0LimitCovers(st, y);
      }
    }
  }

  ghost predicate IsDerived(st: Settings, r: Captures) {
    if st.useV1 then IsDerivedV1(st, r) else IsDerivedV0(st, r)
  }

  lemma DerivedExactly(st: Settings)
    ensures IsDerived(st, Derive(st))
  {
    if st.useV1 {
      V1Exactly(st);
    } else {
      V0Exactly(st);
    }
  }

  predicate SeveralGiven(st: Settings) {
    && st.useV1 && st.hasModel && st.hasScheduler && !st.enforceEager && !st.sequenceParallelism
    && |st.cudaGraphSizes| > 1 && forall x :: x in st.cudaGraphSizes ==> x <= st.maxNumBatchedTokens
  }

  lemma SeveralCounts(st: Settings, r: Captures, x: nat)
    requires SeveralGiven(st) && IsDerivedV1(st, r)
    ensures multiset(r.list)[x] == multiset(st.cudaGraphSizes)[x]
  {
    assert Survives(st, x);
    if x in st.cudaGraphSizes {
      assert x <= st.maxNumBatchedTokens;
    } else {
      assert x !in multiset(st.cudaGraphSizes);
    }
  }

  lemma SameCounts(s: seq<nat>, t: seq<nat>)
    requires forall x: nat :: multiset(s)[x] == multiset(t)[x]
    ensures multiset(s) == multiset(t)
  {
  }

  /** Several sizes given for V1 are captured as they are, sorted. */
  lemma SeveralSizes(st: Settings, r: Captures)
    requires SeveralGiven(st) && r == Derive(st)
    ensures r.Sizes? && NonDescending(r.list) && multiset(r.list) == multiset(st.cudaGraphSizes)
  {
    DerivedExactly(st);
    forall x: nat ensures multiset(r.list)[x] == multiset(st.cudaGraphSizes)[x] {
      SeveralCounts(st, r, x);
    }
    SameCounts(r.list, st.cudaGraphSizes);
  }

  /** The derived list or the error, as the specification above says. */
  method DeriveSizes(st: Settings) returns (r: Captures)
    ensures r == Derive(st) && IsDerived(st, r)
  {
    r := ComputeSizes(st);
    DerivedExactly(st);
  }

  /** The branches of the derivation. */
  method ComputeSizes(st: Settings) returns (r: Captures)
    ensures r == Derive(st)
  {
    var list: seq<nat> := [];
    if !st.useV1 {
      if st.hasScheduler && st.hasModel && !st.enforceEager {
        var possible := Candidates(8192);
        if st.tensorParallelSize > 1 && st.sequenceParallelism {
          possible := UpdateSizesForSequenceParallelism(possible, st.tensorParallelSize);
        }
        var larger := Keep(possible, x => x >= st.maxNumSeqs);
        var largest := 0;
        if larger != [] {
          largest := larger[0];
        } else if possible != [] {
          largest := possible[|possible| - 1];
        } else {
          return IndexError;
        }
        list := Keep(possible, x => x <= largest);
      }
    } else if st.hasModel && !st.enforceEager {
      if !st.hasScheduler {
        return AttributeError;
      }
      if |st.cudaGraphSizes| == 1 {
        list := Candidates(st.cudaGraphSizes[0]);
      } else if |st.cudaGraphSizes| > 1 {
        list := Sorted(st.cudaGraphSizes);
      } else {
        return TypeError;
      }
      if st.tensorParallelSize > 1 && st.sequenceParallelism {
        list := UpdateSizesForSequenceParallelism(list, st.tensorParallelSize);
      }
      list := Keep(list, x => x <= st.maxNumBatchedTokens);
    }
    r := Sizes(list);
  }

  /** Derives the capture list and completes the compilation configuration. A
      failed derivation leaves it unchanged; an unrecognized compile size fails
      after it. */
  method SetCudagraphSizes(st: Settings, config: CompilationConfig) returns (r: Captures)
    modifies config
    ensures r == if Derive(st).Sizes? && old(config.compileSizes).Some? && HasUnrecognized(old(config.compileSizes).value)
                 then AssertionError else Derive(st)
    ensures !r.AssertionError? ==> IsDerived(st, r)
    ensures r.TypeError? || r.IndexError? || r.AttributeError? ==> unchanged(config)
    ensures r.Sizes? ==> config.Ready()
    ensures r.Sizes? && old(config.cudagraphCaptureSizes).None? ==>
              IsTable(r.list, config.maxCaptureSize, config.bsToPaddedGraphSize)
    ensures r.Sizes? && old(config.cudagraphCaptureSizes).Some? ==>
              forall x :: x in config.cudagraphCaptureSizes.value <==> x in old(config.cudagraphCaptureSizes).value
  {
    r := DeriveSizes(st);
    if !r.Sizes? {
      return;
    }
    var ok, _, items := config.InitWithCudagraphSizes(r.list);
    if !ok {
      return AssertionError;
    }
    ChosenTable(old(config.cudagraphCaptureSizes), r.list, config.cudagraphCaptureSizes.value,
                config.maxCaptureSize, config.bsToPaddedGraphSize);
  }

  lemma ChosenTable(user: Option<seq<nat>>, derived: seq<nat>, sizes: seq<nat>, maxCaptureSize: nat, table: seq<nat>)
    requires Chosen(user, derived, sizes) && IsTable(sizes, maxCaptureSize, table)
    ensures user.None? ==> IsTable(derived, maxCaptureSize, table)
  {
    if user.None? {
      forall x ensures x in sizes <==> x in derived {
        SameMembers(derived, sizes, x);
      }
      TableOfMembers(sizes, derived, maxCaptureSize, table);
    }
  }
}
