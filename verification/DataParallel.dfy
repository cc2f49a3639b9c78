/** Collectives over the data-parallel group: every rank contributes a value and
    every rank receives the same reduction. */
module DataParallel {

  import opened Options

  function Sum(xs: seq<int>): int {
    if xs == [] then 0 else Sum(xs[..|xs| - 1]) + xs[|xs| - 1]
  }

  // ---- gathering batch sizes with a summing all-reduce

  /** What rank `rank` puts into the reduction: its own batch size at its own
      place, zero elsewhere. */
  method Contribution(numTokens: int, dpSize: nat, rank: nat) returns (r: seq<int>)
    requires rank < dpSize
    ensures r == OneHot(numTokens, dpSize, rank)
  {
    r := seq(dpSize, _ => 0);
    r := r[rank := numTokens];
  }

  function OneHot(numTokens: int, dpSize: nat, rank: nat): seq<int> {
    seq(dpSize, j => if j == rank then numTokens else 0)
  }

  /** The j-th entries of all contributions, in rank order. */
  function Column(vectors: seq<seq<int>>, j: nat): seq<int>
    requires forall r :: 0 <= r < |vectors| ==> j < |vectors[r]|
  {
    seq(|vectors|, r requires 0 <= r < |vectors| => vectors[r][j])
  }

  /** The summing all-reduce of vectors of length n. */
  function AllReduceSum(vectors: seq<seq<int>>, n: nat): seq<int>
    requires forall r :: 0 <= r < |vectors| ==> |vectors[r]| == n
  {
    seq(n, j requires 0 <= j < n => Sum(Column(vectors, j)))
  }

  function Contributions(batchSizes: seq<int>): (vs: seq<seq<int>>)
    ensures |vs| == |batchSizes| && forall r :: 0 <= r < |vs| ==> |vs[r]| == |batchSizes|
  {
    seq(|batchSizes|, r requires 0 <= r < |batchSizes| => OneHot(batchSizes[r], |batchSizes|, r))
  }

  lemma {:induction false} SumOneHot(xs: seq<int>, j: nat, v: int, k: nat)
    requires k <= |xs| && forall i :: 0 <= i < k ==> xs[i] == if i == j then v else 0
    ensures Sum(xs[..k]) == if j < k then v else 0
  {
    if k > 0 {
      SumOneHot(xs, j, v, k - 1);
      assert xs[..k][..k - 1] == xs[..k - 1];
    }
  }

  /** One-hot contributions summed over the group are a gather: every rank ends
      with the vector whose r-th entry is rank r's batch size. */
  lemma ReduceIsGather(batchSizes: seq<int>)
    ensures AllReduceSum(Contributions(batchSizes), |batchSizes|) == batchSizes
  {
    var n, vs := |batchSizes|, Contributions(batchSizes);
    forall j | 0 <= j < n ensures Sum(Column(vs, j)) == batchSizes[j] {
      var col := Column(vs, j);
      SumOneHot(col, j, batchSizes[j], n);
      assert col[..n] == col;
    }
  }

  // ---- the metadata

  datatype Metadata = Metadata(maxTokens: int, cuTokens: seq<int>)

  function MaxOf(xs: seq<int>): int
    requires xs != []
  {
    if |xs| == 1 then xs[0]
    else
      var m := MaxOf(xs[..|xs| - 1]);
      if m < xs[|xs| - 1] then xs[|xs| - 1] else m
  }

  function CumSum(xs: seq<int>): seq<int> {
    if xs == [] then [] else CumSum(xs[..|xs| - 1]) + [Sum(xs)]
  }

  /** The group's metadata as rank `dpRank` computes it, `batchSizes[r]` being
      the batch size of rank r. `None` is a failed assertion: a group of one
      rank, or a supplied vector that disagrees with the rank's own batch size. */
  function Make(dpRank: nat, batchSizes: seq<int>, supplied: Option<seq<int>>): Option<Metadata>
    requires dpRank < |batchSizes|
    requires supplied.Some? ==> |supplied.value| == |batchSizes|
  {
    if |batchSizes| <= 1 then None
    else if supplied.Some? && supplied.value[dpRank] != batchSizes[dpRank] then None
    else
      var tokens := if supplied.Some? then supplied.value
                    else AllReduceSum(Contributions(batchSizes), |batchSizes|);
      Some(Metadata(MaxOf(tokens), CumSum(tokens)))
  }

  /** All ranks compute the same metadata, and supplying the gathered vector
      gives what the collective gives. */
  lemma RanksAgree(batchSizes: seq<int>, r1: nat, r2: nat)
    requires |batchSizes| > 1 && r1 < |batchSizes| && r2 < |batchSizes|
    ensures Make(r1, batchSizes, None) == Make(r2, batchSizes, Some(batchSizes))
    ensures Make(r1, batchSizes, None) == Some(Metadata(MaxOf(batchSizes), CumSum(batchSizes)))
  {
    ReduceIsGather(batchSizes);
  }

  /** A vector supplied to all ranks passes the assertion of every rank exactly
      when it is the gathered one; one rank alone checks its own entry only. */
  lemma SuppliedExactly(batchSizes: seq<int>, v: seq<int>)
    requires |v| == |batchSizes| > 1
    ensures (forall r :: 0 <= r < |v| ==> Make(r, batchSizes, Some(v)).Some?)
            <==> v == AllReduceSum(Contributions(batchSizes), |batchSizes|)
    ensures forall r :: 0 <= r < |v| ==> (Make(r, batchSizes, Some(v)).Some? <==> v[r] == batchSizes[r])
  {
    ReduceIsGather(batchSizes);
    if forall r :: 0 <= r < |v| ==> Make(r, batchSizes, Some(v)).Some? {
      forall r | 0 <= r < |v| ensures v[r] == batchSizes[r] {
        assert Make(r, batchSizes, Some(v)).Some?;
      }
    }
  }

  /** A rank that is given a vector uses it as it is: the largest entry and the
      running sums. */
  lemma SuppliedIsUsed(dpRank: nat, batchSizes: seq<int>, v: seq<int>)
    requires dpRank < |batchSizes| == |v| && Make(dpRank, batchSizes, Some(v)).Some?
    ensures
      var m := Make(dpRank, batchSizes, Some(v)).value;
      && m.maxTokens in v && (forall r :: 0 <= r < |v| ==> v[r] <= m.maxTokens)
      && |m.cuTokens| == |v| && (forall r :: 0 <= r < |v| ==> m.cuTokens[r] == Sum(v[..r + 1]))
  {
    MaxBounds(v);
    forall r | 0 <= r < |v| ensures |CumSum(v)| == |v| && CumSum(v)[r] == Sum(v[..r + 1]) {
      CumSumAt(v, r);
    }
    CumSumAt(v, 0);
  }

  lemma {:induction false} CumSumAt(xs: seq<int>, r: nat)
    requires r < |xs|
    ensures |CumSum(xs)| == |xs| && CumSum(xs)[r] == Sum(xs[..r + 1])
  {
    var n := |xs| - 1;
    if r < n {
      CumSumAt(xs[..n], r);
      assert xs[..n][..r + 1] == xs[..r + 1];
    } else {
      assert xs[..n + 1] == xs;
      if n > 0 {
        CumSumAt(xs[..n], 0);
      }
    }
  }

  lemma {:induction false} MaxBounds(xs: seq<int>)
    requires xs != []
    ensures MaxOf(xs) in xs && forall r :: 0 <= r < |xs| ==> xs[r] <= MaxOf(xs)
  {
    if |xs| > 1 {
      MaxBounds(xs[..|xs| - 1]);
    }
  }

  /** Where rank r's tokens begin and end in the group's token range. */
  function SliceStart(m: Metadata, r: nat): int
    requires r <= |m.cuTokens|
  {
    if r == 0 then 0 else m.cuTokens[r - 1]
  }

  lemma SliceIs(batchSizes: seq<int>, r: nat)
    requires r <= |batchSizes|
    ensures |CumSum(batchSizes)| == |batchSizes|
    ensures SliceStart(Metadata(0, CumSum(batchSizes)), r) == Sum(batchSizes[..r])
  {
    if r > 0 {
      CumSumAt(batchSizes, r - 1);
    } else if batchSizes != [] {
      CumSumAt(batchSizes, 0);
    }
  }

  lemma {:induction false} PrefixSumsGrow(xs: seq<int>, a: nat, b: nat)
    requires a <= b <= |xs| && forall i :: 0 <= i < |xs| ==> xs[i] >= 0
    ensures Sum(xs[..a]) <= Sum(xs[..b])
    decreases b - a
  {
    if a < b {
      PrefixSumsGrow(xs, a, b - 1);
      assert xs[..b][..b - 1] == xs[..b - 1];
    }
  }

  ghost predicate InSlice(batchSizes: seq<int>, r: nat, x: int)
    requires r < |batchSizes|
  {
    Sum(batchSizes[..r]) <= x < Sum(batchSizes[..r + 1])
  }

  /** The slices split the token range: each position lies in exactly one. */
  lemma SlicesPartition(batchSizes: seq<int>, x: int) returns (r: nat)
    requires forall i :: 0 <= i < |batchSizes| ==> batchSizes[i] >= 0
    requires 0 <= x < Sum(batchSizes)
    ensures r < |batchSizes| && InSlice(batchSizes, r, x)
    ensures forall q: nat :: q < |batchSizes| && InSlice(batchSizes, q, x) ==> q == r
  {
    r := 0;
    assert batchSizes[..|batchSizes|] == batchSizes;
    while r + 1 < |batchSizes| && Sum(batchSizes[..r + 1]) <= x
      invariant r < |batchSizes| && Sum(batchSizes[..r]) <= x
    {
      r := r + 1;
    }
    forall q: nat | q < |batchSizes| && InSlice(batchSizes, q, x) ensures q == r {
      if q < r {
        PrefixSumsGrow(batchSizes, q + 1, r);
      } else if r < q {
        PrefixSumsGrow(batchSizes, r + 1, q);
      }
    }
  }

  /** A slice is as long as its rank's batch, and no longer than the maximum. */
  lemma SliceLength(batchSizes: seq<int>, r: nat)
    requires r < |batchSizes|
    ensures Sum(batchSizes[..r + 1]) - Sum(batchSizes[..r]) == batchSizes[r] <= MaxOf(batchSizes)
  {
    assert batchSizes[..r + 1][..r] == batchSizes[..r];
    MaxBounds(batchSizes);
  }

  // ---- the two scalar collectives

  /** The MAX reduction of 0/1 flags, read back as a boolean. */
  function HasUnfinishedDp(flags: seq<bool>): bool
    requires flags != []
  {
    MaxOf(seq(|flags|, r requires 0 <= r < |flags| => if flags[r] then 1 else 0)) != 0
  }

  lemma UnfinishedIsAny(flags: seq<bool>)
    requires flags != []
    ensures HasUnfinishedDp(flags) <==> exists r :: 0 <= r < |flags| && flags[r]
  {
    var xs: seq<int> := seq(|flags|, r requires 0 <= r < |flags| => if flags[r] then 1 else 0);
    MaxBounds(xs);
    var i :| 0 <= i < |xs| && xs[i] == MaxOf(xs);
    if r :| 0 <= r < |flags| && flags[r] {
      assert xs[r] == 1;
    }
  }

  const INT64_MAX := 0x7fff_ffff_ffff_ffff

  function MinOf(xs: seq<int>): int
    requires xs != []
  {
    if |xs| == 1 then xs[0]
    else
      var m := MinOf(xs[..|xs| - 1]);
      if xs[|xs| - 1] < m then xs[|xs| - 1] else m
  }

  lemma {:induction false} MinBounds(xs: seq<int>)
    requires xs != []
    ensures MinOf(xs) in xs && forall r :: 0 <= r < |xs| ==> MinOf(xs) <= xs[r]
  {
    if |xs| > 1 {
      MinBounds(xs[..|xs| - 1]);
    }
  }

  /** A rank that reports -1 has no limit of its own. */
  function SyncKvCacheMemorySize(sizes: seq<int>): int
    requires sizes != []
  {
    MinOf(seq(|sizes|, r requires 0 <= r < |sizes| => if sizes[r] == -1 then INT64_MAX else sizes[r]))
  }

  /** The agreed size is the least among the ranks that report one, and the
      largest 64-bit value when none does. */
  lemma SyncIsLeast(sizes: seq<int>)
    requires sizes != [] && forall r :: 0 <= r < |sizes| ==> sizes[r] <= INT64_MAX
    ensures forall r :: 0 <= r < |sizes| && sizes[r] != -1 ==> SyncKvCacheMemorySize(sizes) <= sizes[r]
    ensures (exists r :: 0 <= r < |sizes| && sizes[r] != -1) ==>
              exists r :: 0 <= r < |sizes| && sizes[r] != -1 && SyncKvCacheMemorySize(sizes) == sizes[r]
    ensures (forall r :: 0 <= r < |sizes| ==> sizes[r] == -1) ==> SyncKvCacheMemorySize(sizes) == INT64_MAX
  {
    var xs: seq<int> := seq(|sizes|, r requires 0 <= r < |sizes| => if sizes[r] == -1 then INT64_MAX else sizes[r]);
    MinBounds(xs);
    forall r | 0 <= r < |sizes| && sizes[r] != -1 ensures MinOf(xs) <= sizes[r] {
      assert xs[r] == sizes[r];
    }
    var i :| 0 <= i < |xs| && xs[i] == MinOf(xs);
    if r :| 0 <= r < |sizes| && sizes[r] != -1 {
      assert xs[r] == sizes[r];
      if sizes[i] == -1 {
        assert sizes[r] == INT64_MAX == MinOf(xs);
      }
    }
  }
}
