/** Build-step records of a ninja log, as the report tool holds them.
    Times are integral milliseconds. */
module NinjaTarget {

  import opened Options

  /** A name of a build output. */
  datatype Output = Output(path: string)

  /** One build step. `start` and `end` never change after construction;
      `targets` and `weightedDuration` are written by the owner. */
  class Target {
    const start: int
    const end: int
    var targets: seq<Output>
    var weightedDuration: real

    constructor (start: int, end: int)
      ensures this.start == start && this.end == end
      ensures targets == [] && weightedDuration == 0.0
    {
      this.start := start;
      this.end := end;
      targets := [];
      weightedDuration := 0.0;
    }

    function Duration(): int {
      end - start
    }

    /** The accessor asserts that a share never exceeds the elapsed time by
        more than two microseconds; `None` is that assertion failing. */
    function WeightedDuration(): Option<real>
      reads this
    {
      if weightedDuration <= Duration() as real + 0.002 then Some(weightedDuration) else None
    }
  }
}

/** What a weighted duration means, said without any sweep: every millisecond
    is shared equally by the steps running in it. */
module NinjaShares {
  import opened NinjaTarget
  import opened Sequences

  function Running(all: set<Target>, x: int): set<Target> {
    set t | t in all && t.start <= x < t.end
  }

  function Weight(all: set<Target>, x: int): real {
    Rate(|Running(all, x)|)
  }

  /** What each of n running steps gets of one millisecond. */
  function Rate(n: nat): real {
    if n == 0 then 0.0 else 1.0 / n as real
  }

  /** What each of n steps gets of d milliseconds. */
  function Spread(d: int, n: nat): real {
    if n == 0 then 0.0 else d as real / n as real
  }

  lemma RateTimes(d: int, n: nat)
    ensures d as real * Rate(n) == Spread(d, n)
  {
    if n != 0 {
      TimesInverse(d as real, n as real);
    }
  }

  function WeightedTime(all: set<Target>, lo: int, hi: int): real
    decreases hi - lo
  {
    if hi <= lo then 0.0 else WeightedTime(all, lo, hi - 1) + Weight(all, hi - 1)
  }

  /** The share of the wall clock that falls to one step. */
  function Share(all: set<Target>, t: Target): real {
    WeightedTime(all, t.start, t.end)
  }

  function SumShares(all: set<Target>, order: seq<Target>): real {
    if order == [] then 0.0 else SumShares(all, order[..|order| - 1]) + Share(all, order[|order| - 1])
  }

  /** Milliseconds of [lo, hi) in which at least one step is running. */
  function BusyTime(all: set<Target>, lo: int, hi: int): int
    decreases hi - lo
  {
    if hi <= lo then 0 else BusyTime(all, lo, hi - 1) + (if Running(all, hi - 1) != {} then 1 else 0)
  }

  ghost predicate Within(order: seq<Target>, lo: int, hi: int) {
    forall t :: t in order ==> lo <= t.start && t.end <= hi
  }

  function Elements(order: seq<Target>): set<Target> {
    set t | t in order
  }

  // ---- additivity and the closed form over intervals without events

  lemma {:induction false} WeightedTimeSplits(all: set<Target>, a: int, b: int, c: int)
    requires a <= b <= c
    ensures WeightedTime(all, a, c) == WeightedTime(all, a, b) + WeightedTime(all, b, c)
    decreases c - b
  {
    if b < c {
      WeightedTimeSplits(all, a, b, c - 1);
    }
  }

  lemma {:induction false} ConstantWeight(all: set<Target>, a: int, b: int, w: real)
    requires a <= b
    requires forall x :: a <= x < b ==> Weight(all, x) == w
    ensures WeightedTime(all, a, b) == (b - a) as real * w
    decreases b - a
  {
    if a < b {
      ConstantWeight(all, a, b - 1, w);
      assert Weight(all, b - 1) == w;
      var d := (b - 1 - a) as real;
      assert d + 1.0 == (b - a) as real;
      assert (d + 1.0) * w == d * w + w;
    }
  }

  /** No step starts or stops strictly between a and b. */
  ghost predicate Undisturbed(all: set<Target>, a: int, b: int) {
    a <= b && forall t :: t in all ==> !(a < t.start < b) && !(a < t.end < b)
  }

  /** `cuts` lists, in order, the borders of elementary intervals. */
  ghost predicate Elementary(all: set<Target>, cuts: seq<int>) {
    |cuts| < 2 ||
    (Elementary(all, cuts[..|cuts| - 1]) && Undisturbed(all, cuts[|cuts| - 2], cuts[|cuts| - 1]))
  }

  lemma OneMoreCut(all: set<Target>, cuts: seq<int>, b: int)
    requires cuts != [] && Elementary(all, cuts) && Undisturbed(all, cuts[|cuts| - 1], b)
    ensures Elementary(all, cuts + [b])
  {
    assert (cuts + [b])[..|cuts|] == cuts;
  }

  /** Sum over the elementary intervals of length divided by number running. */
  function IntervalSum(all: set<Target>, cuts: seq<int>): real {
    if |cuts| < 2 then 0.0
    else
      var a, b := cuts[|cuts| - 2], cuts[|cuts| - 1];
      IntervalSum(all, cuts[..|cuts| - 1]) + Spread(b - a, |Running(all, a)|)
  }

  lemma ConstantRunning(all: set<Target>, a: int, b: int, open: set<Target>)
    requires a <= b && forall x :: a <= x < b ==> Running(all, x) == open
    ensures WeightedTime(all, a, b) == Spread(b - a, |open|)
  {
    forall x | a <= x < b ensures Weight(all, x) == Rate(|open|) {
      assert Running(all, x) == open;
    }
    ConstantWeight(all, a, b, Rate(|open|));
    RateTimes(b - a, |open|);
  }

  lemma OneInterval(all: set<Target>, a: int, b: int)
    requires Undisturbed(all, a, b)
    ensures WeightedTime(all, a, b) == Spread(b - a, |Running(all, a)|)
  {
    forall x | a <= x < b ensures Running(all, x) == Running(all, a) {
    }
    ConstantRunning(all, a, b, Running(all, a));
  }

  /** Sharing millisecond by millisecond is sharing interval by interval. */
  lemma {:induction false} SharesByInterval(all: set<Target>, cuts: seq<int>)
    requires cuts != [] && Elementary(all, cuts)
    ensures cuts[0] <= cuts[|cuts| - 1]
    ensures IntervalSum(all, cuts) == WeightedTime(all, cuts[0], cuts[|cuts| - 1])
  {
    if |cuts| >= 2 {
      var front := cuts[..|cuts| - 1];
      SharesByInterval(all, front);
      WeightedTimeSplits(all, cuts[0], cuts[|cuts| - 2], cuts[|cuts| - 1]);
      OneInterval(all, cuts[|cuts| - 2], cuts[|cuts| - 1]);
    }
  }

  lemma TimesInverse(d: real, n: real)
    requires n != 0.0
    ensures d * (1.0 / n) == d / n
  {
  }

  // ---- bounds on one share

  /** A share lies between duration / m and duration, for every bound m on the
      concurrency met while the step runs. */
  lemma {:induction false} ShareBounds(all: set<Target>, t: Target, m: nat)
    requires t in all && t.start <= t.end
    requires forall x :: t.start <= x < t.end ==> |Running(all, x)| <= m
    ensures Share(all, t) <= t.Duration() as real
    ensures m > 0 ==> t.Duration() as real / m as real <= Share(all, t)
    ensures m == 0 ==> t.Duration() == 0
  {
    PartBounds(all, t, m, t.end);
  }

  lemma ShareAtMostDuration(all: set<Target>, t: Target)
    requires t in all && t.start <= t.end
    ensures Share(all, t) <= t.Duration() as real
  {
    forall x ensures |Running(all, x)| <= |all| {
      assert all == Running(all, x) + (all - Running(all, x));
    }
    ShareBounds(all, t, |all|);
  }

  lemma ShareInRange(all: set<Target>, t: Target)
    requires t in all && t.start <= t.end
    ensures 0.0 <= Share(all, t) <= (t.end - t.start) as real
  {
    ShareAtMostDuration(all, t);
    forall x ensures |Running(all, x)| <= |all| {
      assert all == Running(all, x) + (all - Running(all, x));
    }
    PartBounds(all, t, |all|, t.end);
  }

  lemma {:induction false} PartBounds(all: set<Target>, t: Target, m: nat, hi: int)
    requires t in all && t.start <= hi <= t.end
    requires forall x :: t.start <= x < t.end ==> |Running(all, x)| <= m
    ensures 0.0 <= WeightedTime(all, t.start, hi) <= (hi - t.start) as real
    ensures m > 0 ==> (hi - t.start) as real / m as real <= WeightedTime(all, t.start, hi)
    ensures m == 0 ==> t.start == hi
    decreases hi - t.start
  {
    if t.start < hi {
      PartBounds(all, t, m, hi - 1);
      var r := Running(all, hi - 1);
      assert t in r;
      assert 1 <= |r| <= m;
      InverseBounds(|r|, m);
      DivAddsOne((hi - 1 - t.start) as real, m as real);
      assert (hi - 1 - t.start) as real + 1.0 == (hi - t.start) as real;
    }
  }

  lemma InverseBounds(n: nat, m: nat)
    requires 1 <= n <= m
    ensures 1.0 / m as real <= 1.0 / n as real <= 1.0
  {
    var a, b := n as real, m as real;
    assert 1.0 <= a <= b;
    assert (1.0 / a) * a == 1.0;
  }

  lemma DivAddsOne(d: real, m: real)
    requires m > 0.0
    ensures d / m + 1.0 / m == (d + 1.0) / m
  {
  }

  // ---- conservation: exchanging the sum over steps with the sum over time

  /** What the steps of `order` together receive from the millisecond x. */
  function SumAt(all: set<Target>, order: seq<Target>, x: int): real {
    if order == [] then 0.0
    else
      var t := order[|order| - 1];
      SumAt(all, order[..|order| - 1], x) + (if t.start <= x < t.end then Weight(all, x) else 0.0)
  }

  lemma RunningGrows(order: seq<Target>, x: int)
    requires Distinct(order) && order != []
    ensures
      var front, t := order[..|order| - 1], order[|order| - 1];
      |Running(Elements(order), x)|
      == |Running(Elements(front), x)| + (if t.start <= x < t.end then 1 else 0)
  {
    var front, t := order[..|order| - 1], order[|order| - 1];
    assert order == front + [t] && t !in front;
    if t.start <= x < t.end {
      assert Running(Elements(order), x) == Running(Elements(front), x) + {t};
    } else {
      assert Running(Elements(order), x) == Running(Elements(front), x);
    }
  }

  lemma {:induction false} SumAtCounts(all: set<Target>, order: seq<Target>, x: int)
    requires Distinct(order)
    ensures SumAt(all, order, x) == |Running(Elements(order), x)| as real * Weight(all, x)
  {
    if order == [] {
      assert Running(Elements(order), x) == {};
    } else {
      var front := order[..|order| - 1];
      SumAtCounts(all, front, x);
      RunningGrows(order, x);
      OneMore(|Running(Elements(front), x)|, Weight(all, x));
    }
  }

  lemma OneMore(n: nat, w: real)
    ensures (n + 1) as real * w == n as real * w + w
  {
    assert (n + 1) as real == n as real + 1.0;
  }

  /** What the steps of `order` receive from the milliseconds [lo, hi). */
  function SumOver(all: set<Target>, order: seq<Target>, lo: int, hi: int): real
    decreases hi - lo
  {
    if hi <= lo then 0.0 else SumOver(all, order, lo, hi - 1) + SumAt(all, order, hi - 1)
  }

  lemma {:induction false} SumOverAppend(all: set<Target>, front: seq<Target>, t: Target, lo: int, hi: int)
    requires lo <= t.start <= t.end && lo <= hi
    ensures SumOver(all, front + [t], lo, hi)
         == SumOver(all, front, lo, hi)
          + WeightedTime(all, t.start, if hi < t.end then hi else t.end)
    decreases hi - lo
  {
    if lo < hi {
      SumOverAppend(all, front, t, lo, hi - 1);
      assert (front + [t])[..|front + [t]| - 1] == front;
    }
  }

  lemma {:induction false} SumExchange(all: set<Target>, order: seq<Target>, lo: int, hi: int)
    requires lo <= hi && Within(order, lo, hi)
    requires forall t :: t in order ==> t.start <= t.end
    ensures SumShares(all, order) == SumOver(all, order, lo, hi)
  {
    if order == [] {
      EmptySum(all, lo, hi);
    } else {
      var front, t := order[..|order| - 1], order[|order| - 1];
      assert order == front + [t];
      assert t in order;
      SumExchange(all, front, lo, hi);
      SumOverAppend(all, front, t, lo, hi);
    }
  }

  lemma {:induction false} EmptySum(all: set<Target>, lo: int, hi: int)
    ensures SumOver(all, [], lo, hi) == 0.0
    decreases hi - lo
  {
    if lo < hi {
      EmptySum(all, lo, hi - 1);
    }
  }

  lemma {:induction false} SumOverIsBusyTime(order: seq<Target>, lo: int, hi: int)
    requires Distinct(order)
    ensures SumOver(Elements(order), order, lo, hi) == BusyTime(Elements(order), lo, hi) as real
    decreases hi - lo
  {
    if lo < hi {
      SumOverIsBusyTime(order, lo, hi - 1);
      SumAtCounts(Elements(order), order, hi - 1);
      var n := |Running(Elements(order), hi - 1)| as real;
      if n != 0.0 {
        assert n * (1.0 / n) == 1.0;
      }
    }
  }

  /** Conservation: whatever order the steps are added up in, their shares sum
      to the time at which at least one step is running. */
  lemma {:induction false} Conservation(order: seq<Target>, lo: int, hi: int)
    requires Distinct(order) && lo <= hi && Within(order, lo, hi)
    requires forall t :: t in order ==> t.start <= t.end
    ensures SumShares(Elements(order), order) == BusyTime(Elements(order), lo, hi) as real
  {
    SumExchange(Elements(order), order, lo, hi);
    SumOverIsBusyTime(order, lo, hi);
  }

  ghost predicate NoIdleGap(all: set<Target>, lo: int, hi: int) {
    forall x :: lo <= x < hi ==> Running(all, x) != {}
  }

  /** Busy time never exceeds the span, and fills it exactly when there is no
      idle gap. */
  lemma {:induction false} BusyTimeFillsSpan(all: set<Target>, lo: int, hi: int)
    requires lo <= hi
    ensures 0 <= BusyTime(all, lo, hi) <= hi - lo
    ensures BusyTime(all, lo, hi) == hi - lo <==> NoIdleGap(all, lo, hi)
    decreases hi - lo
  {
    if lo < hi {
      BusyTimeFillsSpan(all, lo, hi - 1);
      if NoIdleGap(all, lo, hi - 1) && Running(all, hi - 1) != {} {
        assert NoIdleGap(all, lo, hi);
      }
    }
  }

  // ---- processor time

  /** The number of running steps, summed over the milliseconds of [lo, hi). */
  function RunningTime(all: set<Target>, lo: int, hi: int): int
    decreases hi - lo
  {
    if hi <= lo then 0 else RunningTime(all, lo, hi - 1) + |Running(all, hi - 1)|
  }

  lemma {:induction false} RunningTimeGrows(order: seq<Target>, lo: int, hi: int)
    requires Distinct(order) && order != [] && lo <= hi
    requires lo <= order[|order| - 1].start <= order[|order| - 1].end
    ensures
      var front, t := order[..|order| - 1], order[|order| - 1];
      RunningTime(Elements(order), lo, hi) == RunningTime(Elements(front), lo, hi)
        + (if hi <= t.start then 0 else if hi < t.end then hi - t.start else t.end - t.start)
    decreases hi - lo
  {
    if lo < hi {
      RunningTimeGrows(order, lo, hi - 1);
      RunningGrows(order, hi - 1);
    }
  }

  lemma {:induction false} NothingRuns(lo: int, hi: int)
    ensures RunningTime({}, lo, hi) == 0
    decreases hi - lo
  {
    if lo < hi {
      NothingRuns(lo, hi - 1);
      assert Running({}, hi - 1) == {};
    }
  }

  ghost predicate NoOverlap(all: set<Target>, lo: int, hi: int) {
    forall x :: lo <= x < hi ==> |Running(all, x)| <= 1
  }

  /** Busy time never exceeds processor time, and equals it exactly when no two
      steps run at once. */
  lemma {:induction false} BusyAtMostRunning(all: set<Target>, lo: int, hi: int)
    ensures BusyTime(all, lo, hi) <= RunningTime(all, lo, hi)
    ensures BusyTime(all, lo, hi) == RunningTime(all, lo, hi) <==> NoOverlap(all, lo, hi)
    decreases hi - lo
  {
    if lo < hi {
      BusyAtMostRunning(all, lo, hi - 1);
      if NoOverlap(all, lo, hi - 1) && |Running(all, hi - 1)| <= 1 {
        assert NoOverlap(all, lo, hi);
      }
    }
  }
}
