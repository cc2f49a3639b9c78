/** The start/stop sweep of the report: one running accumulator stands in for
    the share of every step. */
module NinjaReport {
  import opened NinjaTarget
  import opened NinjaShares
  import opened Options
  import opened Sequences

  datatype Event = Event(time: int, stop: bool, target: Target)

  function StartOf(t: Target): Event {
    Event(t.start, false, t)
  }

  function StopOf(t: Target): Event {
    Event(t.end, true, t)
  }

  /** The sort key is (time, action name) and "start" < "stop". */
  predicate Before(a: Event, b: Event) {
    a.time < b.time || (a.time == b.time && (!a.stop || b.stop))
  }

  ghost predicate Sorted(evs: seq<Event>) {
    forall i, j :: 0 <= i < j < |evs| ==> Before(evs[i], evs[j])
  }

  /** `evs` holds the events of `all`, each exactly once: the start of t at
      place at[t] and its stop at place to[t]. */
  ghost predicate Placed(all: set<Target>, evs: seq<Event>, at: map<Target, nat>, to: map<Target, nat>) {
    && at.Keys == all && to.Keys == all
    && (forall t {:trigger StepPlaced(evs, at, to, t)} :: t in all ==> StepPlaced(evs, at, to, t))
    && (forall i {:trigger EventPlaced(evs, at, to, i)} :: 0 <= i < |evs| ==> EventPlaced(evs, at, to, i))
  }

  ghost predicate StepPlaced(evs: seq<Event>, at: map<Target, nat>, to: map<Target, nat>, t: Target) {
    && t in at && at[t] < |evs| && evs[at[t]] == StartOf(t)
    && t in to && to[t] < |evs| && evs[to[t]] == StopOf(t)
  }

  ghost predicate EventPlaced(evs: seq<Event>, at: map<Target, nat>, to: map<Target, nat>, i: nat)
    requires i < |evs|
  {
    var e := evs[i];
    e.target in at && e.target in to && if e.stop then to[e.target] == i else at[e.target] == i
  }

  // ---- sorting

  /** `evs` holds the two events of every step of `all` once, and no others. */
  ghost predicate EventsOf(all: set<Target>, evs: seq<Event>) {
    && Distinct(evs)
    && (forall t :: t in all ==> StartOf(t) in evs && StopOf(t) in evs)
    && (forall e :: e in evs ==> IsEventOf(all, e))
  }

  predicate IsEventOf(all: set<Target>, e: Event) {
    e.target in all && e == if e.stop then StopOf(e.target) else StartOf(e.target)
  }

  lemma PermutedEvents(all: set<Target>, evs: seq<Event>, perm: seq<Event>)
    requires EventsOf(all, evs) && multiset(perm) == multiset(evs)
    ensures EventsOf(all, perm)
  {
    PermutationDistinct(evs, perm);
    forall e ensures e in evs <==> e in perm {
      SameMembers(evs, perm, e);
    }
  }

  /** Where the event `f` makes of each step stands. */
  ghost function Places(all: set<Target>, evs: seq<Event>, f: Target -> Event): map<Target, nat>
    requires forall t :: t in all ==> f(t) in evs
  {
    map t | t in all :: IndexOf(evs, f(t))
  }

  lemma EventsArePlaced(all: set<Target>, evs: seq<Event>) returns (at: map<Target, nat>, to: map<Target, nat>)
    requires EventsOf(all, evs)
    ensures Placed(all, evs, at, to)
  {
    at, to := Places(all, evs, StartOf), Places(all, evs, StopOf);
    forall i | 0 <= i < |evs| ensures EventPlaced(evs, at, to, i) {
      assert IsEventOf(all, evs[i]);
      UniqueIndex(evs, i);
    }
  }

  lemma NoEventsNoSteps(all: set<Target>, evs: seq<Event>, at: map<Target, nat>, to: map<Target, nat>)
    requires Placed(all, evs, at, to)
    ensures evs == [] <==> all == {}
  {
    if evs != [] {
      assert EventPlaced(evs, at, to, 0);
    }
    forall t | t in all ensures |evs| > 0 {
      assert StepPlaced(evs, at, to, t);
    }
  }

  lemma SortedAppend(s: seq<Event>, e: Event)
    requires Sorted(s) && forall x :: x in s ==> Before(x, e)
    ensures Sorted(s + [e])
  {
  }

  function InsertEvent(s: seq<Event>, e: Event): seq<Event> {
    if s == [] || Before(s[|s| - 1], e) then s + [e]
    else InsertEvent(s[..|s| - 1], e) + [s[|s| - 1]]
  }

  lemma {:induction false} InsertEventPermutes(s: seq<Event>, e: Event)
    ensures multiset(InsertEvent(s, e)) == multiset(s) + multiset{e}
  {
    if s != [] && !Before(s[|s| - 1], e) {
      InsertEventPermutes(s[..|s| - 1], e);
      assert s == s[..|s| - 1] + [s[|s| - 1]];
    }
  }

  lemma InsertEventMember(s: seq<Event>, e: Event, x: Event)
    requires x in InsertEvent(s, e)
    ensures x in s || x == e
  {
    InsertEventPermutes(s, e);
    assert x in multiset(InsertEvent(s, e));
  }

  lemma {:induction false} InsertEventSorts(s: seq<Event>, e: Event)
    requires Sorted(s)
    ensures Sorted(InsertEvent(s, e))
  {
    if s == [] {
    } else if Before(s[|s| - 1], e) {
      forall x | x in s ensures Before(x, e) {
        var i :| 0 <= i < |s| && s[i] == x;
        if i < |s| - 1 {
          assert Before(s[i], s[|s| - 1]);
        }
      }
      SortedAppend(s, e);
    } else {
      var front, last := s[..|s| - 1], s[|s| - 1];
      InsertEventSorts(front, e);
      forall x | x in InsertEvent(front, e) ensures Before(x, last) {
        InsertEventMember(front, e, x);
      }
      SortedAppend(InsertEvent(front, e), last);
    }
  }

  /** Stands for the library sort with the (time, action) key: the result is
      sorted and a permutation. */
  method SortEvents(evs: seq<Event>) returns (sorted: seq<Event>)
    ensures Sorted(sorted)
    ensures multiset(sorted) == multiset(evs)
  {
    sorted := [];
    for n := 0 to |evs|
      invariant Sorted(sorted)
      invariant multiset(sorted) == multiset(evs[..n])
    {
      assert evs[..n + 1] == evs[..n] + [evs[n]];
      InsertEventPermutes(sorted, evs[n]);
      InsertEventSorts(sorted, evs[n]);
      sorted := InsertEvent(sorted, evs[n]);
    }
    assert evs[..|evs|] == evs;
  }

  // ---- the sweep

  /** Steps whose start is among the first k events and whose stop is not. */
  ghost function Open(all: set<Target>, at: map<Target, nat>, to: map<Target, nat>, k: nat): set<Target>
    requires at.Keys == all && to.Keys == all
  {
    set t | t in all && at[t] < k <= to[t]
  }

  lemma PlaceTime(evs: seq<Event>, k: nat, lastTime: int, x: int, i: nat)
    requires Sorted(evs) && k < |evs| && i < |evs|
    requires k > 0 ==> evs[k - 1].time == lastTime
    requires lastTime <= x < evs[k].time
    ensures i < k <==> evs[i].time <= x
  {
    if i < k - 1 {
      assert Before(evs[i], evs[k - 1]);
    } else if k < i {
      assert Before(evs[k], evs[i]);
    }
  }

  lemma OpenIffRunning(all: set<Target>, evs: seq<Event>, at: map<Target, nat>, to: map<Target, nat>,
                       k: nat, lastTime: int, x: int, t: Target)
    requires Sorted(evs) && Placed(all, evs, at, to) && k < |evs| && t in all
    requires k > 0 ==> evs[k - 1].time == lastTime
    requires lastTime <= x < evs[k].time
    ensures t.start <= x < t.end <==> at[t] < k <= to[t]
  {
    assert StepPlaced(evs, at, to, t);
    PlaceTime(evs, k, lastTime, x, at[t]);
    PlaceTime(evs, k, lastTime, x, to[t]);
  }

  /** Between two consecutive events the open steps are the running steps,
      whatever the order of tied events. */
  lemma OpenIsRunning(all: set<Target>, evs: seq<Event>, at: map<Target, nat>, to: map<Target, nat>,
                      k: nat, lastTime: int, x: int)
    requires Sorted(evs) && Placed(all, evs, at, to) && k < |evs|
    requires k > 0 ==> evs[k - 1].time == lastTime
    requires lastTime <= x < evs[k].time
    ensures Running(all, x) == Open(all, at, to, k)
  {
    forall t | t in all ensures t in Running(all, x) <==> t in Open(all, at, to, k) {
      OpenIffRunning(all, evs, at, to, k, lastTime, x, t);
    }
  }

  /** One accumulator update is the weighted time between two events. */
  lemma AccumulatorStep(all: set<Target>, t0: int, lastTime: int, time: int, open: set<Target>)
    requires t0 <= lastTime <= time
    requires forall x :: lastTime <= x < time ==> Running(all, x) == open
    ensures WeightedTime(all, t0, time) == WeightedTime(all, t0, lastTime) + Spread(time - lastTime, |open|)
  {
    ConstantRunning(all, lastTime, time, open);
    WeightedTimeSplits(all, t0, lastTime, time);
  }

  /** A stop met before its start: the step ends before it starts. */
  lemma StopFirst(all: set<Target>, evs: seq<Event>, at: map<Target, nat>, to: map<Target, nat>, t: Target)
    requires Sorted(evs) && Placed(all, evs, at, to) && t in all
    ensures to[t] < at[t] <==> t.end < t.start
  {
    assert StepPlaced(evs, at, to, t);
    if to[t] < at[t] {
      assert Before(evs[to[t]], evs[at[t]]);
    } else if at[t] < to[t] {
      assert Before(evs[at[t]], evs[to[t]]);
    }
  }

  lemma OpenAfterEvent(all: set<Target>, evs: seq<Event>, at: map<Target, nat>, to: map<Target, nat>, k: nat)
    requires Placed(all, evs, at, to) && k < |evs|
    ensures
      var t := evs[k].target;
      EventPlaced(evs, at, to, k) && StepPlaced(evs, at, to, t) && Open(all, at, to, k + 1) ==
        if evs[k].stop then Open(all, at, to, k) - {t}
        else if to[t] < k then Open(all, at, to, k)
        else Open(all, at, to, k) + {t}
    ensures forall t :: t in all && to[t] == k ==> evs[k].stop && t == evs[k].target
  {
    assert EventPlaced(evs, at, to, k) && StepPlaced(evs, at, to, evs[k].target);
    forall t | t in all
      ensures at[t] == k ==> t == evs[k].target && !evs[k].stop
      ensures to[t] == k ==> t == evs[k].target && evs[k].stop
    {
      assert StepPlaced(evs, at, to, t);
    }
  }

  /** The loop's bookkeeping after k events. */
  ghost predicate SweepState(all: set<Target>, evs: seq<Event>, at: map<Target, nat>, to: map<Target, nat>,
                             k: nat, t0: int, lastTime: int, acc: real, running: map<Target, real>)
    requires at.Keys == all && to.Keys == all && k <= |evs|
  {
    && t0 <= lastTime && (k > 0 ==> evs[k - 1].time == lastTime) && (k == 0 ==> lastTime == t0)
    && (k < |evs| ==> lastTime <= evs[k].time)
    && acc == WeightedTime(all, t0, lastTime)
    && running.Keys == Open(all, at, to, k)
    && (forall t :: t in running ==> t0 <= t.start <= lastTime && running[t] == WeightedTime(all, t0, t.start))
    && (forall t :: t in all && to[t] < k ==> at[t] < to[t])
  }

  function Accumulate(acc: real, running: map<Target, real>, dt: int): real {
    acc + Spread(dt, |running|)
  }

  lemma AccumulateIsWeightedTime(all: set<Target>, evs: seq<Event>, at: map<Target, nat>, to: map<Target, nat>,
                                 k: nat, t0: int, lastTime: int, acc: real, running: map<Target, real>)
    requires Sorted(evs) && Placed(all, evs, at, to) && k < |evs|
    requires SweepState(all, evs, at, to, k, t0, lastTime, acc, running)
    ensures Accumulate(acc, running, evs[k].time - lastTime) == WeightedTime(all, t0, evs[k].time)
  {
    forall x | lastTime <= x < evs[k].time ensures Running(all, x) == running.Keys {
      OpenIsRunning(all, evs, at, to, k, lastTime, x);
    }
    AccumulatorStep(all, t0, lastTime, evs[k].time, running.Keys);
    assert |running| == |running.Keys|;
  }

  lemma NextTime(evs: seq<Event>, k: nat)
    requires Sorted(evs) && k < |evs|
    ensures k + 1 < |evs| ==> evs[k].time <= evs[k + 1].time
  {
    if k + 1 < |evs| {
      assert Before(evs[k], evs[k + 1]);
    }
  }

  lemma StartStep(all: set<Target>, evs: seq<Event>, at: map<Target, nat>, to: map<Target, nat>,
                  k: nat, t0: int, lastTime: int, acc: real, running: map<Target, real>)
    requires Sorted(evs) && Placed(all, evs, at, to) && k < |evs| && !evs[k].stop
    requires SweepState(all, evs, at, to, k, t0, lastTime, acc, running)
    ensures
      var e := evs[k];
      var acc' := Accumulate(acc, running, e.time - lastTime);
      SweepState(all, evs, at, to, k + 1, t0, e.time, acc', running[e.target := acc'])
  {
    AccumulateIsWeightedTime(all, evs, at, to, k, t0, lastTime, acc, running);
    OpenAfterEvent(all, evs, at, to, k);
    NextTime(evs, k);
  }

  lemma StopStep(all: set<Target>, evs: seq<Event>, at: map<Target, nat>, to: map<Target, nat>,
                 k: nat, t0: int, lastTime: int, acc: real, running: map<Target, real>)
    requires Sorted(evs) && Placed(all, evs, at, to) && k < |evs| && evs[k].stop
    requires SweepState(all, evs, at, to, k, t0, lastTime, acc, running)
    ensures
      var e := evs[k];
      var acc' := Accumulate(acc, running, e.time - lastTime);
      if e.target in running then
        && SweepState(all, evs, at, to, k + 1, t0, e.time, acc', running - {e.target})
        && acc' - running[e.target] == Share(all, e.target)
      else e.target.end < e.target.start
  {
    var t := evs[k].target;
    AccumulateIsWeightedTime(all, evs, at, to, k, t0, lastTime, acc, running);
    OpenAfterEvent(all, evs, at, to, k);
    NextTime(evs, k);
    StopFirst(all, evs, at, to, t);
    if t in running {
      WeightedTimeSplits(all, t0, t.start, t.end);
    }
  }

  /** `order` lists the steps stopped by the first k events and `total` is the
      sum of their shares. */
  ghost predicate Stopped(all: set<Target>, to: map<Target, nat>, k: nat, order: seq<Target>, total: real)
    requires to.Keys == all
  {
    && Distinct(order)
    && (forall t :: t in order ==> t in all && to[t] < k)
    && (forall t :: t in all && to[t] < k ==> t in order)
    && total == SumShares(all, order)
  }

  lemma StoppedAfterEvent(all: set<Target>, evs: seq<Event>, at: map<Target, nat>, to: map<Target, nat>,
                          k: nat, order: seq<Target>, total: real)
    requires Placed(all, evs, at, to) && k < |evs| && Stopped(all, to, k, order, total)
    ensures var t := evs[k].target;
            if evs[k].stop then Stopped(all, to, k + 1, order + [t], total + Share(all, t))
            else Stopped(all, to, k + 1, order, total)
  {
    OpenAfterEvent(all, evs, at, to, k);
    var t := evs[k].target;
    assert (order + [t])[..|order|] == order;
  }

  lemma AllStopped(all: set<Target>, evs: seq<Event>, at: map<Target, nat>, to: map<Target, nat>,
                   order: seq<Target>, total: real)
    requires Sorted(evs) && Placed(all, evs, at, to) && Stopped(all, to, |evs|, order, total)
    requires forall t :: t in all && to[t] < |evs| ==> at[t] < to[t]
    ensures Elements(order) == all && Open(all, at, to, |evs|) == {}
    ensures forall t :: t in all ==> t.start <= t.end
  {
    forall t | t in all ensures t in order && to[t] < |evs| && t.start <= t.end {
      assert StepPlaced(evs, at, to, t);
      StopFirst(all, evs, at, to, t);
    }
  }

  // ---- one step's share, interval by interval

  function EventTimes(evs: seq<Event>): (times: seq<int>)
    ensures |times| == |evs|
    ensures evs != [] ==> times[0] == evs[0].time && times[|times| - 1] == evs[|evs| - 1].time
  {
    if evs == [] then [] else EventTimes(evs[..|evs| - 1]) + [evs[|evs| - 1].time]
  }

  lemma NothingBetween(evs: seq<Event>, k: nat, i: nat)
    requires Sorted(evs) && 0 < k < |evs| && i < |evs|
    ensures !(evs[k - 1].time < evs[i].time < evs[k].time)
  {
    if i < k - 1 {
      assert Before(evs[i], evs[k - 1]);
    } else if k < i {
      assert Before(evs[k], evs[i]);
    }
  }

  lemma ConsecutiveEvents(all: set<Target>, evs: seq<Event>, at: map<Target, nat>, to: map<Target, nat>, k: nat)
    requires Sorted(evs) && Placed(all, evs, at, to) && 0 < k < |evs|
    ensures Undisturbed(all, evs[k - 1].time, evs[k].time)
  {
    assert Before(evs[k - 1], evs[k]);
    forall t | t in all
      ensures !(evs[k - 1].time < t.start < evs[k].time) && !(evs[k - 1].time < t.end < evs[k].time)
    {
      assert StepPlaced(evs, at, to, t);
      NothingBetween(evs, k, at[t]);
      NothingBetween(evs, k, to[t]);
    }
  }

  lemma EventTimesNext(evs: seq<Event>, i: nat, j: nat)
    requires i < j <= |evs|
    ensures EventTimes(evs[i..j]) == EventTimes(evs[i..j - 1]) + [evs[j - 1].time]
  {
    var part := evs[i..j];
    assert part[..|part| - 1] == evs[i..j - 1] && part[|part| - 1] == evs[j - 1];
  }

  lemma {:induction false} EventTimesElementary(all: set<Target>, evs: seq<Event>, at: map<Target, nat>,
                                                to: map<Target, nat>, i: nat, j: nat)
    requires Sorted(evs) && Placed(all, evs, at, to) && i < j <= |evs|
    ensures Elementary(all, EventTimes(evs[i..j]))
    decreases j - i
  {
    if i + 1 < j {
      EventTimesElementary(all, evs, at, to, i, j - 1);
      EventTimesNext(evs, i, j);
      ConsecutiveEvents(all, evs, at, to, j - 1);
      OneMoreCut(all, EventTimes(evs[i..j - 1]), evs[j - 1].time);
    }
  }

  /** A step's share is the sum, over the intervals between consecutive events
      from its start to its stop, of length divided by number running. */
  lemma ShareByInterval(all: set<Target>, evs: seq<Event>, at: map<Target, nat>, to: map<Target, nat>, t: Target)
    requires Sorted(evs) && Placed(all, evs, at, to) && t in all && t.start <= t.end
    ensures at[t] < to[t] < |evs|
    ensures Elementary(all, EventTimes(evs[at[t]..to[t] + 1]))
    ensures Share(all, t) == IntervalSum(all, EventTimes(evs[at[t]..to[t] + 1]))
  {
    assert StepPlaced(evs, at, to, t);
    StopFirst(all, evs, at, to, t);
    EventTimesElementary(all, evs, at, to, at[t], to[t] + 1);
    SharesByInterval(all, EventTimes(evs[at[t]..to[t] + 1]));
  }

  // ---- the loop

  /** Everything the scan keeps after k events. */
  ghost predicate Scanned(all: set<Target>, evs: seq<Event>, at: map<Target, nat>, to: map<Target, nat>,
                          k: nat, t0: int, lastTime: int, acc: real, running: map<Target, real>,
                          order: seq<Target>, total: real)
  {
    && at.Keys == all && to.Keys == all && k <= |evs|
    && SweepState(all, evs, at, to, k, t0, lastTime, acc, running) && Stopped(all, to, k, order, total)
  }

  lemma ScanStart(all: set<Target>, evs: seq<Event>, at: map<Target, nat>, to: map<Target, nat>,
                  k: nat, t0: int, lastTime: int, acc: real, running: map<Target, real>,
                  order: seq<Target>, total: real)
    requires Sorted(evs) && Placed(all, evs, at, to) && k < |evs| && !evs[k].stop
    requires Scanned(all, evs, at, to, k, t0, lastTime, acc, running, order, total)
    ensures
      var e := evs[k];
      var acc' := Accumulate(acc, running, e.time - lastTime);
      Scanned(all, evs, at, to, k + 1, t0, e.time, acc', running[e.target := acc'], order, total)
  {
    StoppedAfterEvent(all, evs, at, to, k, order, total);
    StartStep(all, evs, at, to, k, t0, lastTime, acc, running);
  }

  lemma ScanStop(all: set<Target>, evs: seq<Event>, at: map<Target, nat>, to: map<Target, nat>,
                 k: nat, t0: int, lastTime: int, acc: real, running: map<Target, real>,
                 order: seq<Target>, total: real)
    requires Sorted(evs) && Placed(all, evs, at, to) && k < |evs| && evs[k].stop
    requires Scanned(all, evs, at, to, k, t0, lastTime, acc, running, order, total)
    ensures
      var e := evs[k];
      var acc' := Accumulate(acc, running, e.time - lastTime);
      e.target in all &&
      if e.target in running then
        var share := acc' - running[e.target];
        && share == Share(all, e.target)
        && Scanned(all, evs, at, to, k + 1, t0, e.time, acc', running - {e.target}, order + [e.target], total + share)
      else e.target.end < e.target.start
  {
    assert EventPlaced(evs, at, to, k);
    StoppedAfterEvent(all, evs, at, to, k, order, total);
    StopStep(all, evs, at, to, k, t0, lastTime, acc, running);
  }

  lemma ScanDone(all: set<Target>, evs: seq<Event>, at: map<Target, nat>, to: map<Target, nat>,
                 t0: int, lastTime: int, acc: real, running: map<Target, real>, order: seq<Target>, total: real)
    requires Sorted(evs) && Placed(all, evs, at, to)
    requires Scanned(all, evs, at, to, |evs|, t0, lastTime, acc, running, order, total)
    ensures |running| == 0 && Distinct(order) && Elements(order) == all && total == SumShares(all, order)
    ensures forall t :: t in all ==> t.start <= t.end
  {
    AllStopped(all, evs, at, to, order, total);
    assert running.Keys == {};
  }

  ghost predicate Recorded(all: set<Target>, order: seq<Target>)
    reads all
  {
    forall t :: t in order && t in all ==> t.weightedDuration == Share(all, t)
  }

  /** Takes one stop event: the step gets what the accumulator grew by since
      its start. It fails when the step is not open. */
  method CloseStep(all: set<Target>, evs: seq<Event>, ghost at: map<Target, nat>, ghost to: map<Target, nat>,
                   k: nat, ghost t0: int, ghost lastTime: int, ghost acc: real, running: map<Target, real>,
                   ghost order: seq<Target>, total: real, acc': real)
    returns (ok: bool, running': map<Target, real>, ghost order': seq<Target>, total': real)
    requires Sorted(evs) && Placed(all, evs, at, to) && k < |evs| && evs[k].stop
    requires Scanned(all, evs, at, to, k, t0, lastTime, acc, running, order, total) && Recorded(all, order)
    requires acc' == Accumulate(acc, running, evs[k].time - lastTime)
    modifies all`weightedDuration
    ensures ok ==>
              && Scanned(all, evs, at, to, k + 1, t0, evs[k].time, acc', running', order', total')
              && Recorded(all, order')
    ensures !ok ==> evs[k].target in all && evs[k].target.end < evs[k].target.start
  {
    var target := evs[k].target;
    ScanStop(all, evs, at, to, k, t0, lastTime, acc, running, order, total);
    ok, order' := target in running, order + [target];
    if !ok {
      running', total' := running, total;
    } else {
      var weightedDuration := acc' - running[target];
      target.weightedDuration := weightedDuration;
      total' := total + weightedDuration;
      running' := running - {target};
    }
  }

  /** Takes one start event: the step remembers the accumulator. */
  method OpenStep(all: set<Target>, evs: seq<Event>, ghost at: map<Target, nat>, ghost to: map<Target, nat>,
                  k: nat, ghost t0: int, ghost lastTime: int, ghost acc: real, running: map<Target, real>,
                  ghost order: seq<Target>, ghost total: real, acc': real)
    returns (running': map<Target, real>)
    requires Sorted(evs) && Placed(all, evs, at, to) && k < |evs| && !evs[k].stop
    requires Scanned(all, evs, at, to, k, t0, lastTime, acc, running, order, total)
    requires acc' == Accumulate(acc, running, evs[k].time - lastTime)
    ensures Scanned(all, evs, at, to, k + 1, t0, evs[k].time, acc', running', order, total)
  {
    ScanStart(all, evs, at, to, k, t0, lastTime, acc, running, order, total);
    running' := running[evs[k].target := acc'];
  }

  /** Accumulates weighted time up to now. */
  method Advance(acc: real, running: map<Target, real>, dt: int) returns (acc': real)
    ensures acc' == Accumulate(acc, running, dt)
  {
    acc' := acc;
    var numRunning := |running|;
    if numRunning > 0 {
      acc' := acc + dt as real / numRunning as real;
    }
  }

  /** Takes one event: the accumulator is brought up to date, then the step is
      opened or closed. */
  method ScanEvent(all: set<Target>, evs: seq<Event>, ghost at: map<Target, nat>, ghost to: map<Target, nat>,
                   k: nat, ghost t0: int, lastTime: int, acc: real, running: map<Target, real>,
                   ghost order: seq<Target>, total: real)
    returns (ok: bool, acc': real, running': map<Target, real>, ghost order': seq<Target>, total': real)
    requires Sorted(evs) && Placed(all, evs, at, to) && k < |evs|
    requires Scanned(all, evs, at, to, k, t0, lastTime, acc, running, order, total) && Recorded(all, order)
    modifies all`weightedDuration
    ensures ok ==>
              && Scanned(all, evs, at, to, k + 1, t0, evs[k].time, acc', running', order', total')
              && Recorded(all, order')
    ensures !ok ==> evs[k].target in all && evs[k].target.end < evs[k].target.start
  {
    acc' := Advance(acc, running, evs[k].time - lastTime);
    if evs[k].stop {
      ok, running', order', total' := CloseStep(all, evs, at, to, k, t0, lastTime, acc, running, order, total, acc');
    } else {
      ok, order', total' := true, order, total;
      running' := OpenStep(all, evs, at, to, k, t0, lastTime, acc, running, order, total, acc');
    }
  }

  datatype SweepResult = Swept(weightedTotal: real) | NoEvents | StopBeforeStart

  /** Scans any sorted arrangement of the events. The scan fails with a missing
      key exactly when some step ends before it starts, and with an empty list
      when there is no event; otherwise every step gets its share. */
  method Sweep(all: set<Target>, evs: seq<Event>, ghost at: map<Target, nat>, ghost to: map<Target, nat>)
    returns (r: SweepResult, ghost order: seq<Target>)
    requires Sorted(evs) && Placed(all, evs, at, to)
    modifies all`weightedDuration
    ensures r.NoEvents? <==> all == {}
    ensures r.StopBeforeStart? <==> exists t :: t in all && t.end < t.start
    ensures r.Swept? ==> forall t :: t in all ==> t.weightedDuration == Share(all, t)
    ensures r.Swept? ==> Distinct(order) && Elements(order) == all && r.weightedTotal == SumShares(all, order)
  {
    order := [];
    NoEventsNoSteps(all, evs, at, to);
    if evs == [] {
      return NoEvents, order;
    }
    var runningTasks: map<Target, real> := map[];
    var t0 := evs[0].time;
    var lastTime, lastWeightedTime, weightedTotal := t0, 0.0, 0.0;
    for k := 0 to |evs|
      invariant Scanned(all, evs, at, to, k, t0, lastTime, lastWeightedTime, runningTasks, order, weightedTotal)
      invariant Recorded(all, order)
    {
      var ok;
      ok, lastWeightedTime, runningTasks, order, weightedTotal :=
        ScanEvent(all, evs, at, to, k, t0, lastTime, lastWeightedTime, runningTasks, order, weightedTotal);
      if !ok {
        return StopBeforeStart, order;
      }
      lastTime := evs[k].time;
    }
    ScanDone(all, evs, at, to, t0, lastTime, lastWeightedTime, runningTasks, order, weightedTotal);
    assert |runningTasks| == 0;
    assert forall t :: t in Elements(order) ==> t in order;
    r := Swept(weightedTotal);
  }

  // ---- the whole summary

  function EventList(entries: seq<Target>): seq<Event> {
    seq(2 * |entries|, j requires 0 <= j < 2 * |entries| =>
      if j % 2 == 0 then StartOf(entries[j / 2]) else StopOf(entries[j / 2]))
  }

  lemma EventListHolds(entries: seq<Target>)
    requires Distinct(entries)
    ensures EventsOf(Elements(entries), EventList(entries))
  {
    var evs := EventList(entries);
    forall i, j | 0 <= i < j < |evs| ensures evs[i] != evs[j] {
      assert i / 2 == j / 2 || entries[i / 2] != entries[j / 2];
    }
    forall t | t in entries ensures StartOf(t) in evs && StopOf(t) in evs {
      var i := IndexOf(entries, t);
      assert evs[2 * i] == StartOf(t) && evs[2 * i + 1] == StopOf(t);
    }
    forall e | e in evs ensures IsEventOf(Elements(entries), e) {
      var i := IndexOf(evs, e);
      assert entries[i / 2] in entries;
    }
  }

  function SumDurations(entries: seq<Target>): int {
    if entries == [] then 0 else SumDurations(entries[..|entries| - 1]) + entries[|entries| - 1].Duration()
  }

  /** The summed durations are the processor time of every interval that covers
      the build. */
  lemma {:induction false} DurationsAreRunningTime(entries: seq<Target>, lo: int, hi: int)
    requires Distinct(entries) && Within(entries, lo, hi) && lo <= hi
    requires forall t :: t in entries ==> t.start <= t.end
    ensures SumDurations(entries) == RunningTime(Elements(entries), lo, hi)
  {
    if entries == [] {
      NothingRuns(lo, hi);
      assert Elements(entries) == {};
    } else {
      var front, t := entries[..|entries| - 1], entries[|entries| - 1];
      assert entries == front + [t] && t in entries;
      DurationsAreRunningTime(front, lo, hi);
      RunningTimeGrows(entries, lo, hi);
    }
  }

  datatype Summary =
    | Summary(earliest: int, latest: int, totalCpuTime: int, weightedTotal: real)
    | NoEntries
    | StopsBeforeStart

  ghost predicate IsSpan(entries: seq<Target>, earliest: int, latest: int) {
    && (exists t :: t in entries && t.start == earliest)
    && (exists t :: t in entries && t.end == latest)
    && Within(entries, earliest, latest)
  }

  /** The start kept by a loop that takes any negative value for "none yet". */
  function TrackedStart(entries: seq<Target>): int {
    if entries == [] then -1
    else
      var earliest, start := TrackedStart(entries[..|entries| - 1]), entries[|entries| - 1].start;
      if earliest < 0 || start < earliest then start else earliest
  }

  function TrackedEnd(entries: seq<Target>): int {
    if entries == [] then 0
    else
      var latest, end := TrackedEnd(entries[..|entries| - 1]), entries[|entries| - 1].end;
      if end > latest then end else latest
  }

  ghost predicate NoNegativeStart(entries: seq<Target>) {
    forall t :: t in entries ==> 0 <= t.start
  }

  ghost predicate LastStartsFirst(entries: seq<Target>)
    requires entries != []
  {
    forall t :: t in entries ==> entries[|entries| - 1].start <= t.start
  }

  lemma {:induction false} TrackedStartIsMet(entries: seq<Target>)
    requires entries != []
    ensures exists t :: t in entries && t.start == TrackedStart(entries)
  {
    var front, last := entries[..|entries| - 1], entries[|entries| - 1];
    if front == [] || TrackedStart(entries) == last.start {
      assert TrackedStart(entries) == last.start && last in entries;
    } else {
      TrackedStartIsMet(front);
      var t :| t in front && t.start == TrackedStart(front);
      assert t in entries;
    }
  }

  lemma {:induction false} NonNegativeTracked(entries: seq<Target>, t: Target)
    requires NoNegativeStart(entries) && t in entries
    ensures 0 <= TrackedStart(entries) <= t.start
  {
    var front, last := entries[..|entries| - 1], entries[|entries| - 1];
    assert entries == front + [last] && last in entries;
    assert NoNegativeStart(front);
    if front != [] {
      NonNegativeTracked(front, if t in front then t else front[0]);
    }
  }

  /** The kept start is the earliest one exactly when no start is negative or
      the last step listed is a first to start. */
  lemma TrackedStartExact(entries: seq<Target>)
    requires entries != []
    ensures (forall t :: t in entries ==> TrackedStart(entries) <= t.start)
            <==> NoNegativeStart(entries) || LastStartsFirst(entries)
  {
    var last := entries[|entries| - 1];
    assert last in entries;
    assert TrackedStart(entries) < 0 || last.start < 0 ==> TrackedStart(entries) == last.start;
    if NoNegativeStart(entries) || (LastStartsFirst(entries) && 0 <= last.start) {
      assert NoNegativeStart(entries);
      forall t | t in entries ensures TrackedStart(entries) <= t.start {
        NonNegativeTracked(entries, t);
      }
    }
  }

  /** A step that starts before zero is forgotten by the next one. */
  lemma NegativeStartForgotten(early: Target, late: Target)
    requires early.start < 0 <= late.start
    ensures TrackedStart([early, late]) == late.start
  {
    assert [early, late][..1] == [early] && [early][..0] == [];
  }

  lemma {:induction false} TrackedEndIsGreatest(entries: seq<Target>)
    ensures 0 <= TrackedEnd(entries) && forall t :: t in entries ==> t.end <= TrackedEnd(entries)
    ensures TrackedEnd(entries) == 0 || exists t :: t in entries && t.end == TrackedEnd(entries)
  {
    if entries != [] {
      var front, last := entries[..|entries| - 1], entries[|entries| - 1];
      assert entries == front + [last];
      TrackedEndIsGreatest(front);
      if last.end > TrackedEnd(front) {
        assert last in entries;
      } else if TrackedEnd(front) != 0 {
        var t :| t in front && t.end == TrackedEnd(front);
        assert t in entries;
      }
    }
  }

  /** What the tracked times are worth: they bound the build exactly when the
      start is the earliest, and are its span when some step also ends at zero
      or later. */
  lemma TrackedSpan(entries: seq<Target>)
    requires entries != []
    ensures
      var earliest, latest := TrackedStart(entries), TrackedEnd(entries);
      && (Within(entries, earliest, latest) <==> NoNegativeStart(entries) || LastStartsFirst(entries))
      && (IsSpan(entries, earliest, latest) <==>
            (NoNegativeStart(entries) || LastStartsFirst(entries)) && exists t :: t in entries && 0 <= t.end)
  {
    TrackedStartIsMet(entries);
    TrackedStartExact(entries);
    TrackedEndIsGreatest(entries);
  }

  /** The first loop: the tracked times, the summed durations and the event
      list. */
  method CollectEvents(entries: seq<Target>)
    returns (earliest: int, latest: int, totalCpuTime: int, evs: seq<Event>)
    ensures evs == EventList(entries)
    ensures totalCpuTime == SumDurations(entries)
    ensures earliest == TrackedStart(entries) && latest == TrackedEnd(entries)
  {
    evs := [];
    earliest, latest, totalCpuTime := -1, 0, 0;
    for n := 0 to |entries|
      invariant evs == EventList(entries[..n])
      invariant totalCpuTime == SumDurations(entries[..n])
      invariant earliest == TrackedStart(entries[..n]) && latest == TrackedEnd(entries[..n])
    {
      var target := entries[n];
      assert entries[..n + 1][..n] == entries[..n];
      if earliest < 0 || target.start < earliest {
        earliest := target.start;
      }
      if target.end > latest {
        latest := target.end;
      }
      totalCpuTime := totalCpuTime + target.Duration();
      evs := evs + [StartOf(target)] + [StopOf(target)];
    }
    assert entries[..|entries|] == entries;
  }

  /** What the two totals say, for every interval that covers the build: the
      processor time, and that the weighted total is less unless no two steps
      ever run at once. */
  ghost predicate CpuTimeExplained(entries: seq<Target>, totalCpuTime: int, weightedTotal: real) {
    forall lo, hi {:trigger Within(entries, lo, hi)} :: Within(entries, lo, hi) ==>
      && totalCpuTime == RunningTime(Elements(entries), lo, hi)
      && weightedTotal <= totalCpuTime as real
      && (weightedTotal == totalCpuTime as real <==> NoOverlap(Elements(entries), lo, hi))
  }

  lemma ExplainCpuTime(entries: seq<Target>, order: seq<Target>)
    requires entries != [] && Distinct(entries) && Distinct(order) && Elements(order) == Elements(entries)
    requires forall t :: t in entries ==> t.start <= t.end
    ensures CpuTimeExplained(entries, SumDurations(entries), SumShares(Elements(entries), order))
  {
    forall lo, hi | Within(entries, lo, hi)
      ensures SumDurations(entries) == RunningTime(Elements(entries), lo, hi)
      ensures SumShares(Elements(entries), order) <= SumDurations(entries) as real
      ensures SumShares(Elements(entries), order) == SumDurations(entries) as real
              <==> NoOverlap(Elements(entries), lo, hi)
    {
      assert entries[0] in entries;
      TotalIsBusyTime(entries, order, lo, hi);
      DurationsAreRunningTime(entries, lo, hi);
      BusyAtMostRunning(Elements(entries), lo, hi);
    }
  }

  /** The warning compares the weighted total with this length. */
  ghost predicate TotalExplained(entries: seq<Target>, earliest: int, latest: int, weightedTotal: real) {
    && (forall lo, hi {:trigger Within(entries, lo, hi)} ::
          Within(entries, lo, hi) ==> weightedTotal == BusyTime(Elements(entries), lo, hi) as real)
    && (Within(entries, earliest, latest) ==>
          && weightedTotal <= (latest - earliest) as real
          && (weightedTotal == (latest - earliest) as real <==> NoIdleGap(Elements(entries), earliest, latest)))
  }

  lemma ExplainTotal(entries: seq<Target>, order: seq<Target>, earliest: int, latest: int)
    requires entries != [] && Distinct(order) && Elements(order) == Elements(entries)
    requires forall t :: t in entries ==> t.start <= t.end
    ensures TotalExplained(entries, earliest, latest, SumShares(Elements(entries), order))
  {
    forall lo, hi | Within(entries, lo, hi)
      ensures SumShares(Elements(entries), order) == BusyTime(Elements(entries), lo, hi) as real
    {
      TotalIsBusyTime(entries, order, lo, hi);
    }
    if Within(entries, earliest, latest) {
      TotalIsBusyTime(entries, order, earliest, latest);
    }
  }

  lemma ExplainSummary(entries: seq<Target>, order: seq<Target>, earliest: int, latest: int)
    requires entries != [] && Distinct(entries) && Distinct(order) && Elements(order) == Elements(entries)
    requires forall t :: t in entries ==> t.start <= t.end
    requires earliest == TrackedStart(entries) && latest == TrackedEnd(entries)
    ensures
      && (Within(entries, earliest, latest) <==> NoNegativeStart(entries) || LastStartsFirst(entries))
      && (IsSpan(entries, earliest, latest) <==>
            (NoNegativeStart(entries) || LastStartsFirst(entries)) && exists t :: t in entries && 0 <= t.end)
    ensures TotalExplained(entries, earliest, latest, SumShares(Elements(entries), order))
    ensures CpuTimeExplained(entries, SumDurations(entries), SumShares(Elements(entries), order))
    ensures forall t :: t in entries ==> 0.0 <= Share(Elements(entries), t) <= (t.end - t.start) as real
  {
    ExplainTotal(entries, order, earliest, latest);
    ExplainCpuTime(entries, order);
    TrackedSpan(entries);
    forall t | t in entries ensures 0.0 <= Share(Elements(entries), t) <= (t.end - t.start) as real {
      ShareInRange(Elements(entries), t);
    }
  }

  /** The summary fails exactly on an empty build and on a step that ends
      before it starts. Otherwise every step holds its share, no accessor
      assertion can fire, the shares add up to the busy time of the build, and
      the gap between length and weighted total that the tool warns about is
      its idle time whenever the tracked times bound the build. */
  method SummarizeEntries(entries: seq<Target>) returns (r: Summary)
    requires Distinct(entries)
    modifies Elements(entries)`weightedDuration
    ensures r.NoEntries? <==> entries == []
    ensures r.StopsBeforeStart? <==> exists t :: t in entries && t.end < t.start
    ensures r.Summary? ==>
              forall t :: t in entries ==>
                && t.weightedDuration == Share(Elements(entries), t)
                && t.WeightedDuration() == Some(t.weightedDuration)
                && 0.0 <= t.weightedDuration <= (t.end - t.start) as real
    ensures r.Summary? ==> r.totalCpuTime == SumDurations(entries)
    ensures r.Summary? ==>
              && (Within(entries, r.earliest, r.latest) <==> NoNegativeStart(entries) || LastStartsFirst(entries))
              && (IsSpan(entries, r.earliest, r.latest) <==>
                    (NoNegativeStart(entries) || LastStartsFirst(entries)) && exists t :: t in entries && 0 <= t.end)
    ensures r.Summary? ==> TotalExplained(entries, r.earliest, r.latest, r.weightedTotal)
    ensures r.Summary? ==> CpuTimeExplained(entries, r.totalCpuTime, r.weightedTotal)
  {
    var earliest, latest, totalCpuTime, evs := CollectEvents(entries);
    var sorted := SortEvents(evs);
    EmptyElements(entries);
    EventListHolds(entries);
    PermutedEvents(Elements(entries), evs, sorted);
    ghost var at, to := EventsArePlaced(Elements(entries), sorted);
    var result, order := Sweep(Elements(entries), sorted, at, to);
    match result {
      case NoEvents =>
        return NoEntries;
      case StopBeforeStart =>
        var t :| t in Elements(entries) && t.end < t.start;
        assert t in entries;
        return StopsBeforeStart;
      case Swept(weightedTotal) =>
        ExplainSummary(entries, order, earliest, latest);
        return Summary(earliest, latest, totalCpuTime, weightedTotal);
    }
  }

  lemma EmptyElements(entries: seq<Target>)
    ensures Elements(entries) == {} <==> entries == []
  {
    if entries != [] {
      assert entries[0] in Elements(entries);
    }
  }

  lemma TotalIsBusyTime(entries: seq<Target>, order: seq<Target>, lo: int, hi: int)
    requires entries != [] && Distinct(order) && Elements(order) == Elements(entries)
    requires forall t :: t in entries ==> t.start <= t.end
    requires Within(entries, lo, hi)
    ensures SumShares(Elements(entries), order) == BusyTime(Elements(entries), lo, hi) as real
    ensures 0 <= BusyTime(Elements(entries), lo, hi) <= hi - lo
    ensures BusyTime(Elements(entries), lo, hi) == hi - lo <==> NoIdleGap(Elements(entries), lo, hi)
  {
    assert entries[0] in entries;
    assert forall t :: t in order ==> t in Elements(entries);
    Conservation(order, lo, hi);
    BusyTimeFillsSpan(Elements(entries), lo, hi);
  }
}
