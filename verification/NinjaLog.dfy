/** Reading an append-only ninja log: the log is cut down to its last build and
    the records of that build are grouped by command hash. */
module NinjaLog {
  import opened NinjaTarget
  import opened Sequences

  /** The hash of a build command, compared only for equality. */
  datatype Hash = Hash(digits: string)

  datatype Record = Record(start: int, end: int, name: Output, cmdhash: Hash)

  /** A log line that does not have five fields is malformed and skipped; one
      whose times are no integers makes the reader fail. */
  datatype Line = Malformed | NotANumber | WellFormed(rec: Record)

  const HEADER := "# ninja log v5\n"

  function Records(lines: seq<Line>): seq<Record> {
    if lines == [] then [] else WithLine(Records(lines[..|lines| - 1]), lines[|lines| - 1])
  }

  function WithLine(recs: seq<Record>, line: Line): seq<Record> {
    if line.WellFormed? then recs + [line.rec] else recs
  }

  /** The records are those of the well-formed lines, in order, as they are. */
  lemma {:induction false} RecordsMean(lines: seq<Line>) returns (at: seq<nat>)
    ensures Picked(lines, (l: Line) => l.WellFormed?, (l: Line, r: Record) => l == WellFormed(r), Records(lines), at)
  {
    at := [];
    if lines != [] {
      var front, l := lines[..|lines| - 1], lines[|lines| - 1];
      at := RecordsMean(front);
      assert lines == front + [l];
      var r := if l.WellFormed? then l.rec else Record(0, 0, Output(""), Hash(""));
      PickedNext(front, l, (l: Line) => l.WellFormed?, (l: Line, r: Record) => l == WellFormed(r), Records(front), at, r);
      if l.WellFormed? {
        at := at + [|front|];
      }
    }
  }

  // ---- cutting the log into builds

  /** Records that can belong to one build: end times never decrease and a
      command that is met again ran at the same time. */
  ghost predicate OneBuild(recs: seq<Record>) {
    && (forall i :: 0 < i < |recs| ==> recs[i - 1].end <= recs[i].end)
    && (forall i, j :: 0 <= i < j < |recs| && recs[i].cmdhash == recs[j].cmdhash ==>
          recs[i].start == recs[j].start && recs[i].end == recs[j].end)
  }

  ghost predicate InOneBuild(a: Record, b: Record) {
    a.end <= b.end && (a.cmdhash == b.cmdhash ==> a.start == b.start && a.end == b.end)
  }

  /** That is, any two of them fit together. */
  lemma {:induction false} OneBuildExactly(recs: seq<Record>)
    ensures OneBuild(recs) <==> forall i, j :: 0 <= i < j < |recs| ==> InOneBuild(recs[i], recs[j])
  {
    if OneBuild(recs) {
      forall i, j | 0 <= i < j < |recs| ensures InOneBuild(recs[i], recs[j]) {
        EndsRise(recs, i, j);
      }
    } else if forall i, j :: 0 <= i < j < |recs| ==> InOneBuild(recs[i], recs[j]) {
      forall i | 0 < i < |recs| ensures recs[i - 1].end <= recs[i].end {
        assert InOneBuild(recs[i - 1], recs[i]);
      }
      forall i, j | 0 <= i < j < |recs| && recs[i].cmdhash == recs[j].cmdhash
        ensures recs[i].start == recs[j].start && recs[i].end == recs[j].end
      {
        assert InOneBuild(recs[i], recs[j]);
      }
    }
  }

  lemma {:induction false} EndsRise(recs: seq<Record>, i: nat, j: nat)
    requires OneBuild(recs) && i <= j < |recs|
    ensures recs[i].end <= recs[j].end
    decreases j - i
  {
    if i < j {
      EndsRise(recs, i, j - 1);
    }
  }

  /** The log cut into builds, each extended as far as it can be. */
  ghost predicate MaximalBuilds(builds: seq<seq<Record>>) {
    && (forall i :: 0 <= i < |builds| ==> builds[i] != [] && OneBuild(builds[i]))
    && (forall i :: 0 < i < |builds| ==> !OneBuild(builds[i - 1] + [builds[i][0]]))
  }

  /** The build in progress after one more record. */
  ghost function NextBuild(b: seq<Record>, r: Record): seq<Record> {
    if OneBuild(b + [r]) then b + [r] else [r]
  }

  /** The last build of a log. */
  ghost function LastBuild(recs: seq<Record>): seq<Record> {
    if recs == [] then [] else NextBuild(LastBuild(recs[..|recs| - 1]), recs[|recs| - 1])
  }

  lemma LastBuildAppend(recs: seq<Record>, r: Record)
    ensures LastBuild(recs + [r]) == NextBuild(LastBuild(recs), r)
  {
    assert (recs + [r])[..|recs|] == recs;
  }

  function LastOf(builds: seq<seq<Record>>): seq<Record> {
    if builds == [] then [] else builds[|builds| - 1]
  }

  lemma FlattenLast(builds: seq<seq<Record>>)
    requires builds != [] && LastOf(builds) != []
    ensures Flatten(builds) == Flatten(DropRecord(builds)) + [LastOf(builds)[|LastOf(builds)| - 1]]
  {
    var init, b := builds[..|builds| - 1], LastOf(builds);
    assert builds == init + [b];
    var front, r := b[..|b| - 1], b[|b| - 1];
    assert b == front + [r];
    FlattenSnoc(init, b);
    AppendAssoc(Flatten(init), front, [r]);
    FlattenSnoc(init, front);
  }

  /** The builds left when the last record is taken away. */
  function DropRecord(builds: seq<seq<Record>>): seq<seq<Record>>
    requires builds != [] && builds[|builds| - 1] != []
  {
    var n := |builds|;
    var b := builds[n - 1];
    if |b| == 1 then builds[..n - 1] else builds[..n - 1] + [b[..|b| - 1]]
  }

  lemma DropRecordMaximal(builds: seq<seq<Record>>)
    requires MaximalBuilds(builds) && builds != []
    ensures MaximalBuilds(DropRecord(builds))
  {
    var b := builds[|builds| - 1];
    OneBuildPrefix(b);
  }

  lemma OneBuildPrefix(b: seq<Record>)
    requires b != [] && OneBuild(b)
    ensures OneBuild(b[..|b| - 1])
  {
  }

  /** However a log is cut into maximal builds, the last one is `LastBuild`. */
  lemma {:induction false} LastBuildUnique(builds: seq<seq<Record>>)
    requires MaximalBuilds(builds)
    ensures LastBuild(Flatten(builds)) == LastOf(builds)
    decreases |Flatten(builds)|
  {
    if builds != [] {
      var left, b := DropRecord(builds), LastOf(builds);
      FlattenLast(builds);
      LastBuildAppend(Flatten(left), b[|b| - 1]);
      DropRecordMaximal(builds);
      LastBuildUnique(left);
      LastBuildStep(builds);
    }
  }

  lemma LastBuildStep(builds: seq<seq<Record>>)
    requires MaximalBuilds(builds) && builds != []
    ensures LastOf(builds) == NextBuild(LastOf(DropRecord(builds)), LastOf(builds)[|LastOf(builds)| - 1])
  {
    var b := builds[|builds| - 1];
    if |b| > 1 {
      assert b[..|b| - 1] + [b[|b| - 1]] == b;
    } else if |builds| == 1 {
      assert [] + [b[0]] == b;
    } else {
      assert !OneBuild(builds[|builds| - 2] + [builds[|builds| - 1][0]]);
    }
  }

  lemma GrowLastBuild(builds: seq<seq<Record>>, b: seq<Record>, r: Record)
    requires MaximalBuilds(builds + [b]) && OneBuild(b + [r])
    ensures MaximalBuilds(builds + [b + [r]])
  {
    var before, after := builds + [b], builds + [b + [r]];
    assert forall i :: 0 <= i < |builds| ==> after[i] == before[i];
    assert b == before[|builds|];
  }

  lemma OpenNewBuild(builds: seq<seq<Record>>, r: Record)
    requires MaximalBuilds(builds)
    requires builds != [] ==> !OneBuild(builds[|builds| - 1] + [r])
    ensures MaximalBuilds(builds + [[r]])
  {
    var after := builds + [[r]];
    forall i | 0 <= i < |after| ensures after[i] != [] && OneBuild(after[i]) {
      assert i < |builds| ==> after[i] == builds[i];
    }
    forall i | 0 < i < |after| ensures !OneBuild(after[i - 1] + [after[i][0]]) {
      assert after[i - 1] == builds[i - 1];
      assert i < |builds| ==> after[i] == builds[i];
    }
  }

  /** Every log can be cut into maximal builds. */
  lemma {:induction false} BuildsExist(recs: seq<Record>) returns (builds: seq<seq<Record>>)
    ensures MaximalBuilds(builds) && Flatten(builds) == recs
  {
    if recs == [] {
      builds := [];
    } else {
      var r := recs[|recs| - 1];
      var shorter := BuildsExist(recs[..|recs| - 1]);
      assert recs == recs[..|recs| - 1] + [r];
      if shorter != [] && OneBuild(shorter[|shorter| - 1] + [r]) {
        var init, b := shorter[..|shorter| - 1], shorter[|shorter| - 1];
        assert shorter == init + [b];
        GrowLastBuild(init, b, r);
        FlattenSnoc(init, b);
        FlattenSnoc(init, b + [r]);
        AppendAssoc(Flatten(init), b, [r]);
        builds := init + [b + [r]];
      } else {
        OpenNewBuild(shorter, r);
        FlattenSnoc(shorter, [r]);
        builds := shorter + [[r]];
      }
    }
  }

  lemma {:induction false} LastBuildIsSuffix(recs: seq<Record>) returns (earlier: seq<Record>)
    ensures recs == earlier + LastBuild(recs)
    ensures recs != [] ==> LastBuild(recs) != []
  {
    earlier := [];
    if recs != [] {
      var front, r := recs[..|recs| - 1], recs[|recs| - 1];
      assert recs == front + [r];
      earlier := LastBuildIsSuffix(front);
      if OneBuild(LastBuild(front) + [r]) {
        assert earlier + (LastBuild(front) + [r]) == (earlier + LastBuild(front)) + [r];
      } else {
        earlier := front;
      }
    }
  }

  lemma {:induction false} LastBuildIsOneBuild(recs: seq<Record>)
    ensures OneBuild(LastBuild(recs))
  {
    if recs != [] {
      LastBuildIsOneBuild(recs[..|recs| - 1]);
    }
  }

  // ---- grouping by command hash

  /** The command hashes in order of first appearance. */
  function Hashes(recs: seq<Record>): seq<Hash> {
    if recs == [] then []
    else
      var hs, h := Hashes(recs[..|recs| - 1]), recs[|recs| - 1].cmdhash;
      if h in hs then hs else hs + [h]
  }

  /** Output names recorded under one hash, in log order. */
  function NamesOf(recs: seq<Record>, h: Hash): seq<Output> {
    if recs == [] then []
    else
      var r := recs[|recs| - 1];
      NamesOf(recs[..|recs| - 1], h) + (if r.cmdhash == h then [r.name] else [])
  }

  /** The names of a group are those of its records, in log order. */
  lemma {:induction false} NamesMean(recs: seq<Record>, h: Hash) returns (at: seq<nat>)
    ensures Picked(recs, (r: Record) => r.cmdhash == h, (r: Record, n: Output) => r.name == n, NamesOf(recs, h), at)
  {
    at := [];
    if recs != [] {
      var front, r := recs[..|recs| - 1], recs[|recs| - 1];
      at := NamesMean(front, h);
      assert recs == front + [r];
      PickedNext(front, r, (r: Record) => r.cmdhash == h, (r: Record, n: Output) => r.name == n,
                 NamesOf(front, h), at, r.name);
      NamesOfAppend(front, r, h);
      if r.cmdhash == h {
        at := at + [|front|];
      }
    }
  }

  /** No record before place i has its hash. */
  predicate FirstOfHash(recs: seq<Record>, i: nat) {
    i < |recs| && forall j :: 0 <= j < i ==> recs[j].cmdhash != recs[i].cmdhash
  }

  lemma FirstIsNew(recs: seq<Record>, i: nat)
    requires i < |recs|
    ensures FirstOfHash(recs, i) <==> recs[i].cmdhash !in Hashes(recs[..i])
  {
    HashesAreThose(recs[..i], recs[i].cmdhash);
    assert forall j :: 0 <= j < i ==> recs[..i][j] == recs[j];
  }

  predicate HasHash(recs: seq<Record>, i: nat, h: Hash) {
    i < |recs| && recs[i].cmdhash == h
  }

  /** The hashes are listed by their first records, in log order. */
  lemma {:induction false} HashesMean(recs: seq<Record>, n: nat) returns (at: seq<nat>)
    requires n <= |recs|
    ensures PickedAt(n, (i: nat) => FirstOfHash(recs, i), (i: nat, h: Hash) => HasHash(recs, i, h), Hashes(recs[..n]), at)
  {
    at := [];
    if n > 0 {
      at := HashesMean(recs, n - 1);
      var front, h := recs[..n - 1], recs[n - 1].cmdhash;
      assert recs[..n] == front + [recs[n - 1]];
      HashesAppend(front, recs[n - 1]);
      FirstIsNew(recs, n - 1);
      PickedAtNext(n - 1, (i: nat) => FirstOfHash(recs, i), (i: nat, h: Hash) => HasHash(recs, i, h),
                   Hashes(front), at, h);
      if h !in Hashes(front) {
        at := at + [n - 1];
      }
    }
  }

  /** The first record of a hash decides the times of its group. */
  ghost predicate FirstTimes(recs: seq<Record>, h: Hash, start: int, end: int) {
    exists i :: 0 <= i < |recs| && recs[i].cmdhash == h && recs[i].start == start && recs[i].end == end
                && h !in Hashes(recs[..i])
  }

  lemma {:induction false} HashesOnce(recs: seq<Record>)
    ensures Distinct(Hashes(recs))
  {
    if recs != [] {
      HashesOnce(recs[..|recs| - 1]);
    }
  }

  lemma {:induction false} HashesAreThose(recs: seq<Record>, h: Hash)
    ensures h in Hashes(recs) <==> exists i :: 0 <= i < |recs| && recs[i].cmdhash == h
  {
    if recs != [] {
      HashesAreThose(recs[..|recs| - 1], h);
      assert recs == recs[..|recs| - 1] + [recs[|recs| - 1]];
    }
  }

  function Names(recs: seq<Record>): seq<Output> {
    if recs == [] then [] else Names(recs[..|recs| - 1]) + [recs[|recs| - 1].name]
  }

  function GroupedNames(recs: seq<Record>, hs: seq<Hash>): seq<Output> {
    if hs == [] then [] else GroupedNames(recs, hs[..|hs| - 1]) + NamesOf(recs, hs[|hs| - 1])
  }

  lemma NamesOfAppend(recs: seq<Record>, r: Record, h: Hash)
    ensures NamesOf(recs + [r], h) == if r.cmdhash == h then NamesOf(recs, h) + [r.name] else NamesOf(recs, h)
  {
    assert (recs + [r])[..|recs|] == recs;
  }

  lemma GroupedNamesStep(recs: seq<Record>, r: Record, front: seq<Hash>, h: Hash)
    requires multiset(GroupedNames(recs + [r], front))
          == multiset(GroupedNames(recs, front)) + (if r.cmdhash in front then multiset{r.name} else multiset{})
    requires h !in front
    ensures multiset(GroupedNames(recs + [r], front + [h]))
         == multiset(GroupedNames(recs, front + [h]))
          + (if r.cmdhash in front + [h] then multiset{r.name} else multiset{})
  {
    assert (front + [h])[..|front|] == front;
    NamesOfAppend(recs, r, h);
  }

  lemma {:induction false} GroupedNamesAppend(recs: seq<Record>, r: Record, hs: seq<Hash>)
    requires Distinct(hs)
    ensures multiset(GroupedNames(recs + [r], hs))
         == multiset(GroupedNames(recs, hs)) + (if r.cmdhash in hs then multiset{r.name} else multiset{})
  {
    if hs != [] {
      var front, h := hs[..|hs| - 1], hs[|hs| - 1];
      assert hs == front + [h];
      GroupedNamesAppend(recs, r, front);
      GroupedNamesStep(recs, r, front, h);
    }
  }

  lemma {:induction false} NamesOfAbsent(recs: seq<Record>, h: Hash)
    requires h !in Hashes(recs)
    ensures NamesOf(recs, h) == []
  {
    if recs != [] {
      NamesOfAbsent(recs[..|recs| - 1], h);
    }
  }

  lemma NewHashAddsNothing(recs: seq<Record>, h: Hash)
    requires h !in Hashes(recs)
    ensures GroupedNames(recs, Hashes(recs) + [h]) == GroupedNames(recs, Hashes(recs))
  {
    NamesOfAbsent(recs, h);
    assert (Hashes(recs) + [h])[..|Hashes(recs)|] == Hashes(recs);
  }

  lemma GroupingStep(front: seq<Record>, r: Record)
    requires multiset(GroupedNames(front, Hashes(front))) == multiset(Names(front))
    ensures multiset(GroupedNames(front + [r], Hashes(front + [r]))) == multiset(Names(front + [r]))
  {
    var recs := front + [r];
    assert recs[..|recs| - 1] == front;
    HashesOnce(recs);
    GroupedNamesAppend(front, r, Hashes(recs));
    if r.cmdhash !in Hashes(front) {
      NewHashAddsNothing(front, r.cmdhash);
    }
  }

  /** Grouping keeps every output name once per record. */
  lemma {:induction false} GroupingKeepsNames(recs: seq<Record>)
    ensures multiset(GroupedNames(recs, Hashes(recs))) == multiset(Names(recs))
  {
    if recs != [] {
      var front, r := recs[..|recs| - 1], recs[|recs| - 1];
      assert recs == front + [r];
      GroupingKeepsNames(front);
      GroupingStep(front, r);
    }
  }

  // ---- the reader

  datatype Group = Group(start: int, end: int, names: seq<Output>)

  /** `groups`, with insertion order `keys`, is the grouping of `recs`. */
  ghost predicate Grouping(keys: seq<Hash>, groups: map<Hash, Group>, recs: seq<Record>) {
    && keys == Hashes(recs)
    && groups.Keys == (set h | h in keys)
    && (forall h :: h in groups ==> groups[h].names == NamesOf(recs, h))
    && (forall h :: h in groups ==> FirstTimes(recs, h, groups[h].start, groups[h].end))
  }

  /** The step objects of `dict`, all in `steps`, hold `groups`, one object
      each. */
  ghost predicate Holds(dict: map<Hash, Target>, steps: set<Target>, groups: map<Hash, Group>)
    reads steps
  {
    && dict.Keys == groups.Keys
    && (forall h :: h in dict ==> dict[h] in steps)
    && (forall h :: h in dict ==> Group(dict[h].start, dict[h].end, dict[h].targets) == groups[h])
    && (forall h, h' :: h in dict && h' in dict && h != h' ==> dict[h] != dict[h'])
  }

  ghost function AddToGroups(groups: map<Hash, Group>, r: Record): map<Hash, Group> {
    var g := if r.cmdhash in groups then groups[r.cmdhash] else Group(r.start, r.end, []);
    groups[r.cmdhash := g.(names := g.names + [r.name])]
  }

  lemma HashesAppend(recs: seq<Record>, r: Record)
    ensures Hashes(recs + [r]) == if r.cmdhash in Hashes(recs) then Hashes(recs) else Hashes(recs) + [r.cmdhash]
  {
    assert (recs + [r])[..|recs|] == recs;
  }

  lemma FirstTimesAppend(recs: seq<Record>, r: Record, h: Hash, s: int, e: int)
    ensures FirstTimes(recs, h, s, e) ==> FirstTimes(recs + [r], h, s, e)
  {
    assert (recs + [r])[..|recs|] == recs;
    if FirstTimes(recs, h, s, e) {
      var i :| 0 <= i < |recs| && recs[i].cmdhash == h && recs[i].start == s && recs[i].end == e
               && h !in Hashes(recs[..i]);
      assert (recs + [r])[..i] == recs[..i] && (recs + [r])[i] == recs[i];
    }
  }

  lemma NewGroup(recs: seq<Record>, r: Record)
    requires r.cmdhash !in Hashes(recs)
    ensures NamesOf(recs, r.cmdhash) == []
    ensures FirstTimes(recs + [r], r.cmdhash, r.start, r.end)
  {
    NamesOfAbsent(recs, r.cmdhash);
    assert (recs + [r])[..|recs|] == recs && (recs + [r])[|recs|] == r;
  }

  lemma AddToGroupsIsGrouping(keys: seq<Hash>, groups: map<Hash, Group>, recs: seq<Record>, r: Record)
    requires Grouping(keys, groups, recs)
    ensures Grouping(if r.cmdhash in groups then keys else keys + [r.cmdhash], AddToGroups(groups, r), recs + [r])
  {
    var groups' := AddToGroups(groups, r);
    HashesAppend(recs, r);
    if r.cmdhash !in groups {
      NewGroup(recs, r);
    }
    forall h | h in groups'
      ensures groups'[h].names == NamesOf(recs + [r], h)
      ensures FirstTimes(recs + [r], h, groups'[h].start, groups'[h].end)
    {
      FirstTimesAppend(recs, r, h, groups'[h].start, groups'[h].end);
      NamesOfAppend(recs, r, h);
    }
  }

  ghost predicate SameTimes(recs: seq<Record>, h: Hash, start: int, end: int) {
    forall i :: 0 <= i < |recs| && recs[i].cmdhash == h ==> recs[i].start == start && recs[i].end == end
  }

  lemma OneBuildAppend(build: seq<Record>, r: Record)
    requires OneBuild(build) && build != []
    ensures OneBuild(build + [r]) <==>
            build[|build| - 1].end <= r.end && SameTimes(build, r.cmdhash, r.start, r.end)
  {
    var longer := build + [r];
    if OneBuild(longer) {
      assert longer[|build| - 1].end <= longer[|build|].end;
      forall i | 0 <= i < |build| && build[i].cmdhash == r.cmdhash
        ensures build[i].start == r.start && build[i].end == r.end
      {
        assert longer[i].cmdhash == longer[|build|].cmdhash;
      }
    }
  }

  /** In one build the group's first times are everybody's times. */
  lemma FirstTimesShared(build: seq<Record>, h: Hash, start: int, end: int)
    requires OneBuild(build) && FirstTimes(build, h, start, end)
    ensures SameTimes(build, h, start, end)
    ensures forall s, e :: SameTimes(build, h, s, e) ==> s == start && e == end
  {
    var i :| 0 <= i < |build| && build[i].cmdhash == h && build[i].start == start && build[i].end == end
             && h !in Hashes(build[..i]);
    forall j | 0 <= j < |build| && build[j].cmdhash == h ensures build[j].start == start && build[j].end == end {
      assert j < i || i < j || j == i;
    }
  }

  lemma AbsentSameTimes(build: seq<Record>, h: Hash, start: int, end: int)
    requires h !in Hashes(build)
    ensures SameTimes(build, h, start, end)
  {
    HashesAreThose(build, h);
  }

  /** What the two reset tests decide, against the meaning of a build. */
  lemma ResetTests(build: seq<Record>, r: Record, start: int, end: int)
    requires OneBuild(build) && build != []
    requires r.cmdhash in Hashes(build) ==> FirstTimes(build, r.cmdhash, start, end)
    ensures OneBuild(build + [r]) <==>
            !(r.end < build[|build| - 1].end || (r.cmdhash in Hashes(build) && (start != r.start || end != r.end)))
  {
    OneBuildAppend(build, r);
    if r.cmdhash in Hashes(build) {
      FirstTimesShared(build, r.cmdhash, start, end);
    } else {
      AbsentSameTimes(build, r.cmdhash, r.start, r.end);
    }
  }

  /** Adds one record to the dictionary, creating the step when its hash is
      new. */
  method AddRecord(keys: seq<Hash>, dict: map<Hash, Target>, ghost steps: set<Target>,
                   ghost groups: map<Hash, Group>, r: Record)
    returns (keys': seq<Hash>, dict': map<Hash, Target>, ghost steps': set<Target>)
    requires Holds(dict, steps, groups)
    modifies steps`targets
    ensures Holds(dict', steps', AddToGroups(groups, r))
    ensures keys' == if r.cmdhash in groups then keys else keys + [r.cmdhash]
    ensures forall t :: t in steps && (r.cmdhash in dict ==> t != dict[r.cmdhash]) ==> t.targets == old(t.targets)
    ensures steps <= steps' && fresh(steps' - steps)
  {
    keys', dict', steps' := keys, dict, steps;
    if r.cmdhash !in dict' {
      var target := new Target(r.start, r.end);
      keys' := keys' + [r.cmdhash];
      dict' := dict'[r.cmdhash := target];
      steps' := steps' + {target};
    }
    dict'[r.cmdhash].targets := dict'[r.cmdhash].targets + [r.name];
  }

  /** The build being collected after the records `before`, given the reset
      tests passed on the next record. */
  lemma ResetOrGrow(before: seq<Record>, r: Record, groups: map<Hash, Group>, keys: seq<Hash>)
    requires Grouping(keys, groups, LastBuild(before))
    ensures
      var build := LastBuild(before);
      var reset := build != [] && (r.end < build[|build| - 1].end ||
                   (r.cmdhash in groups && (groups[r.cmdhash].start != r.start || groups[r.cmdhash].end != r.end)));
      LastBuild(before + [r]) == if reset then [r] else build + [r]
  {
    assert (before + [r])[..|before|] == before;
    LastBuildIsOneBuild(before);
    var build := LastBuild(before);
    if build == [] {
      assert [] + [r] == [r];
    } else if r.cmdhash in groups {
      ResetTests(build, r, groups[r.cmdhash].start, groups[r.cmdhash].end);
    } else {
      ResetTests(build, r, 0, 0);
    }
  }

  lemma RecordsAppend(lines: seq<Line>, n: nat)
    requires n < |lines|
    ensures Records(lines[..n + 1]) == WithLine(Records(lines[..n]), lines[n])
  {
    assert lines[..n + 1][..n] == lines[..n];
  }

  /** What the reader has collected after the records `before`. */
  ghost predicate Collected(before: seq<Record>, showAll: bool, lastEndSeen: int,
                            keys: seq<Hash>, groups: map<Hash, Group>)
  {
    var build := if showAll then before else LastBuild(before);
    && Grouping(keys, groups, build)
    && (build != [] ==> lastEndSeen == build[|build| - 1].end)
  }

  /** The two reset tests. */
  predicate Resets(groups: map<Hash, Group>, lastEndSeen: int, r: Record) {
    || r.end < lastEndSeen
    || (r.cmdhash in groups && (groups[r.cmdhash].start != r.start || groups[r.cmdhash].end != r.end))
  }

  lemma CollectedNext(before: seq<Record>, showAll: bool, lastEndSeen: int,
                      keys: seq<Hash>, groups: map<Hash, Group>, r: Record)
    requires Collected(before, showAll, lastEndSeen, keys, groups)
    ensures
      if !showAll && Resets(groups, lastEndSeen, r)
      then Collected(before + [r], showAll, r.end, [r.cmdhash], AddToGroups(map[], r))
      else Collected(before + [r], showAll, r.end,
                     if r.cmdhash in groups then keys else keys + [r.cmdhash], AddToGroups(groups, r))
  {
    if showAll {
      AddToGroupsIsGrouping(keys, groups, before, r);
    } else {
      BuildNext(before, lastEndSeen, keys, groups, r);
      if Resets(groups, lastEndSeen, r) {
        AddToGroupsIsGrouping([], map[], [], r);
        assert [] + [r] == [r] && [] + [r.cmdhash] == [r.cmdhash];
      } else {
        AddToGroupsIsGrouping(keys, groups, LastBuild(before), r);
      }
    }
  }

  lemma BuildNext(before: seq<Record>, lastEndSeen: int, keys: seq<Hash>, groups: map<Hash, Group>, r: Record)
    requires Collected(before, false, lastEndSeen, keys, groups)
    ensures LastBuild(before + [r]) == if Resets(groups, lastEndSeen, r) then [r] else LastBuild(before) + [r]
  {
    ResetOrGrow(before, r, groups, keys);
    if LastBuild(before) == [] {
      assert [] + [r] == [r];
    }
  }

  /** Takes one record: the two reset tests, then the insertion. */
  method ReadRecord(keys: seq<Hash>, dict: map<Hash, Target>, ghost steps: set<Target>,
                    ghost groups: map<Hash, Group>, showAll: bool, lastEndSeen: int,
                    ghost before: seq<Record>, r: Record)
    returns (keys': seq<Hash>, dict': map<Hash, Target>, ghost steps': set<Target>,
             ghost groups': map<Hash, Group>)
    requires Holds(dict, steps, groups) && Collected(before, showAll, lastEndSeen, keys, groups)
    modifies steps`targets
    ensures Holds(dict', steps', groups') && Collected(before + [r], showAll, r.end, keys', groups')
    ensures steps <= steps' && fresh(steps' - steps)
  {
    CollectedNext(before, showAll, lastEndSeen, keys, groups, r);
    keys', dict' := keys, dict;
    if !showAll && r.end < lastEndSeen {
      keys', dict' := [], map[];
    }
    if r.cmdhash in dict' && !showAll
       && (dict'[r.cmdhash].start != r.start || dict'[r.cmdhash].end != r.end) {
      keys', dict' := [], map[];
    }
    groups' := if !showAll && Resets(groups, lastEndSeen, r) then map[] else groups;
    keys', dict', steps' := AddRecord(keys', dict', steps, groups', r);
    groups' := AddToGroups(groups', r);
  }

  datatype Log = Log(steps: seq<Target>, keys: seq<Hash>) | BadHeader | BadTime

  /** The steps of a log are, in order of first appearance, the groups of the
      records `recs`, one object each. */
  ghost predicate IsGroupedLog(steps: seq<Target>, keys: seq<Hash>, groups: map<Hash, Group>, recs: seq<Record>)
    reads steps
  {
    && Distinct(steps) && |steps| == |keys| && Grouping(keys, groups, recs)
    && forall i :: 0 <= i < |keys| ==>
         keys[i] in groups && Group(steps[i].start, steps[i].end, steps[i].targets) == groups[keys[i]]
  }

  predicate HasBadTime(lines: seq<Line>) {
    lines != [] && (HasBadTime(lines[..|lines| - 1]) || lines[|lines| - 1].NotANumber?)
  }

  lemma {:induction false} HasBadTimeMeans(lines: seq<Line>)
    ensures HasBadTime(lines) <==> exists i :: 0 <= i < |lines| && lines[i].NotANumber?
  {
    if lines != [] {
      HasBadTimeMeans(lines[..|lines| - 1]);
      assert forall i :: 0 <= i < |lines| - 1 ==> lines[..|lines| - 1][i] == lines[i];
    }
  }

  lemma BadTimeNext(lines: seq<Line>, n: nat)
    requires n < |lines|
    ensures HasBadTime(lines[..n + 1]) <==> HasBadTime(lines[..n]) || lines[n].NotANumber?
    ensures lines[n].NotANumber? ==> HasBadTime(lines)
  {
    assert lines[..n + 1][..n] == lines[..n];
    HasBadTimeMeans(lines);
  }

  /** The records that are reported: the last build, or all of them. */
  ghost function Shown(lines: seq<Line>, showAll: bool): seq<Record> {
    if showAll then Records(lines) else LastBuild(Records(lines))
  }

  /** Takes one line: a malformed one changes nothing. */
  method ReadLine(keys: seq<Hash>, dict: map<Hash, Target>, ghost steps: set<Target>,
                  ghost groups: map<Hash, Group>, showAll: bool, lastEndSeen: int,
                  ghost before: seq<Record>, line: Line)
    returns (keys': seq<Hash>, dict': map<Hash, Target>, ghost steps': set<Target>,
             ghost groups': map<Hash, Group>, lastEndSeen': int)
    requires Holds(dict, steps, groups) && Collected(before, showAll, lastEndSeen, keys, groups)
    modifies steps`targets
    ensures Holds(dict', steps', groups')
    ensures Collected(WithLine(before, line), showAll, lastEndSeen', keys', groups')
    ensures steps <= steps' && fresh(steps' - steps)
  {
    keys', dict', steps', groups', lastEndSeen' := keys, dict, steps, groups, lastEndSeen;
    if line.WellFormed? {
      var r := line.rec;
      keys', dict', steps', groups' := ReadRecord(keys, dict, steps, groups, showAll, lastEndSeen, before, r);
      lastEndSeen' := r.end;
    }
  }

  /** The reading loop. */
  method ReadLines(lines: seq<Line>, showAll: bool)
    returns (ok: bool, keys: seq<Hash>, dict: map<Hash, Target>,
             ghost steps: set<Target>, ghost groups: map<Hash, Group>)
    ensures ok <==> !HasBadTime(lines)
    ensures ok ==> fresh(steps) && Holds(dict, steps, groups) && Grouping(keys, groups, Shown(lines, showAll))
  {
    ok, keys, dict, steps, groups := true, [], map[], {}, map[];
    var lastEndSeen := 0;
    for n := 0 to |lines|
      invariant fresh(steps)
      invariant !HasBadTime(lines[..n])
      invariant Holds(dict, steps, groups)
      invariant Collected(Records(lines[..n]), showAll, lastEndSeen, keys, groups)
    {
      BadTimeNext(lines, n);
      if lines[n].NotANumber? {
        ok := false;
        return;
      }
      RecordsAppend(lines, n);
      keys, dict, steps, groups, lastEndSeen :=
        ReadLine(keys, dict, steps, groups, showAll, lastEndSeen, Records(lines[..n]), lines[n]);
    }
    assert lines[..|lines|] == lines;
  }

  /** Reads the log. The result groups the last build (every record when
      `showAll` is set) by command hash, in order of first appearance. It
      fails exactly on another header or on a time that is no integer. */
  method ReadTargets(header: string, lines: seq<Line>, showAll: bool)
    returns (r: Log, ghost groups: map<Hash, Group>)
    ensures r.BadHeader? <==> header != "# ninja log v5\n"
    ensures r.BadTime? <==> header == "# ninja log v5\n" && exists i :: 0 <= i < |lines| && lines[i].NotANumber?
    ensures r.Log? ==> fresh(r.steps) && IsGroupedLog(r.steps, r.keys, groups, Shown(lines, showAll))
  {
    groups := map[];
    if header != HEADER {
      return BadHeader, groups;
    }
    HasBadTimeMeans(lines);
    var ok, keys, dict, steps, gs := ReadLines(lines, showAll);
    if !ok {
      return BadTime, groups;
    }
    groups := gs;
    ValuesDistinct(keys, dict, steps, groups, Shown(lines, showAll));
    r := Log(Values(keys, dict), keys);
  }

  lemma ValuesDistinct(keys: seq<Hash>, dict: map<Hash, Target>, steps: set<Target>, groups: map<Hash, Group>,
                       recs: seq<Record>)
    requires Holds(dict, steps, groups) && Grouping(keys, groups, recs)
    ensures forall h :: h in keys ==> h in dict
    ensures Distinct(Values(keys, dict))
    ensures forall t :: t in Values(keys, dict) ==> t in steps
    ensures
      var values := Values(keys, dict);
      forall i :: 0 <= i < |keys| ==>
        keys[i] in groups && Group(values[i].start, values[i].end, values[i].targets) == groups[keys[i]]
  {
    HashesOnce(recs);
  }

  /** The dictionary's values in insertion order. */
  function Values(keys: seq<Hash>, dict: map<Hash, Target>): (values: seq<Target>)
    requires forall h :: h in keys ==> h in dict
    ensures |values| == |keys| && forall i :: 0 <= i < |keys| ==> values[i] == dict[keys[i]]
  {
    seq(|keys|, i requires 0 <= i < |keys| => dict[keys[i]])
  }
}
