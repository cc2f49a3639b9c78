/** Options and facts about sequences that several components share. */
module Options {
  datatype Option<+T> = None | Some(value: T) {
    function GetOr(default: T): T {
      if Some? then value else default
    }
  }
}

module Sequences {

  ghost predicate Distinct<T>(s: seq<T>) {
    forall i, j :: 0 <= i < j < |s| ==> s[i] != s[j]
  }

  lemma {:induction false} CountDistinct<T>(s: seq<T>, x: T)
    requires Distinct(s)
    ensures multiset(s)[x] <= 1
  {
    if s != [] {
      var front := s[..|s| - 1];
      assert s == front + [s[|s| - 1]];
      CountDistinct(front, x);
      if x == s[|s| - 1] {
        assert x !in front;
      }
    }
  }

  /** A permutation of a sequence without repetition has none either. */
  lemma PermutationDistinct<T>(s: seq<T>, perm: seq<T>)
    requires Distinct(s) && multiset(perm) == multiset(s)
    ensures Distinct(perm)
  {
    forall i, j | 0 <= i < j < |perm| ensures perm[i] != perm[j] {
      CountDistinct(s, perm[j]);
      assert perm == perm[..j] + perm[j..];
      assert perm[..j][i] in multiset(perm[..j]) && perm[j..][0] in multiset(perm[j..]);
      assert multiset(perm)[perm[j]] == multiset(perm[..j])[perm[j]] + multiset(perm[j..])[perm[j]];
    }
  }

  lemma SameMembers<T>(s: seq<T>, perm: seq<T>, x: T)
    requires multiset(perm) == multiset(s)
    ensures x in s <==> x in perm
  {
    assert x in s <==> x in multiset(s);
    assert x in perm <==> x in multiset(perm);
  }

  ghost function IndexOf<T>(s: seq<T>, x: T): (i: nat)
    requires x in s
    ensures i < |s| && s[i] == x
  {
    var i :| 0 <= i < |s| && s[i] == x; i
  }

  lemma UniqueIndex<T>(s: seq<T>, i: nat)
    requires Distinct(s) && i < |s|
    ensures IndexOf(s, s[i]) == i
  {
    var j := IndexOf(s, s[i]);
  }

  predicate IsSuffix<T(==)>(s: seq<T>, t: seq<T>) {
    |s| <= |t| && s == t[|t| - |s|..]
  }

  lemma AppendAssoc<T>(a: seq<T>, b: seq<T>, c: seq<T>)
    ensures (a + b) + c == a + (b + c)
  {
  }

  function Flatten<T>(parts: seq<seq<T>>): seq<T> {
    if parts == [] then [] else parts[0] + Flatten(parts[1..])
  }

  lemma {:induction false} FlattenAppend<T>(a: seq<seq<T>>, b: seq<seq<T>>)
    ensures Flatten(a + b) == Flatten(a) + Flatten(b)
  {
    if a == [] {
      assert a + b == b;
    } else {
      assert (a + b)[1..] == a[1..] + b;
      FlattenAppend(a[1..], b);
    }
  }

  lemma {:induction false} FlattenEmpty<T>(parts: seq<seq<T>>)
    ensures Flatten(parts) == [] <==> forall i :: 0 <= i < |parts| ==> parts[i] == []
  {
    if parts != [] {
      FlattenEmpty(parts[1..]);
      assert forall i :: 0 < i < |parts| ==> parts[i] == parts[1..][i - 1];
    }
  }

  lemma FlattenOne<T>(part: seq<T>)
    ensures Flatten([part]) == part
  {
    assert [part][1..] == [];
  }

  lemma FlattenCons<T>(part: seq<T>, parts: seq<seq<T>>)
    ensures Flatten([part] + parts) == part + Flatten(parts)
  {
    assert ([part] + parts)[1..] == parts;
  }

  lemma FlattenSnoc<T>(parts: seq<seq<T>>, part: seq<T>)
    ensures Flatten(parts + [part]) == Flatten(parts) + part
  {
    FlattenAppend(parts, [part]);
    FlattenOne(part);
  }

  function Map<T, V>(f: T -> V, s: seq<T>): (r: seq<V>)
    ensures |r| == |s|
  {
    if s == [] then [] else Map(f, s[..|s| - 1]) + [f(s[|s| - 1])]
  }

  lemma {:induction false} MapAppend<T, V>(f: T -> V, a: seq<T>, b: seq<T>)
    ensures Map(f, a + b) == Map(f, a) + Map(f, b)
  {
    if b == [] {
      assert a + b == a;
    } else {
      MapAppend(f, a, b[..|b| - 1]);
      assert (a + b)[..|a + b| - 1] == a + b[..|b| - 1];
    }
  }

  lemma {:induction false} MapAt<T, V>(f: T -> V, s: seq<T>, i: nat)
    requires i < |s|
    ensures Map(f, s)[i] == f(s[i])
  {
    if i < |s| - 1 {
      MapAt(f, s[..|s| - 1], i);
    }
  }

  ghost predicate Increasing(at: seq<nat>) {
    forall i, j :: 0 <= i < j < |at| ==> at[i] < at[j]
  }

  /** `r` is what is picked from `s`, in order: the places `at` are those where
      `p` holds, and `rel` relates the element there to what was picked. */
  ghost predicate Picked<T(!new), V(!new)>(s: seq<T>, p: T -> bool, rel: (T, V) -> bool, r: seq<V>, at: seq<nat>) {
    && |at| == |r| && Increasing(at)
    && (forall k :: 0 <= k < |at| ==> at[k] < |s| && p(s[at[k]]) && rel(s[at[k]], r[k]))
    && (forall i :: 0 <= i < |s| && p(s[i]) ==> i in at)
  }

  /** One more element, picked or not. */
  lemma PickedNext<T(!new), V(!new)>(s: seq<T>, x: T, p: T -> bool, rel: (T, V) -> bool, r: seq<V>, at: seq<nat>, y: V)
    requires Picked(s, p, rel, r, at)
    ensures !p(x) ==> Picked(s + [x], p, rel, r, at)
    ensures p(x) && rel(x, y) ==> Picked(s + [x], p, rel, r + [y], at + [|s|])
  {
    var longer, at' := s + [x], at + [|s|];
    assert forall i :: 0 <= i < |s| ==> longer[i] == s[i];
    assert at'[|at|] == |s|;
    assert forall i :: i in at ==> i in at';
  }

  /** The same by index: `p` and `rel` speak of the place itself. */
  ghost predicate PickedAt<V(!new)>(n: nat, p: nat -> bool, rel: (nat, V) -> bool, r: seq<V>, at: seq<nat>) {
    && |at| == |r| && Increasing(at)
    && (forall k :: 0 <= k < |at| ==> at[k] < n && p(at[k]) && rel(at[k], r[k]))
    && (forall i: nat :: i < n && p(i) ==> i in at)
  }

  lemma PickedAtNext<V(!new)>(n: nat, p: nat -> bool, rel: (nat, V) -> bool, r: seq<V>, at: seq<nat>, y: V)
    requires PickedAt(n, p, rel, r, at)
    ensures !p(n) ==> PickedAt(n + 1, p, rel, r, at)
    ensures p(n) && rel(n, y) ==> PickedAt(n + 1, p, rel, r + [y], at + [n])
  {
    var at' := at + [n];
    assert at'[|at|] == n;
    assert forall i :: i in at ==> i in at';
  }
}
