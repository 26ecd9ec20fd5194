/** Option and Result, and the few sequence functions the other modules share. */
module Seqs {

  datatype Option<+T> = None | Some(value: T)

  datatype Result<+T, +E> = Ok(value: T) | Err(error: E)

  /** The elements of s that satisfy keep, in order. */
  function Filter<T>(s: seq<T>, keep: T -> bool): seq<T> {
    if s == [] then []
    else
      var front := Filter(s[..|s| - 1], keep);
      if keep(s[|s| - 1]) then front + [s[|s| - 1]] else front
  }

  /** One step of a loop that filters s from the left. */
  lemma FilterStep<T>(s: seq<T>, keep: T -> bool, i: nat)
    requires i < |s|
    ensures Filter(s[..i + 1], keep) == Filter(s[..i], keep) + if keep(s[i]) then [s[i]] else []
  {
    assert s[..i + 1][..i] == s[..i];
  }

  lemma {:induction false} FilterConcat<T>(s: seq<T>, t: seq<T>, keep: T -> bool)
    ensures Filter(s + t, keep) == Filter(s, keep) + Filter(t, keep)
  {
    if t == [] {
      assert s + t == s;
    } else {
      var u := t[..|t| - 1];
      assert (s + t)[..|s + t| - 1] == s + u;
      FilterConcat(s, u, keep);
    }
  }

  /** Filtering keeps every copy of every element it keeps. */
  lemma {:induction false} FilterCount<T>(s: seq<T>, keep: T -> bool, x: T)
    ensures multiset(Filter(s, keep))[x] == if keep(x) then multiset(s)[x] else 0
  {
    if s == [] {
    } else {
      var front := s[..|s| - 1];
      assert s == front + [s[|s| - 1]];
      FilterCount(front, keep, x);
    }
  }

  lemma FilterPermutation<T(!new)>(s: seq<T>, t: seq<T>, keep: T -> bool)
    requires multiset(s) == multiset(t)
    ensures multiset(Filter(s, keep)) == multiset(Filter(t, keep))
  {
    forall x: T
      ensures multiset(Filter(s, keep))[x] == multiset(Filter(t, keep))[x]
    {
      FilterCount(s, keep, x);
      FilterCount(t, keep, x);
    }
  }

  lemma {:induction false} FilterMember<T>(s: seq<T>, keep: T -> bool, x: T)
    ensures x in Filter(s, keep) <==> x in s && keep(x)
  {
    FilterCount(s, keep, x);
    assert x in Filter(s, keep) <==> x in multiset(Filter(s, keep));
    assert x in s <==> x in multiset(s);
  }

  lemma {:induction false} FilterNone<T>(s: seq<T>, keep: T -> bool)
    ensures Filter(s, keep) == [] <==> forall x | x in s :: !keep(x)
  {
    if s == [] {
    } else {
      assert s == s[..|s| - 1] + [s[|s| - 1]];
      FilterNone(s[..|s| - 1], keep);
    }
  }

  lemma {:induction false} FilterAll<T>(s: seq<T>, keep: T -> bool)
    requires forall x | x in s :: keep(x)
    ensures Filter(s, keep) == s
  {
    if s == [] {
    } else {
      FilterAll(s[..|s| - 1], keep);
    }
  }

  /** Where the elements are that satisfy keep. */
  function Positions<T>(s: seq<T>, keep: T -> bool): set<int> { set k | 0 <= k < |s| && keep(s[k]) }

  lemma {:induction false} FilterSize<T>(s: seq<T>, keep: T -> bool)
    ensures |Filter(s, keep)| == |Positions(s, keep)|
  {
    if s == [] {
    } else {
      var front, last := s[..|s| - 1], |s| - 1;
      FilterSize(front, keep);
      assert Positions(s, keep) == Positions(front, keep) + if keep(s[last]) then {last} else {};
    }
  }

  lemma {:induction false} FilterLength<T>(s: seq<T>, keep: T -> bool)
    ensures |Filter(s, keep)| <= |s|
  {
    if s == [] {
    } else {
      FilterLength(s[..|s| - 1], keep);
    }
  }

  /** The images of the elements of s, one after the other. */
  function FlatMap<S, T>(f: S -> seq<T>, s: seq<S>): seq<T> {
    if s == [] then [] else FlatMap(f, s[..|s| - 1]) + f(s[|s| - 1])
  }

  lemma FlatMapStep<S, T>(f: S -> seq<T>, s: seq<S>, i: nat)
    requires i < |s|
    ensures FlatMap(f, s[..i + 1]) == FlatMap(f, s[..i]) + f(s[i])
  {
    assert s[..i + 1][..i] == s[..i];
  }

  lemma {:induction false} FlatMapConcat<S, T>(f: S -> seq<T>, s: seq<S>, t: seq<S>)
    ensures FlatMap(f, s + t) == FlatMap(f, s) + FlatMap(f, t)
  {
    if t == [] {
      assert s + t == s;
    } else {
      var u := t[..|t| - 1];
      assert (s + t)[..|s + t| - 1] == s + u;
      FlatMapConcat(f, s, u);
    }
  }

  lemma FlatMapOne<S, T>(f: S -> seq<T>, x: S)
    ensures FlatMap(f, [x]) == f(x)
  {
    assert [x][..0] == [];
  }

  lemma {:induction false} FlatMapMember<S, T>(f: S -> seq<T>, s: seq<S>, x: S, y: T)
    requires x in s && y in f(x)
    ensures y in FlatMap(f, s)
  {
    if x != s[|s| - 1] || y !in f(s[|s| - 1]) {
      assert s == s[..|s| - 1] + [s[|s| - 1]];
      FlatMapMember(f, s[..|s| - 1], x, y);
    }
  }

  lemma {:induction false} FlatMapSource<S, T>(f: S -> seq<T>, s: seq<S>, y: T) returns (x: S)
    requires y in FlatMap(f, s)
    ensures x in s && y in f(x)
  {
    if y in f(s[|s| - 1]) {
      x := s[|s| - 1];
    } else {
      x := FlatMapSource(f, s[..|s| - 1], y);
    }
  }

  lemma ConcatAssociative<T>(a: seq<T>, b: seq<T>, c: seq<T>)
    ensures a + b + c == a + (b + c)
  {
  }

  lemma SameMembers<T>(s: seq<T>, t: seq<T>)
    requires multiset(s) == multiset(t)
    ensures forall x :: x in s <==> x in t
  {
    forall x
      ensures x in s <==> x in t
    {
      assert x in s <==> x in multiset(s);
      assert x in t <==> x in multiset(t);
    }
  }

  /** A permutation t of s + [x] is a + [x] + b for a permutation a + b of s. */
  lemma SplitPermutation<T>(s: seq<T>, x: T, t: seq<T>) returns (a: seq<T>, b: seq<T>)
    requires multiset(s) + multiset{x} == multiset(t)
    ensures t == a + [x] + b
    ensures multiset(a + b) == multiset(s)
  {
    assert x in multiset(t);
    var k :| 0 <= k < |t| && t[k] == x;
    a, b := t[..k], t[k + 1..];
    assert t == a + [x] + b;
    assert multiset(a + b) == multiset(t) - multiset{x};
    assert multiset(s) == multiset(t) - multiset{x};
  }

  lemma {:induction false} FlatMapPermutation<S, T>(f: S -> seq<T>, s: seq<S>, t: seq<S>)
    requires multiset(s) == multiset(t)
    ensures multiset(FlatMap(f, s)) == multiset(FlatMap(f, t))
  {
    if s == [] {
      assert |t| == |multiset(t)| == 0;
    } else {
      var front, x := s[..|s| - 1], s[|s| - 1];
      assert s == front + [x];
      var a, b := SplitPermutation(front, x, t);
      FlatMapPermutation(f, front, a + b);
      FlatMapConcat(f, a, b);
      FlatMapConcat(f, a + [x], b);
      assert (a + [x])[..|a|] == a;
      assert a + [x] + b == t;
    }
  }
}
