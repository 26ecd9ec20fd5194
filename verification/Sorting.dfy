/** Sorting by a strict weak order, as Go's sort package promises it:
    SliceStable has one possible result, Slice any sorted permutation. */
module Sorting {
  import opened Seqs

  ghost predicate StrictWeak<T(!new)>(less: (T, T) -> bool) {
    && (forall a :: !less(a, a))
    && (forall a, b, c :: less(a, b) && less(b, c) ==> less(a, c))
    && (forall a, b, c :: less(a, c) ==> less(a, b) || less(b, c))
  }

  ghost predicate SortedBy<T>(less: (T, T) -> bool, s: seq<T>) {
    forall i, j :: 0 <= i < j < |s| ==> !less(s[j], s[i])
  }

  /** x goes behind every element that is not above it. */
  function Insert<T>(less: (T, T) -> bool, x: T, s: seq<T>): seq<T> {
    if s == [] || !less(x, s[|s| - 1]) then s + [x]
    else Insert(less, x, s[..|s| - 1]) + [s[|s| - 1]]
  }

  /** The stable sort of s. */
  function StableSort<T>(less: (T, T) -> bool, s: seq<T>): seq<T> {
    if s == [] then [] else Insert(less, s[|s| - 1], StableSort(less, s[..|s| - 1]))
  }

  lemma {:induction false} InsertMembers<T>(less: (T, T) -> bool, x: T, s: seq<T>)
    ensures multiset(Insert(less, x, s)) == multiset(s) + multiset{x}
  {
    if s == [] {
    } else {
      assert s == s[..|s| - 1] + [s[|s| - 1]];
      InsertMembers(less, x, s[..|s| - 1]);
    }
  }

  /** What is not below the end of a sorted sequence can be put behind it. */
  lemma SortedAppend<T(!new)>(less: (T, T) -> bool, s: seq<T>, x: T)
    requires SortedBy(less, s) && forall y | y in s :: !less(x, y)
    ensures SortedBy(less, s + [x])
  {
  }

  lemma {:induction false} InsertKeeps<T(!new)>(less: (T, T) -> bool, x: T, s: seq<T>)
    requires StrictWeak(less) && SortedBy(less, s)
    ensures SortedBy(less, Insert(less, x, s))
    ensures multiset(Insert(less, x, s)) == multiset(s) + multiset{x}
  {
    InsertMembers(less, x, s);
    if s != [] && less(x, s[|s| - 1]) {
      var front, last := s[..|s| - 1], s[|s| - 1];
      InsertKeeps(less, x, front);
      var t := Insert(less, x, front);
      forall y | y in t
        ensures !less(last, y)
      {
        assert y in multiset(t);
        assert y in multiset(front) ==> y in front;
      }
      SortedAppend(less, t, last);
    } else {
      forall y | y in s
        ensures !less(x, y)
      {
        var i :| 0 <= i < |s| && s[i] == y;
        assert i < |s| - 1 ==> !less(s[|s| - 1], s[i]);
      }
      SortedAppend(less, s, x);
    }
  }

  lemma {:induction false} StableSortSorts<T(!new)>(less: (T, T) -> bool, s: seq<T>)
    requires StrictWeak(less)
    ensures SortedBy(less, StableSort(less, s))
    ensures multiset(StableSort(less, s)) == multiset(s)
    ensures |StableSort(less, s)| == |s|
  {
    if s == [] {
    } else {
      var front := s[..|s| - 1];
      assert s == front + [s[|s| - 1]];
      StableSortSorts(less, front);
      InsertKeeps(less, s[|s| - 1], StableSort(less, front));
    }
    assert |StableSort(less, s)| == |multiset(StableSort(less, s))|;
    assert |s| == |multiset(s)|;
  }

  /** Sorting what is sorted changes nothing. */
  lemma {:induction false} SortedIsStable<T>(less: (T, T) -> bool, s: seq<T>)
    requires SortedBy(less, s)
    ensures StableSort(less, s) == s
  {
    if s == [] {
    } else {
      SortedIsStable(less, s[..|s| - 1]);
    }
  }

  /** The last of the greatest elements of s. */
  function Latest<T>(less: (T, T) -> bool, s: seq<T>): T
    requires s != []
  {
    var x := s[|s| - 1];
    if |s| == 1 then x
    else
      var l := Latest(less, s[..|s| - 1]);
      if less(x, l) then l else x
  }

  /** A stable sort ends in the last of the greatest elements. */
  lemma {:induction false} StableSortEndsInLatest<T>(less: (T, T) -> bool, s: seq<T>)
    requires s != []
    ensures StableSort(less, s) != []
    ensures StableSort(less, s)[|StableSort(less, s)| - 1] == Latest(less, s)
  {
    if |s| > 1 {
      StableSortEndsInLatest(less, s[..|s| - 1]);
    }
  }

  /** What Latest means: an element that no element is above and all later elements are below. */
  lemma {:induction false} LatestIsLastGreatest<T(!new)>(less: (T, T) -> bool, s: seq<T>) returns (k: nat)
    requires StrictWeak(less) && s != []
    ensures k < |s| && s[k] == Latest(less, s)
    ensures forall j :: 0 <= j < |s| ==> !less(s[k], s[j])
    ensures forall j :: k < j < |s| ==> less(s[j], s[k])
  {
    k := |s| - 1;
    if |s| > 1 {
      var front := s[..|s| - 1];
      var k' := LatestIsLastGreatest(less, front);
      if less(s[k], front[k']) {
        k := k';
        assert forall j :: 0 <= j < |front| ==> front[j] == s[j];
      } else {
        forall j | 0 <= j < |s| ensures !less(s[k], s[j]) {
          if j < |front| {
            assert !less(front[k'], front[j]);
          }
        }
      }
    }
  }

  // ---------- sorted permutations ----------

  function BelowOf<T>(less: (T, T) -> bool, y: T): T -> bool { (x: T) => less(x, y) }

  lemma ManyBelow<T(!new)>(less: (T, T) -> bool, s: seq<T>, y: T, k: nat)
    requires StrictWeak(less) && SortedBy(less, s) && k < |s| && less(s[k], y)
    ensures |Filter(s, BelowOf(less, y))| > k
  {
    forall x | x in s[..k + 1]
      ensures BelowOf(less, y)(x)
    {
      var i :| 0 <= i <= k && s[i] == x;
      assert i < k ==> !less(s[k], s[i]);
    }
    FilterAll(s[..k + 1], BelowOf(less, y));
    assert s == s[..k + 1] + s[k + 1..];
    FilterConcat(s[..k + 1], s[k + 1..], BelowOf(less, y));
  }

  lemma FewBelow<T(!new)>(less: (T, T) -> bool, s: seq<T>, y: T, k: nat)
    requires StrictWeak(less) && SortedBy(less, s) && k < |s| && !less(s[k], y)
    ensures |Filter(s, BelowOf(less, y))| <= k
  {
    forall x | x in s[k..]
      ensures !BelowOf(less, y)(x)
    {
      var i :| k <= i < |s| && s[i] == x;
      assert i > k ==> !less(s[i], s[k]);
    }
    FilterNone(s[k..], BelowOf(less, y));
    assert s == s[..k] + s[k..];
    FilterConcat(s[..k], s[k..], BelowOf(less, y));
    FilterLength(s[..k], BelowOf(less, y));
  }

  lemma NotBelow<T(!new)>(less: (T, T) -> bool, a: seq<T>, b: seq<T>, k: nat)
    requires StrictWeak(less) && SortedBy(less, a) && SortedBy(less, b) && multiset(a) == multiset(b) && k < |a| == |b|
    ensures !less(a[k], b[k])
  {
    var below := BelowOf(less, b[k]);
    FilterPermutation(a, b, below);
    assert |Filter(a, below)| == |multiset(Filter(a, below))| == |multiset(Filter(b, below))| == |Filter(b, below)|;
    FewBelow(less, b, b[k], k);
    if less(a[k], b[k]) {
      ManyBelow(less, a, b[k], k);
    }
  }

  /** Two sorted permutations have tied elements at every position. */
  lemma SortedPermutationsTie<T(!new)>(less: (T, T) -> bool, a: seq<T>, b: seq<T>, k: nat)
    requires StrictWeak(less) && SortedBy(less, a) && SortedBy(less, b) && multiset(a) == multiset(b) && k < |a|
    ensures |a| == |b| && !less(a[k], b[k]) && !less(b[k], a[k])
  {
    assert |a| == |multiset(a)| == |multiset(b)| == |b|;
    NotBelow(less, a, b, k);
    NotBelow(less, b, a, k);
  }

  /** sort.Slice: some sorted permutation. */
  method SortSlice<T(!new)>(less: (T, T) -> bool, s: seq<T>) returns (t: seq<T>)
    requires StrictWeak(less)
    ensures SortedBy(less, t) && multiset(t) == multiset(s) && |t| == |s|
  {
    StableSortSorts(less, s);
    t := StableSort(less, s);
  }

  lemma InsertStep<T>(less: (T, T) -> bool, x: T, s: seq<T>, i: nat)
    requires 0 < i <= |s| && less(x, s[i - 1])
    ensures Insert(less, x, s[..i]) == Insert(less, x, s[..i - 1]) + [s[i - 1]]
  {
    assert s[..i][..i - 1] == s[..i - 1];
  }

  lemma Shift<T>(whole: seq<T>, longer: seq<T>, shorter: seq<T>, s: seq<T>, i: nat)
    requires 0 < i <= |s| && whole == longer + s[i..] && longer == shorter + [s[i - 1]]
    ensures whole == shorter + s[i - 1..]
  {
  }

  /** now is was with was[n] moved down to position i. */
  ghost predicate Moved<T>(was: seq<T>, now: seq<T>, n: nat, i: nat)
    requires i <= n < |was|
  {
    && |now| == |was| && now[i] == was[n]
    && (forall k | 0 <= k < i :: now[k] == was[k])
    && (forall k | i < k <= n :: now[k] == was[k - 1])
    && (forall k | n < k < |was| :: now[k] == was[k])
  }

  lemma MoveStep<T>(was: seq<T>, now: seq<T>, n: nat, i: nat)
    requires 0 < i <= n < |was| && Moved(was, now, n, i)
    ensures now[i - 1] == was[i - 1] && Moved(was, now[i := now[i - 1]][i - 1 := now[i]], n, i - 1)
  {
  }

  lemma MovedParts<T>(was: seq<T>, now: seq<T>, n: nat, i: nat)
    requires i <= n < |was| && Moved(was, now, n, i)
    ensures now[..n + 1] == was[..n][..i] + [was[n]] + was[..n][i..] && now[n + 1..] == was[n + 1..]
    ensures i > 0 ==> now[i - 1] == was[i - 1]
  {
  }

  lemma InsertAbove<T>(less: (T, T) -> bool, x: T, s: seq<T>, i: nat)
    requires i <= |s| && (i > 0 ==> !less(x, s[i - 1]))
    ensures Insert(less, x, s[..i]) == s[..i] + [x]
  {
  }

  /** Moves a[n] down into the sorted part in front of it. */
  method InsertInPlace<T>(less: (T, T) -> bool, a: array<T>, n: nat)
    requires n < a.Length
    modifies a
    ensures a[..n + 1] == Insert(less, old(a[n]), old(a[..n]))
    ensures a[n + 1..] == old(a[n + 1..])
  {
    ghost var was := a[..];
    ghost var front, x := was[..n], was[n];
    assert front[..n] == front && front[n..] == [] && front == a[..n];
    var i := n;
    while i > 0 && less(a[i], a[i - 1])
      invariant 0 <= i <= n && Moved(was, a[..], n, i)
      invariant Insert(less, x, front) == Insert(less, x, front[..i]) + front[i..]
    {
      MoveStep(was, a[..], n, i);
      InsertStep(less, x, front, i);
      Shift(Insert(less, x, front), Insert(less, x, front[..i]), Insert(less, x, front[..i - 1]), front, i);
      ghost var before := a[..];
      a[i], a[i - 1] := a[i - 1], a[i];
      assert a[..] == before[i := before[i - 1]][i - 1 := before[i]];
      i := i - 1;
    }
    MovedParts(was, a[..], n, i);
    InsertAbove(less, x, front, i);
    assert a[..n + 1] == a[..][..n + 1] && a[n + 1..] == a[..][n + 1..] && was[n + 1..] == old(a[n + 1..]);
  }

  /** sort.SliceStable, in place. */
  method SortStableInPlace<T(!new)>(less: (T, T) -> bool, a: array<T>)
    requires StrictWeak(less)
    modifies a
    ensures a[..] == StableSort(less, old(a[..]))
  {
    ghost var was := a[..];
    for n := 0 to a.Length
      invariant a[..n] == StableSort(less, was[..n])
      invariant a[n..] == was[n..]
    {
      assert was[..n + 1][..n] == was[..n] && was[..n + 1][n] == was[n];
      InsertInPlace(less, a, n);
      assert a[n] == a[..n + 1][n];
    }
    assert a[..] == a[..a.Length] && was == was[..a.Length];
  }
}
