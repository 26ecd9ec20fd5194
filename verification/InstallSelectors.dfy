/** Install selectors relative to the default release
    (pkg/common/versions/installselectors, pkg/common/versions/common/utils.go). */
module InstallSelectors {
  import opened Seqs
  import opened Semver
  import opened Sorting
  import opened Spi

  datatype InstallError = NotEnoughVersions | NoMatch

  predicate LessRelease(x: Release, y: Release) { Less(x.version, y.version) }

  lemma LessReleaseIsStrictWeak()
    ensures StrictWeak(LessRelease)
  {
    PrecedenceIsStrictWeak();
  }

  /** SortVersions: the caller's slice itself is sorted. */
  method SortVersions(a: array<Release>)
    modifies a
    ensures a[..] == StableSort(LessRelease, old(a[..]))
    ensures SortedBy(LessRelease, a[..]) && multiset(a[..]) == multiset(old(a[..]))
  {
    LessReleaseIsStrictWeak();
    StableSortSorts(LessRelease, a[..]);
    SortStableInPlace(LessRelease, a);
  }

  // ---------- what the selectors promise ----------

  /** d is a default and no default is above it. */
  ghost predicate GreatestDefault(list: seq<Release>, d: Release) {
    d in list && d.isDefault && forall e | e in list && e.isDefault :: !LessRelease(d, e)
  }

  ghost predicate HasDefault(list: seq<Release>) { exists e | e in list :: e.isDefault }

  /** Above d, and in the minor stream `step` after that of d (of any major). */
  ghost predicate Candidate(list: seq<Release>, d: Release, step: nat, v: Version) {
    exists x | x in list :: x.version == v && LessRelease(d, x) && v.minor == d.version.minor + step
  }

  ghost predicate HasCandidate(list: seq<Release>, d: Release, step: nat) {
    exists x | x in list :: Candidate(list, d, step, x.version)
  }

  ghost predicate GreatestCandidate(list: seq<Release>, d: Release, step: nat, v: Version) {
    Candidate(list, d, step, v) && forall x | x in list && Candidate(list, d, step, x.version) :: !Less(v, x.version)
  }

  /** Position i holds the last default before position j. */
  predicate DefaultBefore(sorted: seq<Release>, i: nat, j: nat) {
    i < j <= |sorted| && sorted[i].isDefault && forall k | i < k < j :: !sorted[k].isDefault
  }

  /** A release of the minor stream after the default in front of it, with no default in between. */
  predicate Next(sorted: seq<Release>, i: nat, j: nat) {
    j < |sorted| && DefaultBefore(sorted, i, j + 1) && i < j && sorted[j].version.minor == sorted[i].version.minor + 1
  }

  /** Some default that is not the last one has a release of its next minor stream before the default that follows it. */
  ghost predicate Stale(sorted: seq<Release>) {
    exists i: nat, j: nat, k: nat :: Next(sorted, i, j) && j < k < |sorted| && sorted[k].isDefault
  }

  /** The last default of a sorted list is a greatest default, and all greatest defaults have the same numbers. */
  lemma LastDefaultIsGreatest(list: seq<Release>, sorted: seq<Release>, e: nat, d: Release)
    requires SortedBy(LessRelease, sorted) && multiset(list) == multiset(sorted)
    requires DefaultBefore(sorted, e, |sorted|)
    requires GreatestDefault(list, d)
    ensures Same(d.version, sorted[e].version) && d.version.minor == sorted[e].version.minor
    ensures forall x :: LessRelease(d, x) <==> LessRelease(sorted[e], x)
    ensures forall j | 0 <= j < |sorted| && LessRelease(d, sorted[j]) :: e < j
  {
    PrecedenceIsStrictWeak();
    assert sorted[e] in multiset(sorted) && d in multiset(list);
    assert sorted[e] in list && d in sorted;
    var p :| 0 <= p < |sorted| && sorted[p] == d;
    assert !LessRelease(d, sorted[e]) && !LessRelease(sorted[e], d);
    SameMeansSameFields(d.version, sorted[e].version);
  }

  // ---------- latest Y ----------

  function Sorted(list: seq<Release>): seq<Release> { StableSort(LessRelease, list) }

  /** A greatest of the releases that come next after the default in front of them. */
  ghost predicate LatestNext(sorted: seq<Release>, v: Version) {
    && (exists i: nat, j: nat :: Next(sorted, i, j) && sorted[j].version == v)
    && forall i: nat, j: nat :: Next(sorted, i, j) ==> !Less(v, sorted[j].version)
  }

  ghost predicate HasNext(sorted: seq<Release>) { exists i: nat, j: nat :: Next(sorted, i, j) }

  /** The loop of SelectLatestY: e is the last default, c the release found and b the default in front of it. */
  method ScanForY(sorted: seq<Release>) returns (latest: Option<Release>, ghost e: int, ghost b: int, ghost c: int)
    ensures -1 <= e < |sorted|
    ensures e == -1 ==> forall j | 0 <= j < |sorted| :: !sorted[j].isDefault
    ensures e >= 0 ==> DefaultBefore(sorted, e, |sorted|)
    ensures latest.Some? ==> 0 <= b < c < |sorted| && latest.value == sorted[c] && Next(sorted, b, c)
    ensures forall x: nat, y: nat | y < |sorted| && Next(sorted, x, y) ::
      latest.Some? && !LessRelease(latest.value, sorted[y])
  {
    PrecedenceIsStrictWeak();
    var default: Option<Release> := None;
    var nextMinor := 0;
    latest, e, b, c := None, -1, 0, 0;
    for i := 0 to |sorted|
      invariant -1 <= e < i
      invariant default.None? <==> e == -1
      invariant e == -1 ==> forall j | 0 <= j < i :: !sorted[j].isDefault
      invariant e >= 0 ==> DefaultBefore(sorted, e, i) && nextMinor == sorted[e].version.minor + 1
      invariant latest.Some? ==> 0 <= b < c < i && latest.value == sorted[c] && Next(sorted, b, c)
      invariant forall x: nat, y: nat | y < i && Next(sorted, x, y) ::
        latest.Some? && !LessRelease(latest.value, sorted[y])
    {
      var version := sorted[i];
      assert forall x: nat | Next(sorted, x, i) :: x == e && !version.isDefault;
      if version.isDefault {
        default := Some(version);
        nextMinor := version.version.minor + 1;
        e := i;
        continue;
      }
      if default.None? {
        continue;
      }
      if version.version.minor == nextMinor {
        assert Next(sorted, e, i);
        if latest.None? {
          latest := Some(version);
          b, c := e, i;
        }
        if Less(latest.value.version, version.version) {
          latest := Some(version);
          b, c := e, i;
        }
      }
    }
  }

  lemma NextFollows(sorted: seq<Release>, latest: Option<Release>, b: int, c: int)
    requires latest.Some? ==> 0 <= b < c < |sorted| && latest.value == sorted[c] && Next(sorted, b, c)
    requires forall x: nat, y: nat | y < |sorted| && Next(sorted, x, y) ::
      latest.Some? && !LessRelease(latest.value, sorted[y])
    ensures latest.Some? <==> HasNext(sorted)
    ensures latest.Some? ==> LatestNext(sorted, latest.value.version)
  {
  }

  /** From the last default e and the release c that the loop of SelectLatestY found, to what it promises. */
  lemma LatestYFollows(list: seq<Release>, sorted: seq<Release>, e: int, latest: Option<Release>, b: int, c: int)
    requires SortedBy(LessRelease, sorted) && multiset(list) == multiset(sorted)
    requires -1 <= e < |sorted|
    requires e == -1 ==> forall j | 0 <= j < |sorted| :: !sorted[j].isDefault
    requires e >= 0 ==> DefaultBefore(sorted, e, |sorted|)
    requires latest.Some? ==> 0 <= b < c < |sorted| && latest.value == sorted[c] && Next(sorted, b, c)
    requires forall x: nat, y: nat | y < |sorted| && Next(sorted, x, y) ::
      latest.Some? && !LessRelease(latest.value, sorted[y])
    ensures !HasDefault(list) ==> latest.None?
    ensures forall d | GreatestDefault(list, d) && HasCandidate(list, d, 1) ::
      latest.Some? && GreatestCandidate(list, d, 1, latest.value.version)
    ensures forall d | GreatestDefault(list, d) && !HasCandidate(list, d, 1) ::
      (latest.None? <==> !Stale(sorted)) && (latest.Some? ==> !Less(d.version, latest.value.version))
  {
    PrecedenceIsStrictWeak();
    SameMembers(list, sorted);
    forall d | GreatestDefault(list, d)
      ensures HasCandidate(list, d, 1) ==> latest.Some? && GreatestCandidate(list, d, 1, latest.value.version)
      ensures !HasCandidate(list, d, 1) ==>
        (latest.None? <==> !Stale(sorted)) && (latest.Some? ==> !Less(d.version, latest.value.version))
    {
      assert e >= 0 by {
        var p :| 0 <= p < |sorted| && sorted[p] == d;
      }
      LastDefaultIsGreatest(list, sorted, e, d);
      forall x | x in list && Candidate(list, d, 1, x.version)
        ensures latest.Some? && !Less(latest.value.version, x.version)
        ensures c > e
      {
        var j :| 0 <= j < |sorted| && sorted[j] == x;
        assert Next(sorted, e, j);
      }
      if latest.Some? && c > e {
        assert b == e;
        assert !LessRelease(sorted[c], sorted[e]);
        SameMeansSameFields(sorted[e].version, sorted[c].version);
        assert sorted[c] in list;
        assert Candidate(list, d, 1, sorted[c].version);
      }
      if !HasCandidate(list, d, 1) && latest.Some? {
        assert c <= e;
        assert c != e;
        assert Next(sorted, b, c) && c < e && sorted[e].isDefault;
      }
    }
    if latest.Some? {
      assert sorted[b] in list;
    }
  }

  /** On every list the answer is a greatest of the releases that come next after the default in front of them. Let d be a
      greatest default: that is a greatest release above d in the next minor stream if there is one; and if there is none the
      selector fails as it should exactly when the sorted list is not stale, and else the answer is not above d. */
  method SelectLatestY(a: array<Release>) returns (r: Result<Version, InstallError>)
    modifies a
    ensures a[..] == Sorted(old(a[..])) && SortedBy(LessRelease, a[..]) && multiset(a[..]) == multiset(old(a[..]))
    ensures r == Err(NotEnoughVersions) <==> a.Length == 0
    ensures r.Ok? <==> HasNext(Sorted(old(a[..])))
    ensures r.Ok? ==> LatestNext(Sorted(old(a[..])), r.value)
    ensures !HasDefault(old(a[..])) ==> r.Err?
    ensures forall d | GreatestDefault(old(a[..]), d) && HasCandidate(old(a[..]), d, 1) ::
      r.Ok? && GreatestCandidate(old(a[..]), d, 1, r.value)
    ensures forall d | GreatestDefault(old(a[..]), d) && !HasCandidate(old(a[..]), d, 1) ::
      (r.Err? <==> !Stale(Sorted(old(a[..])))) && (r.Ok? ==> !Less(d.version, r.value))
  {
    if a.Length == 0 {
      return Err(NotEnoughVersions);
    }
    ghost var list := a[..];
    SortVersions(a);
    ghost var e, b, c;
    var latest;
    latest, e, b, c := ScanForY(a[..]);
    NextFollows(a[..], latest, b, c);
    LatestYFollows(list, a[..], e, latest, b, c);
    if latest.None? {
      r := Err(NoMatch);
    } else {
      r := Ok(latest.value.version);
    }
  }

  /** Defaults of one precedence, such as one default listed in two channels, are never stale. */
  lemma EqualDefaultsAreNotStale(sorted: seq<Release>)
    requires SortedBy(LessRelease, sorted)
    requires forall x, y | x in sorted && y in sorted && x.isDefault && y.isDefault :: Same(x.version, y.version)
    ensures !Stale(sorted)
  {
    if Stale(sorted) {
      var i: nat, j: nat, k: nat :| Next(sorted, i, j) && j < k < |sorted| && sorted[k].isDefault;
      PrecedenceIsStrictWeak();
      assert !LessRelease(sorted[j], sorted[i]) && !LessRelease(sorted[k], sorted[j]);
      assert Same(sorted[i].version, sorted[k].version);
      SameMeansSameFields(sorted[i].version, sorted[j].version);
    }
  }

  /** A stale list on which latest Y answers 4.2.0, below the greatest default: defaults 4.1.0 and 4.3.0, and 4.2.0. */
  lemma StaleExample() returns (list: seq<Release>)
    ensures |list| == 3 && Stale(Sorted(list)) && HasNext(Sorted(list))
    ensures GreatestDefault(list, list[2]) && !HasCandidate(list, list[2], 1)
    ensures forall v | LatestNext(Sorted(list), v) :: v == list[1].version && Less(v, list[2].version)
  {
    var v := (minor: nat) => Version(4, minor, 0, [], "");
    list := [Release(v(1), multiset{}, true), Release(v(2), multiset{}, false), Release(v(3), multiset{}, true)];
    SortedIsStable(LessRelease, list);
    assert Next(list, 0, 1) && list[2].isDefault;
  }

  // ---------- latest Z ----------

  /** The loop of SelectLatestZ: e is the last default and c the release found. */
  method ScanForZ(sorted: seq<Release>)
    returns (default: Option<Release>, latest: Option<Release>, ghost e: int, ghost c: int)
    ensures (default.None? <==> e == -1) && (latest.None? <==> e == -1) && -1 <= e
    ensures e == -1 ==> forall j | 0 <= j < |sorted| :: !sorted[j].isDefault
    ensures e >= 0 ==> e <= c < |sorted| && default == Some(sorted[e]) && latest == Some(sorted[c])
    ensures e >= 0 ==> DefaultBefore(sorted, e, |sorted|) && sorted[c].version.minor == sorted[e].version.minor
    ensures e >= 0 ==> forall j | e <= j < |sorted| && sorted[j].version.minor == sorted[e].version.minor ::
      !LessRelease(sorted[c], sorted[j])
  {
    PrecedenceIsStrictWeak();
    default, latest, e, c := None, None, -1, -1;
    for i := 0 to |sorted|
      invariant (default.None? <==> e == -1) && (latest.None? <==> e == -1) && -1 <= e
      invariant e == -1 ==> forall j | 0 <= j < i :: !sorted[j].isDefault
      invariant e >= 0 ==> e <= c < i && default == Some(sorted[e]) && latest == Some(sorted[c])
      invariant e >= 0 ==> DefaultBefore(sorted, e, i) && sorted[c].version.minor == sorted[e].version.minor
      invariant e >= 0 ==> forall j | e <= j < i && sorted[j].version.minor == sorted[e].version.minor ::
        !LessRelease(sorted[c], sorted[j])
    {
      var version := sorted[i];
      if version.isDefault {
        default := Some(version);
        latest := Some(version);
        e, c := i, i;
      }
      if default.None? {
        continue;
      }
      if version.version.minor == default.value.version.minor {
        if Less(latest.value.version, version.version) {
          latest := Some(version);
          c := i;
        }
      }
    }
  }

  lemma LatestZFollows(list: seq<Release>, sorted: seq<Release>, e: nat, c: nat)
    requires SortedBy(LessRelease, sorted) && multiset(list) == multiset(sorted)
    requires e <= c < |sorted| && DefaultBefore(sorted, e, |sorted|)
    requires sorted[c].version.minor == sorted[e].version.minor
    requires forall j | e <= j < |sorted| && sorted[j].version.minor == sorted[e].version.minor ::
      !LessRelease(sorted[c], sorted[j])
    ensures HasDefault(list)
    ensures forall d | GreatestDefault(list, d) ::
      && (HasCandidate(list, d, 0) <==> !Same(sorted[c].version, sorted[e].version))
      && (HasCandidate(list, d, 0) ==> GreatestCandidate(list, d, 0, sorted[c].version))
  {
    PrecedenceIsStrictWeak();
    SameMembers(list, sorted);
    assert sorted[e] in list && sorted[c] in list;
    assert e < c ==> !LessRelease(sorted[c], sorted[e]);
    forall d | GreatestDefault(list, d)
      ensures HasCandidate(list, d, 0) <==> !Same(sorted[c].version, sorted[e].version)
      ensures HasCandidate(list, d, 0) ==> GreatestCandidate(list, d, 0, sorted[c].version)
    {
      LastDefaultIsGreatest(list, sorted, e, d);
      forall x | x in list && Candidate(list, d, 0, x.version)
        ensures !Less(sorted[c].version, x.version)
      {
        var j :| 0 <= j < |sorted| && sorted[j] == x;
      }
      if !Same(sorted[c].version, sorted[e].version) {
        assert Candidate(list, d, 0, sorted[c].version);
      }
    }
  }

  /** Fails exactly when nothing is above a greatest default in its own minor stream, and finds a greatest otherwise. */
  method SelectLatestZ(a: array<Release>) returns (r: Result<Version, InstallError>)
    modifies a
    ensures a[..] == Sorted(old(a[..])) && SortedBy(LessRelease, a[..]) && multiset(a[..]) == multiset(old(a[..]))
    ensures r == Err(NotEnoughVersions) <==> a.Length == 0
    ensures !HasDefault(old(a[..])) ==> r.Err?
    ensures forall d | GreatestDefault(old(a[..]), d) ::
      && (r.Ok? <==> HasCandidate(old(a[..]), d, 0))
      && (r.Ok? ==> GreatestCandidate(old(a[..]), d, 0, r.value))
  {
    if a.Length == 0 {
      return Err(NotEnoughVersions);
    }
    ghost var list := a[..];
    SortVersions(a);
    ghost var e, c;
    var default, latest;
    default, latest, e, c := ScanForZ(a[..]);
    if e >= 0 {
      LatestZFollows(list, a[..], e, c);
    } else {
      SameMembers(list, a[..]);
    }
    if latest.None? || Same(latest.value.version, default.value.version) {
      r := Err(NoMatch);
    } else {
      r := Ok(latest.value.version);
    }
  }
}
