/** Upgrade selectors (pkg/common/versions/upgradeselectors). They scan the upgrade edges of the installed
    release; releases are visited in list order, the edges of each in the arbitrary order of a Go map. */
module UpgradeSelectors {
  import opened Seqs
  import opened Text
  import opened Semver
  import opened Spi

  datatype Kind = Latest | LatestY | LatestZ

  datatype UpgradeError = NoUpgradePath

  type Edges = seq<multiset<Version>>

  /** The edges a selector looks at. */
  predicate Eligible(kind: Kind, install: Version, v: Version) {
    match kind
    case Latest => true
    case LatestY => v.minor == install.minor + 1
    case LatestZ => v.minor == install.minor
  }

  /** Nightlies displace what is not nightly; otherwise higher precedence decides. */
  predicate Takes(newest: Version, v: Version) {
    (TextIsNightly(v) && !TextIsNightly(newest)) || Less(newest, v)
  }

  /** What the loops hold after visiting the edges in this order. */
  function Scan(kind: Kind, install: Version, order: seq<Version>): Version {
    if order == [] then install
    else
      var newest, v := Scan(kind, install, order[..|order| - 1]), order[|order| - 1];
      if Eligible(kind, install, v) && Takes(newest, v) then v else newest
  }

  /** The check behind the loops. */
  function Decide(kind: Kind, install: Version, newest: Version): Result<Version, UpgradeError> {
    if (if kind == LatestZ then Same(newest, install) else !Less(install, newest)) then Err(NoUpgradePath)
    else Ok(newest)
  }

  /** order visits the groups one after the other, each in some order. */
  ghost predicate IsOrder(groups: Edges, order: seq<Version>) {
    if groups == [] then order == []
    else
      var k := |order| - |groups[|groups| - 1]|;
      k >= 0 && multiset(order[k..]) == groups[|groups| - 1] && IsOrder(groups[..|groups| - 1], order[..k])
  }

  function EdgeGroups(releases: seq<Release>): Edges {
    seq(|releases|, i requires 0 <= i < |releases| => releases[i].upgrades)
  }

  /** The edge maps of all entries of the installed version, in list order. */
  function EdgesOf(list: VersionList, install: Version): Edges {
    EdgeGroups(Filter(list.available, SameNumbers(install)))
  }

  /** An answer that some order of visiting the edge maps gives. */
  ghost predicate Possible(kind: Kind, install: Version, groups: Edges, r: Result<Version, UpgradeError>) {
    exists order | IsOrder(groups, order) :: r == Decide(kind, install, Scan(kind, install, order))
  }

  // ---------- the selectors ----------

  /** Inside a group: `rest` of it is still to be visited. */
  ghost predicate Visiting(group: multiset<Version>, rest: multiset<Version>, before: seq<Version>, order: seq<Version>) {
    |before| <= |order| && order[..|before|] == before && multiset(order[|before|..]) + rest == group
  }

  lemma VisitStep(group: multiset<Version>, rest: multiset<Version>, before: seq<Version>, order: seq<Version>, v: Version)
    requires Visiting(group, rest, before, order) && v in rest
    ensures Visiting(group, rest - multiset{v}, before, order + [v])
  {
    assert (order + [v])[|before|..] == order[|before|..] + [v];
  }

  lemma GroupVisited(groups: Edges, i: nat, before: seq<Version>, order: seq<Version>)
    requires i < |groups| && IsOrder(groups[..i], before)
    requires Visiting(groups[i], multiset{}, before, order)
    ensures IsOrder(groups[..i + 1], order)
  {
    assert groups[..i + 1][..i] == groups[..i];
    assert |groups[i]| == |multiset(order[|before|..])| == |order| - |before|;
  }

  lemma ScanStep(kind: Kind, install: Version, order: seq<Version>, v: Version)
    ensures Scan(kind, install, order + [v]) ==
      var newest := Scan(kind, install, order); if Eligible(kind, install, v) && Takes(newest, v) then v else newest
  {
    assert (order + [v])[..|order|] == order;
  }

  method SelectLatest(install: Version, list: VersionList) returns (r: Result<Version, UpgradeError>)
    ensures Possible(Latest, install, EdgesOf(list, install), r)
  {
    var newest := install;
    var found := FindVersion(list, install);
    ghost var order: seq<Version> := [];
    for i := 0 to |found|
      invariant IsOrder(EdgeGroups(found)[..i], order)
      invariant newest == Scan(Latest, install, order)
    {
      var rest := found[i].upgrades;
      ghost var before := order;
      while rest != multiset{}
        invariant Visiting(found[i].upgrades, rest, before, order)
        invariant newest == Scan(Latest, install, order)
      {
        var v :| v in rest;
        VisitStep(found[i].upgrades, rest, before, order, v);
        ScanStep(Latest, install, order, v);
        rest := rest - multiset{v};
        order := order + [v];
        var vNightly, newestNightly := TextIsNightly(v), TextIsNightly(newest);
        if (vNightly && !newestNightly) || Less(newest, v) {
          newest := v;
        }
      }
      GroupVisited(EdgeGroups(found), i, before, order);
    }
    assert EdgeGroups(found) == EdgeGroups(found)[..|found|];
    r := if !Less(install, newest) then Err(NoUpgradePath) else Ok(newest);
  }

  method SelectLatestY(install: Version, list: VersionList) returns (r: Result<Version, UpgradeError>)
    ensures Possible(LatestY, install, EdgesOf(list, install), r)
  {
    var newest := install;
    var found := FindVersion(list, install);
    ghost var order: seq<Version> := [];
    for i := 0 to |found|
      invariant IsOrder(EdgeGroups(found)[..i], order)
      invariant newest == Scan(LatestY, install, order)
    {
      var rest := found[i].upgrades;
      ghost var before := order;
      while rest != multiset{}
        invariant Visiting(found[i].upgrades, rest, before, order)
        invariant newest == Scan(LatestY, install, order)
      {
        var v :| v in rest;
        VisitStep(found[i].upgrades, rest, before, order, v);
        ScanStep(LatestY, install, order, v);
        rest := rest - multiset{v};
        order := order + [v];
        if v.minor != install.minor + 1 {
          continue;
        }
        var vNightly, newestNightly := TextIsNightly(v), TextIsNightly(newest);
        if (vNightly && !newestNightly) || Less(newest, v) {
          newest := v;
        }
      }
      GroupVisited(EdgeGroups(found), i, before, order);
    }
    assert EdgeGroups(found) == EdgeGroups(found)[..|found|];
    r := if !Less(install, newest) then Err(NoUpgradePath) else Ok(newest);
  }

  method SelectLatestZ(install: Version, list: VersionList) returns (r: Result<Version, UpgradeError>)
    ensures Possible(LatestZ, install, EdgesOf(list, install), r)
  {
    var newest := install;
    var found := FindVersion(list, install);
    ghost var order: seq<Version> := [];
    for i := 0 to |found|
      invariant IsOrder(EdgeGroups(found)[..i], order)
      invariant newest == Scan(LatestZ, install, order)
    {
      var rest := found[i].upgrades;
      ghost var before := order;
      while rest != multiset{}
        invariant Visiting(found[i].upgrades, rest, before, order)
        invariant newest == Scan(LatestZ, install, order)
      {
        var v :| v in rest;
        VisitStep(found[i].upgrades, rest, before, order, v);
        ScanStep(LatestZ, install, order, v);
        rest := rest - multiset{v};
        order := order + [v];
        if v.minor != install.minor {
          continue;
        }
        if TextIsNightly(v) && !TextIsNightly(newest) {
          newest := v;
          continue;
        }
        var vNightly, newestNightly := TextIsNightly(v), TextIsNightly(newest);
        if (vNightly && !newestNightly) || Less(newest, v) {
          newest := v;
        }
      }
      GroupVisited(EdgeGroups(found), i, before, order);
    }
    assert EdgeGroups(found) == EdgeGroups(found)[..|found|];
    r := if Same(newest, install) then Err(NoUpgradePath) else Ok(newest);
  }

  // ---------- what a selector should answer ----------

  ghost predicate IsCandidate(kind: Kind, install: Version, groups: Edges, v: Version) {
    Eligible(kind, install, v) && exists j | 0 <= j < |groups| :: v in groups[j]
  }

  /** Nothing among the installed version and the candidates is above v. */
  ghost predicate Top(kind: Kind, install: Version, groups: Edges, v: Version) {
    !Less(v, install) && forall w | IsCandidate(kind, install, groups, w) :: !Less(v, w)
  }

  /** A candidate of greatest precedence if some candidate is above the installed version, or an error. */
  ghost predicate Right(kind: Kind, install: Version, groups: Edges, r: Result<Version, UpgradeError>) {
    if exists w :: IsCandidate(kind, install, groups, w) && Less(install, w)
    then r.Ok? && IsCandidate(kind, install, groups, r.value) && Top(kind, install, groups, r.value)
    else r.Err?
  }

  ghost predicate HasNightly(kind: Kind, install: Version, group: multiset<Version>) {
    exists v :: v in group && Eligible(kind, install, v) && TextIsNightly(v)
  }

  ghost predicate HasTop(kind: Kind, install: Version, groups: Edges, j: nat) {
    j < |groups| && exists v :: v in groups[j] && Eligible(kind, install, v) && Top(kind, install, groups, v)
  }

  /** Some version of top precedence is nightly, or every group with a nightly is followed by
      a group with a candidate of top precedence. */
  ghost predicate Settled(kind: Kind, install: Version, groups: Edges) {
    || (exists v :: (v == install || IsCandidate(kind, install, groups, v)) && TextIsNightly(v) && Top(kind, install, groups, v))
    || (forall j | 0 <= j < |groups| && HasNightly(kind, install, groups[j]) :: exists l :: l > j && HasTop(kind, install, groups, l))
  }

  // ---------- every order ends on top exactly when settled ----------

  lemma {:induction false} OrderMembers(groups: Edges, order: seq<Version>)
    requires IsOrder(groups, order)
    ensures forall v :: v in order <==> exists j | 0 <= j < |groups| :: v in groups[j]
  {
    if groups == [] {
    } else {
      var last, front := groups[|groups| - 1], groups[..|groups| - 1];
      var k := |order| - |last|;
      OrderMembers(front, order[..k]);
      forall v
        ensures v in order <==> exists j | 0 <= j < |groups| :: v in groups[j]
      {
        assert order == order[..k] + order[k..];
        assert v in order[k..] <==> v in multiset(order[k..]);
        if v in order[..k] {
          var j :| 0 <= j < |front| && v in front[j];
          assert v in groups[j];
        }
        if j :| 0 <= j < |groups| && v in groups[j] {
          if j < |front| {
            assert v in front[j];
          }
        }
      }
    }
  }

  /** The scan ends in the installed version or a candidate. */
  lemma {:induction false} ScanMember(kind: Kind, install: Version, order: seq<Version>)
    ensures
      var s := Scan(kind, install, order);
      s == install || (s in order && Eligible(kind, install, s))
  {
    if order == [] {
    } else {
      ScanMember(kind, install, order[..|order| - 1]);
    }
  }

  /** Nothing visited, and not the installed version, is above t. */
  ghost predicate Bounds(kind: Kind, install: Version, order: seq<Version>, t: Version) {
    !Less(t, install) && forall v | v in order && Eligible(kind, install, v) :: !Less(t, v)
  }

  lemma BoundsFront(kind: Kind, install: Version, order: seq<Version>, t: Version)
    requires order != [] && Bounds(kind, install, order, t)
    ensures Bounds(kind, install, order[..|order| - 1], t)
    ensures !Less(t, Scan(kind, install, order[..|order| - 1]))
  {
    ScanMember(kind, install, order[..|order| - 1]);
  }

  /** A nightly of top precedence is never lost again. */
  lemma {:induction false} NightlyTopStays(kind: Kind, install: Version, order: seq<Version>, t: Version)
    requires Bounds(kind, install, order, t) && TextIsNightly(t)
    requires t == install || (t in order && Eligible(kind, install, t))
    ensures !Less(Scan(kind, install, order), t) && TextIsNightly(Scan(kind, install, order))
  {
    PrecedenceIsStrictWeak();
    if order == [] {
    } else {
      var front, v := order[..|order| - 1], order[|order| - 1];
      BoundsFront(kind, install, order, t);
      if t == install || t in front {
        NightlyTopStays(kind, install, front, t);
        assert Eligible(kind, install, v) ==> !Less(t, v);
      }
    }
  }

  /** Of two versions that are not above t the newer is kept, if the second is not nightly. */
  lemma TakesUpTo(newest: Version, v: Version, t: Version)
    requires !TextIsNightly(v) && !Less(t, newest) && !Less(t, v)
    ensures Less(newest, t) && !Less(v, t) ==> Takes(newest, v)
    ensures !Less(newest, t) && Takes(newest, v) ==> !Less(v, t)
  {
    PrecedenceIsStrictWeak();
  }

  ghost predicate Reaches(kind: Kind, install: Version, visited: seq<Version>, t: Version) {
    exists v :: v in visited && Eligible(kind, install, v) && !Less(v, t)
  }

  lemma ReachesFront(kind: Kind, install: Version, visited: seq<Version>, t: Version)
    requires visited != []
    ensures
      var front, v := visited[..|visited| - 1], visited[|visited| - 1];
      Reaches(kind, install, visited, t) ==> Reaches(kind, install, front, t) || (Eligible(kind, install, v) && !Less(v, t))
  {
    assert visited == visited[..|visited| - 1] + [visited[|visited| - 1]];
  }

  /** Without nightlies the scan keeps the top precedence, and finds it. */
  lemma {:induction false} PlainTopStays(kind: Kind, install: Version, order: seq<Version>, t: Version, more: seq<Version>)
    requires Bounds(kind, install, order + more, t)
    requires forall v | v in more && Eligible(kind, install, v) :: !TextIsNightly(v)
    requires !Less(Scan(kind, install, order), t) || Reaches(kind, install, more, t)
    ensures !Less(Scan(kind, install, order + more), t)
  {
    if more == [] {
      assert order + more == order;
    } else {
      var front, v := more[..|more| - 1], more[|more| - 1];
      assert order + more == order + front + [v];
      BoundsFront(kind, install, order + more, t);
      assert (order + more)[..|order + more| - 1] == order + front;
      ScanStep(kind, install, order + front, v);
      if Eligible(kind, install, v) {
        assert v in more && v in order + more;
        TakesUpTo(Scan(kind, install, order + front), v, t);
      }
      ReachesFront(kind, install, more, t);
      if !Less(Scan(kind, install, order), t) || Reaches(kind, install, front, t) {
        PlainTopStays(kind, install, order, t, front);
      }
    }
  }

  ghost predicate GroupNightly(kind: Kind, install: Version, groups: Edges, j: nat) {
    j < |groups| && HasNightly(kind, install, groups[j])
  }

  ghost predicate GroupAt(kind: Kind, install: Version, groups: Edges, t: Version, j: nat) {
    j < |groups| && exists v :: v in groups[j] && Eligible(kind, install, v) && !Less(v, t)
  }

  lemma FollowedFront(kind: Kind, install: Version, groups: Edges, t: Version)
    requires groups != [] && !GroupAt(kind, install, groups, t, |groups| - 1)
    requires forall j: nat | GroupNightly(kind, install, groups, j) :: exists l :: l > j && GroupAt(kind, install, groups, t, l)
    requires !Less(install, t) || exists l: nat :: GroupAt(kind, install, groups, t, l)
    ensures
      var front := groups[..|groups| - 1];
      && (forall j: nat | GroupNightly(kind, install, front, j) :: exists l :: l > j && GroupAt(kind, install, front, t, l))
      && (!Less(install, t) || exists l: nat :: GroupAt(kind, install, front, t, l))
  {
    var front := groups[..|groups| - 1];
    forall j: nat | GroupNightly(kind, install, front, j)
      ensures exists l :: l > j && GroupAt(kind, install, front, t, l)
    {
      assert GroupNightly(kind, install, groups, j);
      var l :| l > j && GroupAt(kind, install, groups, t, l);
      assert GroupAt(kind, install, front, t, l);
    }
    if Less(install, t) {
      var l: nat :| GroupAt(kind, install, groups, t, l);
      assert GroupAt(kind, install, front, t, l);
    }
  }

  /** If every group with a nightly is followed by one that reaches precedence t, so does the scan. */
  lemma {:induction false} FollowedEndsOnTop(kind: Kind, install: Version, groups: Edges, order: seq<Version>, t: Version)
    requires IsOrder(groups, order) && Bounds(kind, install, order, t)
    requires forall j: nat | GroupNightly(kind, install, groups, j) :: exists l :: l > j && GroupAt(kind, install, groups, t, l)
    requires !Less(install, t) || exists l: nat :: GroupAt(kind, install, groups, t, l)
    ensures !Less(Scan(kind, install, order), t)
  {
    if groups == [] {
    } else {
      var m := |groups| - 1;
      var k := |order| - |groups[m]|;
      var front, more := order[..k], order[k..];
      assert order == front + more;
      forall v
        ensures v in more <==> v in groups[m]
      {
        assert v in more <==> v in multiset(more);
      }
      assert !GroupNightly(kind, install, groups, m);
      if !GroupAt(kind, install, groups, t, m) {
        FollowedFront(kind, install, groups, t);
        FollowedEndsOnTop(kind, install, groups[..m], front, t);
      }
      PlainTopStays(kind, install, front, t, more);
    }
  }

  /** Some version of top precedence. */
  lemma {:induction false} TopExists(kind: Kind, install: Version, order: seq<Version>) returns (t: Version)
    ensures Bounds(kind, install, order, t)
    ensures t == install || (t in order && Eligible(kind, install, t))
  {
    PrecedenceIsStrictWeak();
    t := install;
    if order == [] {
    } else {
      var v := order[|order| - 1];
      t := TopExists(kind, install, order[..|order| - 1]);
      if Eligible(kind, install, v) && Less(t, v) {
        t := v;
      }
    }
  }

  lemma TopIsBounds(kind: Kind, install: Version, groups: Edges, order: seq<Version>)
    requires IsOrder(groups, order)
    ensures forall v :: Top(kind, install, groups, v) <==> Bounds(kind, install, order, v)
    ensures forall v :: IsCandidate(kind, install, groups, v) <==> v in order && Eligible(kind, install, v)
  {
    OrderMembers(groups, order);
  }

  lemma SettledEndsOnTop(kind: Kind, install: Version, groups: Edges, order: seq<Version>)
    requires IsOrder(groups, order) && Settled(kind, install, groups)
    ensures Top(kind, install, groups, Scan(kind, install, order))
  {
    PrecedenceIsStrictWeak();
    TopIsBounds(kind, install, groups, order);
    if v :| (v == install || IsCandidate(kind, install, groups, v)) && TextIsNightly(v) && Top(kind, install, groups, v) {
      NightlyTopStays(kind, install, order, v);
    } else {
      var t := TopExists(kind, install, order);
      forall l: nat
        ensures GroupAt(kind, install, groups, t, l) <==> HasTop(kind, install, groups, l)
      {
      }
      forall j: nat | GroupNightly(kind, install, groups, j)
        ensures exists l :: l > j && GroupAt(kind, install, groups, t, l)
      {
        var l :| l > j && HasTop(kind, install, groups, l);
        assert GroupAt(kind, install, groups, t, l);
      }
      if t != install {
        var l :| 0 <= l < |groups| && t in groups[l];
        assert GroupAt(kind, install, groups, t, l);
      }
      FollowedEndsOnTop(kind, install, groups, order, t);
    }
  }

  lemma {:induction false} SomeOrder(m: multiset<Version>) returns (s: seq<Version>)
    ensures multiset(s) == m && |s| == |m|
  {
    s := [];
    if m == multiset{} {
    } else {
      var v :| v in m;
      s := SomeOrder(m - multiset{v});
      s := s + [v];
    }
  }

  ghost predicate LaterGroups(groups: Edges, j: nat, order: seq<Version>, at: nat) {
    forall i | at < i < |order| :: exists l | j < l < |groups| :: order[i] in groups[l]
  }

  lemma AppendGroup(groups: Edges, front: seq<Version>, last: seq<Version>)
    requires groups != [] && IsOrder(groups[..|groups| - 1], front) && multiset(last) == groups[|groups| - 1]
    ensures IsOrder(groups, front + last)
  {
    assert |last| == |multiset(last)|;
    assert (front + last)[|front|..] == last && (front + last)[..|front|] == front;
  }

  lemma {:induction false} AnyOrder(groups: Edges) returns (order: seq<Version>)
    ensures IsOrder(groups, order)
  {
    order := [];
    if groups == [] {
    } else {
      var front := AnyOrder(groups[..|groups| - 1]);
      var last := SomeOrder(groups[|groups| - 1]);
      order := front + last;
      AppendGroup(groups, front, last);
    }
  }

  lemma LaterGroupsAppend(groups: Edges, j: nat, front: seq<Version>, at: nat, last: seq<Version>)
    requires j < |groups| - 1 && LaterGroups(groups[..|groups| - 1], j, front, at) && multiset(last) == groups[|groups| - 1]
    ensures LaterGroups(groups, j, front + last, at)
  {
    var m := |groups| - 1;
    forall i | at < i < |front + last|
      ensures exists l | j < l < |groups| :: (front + last)[i] in groups[l]
    {
      if i < |front| {
        var l :| j < l < m && front[i] in groups[..m][l];
        assert (front + last)[i] in groups[l];
      } else {
        assert (front + last)[i] in multiset(last);
        assert (front + last)[i] in groups[m];
      }
    }
  }

  /** An order of the groups in which group j ends in n. */
  lemma {:induction false} OrderEnding(groups: Edges, j: nat, n: Version) returns (order: seq<Version>, at: nat)
    requires j < |groups| && n in groups[j]
    ensures IsOrder(groups, order)
    ensures at < |order| && order[at] == n && LaterGroups(groups, j, order, at)
  {
    var m := |groups| - 1;
    if j == m {
      var front := AnyOrder(groups[..m]);
      var last := SomeOrder(groups[m] - multiset{n});
      order, at := front + last + [n], |front| + |last|;
      assert order == front + (last + [n]);
      AppendGroup(groups, front, last + [n]);
    } else {
      var front;
      front, at := OrderEnding(groups[..m], j, n);
      var last := SomeOrder(groups[m]);
      order := front + last;
      AppendGroup(groups, front, last);
      LaterGroupsAppend(groups, j, front, at, last);
    }
  }

  /** Once a nightly below the top is visited last of its kind, the scan stays below the top. */
  lemma {:induction false} BelowTopStays(kind: Kind, install: Version, order: seq<Version>, at: nat, t: Version)
    requires at < |order| && Eligible(kind, install, order[at]) && TextIsNightly(order[at])
    requires TextIsNightly(install) ==> Less(install, t)
    requires forall v | v in order && Eligible(kind, install, v) && TextIsNightly(v) :: Less(v, t)
    requires forall i | at < i < |order| && Eligible(kind, install, order[i]) :: Less(order[i], t)
    ensures Less(Scan(kind, install, order), t)
  {
    var front, v := order[..|order| - 1], order[|order| - 1];
    if at < |front| {
      assert forall i | at < i < |front| :: front[i] == order[i];
      BelowTopStays(kind, install, front, at, t);
    } else {
      ScanMember(kind, install, front);
      assert order[at] in order;
    }
  }

  lemma BelowTop(kind: Kind, install: Version, groups: Edges, t: Version, v: Version)
    requires Top(kind, install, groups, t) && !Top(kind, install, groups, v)
    ensures Less(v, t)
  {
    PrecedenceIsStrictWeak();
  }

  lemma UnsettledHasBadOrder(kind: Kind, install: Version, groups: Edges) returns (order: seq<Version>)
    requires !Settled(kind, install, groups)
    ensures IsOrder(groups, order)
    ensures !Top(kind, install, groups, Scan(kind, install, order))
  {
    var j: nat :| j < |groups| && HasNightly(kind, install, groups[j]) && forall l | l > j :: !HasTop(kind, install, groups, l);
    var n :| n in groups[j] && Eligible(kind, install, n) && TextIsNightly(n);
    var at;
    order, at := OrderEnding(groups, j, n);
    TopIsBounds(kind, install, groups, order);
    var t := TopExists(kind, install, order);
    assert Top(kind, install, groups, t);
    if TextIsNightly(install) {
      BelowTop(kind, install, groups, t, install);
    }
    forall v | v in order && Eligible(kind, install, v) && TextIsNightly(v)
      ensures Less(v, t)
    {
      assert IsCandidate(kind, install, groups, v);
      BelowTop(kind, install, groups, t, v);
    }
    forall i | at < i < |order| && Eligible(kind, install, order[i])
      ensures Less(order[i], t)
    {
      var l :| j < l < |groups| && order[i] in groups[l];
      assert !HasTop(kind, install, groups, l);
      BelowTop(kind, install, groups, t, order[i]);
    }
    BelowTopStays(kind, install, order, at, t);
    assert !Top(kind, install, groups, Scan(kind, install, order));
  }

  // ---------- the answer ----------

  ghost predicate SomethingAbove(kind: Kind, install: Version, groups: Edges) {
    exists w :: IsCandidate(kind, install, groups, w) && Less(install, w)
  }

  /** On one order, a selector is right if and only if its scan ends on top; latest and latest Y are
      also right wherever the scan ends if no candidate is above the installed version. */
  lemma RightOnOrder(kind: Kind, install: Version, groups: Edges, order: seq<Version>)
    requires IsOrder(groups, order)
    ensures
      var newest := Scan(kind, install, order);
      Right(kind, install, groups, Decide(kind, install, newest)) <==>
      Top(kind, install, groups, newest) || (kind != LatestZ && !SomethingAbove(kind, install, groups))
  {
    PrecedenceIsStrictWeak();
    TopIsBounds(kind, install, groups, order);
    ScanMember(kind, install, order);
    var newest := Scan(kind, install, order);
    assert IsCandidate(kind, install, groups, newest) || newest == install;
  }

  /** Whatever the map order, latest Z answers right if and only if its candidates are settled; latest and
      latest Y if and only if theirs are settled or none is above the installed version. */
  lemma EveryAnswerIsRight(kind: Kind, install: Version, groups: Edges)
    ensures
      (forall r | Possible(kind, install, groups, r) :: Right(kind, install, groups, r))
      <==> Settled(kind, install, groups) || (kind != LatestZ && !SomethingAbove(kind, install, groups))
  {
    if Settled(kind, install, groups) || (kind != LatestZ && !SomethingAbove(kind, install, groups)) {
      forall r | Possible(kind, install, groups, r)
        ensures Right(kind, install, groups, r)
      {
        var order :| IsOrder(groups, order) && r == Decide(kind, install, Scan(kind, install, order));
        RightOnOrder(kind, install, groups, order);
        if Settled(kind, install, groups) {
          SettledEndsOnTop(kind, install, groups, order);
        }
      }
    } else {
      var order := UnsettledHasBadOrder(kind, install, groups);
      RightOnOrder(kind, install, groups, order);
      assert Possible(kind, install, groups, Decide(kind, install, Scan(kind, install, order)));
    }
  }

  /** Uniform candidates: all not nightly or, except for latest Z, all nightly. */
  ghost predicate Uniform(kind: Kind, install: Version, groups: Edges) {
    || (forall v | IsCandidate(kind, install, groups, v) :: !TextIsNightly(v))
    || (kind != LatestZ && forall v | IsCandidate(kind, install, groups, v) :: TextIsNightly(v))
  }

  lemma UniformIsSettled(kind: Kind, install: Version, groups: Edges)
    requires Uniform(kind, install, groups)
    ensures Settled(kind, install, groups) || (kind != LatestZ && !SomethingAbove(kind, install, groups))
  {
    var order := AnyOrder(groups);
    TopIsBounds(kind, install, groups, order);
    var t := TopExists(kind, install, order);
    assert Top(kind, install, groups, t);
    if forall v | IsCandidate(kind, install, groups, v) :: !TextIsNightly(v) {
      forall j | 0 <= j < |groups|
        ensures !HasNightly(kind, install, groups[j])
      {
        if v :| v in groups[j] && Eligible(kind, install, v) && TextIsNightly(v) {
          assert IsCandidate(kind, install, groups, v);
        }
      }
    } else if SomethingAbove(kind, install, groups) {
      assert t != install;
      assert IsCandidate(kind, install, groups, t);
    }
  }

  /** Candidates that are all nightly or all not nightly never make latest or latest Y depend on map order;
      latest Z is safe from it if no candidate is nightly. */
  lemma UniformCandidatesAreSafe(kind: Kind, install: Version, groups: Edges, r: Result<Version, UpgradeError>)
    requires Uniform(kind, install, groups) && Possible(kind, install, groups, r)
    ensures Right(kind, install, groups, r)
  {
    UniformIsSettled(kind, install, groups);
    EveryAnswerIsRight(kind, install, groups);
  }

  // ---------- in terms of the list ----------

  /** v is an upgrade of an entry with the numbers of the installed version, of the minor stream the selector is for. */
  ghost predicate Offered(kind: Kind, install: Version, list: VersionList, v: Version) {
    && (kind == LatestY ==> v.minor == install.minor + 1)
    && (kind == LatestZ ==> v.minor == install.minor)
    && exists x | x in list.available ::
      && x.version.major == install.major && x.version.minor == install.minor && x.version.patch == install.patch
      && v in x.upgrades
  }

  lemma OfferedAreCandidates(kind: Kind, install: Version, list: VersionList, v: Version)
    ensures IsCandidate(kind, install, EdgesOf(list, install), v) <==> Offered(kind, install, list, v)
  {
    var found := Filter(list.available, SameNumbers(install));
    var groups := EdgesOf(list, install);
    forall x
      ensures x in found <==> x in list.available && SameNumbers(install)(x)
    {
      FilterMember(list.available, SameNumbers(install), x);
    }
    if j :| 0 <= j < |groups| && v in groups[j] {
      assert found[j] in found && v in found[j].upgrades;
    }
    if x :| x in found && v in x.upgrades {
      var j :| 0 <= j < |found| && found[j] == x;
      assert v in groups[j];
    }
  }

  /** A selector answers with an offered upgrade only. */
  lemma AnswersAreOffered(kind: Kind, install: Version, list: VersionList, r: Result<Version, UpgradeError>)
    requires Possible(kind, install, EdgesOf(list, install), r) && r.Ok?
    ensures Offered(kind, install, list, r.value)
  {
    var groups := EdgesOf(list, install);
    var order :| IsOrder(groups, order) && r == Decide(kind, install, Scan(kind, install, order));
    ScanMember(kind, install, order);
    OrderMembers(groups, order);
    PrecedenceIsStrictWeak();
    OfferedAreCandidates(kind, install, list, r.value);
  }

  /** If no offered upgrade is nightly, or for latest and latest Y all are: an error exactly if none is above the installed
      version, and otherwise an offered upgrade above it that none is above. */
  lemma UniformAnswers(kind: Kind, install: Version, list: VersionList, r: Result<Version, UpgradeError>)
    requires Possible(kind, install, EdgesOf(list, install), r)
    requires (forall v | Offered(kind, install, list, v) :: !TextIsNightly(v))
          || (kind != LatestZ && forall v | Offered(kind, install, list, v) :: TextIsNightly(v))
    ensures r.Ok? <==> exists v :: Offered(kind, install, list, v) && Less(install, v)
    ensures r.Ok? ==>
      && Offered(kind, install, list, r.value) && Less(install, r.value)
      && forall v | Offered(kind, install, list, v) :: !Less(r.value, v)
  {
    var groups := EdgesOf(list, install);
    forall v
      ensures IsCandidate(kind, install, groups, v) <==> Offered(kind, install, list, v)
    {
      OfferedAreCandidates(kind, install, list, v);
    }
    assert Uniform(kind, install, groups);
    UniformCandidatesAreSafe(kind, install, groups, r);
    PrecedenceIsStrictWeak();
  }

  /** Number k is an edge above the installed version, every edge visited before it is below it, and none is above it. */
  ghost predicate FirstOfGreatest(kind: Kind, install: Version, order: seq<Version>, k: nat) {
    && k < |order| && Eligible(kind, install, order[k]) && Less(install, order[k])
    && forall j | 0 <= j < |order| && Eligible(kind, install, order[j]) ::
      !Less(order[k], order[j]) && (j < k ==> Less(order[j], order[k]))
  }

  /** Of edges of equal precedence that are not nightly the one visited first is kept. */
  lemma {:induction false} PlainScanKeepsTheFirst(kind: Kind, install: Version, order: seq<Version>) returns (k: nat)
    requires forall v | v in order && Eligible(kind, install, v) :: !TextIsNightly(v)
    ensures if Scan(kind, install, order) == install then forall v | v in order && Eligible(kind, install, v) :: !Less(install, v)
            else FirstOfGreatest(kind, install, order, k) && order[k] == Scan(kind, install, order)
  {
    k := 0;
    if order != [] {
      PrecedenceIsStrictWeak();
      var front, v := order[..|order| - 1], order[|order| - 1];
      assert order == front + [v];
      k := PlainScanKeepsTheFirst(kind, install, front);
      var newest := Scan(kind, install, front);
      if Eligible(kind, install, v) && Takes(newest, v) {
        k := |front|;
        forall j | 0 <= j < |front| && Eligible(kind, install, front[j])
          ensures Less(front[j], v)
        {
          assert newest == install ==> front[j] in front;
        }
      }
    }
  }

  // ---------- examples ----------

  lemma OneGroup(order: seq<Version>)
    ensures IsOrder([multiset(order)], order)
  {
    assert [multiset(order)][..0] == [] && IsOrder([], []) && [] + order == order;
    AppendGroup([multiset(order)], [], order);
  }

  lemma OnlyOrder(edge: Version)
    ensures IsOrder([multiset{edge}], [edge])
  {
    OneGroup([edge]);
    assert multiset([edge]) == multiset{edge};
  }

  lemma ScanOfTwo(kind: Kind, install: Version, v: Version, w: Version)
    requires Eligible(kind, install, v) && Eligible(kind, install, w)
    ensures Scan(kind, install, [v, w]) ==
      var newest := if Takes(install, v) then v else install; if Takes(newest, w) then w else newest
  {
    ScanStep(kind, install, [], v);
    assert [] + [v] == [v];
    ScanStep(kind, install, [v], w);
    assert [v] + [w] == [v, w];
  }

  /** For latest and latest Y, of a nightly and a higher version that is none in one edge map both are possible answers. */
  lemma MixedAnswers(kind: Kind, install: Version, high: Version, low: Version)
    requires kind != LatestZ && Eligible(kind, install, high) && Eligible(kind, install, low)
    requires Less(install, low) && Less(low, high)
    requires !TextIsNightly(install) && !TextIsNightly(high) && TextIsNightly(low)
    ensures Possible(kind, install, [multiset{high, low}], Ok(high)) && Possible(kind, install, [multiset{high, low}], Ok(low))
  {
    CompareTransitive(install, low, high);
    OneGroup([high, low]);
    OneGroup([low, high]);
    assert multiset([low, high]) == multiset([high, low]) == multiset{high, low};
    ScanOfTwo(kind, install, high, low);
    ScanOfTwo(kind, install, low, high);
  }

  lemma CandidatesOfTwo(kind: Kind, install: Version, v: Version, w: Version)
    requires Eligible(kind, install, v) && Eligible(kind, install, w)
    ensures forall x :: IsCandidate(kind, install, [multiset{v, w}], x) <==> x == v || x == w
  {
    assert v in [multiset{v, w}][0] && w in [multiset{v, w}][0];
  }

  lemma MixedRight(kind: Kind, install: Version, high: Version, low: Version)
    requires Eligible(kind, install, high) && Eligible(kind, install, low) && Less(install, low) && Less(low, high)
    ensures Right(kind, install, [multiset{high, low}], Ok(high)) && !Right(kind, install, [multiset{high, low}], Ok(low))
  {
    PrecedenceIsStrictWeak();
    CandidatesOfTwo(kind, install, high, low);
    assert IsCandidate(kind, install, [multiset{high, low}], high) && Less(install, high);
  }

  lemma NotNightly(v: Version)
    requires |v.original| < 7
    ensures !TextIsNightly(v)
  {
  }

  /** So for latest and latest Y if 4.1.0 is installed with edges to 4.2.5 and to 4.2.1 nightly. */
  lemma MixedExample(kind: Kind) returns (install: Version, high: Version, low: Version)
    requires kind != LatestZ
    ensures install.original == "4.1.0" && high.original == "4.2.5" && low.original == "4.2.1-nightly"
    ensures Less(install, low) && Less(low, high)
    ensures Possible(kind, install, [multiset{high, low}], Ok(high)) && Right(kind, install, [multiset{high, low}], Ok(high))
    ensures Possible(kind, install, [multiset{high, low}], Ok(low)) && !Right(kind, install, [multiset{high, low}], Ok(low))
  {
    install := Version(4, 1, 0, [], "4.1.0");
    high := Version(4, 2, 5, [], "4.2.5");
    low := Version(4, 2, 1, [Alphanumeric("nightly")], "4.2.1-nightly");
    assert TextIsNightly(low) by {
      assert HasPrefix(low.original[6..], "nightly");
    }
    NotNightly(install);
    NotNightly(high);
    MixedAnswers(kind, install, high, low);
    MixedRight(kind, install, high, low);
  }

  lemma DownIsWrong(install: Version, edge: Version)
    requires Less(edge, install)
    ensures !Right(LatestZ, install, [multiset{edge}], Ok(edge))
  {
    PrecedenceIsStrictWeak();
  }

  /** With nightlies, latest Z can go down: 4.2.3 is installed and 4.2.1 nightly is its only edge. */
  lemma LatestZCanGoDown() returns (install: Version, edge: Version)
    ensures Less(edge, install)
    ensures Possible(LatestZ, install, [multiset{edge}], Ok(edge)) && !Right(LatestZ, install, [multiset{edge}], Ok(edge))
  {
    install := Version(4, 2, 3, [], "4.2.3");
    edge := Version(4, 2, 1, [Alphanumeric("nightly")], "4.2.1-nightly");
    assert TextIsNightly(edge) by {
      assert HasPrefix(edge.original[6..], "nightly");
    }
    assert !TextIsNightly(install) by {
      assert forall i | 0 <= i <= |install.original| :: !HasPrefix(install.original[i..], "nightly");
    }
    ScanStep(LatestZ, install, [], edge);
    assert [] + [edge] == [edge];
    OnlyOrder(edge);
    DownIsWrong(install, edge);
  }
}
