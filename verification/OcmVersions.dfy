/** Paging through the versions endpoint (pkg/common/providers/ocmprovider/versions.go), and the
    selector that takes the first match of the list (pkg/common/versions/installselectors/latest_xy.go). */
module OcmVersions {
  import opened Seqs
  import opened Semver
  import opened Sorting
  import opened Spi

  const PAGE_SIZE: nat := 100

  /** An item of the endpoint: its version if the id parses, and those of its upgrades that parse. */
  datatype Item = Item(version: Option<Version>, enabled: bool, channel: string, isDefault: bool, upgrades: multiset<Version>)

  /** What the server answers for page `page` (from 1) of its items. */
  function Page<T>(items: seq<T>, page: nat): (p: seq<T>)
    requires page >= 1
  {
    var low, high := (page - 1) * PAGE_SIZE, page * PAGE_SIZE;
    if |items| <= low then [] else if |items| <= high then items[low..] else items[low..high]
  }

  function Admissible(channel: string): Item -> bool {
    (i: Item) => i.version.Some? && i.enabled && (i.channel == "stable" || i.channel == channel)
  }

  function Releases(items: seq<Item>, channel: string): seq<Release> {
    if items == [] then []
    else
      var front, i := Releases(items[..|items| - 1], channel), items[|items| - 1];
      if Admissible(channel)(i) then front + [Release(i.version.value, i.upgrades, i.isDefault)] else front
  }

  lemma {:induction false} ReleasesConcat(s: seq<Item>, t: seq<Item>, channel: string)
    ensures Releases(s + t, channel) == Releases(s, channel) + Releases(t, channel)
  {
    if t == [] {
      assert s + t == s;
    } else {
      assert (s + t)[..|s + t| - 1] == s + t[..|t| - 1];
      ReleasesConcat(s, t[..|t| - 1], channel);
    }
  }

  /** One release for each admissible item, and from no other. */
  lemma {:induction false} ReleasesMean(items: seq<Item>, channel: string)
    ensures |Releases(items, channel)| == |Filter(items, Admissible(channel))|
    ensures forall x :: x in Releases(items, channel) <==>
      exists i | i in items ::
        && i.version == Some(x.version) && i.upgrades == x.upgrades && i.isDefault == x.isDefault
        && i.enabled && (i.channel == "stable" || i.channel == channel)
  {
    if items == [] {
    } else {
      ReleasesMean(items[..|items| - 1], channel);
      assert items == items[..|items| - 1] + [items[|items| - 1]];
    }
  }

  predicate GreaterRelease(x: Release, y: Release) { Less(y.version, x.version) }

  /** The pages a run asks for: all of them, and at least one. */
  function PageCount(total: nat): (n: nat)
    ensures n >= 1 && (n - 1) * PAGE_SIZE <= total <= n * PAGE_SIZE
    ensures n > 1 ==> (n - 1) * PAGE_SIZE < total
  {
    if total == 0 then 1 else (total + PAGE_SIZE - 1) / PAGE_SIZE
  }

  /** What happens on the pages that are asked for: `requests` of them succeed, or the last of them fails. */
  predicate Requested(items: seq<Item>, failing: set<nat>, ok: bool, requests: nat) {
    && 1 <= requests <= PageCount(|items|) && (forall p | 1 <= p < requests :: p !in failing)
    && (if ok then requests == PageCount(|items|) && requests !in failing else requests in failing)
  }

  /** The items of the first pages. */
  function Seen<T>(items: seq<T>, pages: nat): seq<T> {
    if |items| <= pages * PAGE_SIZE then items else items[..pages * PAGE_SIZE]
  }

  /** A page continues where the one before it ended, and the last one ends the items. */
  lemma PageStep<T>(items: seq<T>, page: nat)
    requires 1 <= page <= PageCount(|items|)
    ensures Seen(items, page - 1) + Page(items, page) == Seen(items, page)
    ensures page * PAGE_SIZE >= |items| <==> page == PageCount(|items|)
    ensures page * PAGE_SIZE >= |items| ==> Seen(items, page) == items
  {
  }

  lemma PageReleases(items: seq<Item>, page: nat, channel: string)
    requires 1 <= page <= PageCount(|items|)
    ensures Releases(Seen(items, page - 1), channel) + Releases(Page(items, page), channel) == Releases(Seen(items, page), channel)
    ensures page * PAGE_SIZE >= |items| <==> page == PageCount(|items|)
    ensures page == PageCount(|items|) ==> Seen(items, page) == items
  {
    PageStep(items, page);
    ReleasesConcat(Seen(items, page - 1), Page(items, page), channel);
  }

  /** The releases of the admissible items of one answer. */
  method Collect(answer: seq<Item>, channel: string) returns (releases: seq<Release>)
    ensures releases == Releases(answer, channel)
  {
    releases := [];
    for i := 0 to |answer|
      invariant releases == Releases(answer[..i], channel)
    {
      assert answer[..i + 1][..i] == answer[..i];
      var item := answer[i];
      if item.version.Some? && item.enabled {
        if item.channel == "stable" || item.channel == channel {
          releases := releases + [Release(item.version.value, item.upgrades, item.isDefault)];
        }
      }
    }
    assert answer[..|answer|] == answer;
  }

  /** The paging loop. `failing` are the pages whose request fails after all retries. */
  method AllPages(items: seq<Item>, channel: string, failing: set<nat>) returns (versions: Option<seq<Release>>, requests: nat)
    ensures Requested(items, failing, versions.Some?, requests)
    ensures versions.Some? ==> versions.value == Releases(items, channel)
  {
    var found := [];
    var page := 1;
    while true
      invariant 1 <= page <= PageCount(|items|)
      invariant found == Releases(Seen(items, page - 1), channel)
      invariant forall p | 1 <= p < page :: p !in failing
      decreases PageCount(|items|) - page
    {
      if page in failing {
        return None, page;
      }
      var answer := Page(items, page);
      PageReleases(items, page, channel);
      var more := Collect(answer, channel);
      found := found + more;
      if page * PAGE_SIZE >= |items| {
        return Some(found), page;
      }
      page := page + 1;
    }
  }

  lemma GreaterReleaseIsStrictWeak()
    ensures StrictWeak(GreaterRelease)
  {
    PrecedenceIsStrictWeak();
  }

  method Versions(items: seq<Item>, channel: string, failing: set<nat>) returns (r: Option<seq<Release>>, requests: nat)
    ensures r.Some? <==> forall p | 1 <= p <= PageCount(|items|) :: p !in failing
    ensures Requested(items, failing, r.Some?, requests)
    ensures r.Some? ==> multiset(r.value) == multiset(Releases(items, channel)) && SortedBy(GreaterRelease, r.value)
    ensures r.Some? ==> requests == 1 || (requests - 1) * 100 < |items|
    ensures r.Some? ==> |items| <= requests * 100
    ensures r.Some? ==> |r.value| == |Filter(items, Admissible(channel))|
    ensures r.Some? ==> forall x :: x in r.value <==>
      exists i | i in items ::
        && i.version == Some(x.version) && i.upgrades == x.upgrades && i.isDefault == x.isDefault
        && i.enabled && (i.channel == "stable" || i.channel == channel)
    ensures r.Some? ==> forall i, j | 0 <= i < j < |r.value| :: !Less(r.value[i].version, r.value[j].version)
  {
    var versions;
    versions, requests := AllPages(items, channel, failing);
    if versions.None? {
      return None, requests;
    }
    GreaterReleaseIsStrictWeak();
    ReleasesMean(items, channel);
    var sorted := SortSlice(GreaterRelease, versions.value);
    SameMembers(sorted, versions.value);
    assert |sorted| == |multiset(sorted)| == |versions.value|;
    r := Some(sorted);
  }

  /** The first release of X.Y. */
  function FirstMatch(list: seq<Release>, major: nat, minor: nat): Option<Version> {
    if list == [] then None
    else if list[0].version.major == major && list[0].version.minor == minor then Some(list[0].version)
    else FirstMatch(list[1..], major, minor)
  }

  lemma {:induction false} FirstMatchIsGreatest(list: seq<Release>, major: nat, minor: nat)
    requires SortedBy(GreaterRelease, list)
    ensures
      var m := FirstMatch(list, major, minor);
      && (m.None? <==> forall r | r in list :: r.version.major != major || r.version.minor != minor)
      && (m.Some? ==>
            && (exists r | r in list :: r.version == m.value)
            && m.value.major == major && m.value.minor == minor
            && forall r | r in list && r.version.major == major && r.version.minor == minor :: !Less(m.value, r.version))
  {
    if list == [] {
    } else {
      FirstMatchIsGreatest(list[1..], major, minor);
      assert list == [list[0]] + list[1..];
      CompareMirror(list[0].version, list[0].version);
      assert forall i | 0 < i < |list| :: !Less(list[0].version, list[i].version);
    }
  }

  predicate IsOf(i: Item, channel: string, major: nat, minor: nat) {
    Admissible(channel)(i) && i.version.value.major == major && i.version.value.minor == minor
  }

  lemma {:induction false} ReleasesMembers(items: seq<Item>, channel: string)
    ensures forall i | i in items && Admissible(channel)(i) ::
      Release(i.version.value, i.upgrades, i.isDefault) in Releases(items, channel)
    ensures forall r | r in Releases(items, channel) ::
      exists i | i in items :: Admissible(channel)(i) && r == Release(i.version.value, i.upgrades, i.isDefault)
  {
    if items == [] {
    } else {
      var front := items[..|items| - 1];
      assert items == front + [items[|items| - 1]];
      ReleasesMembers(front, channel);
    }
  }

  /** Latest X.Y over the list that Versions returns finds a greatest admissible release of X.Y of all
      pages, and nothing only if there is none. */
  lemma LatestXYOverAllPages(items: seq<Item>, channel: string, list: seq<Release>, major: nat, minor: nat)
    requires multiset(list) == multiset(Releases(items, channel)) && SortedBy(GreaterRelease, list)
    ensures
      var m := FirstMatch(list, major, minor);
      && (m.None? <==> forall i | i in items :: !IsOf(i, channel, major, minor))
      && (m.Some? ==>
            && (exists i | i in items :: IsOf(i, channel, major, minor) && i.version.value == m.value)
            && forall i | i in items && IsOf(i, channel, major, minor) :: !Less(m.value, i.version.value))
  {
    FirstMatchIsGreatest(list, major, minor);
    SameMembers(list, Releases(items, channel));
    ReleasesMembers(items, channel);
  }
}
