/** Releases with their upgrade edges, and the provider's list of them (pkg/common/spi/version.go). */
module Spi {
  import opened Seqs
  import opened Semver

  /** The upgrade edges are the keys of a map from version pointers: unordered, and possibly equal as versions. */
  datatype Release = Release(version: Version, upgrades: multiset<Version>, isDefault: bool)

  datatype VersionList = VersionList(available: seq<Release>, defaultOverride: Option<Version>)

  function SameNumbers(v: Version): Release -> bool {
    (r: Release) => r.version.major == v.major && r.version.minor == v.minor && r.version.patch == v.patch
  }

  /** All releases with the numbers of v, in list order. The text the source parses here
      is the original text of v itself. */
  method FindVersion(list: VersionList, v: Version) returns (found: seq<Release>)
    ensures found == Filter(list.available, SameNumbers(v))
    ensures forall r :: r in found <==>
      r in list.available && r.version.major == v.major && r.version.minor == v.minor && r.version.patch == v.patch
  {
    found := [];
    for i := 0 to |list.available|
      invariant found == Filter(list.available[..i], SameNumbers(v))
    {
      FilterStep(list.available, SameNumbers(v), i);
      if SameNumbers(v)(list.available[i]) {
        found := found + [list.available[i]];
      }
    }
    assert list.available == list.available[..|list.available|];
    forall r
      ensures r in found <==> r in list.available && SameNumbers(v)(r)
    {
      FilterMember(list.available, SameNumbers(v), r);
    }
  }

  /** The override if there is one, or the first default. */
  function Default(list: VersionList): (d: Option<Version>)
    ensures list.defaultOverride.Some? ==> d == list.defaultOverride
    ensures list.defaultOverride.None? && d.Some? ==>
      exists k | 0 <= k < |list.available| ::
        list.available[k].isDefault && d.value == list.available[k].version
        && forall j | 0 <= j < k :: !list.available[j].isDefault
    ensures d.None? ==> forall r | r in list.available :: !r.isDefault
    decreases |list.available|
  {
    if list.defaultOverride.Some? then list.defaultOverride
    else if list.available == [] then None
    else if list.available[0].isDefault then Some(list.available[0].version)
    else Default(list.(available := list.available[1..]))
  }
}
