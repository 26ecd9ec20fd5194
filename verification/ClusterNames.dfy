/** How the cleanup recognises the resources of active clusters by name (pkg/common/aws), and how
    cluster names are made (pkg/common/cluster/clusterutil.go, pkg/common/util/util.go). */
module ClusterNames {
  import opened Seqs
  import opened Text

  const PREFIX := "osde2e-"

  predicate DashFree(s: string) { '-' !in s }

  predicate Findable(suffix: string) { suffix != "" && DashFree(suffix) }

  /** A cluster name that the matchers can find again. */
  predicate FindableName(c: string) { HasPrefix(c, PREFIX) && Findable(c[|PREFIX|..]) }

  function FirstDash(s: string): (k: nat)
    ensures k <= |s| && DashFree(s[..k]) && (k < |s| ==> s[k] == '-')
  {
    if s == "" || s[0] == '-' then 0
    else
      var k := FirstDash(s[1..]);
      assert s[..k + 1] == [s[0]] + s[1..][..k];
      k + 1
  }

  /** What is in front of the first dash. */
  function FirstPart(s: string): (part: string)
    ensures DashFree(part) && HasPrefix(s, part) && (DashFree(s) ==> part == s)
  {
    s[..FirstDash(s)]
  }

  lemma {:induction false} DashAt(a: string, b: string)
    ensures FirstDash(a + "-" + b) == FirstDash(a)
  {
    if a == "" || a[0] == '-' {
    } else {
      assert (a + "-" + b)[1..] == a[1..] + "-" + b;
      DashAt(a[1..], b);
    }
  }

  // ---------- ^(osde2e-[^-]+)- ----------

  /** The first group of the pattern ^(osde2e-[^-]+)- in name. */
  function Leading(name: string): Option<string> {
    if !HasPrefix(name, PREFIX) then None
    else
      var k := FirstDash(name[|PREFIX|..]);
      if 0 < k < |name| - |PREFIX| then Some(name[..|PREFIX| + k]) else None
  }

  /** What is found in osde2e-s-rest. */
  lemma LeadingFinds(s: string, rest: string)
    ensures Leading(PREFIX + s + "-" + rest) == if FirstPart(s) == "" then None else Some(PREFIX + FirstPart(s))
  {
    var name := PREFIX + s + "-" + rest;
    assert name[|PREFIX|..] == s + "-" + rest;
    DashAt(s, rest);
    assert name[..|PREFIX| + FirstDash(s)] == PREFIX + FirstPart(s);
  }

  /** The name of an instance or a bucket of the cluster c. */
  predicate NameOf(name: string, c: string) { FindableName(c) && HasPrefix(name, c + "-") }

  /** The pattern matches exactly the names osde2e-s-rest with a findable s, and finds osde2e-s. */
  lemma LeadingMeans(name: string, c: string)
    ensures Leading(name) == Some(c) <==> NameOf(name, c)
  {
    if Leading(name) == Some(c) {
      var k := FirstDash(name[|PREFIX|..]);
      assert c[|PREFIX|..] == name[|PREFIX|..][..k];
      assert name[|PREFIX|..][k] == '-';
      assert name[..|PREFIX| + k + 1] == c + "-";
    }
    if NameOf(name, c) {
      var s, rest := c[|PREFIX|..], name[|c| + 1..];
      assert c == PREFIX + s && name == c + "-" + rest;
      LeadingFinds(s, rest);
    }
  }

  /** isEC2InstanceFromActiveCluster and isS3BucketFromActiveCluster. */
  predicate ActiveLeading(name: string, active: set<string>) {
    Leading(name).Some? && Leading(name).value in active
  }

  /** For every name and every active set. */
  lemma ActiveLeadingMeans(name: string, active: set<string>)
    ensures ActiveLeading(name, active) <==> exists c | c in active :: NameOf(name, c)
  {
    forall c
      ensures Leading(name) == Some(c) <==> NameOf(name, c)
    {
      LeadingMeans(name, c);
    }
  }

  /** A cluster's instances and buckets are recognised whatever else is active exactly if its name is findable. */
  lemma InstanceAndBucketNames(c: string, rest: string)
    ensures (forall active | c in active :: ActiveLeading(c + "-" + rest, active)) <==> FindableName(c)
  {
    var name := c + "-" + rest;
    LeadingMeans(name, c);
    assert name[..|c + "-"|] == c + "-";
    assert ActiveLeading(name, {c}) <==> FindableName(c);
  }

  /** For names osde2e-s with any s it is the name of the first part that has to be active. */
  lemma DashedNames(s: string, rest: string, active: set<string>)
    ensures ActiveLeading(PREFIX + s + "-" + rest, active) <==> FirstPart(s) != "" && PREFIX + FirstPart(s) in active
  {
    LeadingFinds(s, rest);
  }

  // ---------- ^(osde2e-[^-]+)-oidc- ----------

  /** isOIDCProviderFromActiveCluster. */
  predicate ActiveOidc(url: string, active: set<string>) {
    && Leading(url).Some?
    && HasPrefix(url[|Leading(url).value|..], "-oidc-")
    && Leading(url).value in active
  }

  /** The url of a provider of the cluster c. */
  predicate UrlOf(url: string, c: string) { FindableName(c) && HasPrefix(url, c + "-oidc-") }

  lemma OidcMeans(url: string, c: string)
    ensures Leading(url) == Some(c) && HasPrefix(url[|c|..], "-oidc-") <==> UrlOf(url, c)
  {
    LeadingMeans(url, c);
    if UrlOf(url, c) {
      assert url[..|c| + 1] == url[..|c| + 6][..|c| + 1] && (c + "-oidc-")[..|c| + 1] == c + "-";
      assert url[|c|..][..6] == url[..|c| + 6][|c|..] && (c + "-oidc-")[|c|..] == "-oidc-";
    }
    if NameOf(url, c) && HasPrefix(url[|c|..], "-oidc-") {
      assert url[..|c|] == url[..|c| + 1][..|c|] == c;
      assert url[..|c| + 6] == url[..|c|] + url[|c|..][..6];
    }
  }

  lemma ActiveOidcMeans(url: string, active: set<string>)
    ensures ActiveOidc(url, active) <==> exists c | c in active :: UrlOf(url, c)
  {
    if ActiveOidc(url, active) {
      OidcMeans(url, Leading(url).value);
    }
    forall c | UrlOf(url, c)
      ensures Leading(url) == Some(c) && HasPrefix(url[|c|..], "-oidc-")
    {
      OidcMeans(url, c);
    }
  }

  lemma OidcUrls(c: string, rest: string)
    ensures (forall active | c in active :: ActiveOidc(c + "-oidc-" + rest, active)) <==> FindableName(c)
  {
    var url := c + "-oidc-" + rest;
    OidcMeans(url, c);
    assert url[..|c + "-oidc-"|] == c + "-oidc-";
    assert ActiveOidc(url, {c}) <==> FindableName(c);
  }

  /** Here oidc must follow the first part, too. */
  lemma DashedUrls(s: string, rest: string, active: set<string>)
    ensures ActiveOidc(PREFIX + s + "-oidc-" + rest, active) <==>
      && FirstPart(s) != "" && PREFIX + FirstPart(s) in active
      && HasPrefix(s[|FirstPart(s)|..] + "-oidc-", "-oidc-")
  {
    var url := PREFIX + s + "-oidc-" + rest;
    assert url == PREFIX + s + "-" + ("oidc-" + rest);
    LeadingFinds(s, "oidc-" + rest);
    var behind := s[|FirstPart(s)|..] + "-oidc-";
    assert url[|PREFIX + FirstPart(s)|..] == behind + rest;
    assert (behind + rest)[..6] == behind[..6];
  }

  // ---------- osde2e-[^-]+- anywhere ----------

  /** The leftmost match of osde2e-[^-]+- in text, without its last dash. */
  function Leftmost(text: string): Option<string> {
    if Leading(text).Some? then Leading(text)
    else if text == "" then None
    else Leftmost(text[1..])
  }

  /** isRoleFromActiveCluster. */
  predicate ActiveRole(arn: string, active: set<string>) {
    Leftmost(arn).Some? && Leftmost(arn).value in active
  }

  /** At i there is osde2e-s-rest with the name c of a cluster in front, and no such name further left. */
  predicate FirstAt(arn: string, c: string, i: nat) {
    i <= |arn| && NameOf(arn[i..], c) && forall j | 0 <= j < i :: Leading(arn[j..]).None?
  }

  /** The ARN of a role of the cluster c. */
  ghost predicate RoleOf(arn: string, c: string) { exists i: nat :: FirstAt(arn, c, i) }

  lemma {:induction false} LeftmostAt(arn: string, c: string, i: nat)
    requires FirstAt(arn, c, i)
    ensures Leftmost(arn) == Some(c)
  {
    assert arn[0..] == arn;
    if i == 0 {
      LeadingMeans(arn, c);
    } else {
      assert Leading(arn[0..]).None?;
      assert arn[1..][i - 1..] == arn[i..];
      forall j | 0 <= j < i - 1
        ensures Leading(arn[1..][j..]).None?
      {
        assert arn[1..][j..] == arn[j + 1..];
      }
      LeftmostAt(arn[1..], c, i - 1);
    }
  }

  lemma {:induction false} LeftmostIsFirst(arn: string, c: string) returns (i: nat)
    requires Leftmost(arn) == Some(c)
    ensures FirstAt(arn, c, i)
  {
    assert arn[0..] == arn;
    if Leading(arn).Some? {
      LeadingMeans(arn, c);
      i := 0;
    } else {
      var k := LeftmostIsFirst(arn[1..], c);
      i := k + 1;
      assert arn[1..][k..] == arn[i..];
      forall j | 0 <= j < i
        ensures Leading(arn[j..]).None?
      {
        if j > 0 {
          assert arn[1..][j - 1..] == arn[j..];
        }
      }
    }
  }

  lemma LeftmostMeans(arn: string, c: string)
    ensures Leftmost(arn) == Some(c) <==> RoleOf(arn, c)
  {
    if Leftmost(arn) == Some(c) {
      var i := LeftmostIsFirst(arn, c);
    }
    if i: nat :| FirstAt(arn, c, i) {
      LeftmostAt(arn, c, i);
    }
  }

  lemma ActiveRoleMeans(arn: string, active: set<string>)
    ensures ActiveRole(arn, active) <==> exists c | c in active :: RoleOf(arn, c)
  {
    forall c
      ensures Leftmost(arn) == Some(c) <==> RoleOf(arn, c)
    {
      LeftmostMeans(arn, c);
    }
  }

  lemma {:induction false} LeftmostBehind(front: string, text: string)
    requires forall i | 0 <= i < |front| :: Leading((front + text)[i..]).None?
    ensures Leftmost(front + text) == Leftmost(text)
  {
    if front == "" {
      assert front + text == text;
    } else {
      assert (front + text)[0..] == front + text && (front + text)[1..] == front[1..] + text;
      forall i | 0 <= i < |front[1..]|
        ensures Leading((front[1..] + text)[i..]).None?
      {
        assert (front[1..] + text)[i..] == (front + text)[i + 1..];
      }
      LeftmostBehind(front[1..], text);
    }
  }

  lemma NoPrefix(s: string, k: nat)
    requires k < |s| && k < |PREFIX| && s[k] != PREFIX[k]
    ensures !HasPrefix(s, PREFIX)
  {
    if |s| >= |PREFIX| {
      assert s[..|PREFIX|][k] == s[k];
    }
  }

  predicate AccountId(id: string) { forall i | 0 <= i < |id| :: IsDigit(id[i]) }

  function Arn(account: string, role: string): string { "arn:aws:iam::" + account + ":role/" + role }

  /** Nothing is found in front of the name of the role. */
  lemma ArnLeftmost(account: string, role: string)
    requires AccountId(account) && role != ""
    ensures Leftmost(Arn(account, role)) == Leftmost(role)
  {
    var front := "arn:aws:iam::" + account + ":role/";
    var arn := front + role;
    forall i | 0 <= i < |front|
      ensures Leading(arn[i..]).None?
    {
      var tail := ":role/";
      var at := i - 13 - |account|;
      assert i < 13 || (i < 13 + |account| && IsDigit(arn[i])) || (0 <= at < 6 && arn[i] == tail[at]);
      assert arn[i] == 'o' ==> at == 2 && arn[i + 1] == tail[3];
      NoPrefix(arn[i..], if arn[i] == 'o' then 1 else 0);
    }
    LeftmostBehind(front, role);
  }

  /** The same for the roles of a cluster, though the pattern is not anchored. */
  lemma RoleArnsExactly(account: string, c: string, rest: string)
    requires AccountId(account)
    ensures (forall active | c in active :: ActiveRole(Arn(account, c + "-" + rest), active)) <==> FindableName(c)
  {
    var role := c + "-" + rest;
    ArnLeftmost(account, role);
    if FindableName(c) {
      assert role[..|c + "-"|] == c + "-";
      LeadingMeans(role, c);
    } else if Leftmost(role) == Some(c) {
      var i := LeftmostIsFirst(role, c);
    }
    assert ActiveRole(Arn(account, role), {c}) <==> FindableName(c);
  }

  lemma LeftmostBehindPrefix(text: string)
    requires Leading(PREFIX + text).None?
    ensures Leftmost(PREFIX + text) == Leftmost(text)
  {
    assert (PREFIX + text)[0..] == PREFIX + text;
    forall i | 0 <= i < |PREFIX|
      ensures Leading((PREFIX + text)[i..]).None?
    {
      if i > 0 {
        NoPrefix((PREFIX + text)[i..], 0);
      }
    }
    LeftmostBehind(PREFIX, text);
  }

  /** Without a first part the search goes on behind osde2e-. */
  lemma DashedArns(account: string, s: string, rest: string, active: set<string>)
    requires AccountId(account)
    ensures ActiveRole(Arn(account, PREFIX + s + "-" + rest), active) <==>
      if FirstPart(s) != "" then PREFIX + FirstPart(s) in active else ActiveRole(s + "-" + rest, active)
  {
    var role := PREFIX + s + "-" + rest;
    ArnLeftmost(account, role);
    LeadingFinds(s, rest);
    if FirstPart(s) == "" {
      assert role == PREFIX + (s + "-" + rest);
      LeftmostBehindPrefix(s + "-" + rest);
    }
  }

  // ---------- ^(osde2e-[^-]+)-[^-]+-vpc$ ----------

  const VPC := "-vpc"

  /** getClusterNameFromVPCName: the name of the stack of a VPC. */
  function StackOf(vpcName: string): string {
    if Leading(vpcName).None? then vpcName
    else
      var cluster := Leading(vpcName).value;
      var rest := vpcName[|cluster| + 1..];
      if |rest| > |VPC| && rest[|rest| - |VPC|..] == VPC && DashFree(rest[..|rest| - |VPC|]) then cluster + VPC else vpcName
  }

  predicate ActiveVpc(vpcName: string, active: set<string>) {
    exists c | c in active :: StackOf(vpcName) == c + VPC
  }

  /** The name osde2e-a-b with findable a and b. */
  ghost predicate TwoParts(c: string) { exists d, b | FindableName(d) && Findable(b) :: c == d + "-" + b }

  /** The name of the VPC of the cluster c: c-x-vpc, or c-vpc if that is not d-x-vpc for another name d. */
  ghost predicate VpcOf(name: string, c: string) {
    || (FindableName(c) && exists middle | Findable(middle) :: name == c + "-" + (middle + VPC))
    || (name == c + VPC && !TwoParts(c))
  }

  lemma StackWithMiddle(c: string, middle: string)
    requires FindableName(c) && Findable(middle)
    ensures StackOf(c + "-" + (middle + VPC)) == c + VPC
  {
    var name := c + "-" + (middle + VPC);
    assert name[..|c + "-"|] == c + "-";
    LeadingMeans(name, c);
    assert name[|c| + 1..] == middle + VPC;
    assert (middle + VPC)[..|middle|] == middle && (middle + VPC)[|middle|..] == VPC;
  }

  lemma StackParts(name: string) returns (c: string, middle: string)
    requires StackOf(name) != name
    ensures FindableName(c) && Findable(middle) && name == c + "-" + (middle + VPC) && StackOf(name) == c + VPC
  {
    c := Leading(name).value;
    LeadingMeans(name, c);
    var rest := name[|c| + 1..];
    middle := rest[..|rest| - |VPC|];
    assert rest == middle + VPC;
    assert name == c + "-" + rest;
  }

  lemma CancelVpc(x: string, y: string)
    requires x + VPC == y + VPC
    ensures x == y
  {
    assert (x + VPC)[..|x|] == x && (y + VPC)[..|y|] == y;
  }

  lemma StackIffTwoParts(c: string)
    ensures StackOf(c + VPC) != c + VPC <==> TwoParts(c)
  {
    if StackOf(c + VPC) != c + VPC {
      var d, b := StackParts(c + VPC);
      ConcatAssociative(d + "-", b, VPC);
      CancelVpc(c, d + "-" + b);
    }
    if d, b :| FindableName(d) && Findable(b) && c == d + "-" + b {
      ConcatAssociative(d + "-", b, VPC);
      StackWithMiddle(d, b);
      assert |d + VPC| < |c + VPC|;
    }
  }

  lemma StackMeans(name: string, c: string)
    ensures StackOf(name) == c + VPC <==> VpcOf(name, c)
  {
    if name == c + VPC {
      StackIffTwoParts(c);
    }
    if StackOf(name) != name {
      var d, middle := StackParts(name);
      if d + VPC == c + VPC {
        CancelVpc(c, d);
      }
    }
    if middle :| FindableName(c) && Findable(middle) && name == c + "-" + (middle + VPC) {
      StackWithMiddle(c, middle);
    }
  }

  lemma ActiveVpcMeans(name: string, active: set<string>)
    ensures ActiveVpc(name, active) <==> exists c | c in active :: VpcOf(name, c)
  {
    forall c
      ensures StackOf(name) == c + VPC <==> VpcOf(name, c)
    {
      StackMeans(name, c);
    }
  }

  /** The VPC c-vpc of a cluster is recognised whatever else is active unless its name is osde2e-a-b with findable a and b. */
  lemma VpcNames(c: string)
    ensures (forall active | c in active :: ActiveVpc(c + VPC, active)) <==> !TwoParts(c)
  {
    StackMeans(c + VPC, c);
    assert ActiveVpc(c + VPC, {c}) <==> StackOf(c + VPC) == c + VPC;
  }

  /** The VPC c-x-vpc is exactly if the name and x are findable. */
  lemma VpcNamesWithMiddle(c: string, middle: string)
    ensures (forall active | c in active :: ActiveVpc(c + "-" + (middle + VPC), active)) <==>
      FindableName(c) && Findable(middle)
  {
    var name := c + "-" + (middle + VPC);
    StackMeans(name, c);
    forall x | name == c + "-" + (x + VPC)
      ensures x == middle
    {
      assert name[|c| + 1..] == x + VPC && name[|c| + 1..] == middle + VPC;
      CancelVpc(x, middle);
    }
    assert ActiveVpc(name, {c}) <==> StackOf(name) == c + VPC;
  }

  /** osde2e-a-b-image is taken for a bucket of osde2e-a, and nothing is recognised of a cluster called app. */
  lemma MistakenNames()
    ensures !ActiveLeading("osde2e-a-b-image", {"osde2e-a-b"})
    ensures ActiveLeading("osde2e-a-b-image", {"osde2e-a-b", "osde2e-a"})
    ensures !ActiveLeading("app-x-master-0", {"app"})
  {
    LeadingFinds("a", "b-image");
    assert PREFIX + "a" + "-" + "b-image" == "osde2e-a-b-image" && PREFIX + "a" == "osde2e-a";
  }

  /** osde2e-a-b-vpc is taken for the VPC of osde2e-a, and osde2e-a-b-c-x-vpc is not recognised as that of osde2e-a-b-c. */
  lemma MistakenVpcs()
    ensures !ActiveVpc("osde2e-a-b-vpc", {"osde2e-a-b"}) && ActiveVpc("osde2e-a-b-vpc", {"osde2e-a-b", "osde2e-a"})
    ensures !ActiveVpc("osde2e-a-b-c-x-vpc", {"osde2e-a-b-c"})
  {
    StackWithMiddle("osde2e-a", "b");
    assert "osde2e-a" + "-" + ("b" + VPC) == "osde2e-a-b-vpc";
    StackMeans("osde2e-a-b-c-x-vpc", "osde2e-a-b-c");
    assert "osde2e-a-b-c"[|PREFIX|..] == "a-b-c" && "a-b-c"[1] == '-';
  }

  // ---------- generated names ----------

  const ALPHABET := "0123456789abcdefghijklmnopqrstuvwxyz"

  /** `picks` are the answers of rand.Intn(36). */
  method RandomStr(length: nat, picks: nat -> nat) returns (str: string)
    requires forall i :: picks(i) < |ALPHABET|
    ensures |str| == length && forall i | 0 <= i < length :: str[i] == ALPHABET[picks(i)]
    ensures DashFree(str)
  {
    str := "";
    for i := 0 to length
      invariant |str| == i && forall k | 0 <= k < i :: str[k] == ALPHABET[picks(k)]
      invariant DashFree(str)
    {
      assert ALPHABET[picks(i)] != '-';
      str := str + [ALPHABET[picks(i)]];
    }
  }

  const PREFIXES := ["prod", "stg", "int", "p", "i", "s", "pre"]
  const NAMES := [
    "app", "db", "cache", "ocp", "openshift", "store", "control", "swap", "testing", "application", "user", "customer", "cust",
    "osd", "dedicated"]
  const SUFFIXES := ["0", "1", "2", "3", "5", "8", "13", "temp", "final"]

  /** What is drawn for one random name. */
  datatype Draw = Draw(doPrefix: bool, doSuffix: bool, name: string, prefix: string, suffix: string)

  predicate Drawable(d: Draw) { d.name in NAMES && d.prefix in PREFIXES && d.suffix in SUFFIXES }

  function Drawn(d: Draw): string {
    var name := if d.doPrefix && |d.name| <= 10 then d.prefix + "-" + d.name else d.name;
    if d.doSuffix && |name| <= 10 then name + "-" + d.suffix else name
  }

  lemma Heads(head: string)
    requires head in NAMES || head in PREFIXES
    ensures head != "" && (head[0] == 'o' ==> |head| > 1 && (head[1] == 's' ==> head == "osd"))
  {
  }

  /** A drawn name does not begin like the names that the cleanup recognises. */
  lemma DrawnIsNotFindable(d: Draw)
    requires Drawable(d)
    ensures !FindableName(Drawn(d))
  {
    var head := if d.doPrefix && |d.name| <= 10 then d.prefix else d.name;
    var name := Drawn(d);
    Heads(head);
    assert |name| >= |head| && name[..|head|] == head;
    assert |name| > |head| ==> name[|head|] == '-';
    assert name[0] == head[0] && (|head| > 1 ==> name[1] == head[1]);
    if |name| > 3 {
      NoPrefix(name, if head == "osd" then 3 else if head[0] == 'o' then 1 else 0);
    }
  }

  /** The random branch of clusterName: it starts again while the name is too long, at the latest with draw n it is not. */
  method RandomName(draws: nat -> Draw, i: nat, ghost n: nat) returns (name: string)
    requires i <= n && |Drawn(draws(n))| <= 15
    ensures |name| <= 15 && exists k: nat | i <= k <= n :: name == Drawn(draws(k)) && forall j | i <= j < k :: |Drawn(draws(j))| > 15
    decreases n - i
  {
    name := Drawn(draws(i));
    if |name| > 15 {
      name := RandomName(draws, i + 1, n);
    }
  }

  /** clusterName: the cleanup can find the name exactly if the configured one is not `random` and the configured suffix, if
      there is one, has no dash. */
  method ClusterName(configured: string, suffix: string, picks: nat -> nat, draws: nat -> Draw, ghost n: nat) returns (name: string)
    requires forall i :: picks(i) < |ALPHABET|
    requires forall i :: Drawable(draws(i))
    requires |Drawn(draws(n))| <= 15
    ensures FindableName(name) <==> configured != "random" && DashFree(suffix)
    ensures configured != "random" ==> HasPrefix(name, PREFIX)
    ensures configured != "random" ==> if suffix != "" then name == PREFIX + suffix else |name| == |PREFIX| + 5
  {
    if configured == "random" {
      name := RandomName(draws, 0, n);
      forall k
        ensures !FindableName(Drawn(draws(k)))
      {
        DrawnIsNotFindable(draws(k));
      }
      return;
    }
    var s := suffix;
    if s == "" {
      s := RandomStr(5, picks);
    }
    name := PREFIX + s;
    assert name[|PREFIX|..] == s;
  }
}
