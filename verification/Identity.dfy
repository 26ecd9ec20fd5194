/** The cleanup of OIDC providers and roles (pkg/common/aws/iam.go). */
module Identity {
  import opened Seqs
  import opened Text
  import opened ClusterNames
  import opened Account

  // ---------- OIDC providers ----------

  /** url: nothing if the provider cannot be read, Some(None) if it has none. */
  datatype Provider = Provider(arn: string, url: Option<Option<string>>)

  predicate DoomedProvider(p: Provider, active: set<string>) {
    && p.arn != "" && p.url.Some? && p.url.value.Some?
    && (Contains(p.url.value.value, "cloudfront") || Contains(p.url.value.value, "osde2e"))
    && !ActiveOidc(p.url.value.value, active)
  }

  /** Counted as deleted or failed: a dry run counts the providers that cannot be read. */
  function ProviderCounts(active: set<string>, dryrun: bool): Provider -> bool {
    (p: Provider) => p.arn != "" && (p.url.None? || (!dryrun && DoomedProvider(p, active)))
  }

  predicate ProviderRound(p: Provider, active: set<string>, dryrun: bool, round: seq<Entry>) {
    Calls(round) == if !dryrun && DoomedProvider(p, active) then [DeleteOidcProvider(p.arn)] else []
  }

  ghost predicate ProviderRounds(providers: seq<Provider>, active: set<string>, dryrun: bool, rounds: seq<seq<Entry>>) {
    |rounds| == |providers| && forall i | 0 <= i < |rounds| :: ProviderRound(providers[i], active, dryrun, rounds[i])
  }

  method CleanupProvider(account: CloudAccount, p: Provider, active: set<string>, dryrun: bool)
    returns (deleted: bool, failed: bool, ghost round: seq<Entry>)
    modifies account
    ensures account.log == old(account.log) + round && ProviderRound(p, active, dryrun, round)
    ensures deleted <==> Gone(round)
    ensures !(deleted && failed) && (deleted || failed <==> ProviderCounts(active, dryrun)(p))
  {
    deleted, failed, round := false, false, [];
    if p.arn == "" {
      return;
    }
    if p.url.None? {
      failed := true;
      return;
    }
    if p.url.value.None? {
      return;
    }
    var url := p.url.value.value;
    if (!Contains(url, "cloudfront") && !Contains(url, "osde2e")) || ActiveOidc(url, active) {
      return;
    }
    if !dryrun {
      var ok := account.Do(DeleteOidcProvider(p.arn));
      round := [Entry(DeleteOidcProvider(p.arn), ok)];
      deleted, failed := ok, !ok;
    }
  }

  lemma AddProvider(
      items: seq<Provider>, i: nat, active: set<string>, dryrun: bool, rounds: seq<seq<Entry>>, round: seq<Entry>)
    requires i < |items| && ProviderRounds(items[..i], active, dryrun, rounds) && ProviderRound(items[i], active, dryrun, round)
    ensures ProviderRounds(items[..i + 1], active, dryrun, rounds + [round])
  {
  }

  /** Gone are as many as were deleted with success. */
  lemma ProvidersCounted(providers: seq<Provider>, active: set<string>, dryrun: bool, rounds: seq<seq<Entry>>)
    requires ProviderRounds(providers, active, dryrun, rounds)
    ensures
      var log := Flatten(rounds);
      GoneIn(rounds) == |set k | 0 <= k < |log| && log[k].ok && log[k].call.DeleteOidcProvider?|
  {
    var log := Flatten(rounds);
    forall i | 0 <= i < |rounds|
      ensures |rounds[i]| <= 1 && forall e | e in rounds[i] :: e.call.DeleteOidcProvider?
    {
      assert |Calls(rounds[i])| == |rounds[i]| && forall j | 0 <= j < |rounds[i]| :: Calls(rounds[i])[j] == rounds[i][j].call;
    }
    forall e | e in log
      ensures e.call.DeleteOidcProvider?
    {
      FlattenMember(rounds, e);
    }
    GoneMeans(rounds);
    assert Positions(log, Deletions()) == set k | 0 <= k < |log| && log[k].ok && log[k].call.DeleteOidcProvider?;
  }

  lemma ProviderCountsMean(providers: seq<Provider>, active: set<string>, dryrun: bool)
    ensures |Filter(providers, ProviderCounts(active, dryrun))| ==
      |set k | 0 <= k < |providers| && providers[k].arn != ""
        && (providers[k].url.None? || (!dryrun && DoomedProvider(providers[k], active)))|
  {
    FilterSize(providers, ProviderCounts(active, dryrun));
    assert Positions(providers, ProviderCounts(active, dryrun)) ==
      set k | 0 <= k < |providers| && providers[k].arn != ""
        && (providers[k].url.None? || (!dryrun && DoomedProvider(providers[k], active)));
  }

  method CleanupOpenIDConnectProviders(account: CloudAccount, providers: Option<seq<Provider>>, active: set<string>, dryrun: bool)
    returns (counters: Counters, failed: bool, ghost rounds: seq<seq<Entry>>)
    modifies account
    ensures account.log == old(account.log) + Flatten(rounds) && ProviderRounds(Listed(providers), active, dryrun, rounds)
    ensures counters.deleted == GoneIn(rounds)
    ensures counters.deleted + counters.failed == |Filter(Listed(providers), ProviderCounts(active, dryrun))|
    ensures failed <==> providers.None?
  {
    counters, failed, rounds := Counters(0, 0), providers.None?, [];
    if providers.None? {
      return;
    }
    var items := providers.value;
    for i := 0 to |items|
      invariant account.log == old(account.log) + Flatten(rounds)
      invariant ProviderRounds(items[..i], active, dryrun, rounds)
      invariant counters.deleted == GoneIn(rounds)
      invariant counters.deleted + counters.failed == |Filter(items[..i], ProviderCounts(active, dryrun))|
    {
      FilterStep(items, ProviderCounts(active, dryrun), i);
      ghost var round;
      var d, f;
      d, f, round := CleanupProvider(account, items[i], active, dryrun);
      AddRound(old(account.log), rounds, round);
      AddProvider(items, i, active, dryrun, rounds, round);
      counters, rounds := counters.Count(d, f), rounds + [round];
    }
    assert items[..|items|] == items;
  }

  /** Only doomed providers are touched. */
  lemma ProvidersTouched(providers: seq<Provider>, active: set<string>, dryrun: bool, rounds: seq<seq<Entry>>, e: Entry)
    requires ProviderRounds(providers, active, dryrun, rounds) && e in Flatten(rounds)
    ensures !dryrun && e.call.DeleteOidcProvider?
    ensures exists p | p in providers :: p.arn == e.call.arn && DoomedProvider(p, active)
  {
    FlattenMember(rounds, e);
    var k :| 0 <= k < |rounds| && e in rounds[k];
    assert |Calls(rounds[k])| == |rounds[k]| && rounds[k][0].call == Calls(rounds[k])[0];
    assert providers[k] in providers;
  }

  // ---------- roles ----------

  /** The lists are nothing if they cannot be read; entries without a name are left out of them. */
  datatype Role = Role(
    name: Option<string>,
    arn: Option<string>,
    profiles: Option<seq<string>>,
    inline: Option<seq<string>>,
    attached: Option<seq<string>>)

  predicate DoomedRole(r: Role, active: set<string>) {
    r.name.Some? && r.arn.Some? && Contains(r.arn.value, "osde2e") && !ActiveRole(r.arn.value, active)
  }

  /** What must be gone before a role can be deleted. */
  datatype Part = Profiles | Inline | Attached

  function PartOf(r: Role, part: Part): Option<seq<string>> {
    match part
    case Profiles => r.profiles
    case Inline => r.inline
    case Attached => r.attached
  }

  function Removal(role: string, part: Part, item: string): Call {
    match part
    case Profiles => RemoveFromProfile(role, item)
    case Inline => DeleteInlinePolicy(role, item)
    case Attached => DetachPolicy(role, item)
  }

  /** One call for every item of a part. */
  function Removals(r: Role, part: Part): (calls: seq<Call>)
    requires r.name.Some?
  {
    var items := Listed(PartOf(r, part));
    seq(|items|, i requires 0 <= i < |items| => Removal(r.name.value, part, items[i]))
  }

  predicate PartRound(r: Role, part: Part, dryrun: bool, log: seq<Entry>)
    requires r.name.Some?
  {
    Calls(log) == if dryrun then [] else Removals(r, part)
  }

  /** The list can be read and every item is removed. */
  predicate PartDone(r: Role, part: Part, log: seq<Entry>) { PartOf(r, part).Some? && AllOk(log) }

  /** What the cleanup of a role logs, in four pieces. */
  datatype Steps = Steps(profiles: seq<Entry>, inline: seq<Entry>, attached: seq<Entry>, last: seq<Entry>) {
    function Before(): seq<Entry> { profiles + inline + attached }

    function All(): seq<Entry> { Before() + last }
  }

  /** Every piece follows only if the one before is done, and makes all its calls. */
  predicate Preparation(r: Role, dryrun: bool, s: Steps)
    requires r.name.Some?
  {
    && PartRound(r, Profiles, dryrun, s.profiles)
    && (if !PartDone(r, Profiles, s.profiles) then s.inline == [] else PartRound(r, Inline, dryrun, s.inline))
    && (if !PartDone(r, Profiles, s.profiles) || !PartDone(r, Inline, s.inline) then s.attached == []
        else PartRound(r, Attached, dryrun, s.attached))
  }

  predicate Prepared(r: Role, s: Steps) {
    PartDone(r, Profiles, s.profiles) && PartDone(r, Inline, s.inline) && PartDone(r, Attached, s.attached)
  }

  predicate RoleSteps(r: Role, dryrun: bool, s: Steps)
    requires r.name.Some?
  {
    Preparation(r, dryrun, s) && Calls(s.last) == if dryrun || !Prepared(r, s) then [] else [DeleteRole(r.name.value)]
  }

  predicate RoleRound(r: Role, active: set<string>, dryrun: bool, s: Steps) {
    if DoomedRole(r, active) then RoleSteps(r, dryrun, s) else s == Steps([], [], [], [])
  }

  ghost predicate RoleRounds(roles: seq<Role>, active: set<string>, dryrun: bool, steps: seq<Steps>) {
    |steps| == |roles| && forall i | 0 <= i < |steps| :: RoleRound(roles[i], active, dryrun, steps[i])
  }

  lemma AddRole(roles: seq<Role>, i: nat, active: set<string>, dryrun: bool, steps: seq<Steps>, s: Steps)
    requires i < |roles| && RoleRounds(roles[..i], active, dryrun, steps) && RoleRound(roles[i], active, dryrun, s)
    ensures RoleRounds(roles[..i + 1], active, dryrun, steps + [s])
  {
    forall j | 0 <= j <= i
      ensures RoleRound(roles[..i + 1][j], active, dryrun, (steps + [s])[j])
    {
      if j < i {
        assert RoleRound(roles[..i][j], active, dryrun, steps[j]);
      }
    }
  }

  function Rounds(steps: seq<Steps>): (rounds: seq<seq<Entry>>) {
    seq(|steps|, i requires 0 <= i < |steps| => steps[i].All())
  }

  lemma AddSteps(log: seq<Entry>, steps: seq<Steps>, s: Steps)
    ensures log + Flatten(Rounds(steps)) + s.All() == log + Flatten(Rounds(steps + [s]))
    ensures GoneIn(Rounds(steps + [s])) == GoneIn(Rounds(steps)) + if Gone(s.All()) then 1 else 0
  {
    AddRound(log, Rounds(steps), s.All());
    assert Rounds(steps + [s]) == Rounds(steps) + [s.All()];
  }

  /** A dry run counts the roles whose lists cannot be read. */
  function RoleCounts(active: set<string>, dryrun: bool): Role -> bool {
    (r: Role) => DoomedRole(r, active) && (!dryrun || r.profiles.None? || r.inline.None? || r.attached.None?)
  }

  /** removeRoleFromAllInstanceProfiles, deleteAllInlineRolePolicies and detachAllAttachedRolePolicies. */
  method RemovePart(account: CloudAccount, r: Role, part: Part, dryrun: bool) returns (done: bool, ghost log: seq<Entry>)
    requires r.name.Some?
    modifies account
    ensures account.log == old(account.log) + log && PartRound(r, part, dryrun, log)
    ensures done <==> PartDone(r, part, log)
  {
    done, log := true, [];
    if PartOf(r, part).None? {
      done := false;
      return;
    }
    if !dryrun {
      var items := PartOf(r, part).value;
      for i := 0 to |items|
        invariant account.log == old(account.log) + log
        invariant Calls(log) == Removals(r, part)[..i]
        invariant done <==> AllOk(log)
      {
        var ok := account.Do(Removal(r.name.value, part, items[i]));
        done, log := done && ok, log + [Entry(Removal(r.name.value, part, items[i]), ok)];
      }
      assert Removals(r, part)[..|items|] == Removals(r, part);
    }
  }

  method PrepareRole(account: CloudAccount, r: Role, dryrun: bool) returns (ok: bool, ghost s: Steps)
    requires r.name.Some?
    modifies account
    ensures account.log == old(account.log) + s.Before() && s.last == [] && Preparation(r, dryrun, s)
    ensures ok <==> Prepared(r, s)
  {
    ok, s := true, Steps([], [], [], []);
    ghost var log;
    ok, log := RemovePart(account, r, Profiles, dryrun);
    s := s.(profiles := log);
    if !ok {
      return;
    }
    ok, log := RemovePart(account, r, Inline, dryrun);
    s := s.(inline := log);
    if !ok {
      return;
    }
    ok, log := RemovePart(account, r, Attached, dryrun);
    s := s.(attached := log);
  }

  function Subject(c: Call): Option<string> {
    match c
    case RemoveFromProfile(role, _) => Some(role)
    case DeleteInlinePolicy(role, _) => Some(role)
    case DetachPolicy(role, _) => Some(role)
    case DeleteRole(role) => Some(role)
    case _ => None
  }

  /** The call is for this role, and what it removes is in the list it is removed from. */
  predicate Concerns(r: Role, c: Call) {
    match c
    case RemoveFromProfile(role, profile) => r.name == Some(role) && profile in Listed(r.profiles)
    case DeleteInlinePolicy(role, policy) => r.name == Some(role) && policy in Listed(r.inline)
    case DetachPolicy(role, policy) => r.name == Some(role) && policy in Listed(r.attached)
    case DeleteRole(role) => r.name == Some(role)
    case _ => false
  }

  lemma PartConcerns(r: Role, part: Part, dryrun: bool, log: seq<Entry>, e: Entry)
    requires r.name.Some? && PartRound(r, part, dryrun, log) && e in log
    ensures !dryrun && Concerns(r, e.call) && !e.call.DeleteRole?
  {
    var k :| 0 <= k < |log| && log[k] == e;
    assert e.call == Calls(log)[k];
    assert Removals(r, part)[k] == Removal(r.name.value, part, Listed(PartOf(r, part))[k]);
  }

  lemma StepsConcern(r: Role, dryrun: bool, s: Steps)
    requires r.name.Some? && RoleSteps(r, dryrun, s)
    ensures forall e | e in s.All() :: !dryrun && Concerns(r, e.call)
  {
    forall e | e in s.All()
      ensures !dryrun && Concerns(r, e.call)
    {
      if e in s.profiles {
        PartConcerns(r, Profiles, dryrun, s.profiles, e);
      } else if e in s.inline {
        PartConcerns(r, Inline, dryrun, s.inline, e);
      } else if e in s.attached {
        PartConcerns(r, Attached, dryrun, s.attached, e);
      } else {
        assert e in s.last && |Calls(s.last)| == |s.last| && s.last[0].call == Calls(s.last)[0];
      }
    }
  }

  lemma AllCalled(r: Role, part: Part)
    requires r.name.Some?
    ensures forall item | item in Listed(PartOf(r, part)) :: Removal(r.name.value, part, item) in Removals(r, part)
  {
    forall item | item in Listed(PartOf(r, part))
      ensures Removal(r.name.value, part, item) in Removals(r, part)
    {
      var k :| 0 <= k < |Listed(PartOf(r, part))| && Listed(PartOf(r, part))[k] == item;
      assert Removals(r, part)[k] == Removal(r.name.value, part, item);
    }
  }

  /** All items of a part that is begun are called, whatever becomes of the ones before; a part is begun only behind a part
      that is listed and has succeeded with every call. */
  lemma PartsOneByOne(r: Role, s: Steps)
    requires r.name.Some? && RoleSteps(r, false, s)
    ensures forall i | i in Listed(r.profiles) :: RemoveFromProfile(r.name.value, i) in Calls(s.profiles)
    ensures r.profiles.None? || !AllOk(s.profiles) ==> s.inline == [] && s.attached == [] && s.last == []
    ensures r.profiles.Some? && AllOk(s.profiles) ==>
      forall p | p in Listed(r.inline) :: DeleteInlinePolicy(r.name.value, p) in Calls(s.inline)
    ensures r.inline.None? || !AllOk(s.inline) ==> s.attached == [] && s.last == []
    ensures r.profiles.Some? && AllOk(s.profiles) && r.inline.Some? && AllOk(s.inline) ==>
      forall a | a in Listed(r.attached) :: DetachPolicy(r.name.value, a) in Calls(s.attached)
    ensures r.attached.None? || !AllOk(s.attached) ==> s.last == []
  {
    AllCalled(r, Profiles);
    AllCalled(r, Inline);
    AllCalled(r, Attached);
    assert |Calls(s.last)| == |s.last|;
  }

  /** cleanupOsde2eRole: profiles are left, inline policies deleted and attached policies detached, each that is listed and
      nothing else. */
  method CleanupOsde2eRole(account: CloudAccount, r: Role, dryrun: bool) returns (deleted: bool, failed: bool, ghost s: Steps)
    requires r.name.Some?
    modifies account
    ensures account.log == old(account.log) + s.All() && RoleSteps(r, dryrun, s)
    ensures deleted <==> !dryrun && Prepared(r, s) && s.last[0].ok
    ensures failed <==> !Prepared(r, s) || (!dryrun && !s.last[0].ok)
    ensures forall e | e in s.All() :: !dryrun && match e.call {
      case RemoveFromProfile(role, profile) => r.name == Some(role) && profile in Listed(r.profiles)
      case DeleteInlinePolicy(role, policy) => r.name == Some(role) && policy in Listed(r.inline)
      case DetachPolicy(role, policy) => r.name == Some(role) && policy in Listed(r.attached)
      case DeleteRole(role) => r.name == Some(role)
      case _ => false
    }
  {
    deleted, failed := false, false;
    var ok;
    ok, s := PrepareRole(account, r, dryrun);
    if !ok {
      StepsConcern(r, dryrun, s);
      failed := true;
      return;
    }
    if !dryrun {
      ok := account.Do(DeleteRole(r.name.value));
      s := s.(last := [Entry(DeleteRole(r.name.value), ok)]);
      deleted, failed := ok, !ok;
    }
    StepsConcern(r, dryrun, s);
  }

  lemma RemovalsDeleteNothing(r: Role, part: Part, dryrun: bool, log: seq<Entry>)
    requires r.name.Some? && PartRound(r, part, dryrun, log)
    ensures forall i | 0 <= i < |log| :: !IsDeletion(log[i].call) && log[i].call == Calls(log)[i]
  {
    forall i | 0 <= i < |log|
      ensures !IsDeletion(log[i].call) && log[i].call == Calls(log)[i]
    {
      assert Calls(log)[i] == Removals(r, part)[i];
    }
  }

  /** Before the last call of a role nothing is deleted. */
  lemma NothingDeletedBefore(r: Role, dryrun: bool, s: Steps)
    requires r.name.Some? && RoleSteps(r, dryrun, s)
    ensures forall e | e in s.Before() :: !IsDeletion(e.call)
  {
    RemovalsDeleteNothing(r, Profiles, dryrun, s.profiles);
    if s.inline != [] {
      RemovalsDeleteNothing(r, Inline, dryrun, s.inline);
    }
    if s.attached != [] {
      RemovalsDeleteNothing(r, Attached, dryrun, s.attached);
    }
  }

  lemma GoneRole(r: Role, dryrun: bool, s: Steps)
    requires r.name.Some? && RoleSteps(r, dryrun, s)
    ensures Gone(s.All()) <==> !dryrun && Prepared(r, s) && s.last[0].ok
  {
    NothingDeletedBefore(r, dryrun, s);
    assert |Calls(s.last)| == |s.last|;
    if s.last == [] {
      assert s.All() == s.Before();
    } else {
      assert s.last[0].call == Calls(s.last)[0];
      assert s.All()[|s.All()| - 1] == s.last[0];
    }
  }

  method CleanupRole(account: CloudAccount, role: Role, active: set<string>, dryrun: bool)
    returns (deleted: bool, failed: bool, ghost s: Steps)
    modifies account
    ensures account.log == old(account.log) + s.All() && RoleRound(role, active, dryrun, s)
    ensures deleted <==> Gone(s.All())
    ensures !(deleted && failed) && (deleted || failed <==> RoleCounts(active, dryrun)(role))
  {
    deleted, failed, s := false, false, Steps([], [], [], []);
    if role.name.None? || role.arn.None? {
      return;
    }
    if !Contains(role.arn.value, "osde2e") || ActiveRole(role.arn.value, active) {
      return;
    }
    deleted, failed, s := CleanupOsde2eRole(account, role, dryrun);
    GoneRole(role, dryrun, s);
  }

  lemma RoundDeletesLast(r: Role, active: set<string>, dryrun: bool, s: Steps)
    requires RoleRound(r, active, dryrun, s)
    ensures forall j | 0 <= j < |s.All()| - 1 :: !IsDeletion(s.All()[j].call)
    ensures forall e | e in s.All() :: IsDeletion(e.call) <==> e.call.DeleteRole?
  {
    if DoomedRole(r, active) {
      NothingDeletedBefore(r, dryrun, s);
      StepsConcern(r, dryrun, s);
      assert |Calls(s.last)| == |s.last| <= 1;
      forall j | 0 <= j < |s.All()| - 1
        ensures s.All()[j] in s.Before()
      {
        assert s.All()[j] == s.Before()[j];
      }
    }
  }

  /** Gone are as many roles as were deleted with success. */
  lemma RolesCounted(roles: seq<Role>, active: set<string>, dryrun: bool, steps: seq<Steps>)
    requires RoleRounds(roles, active, dryrun, steps)
    ensures
      var log := Flatten(Rounds(steps));
      GoneIn(Rounds(steps)) == |set k | 0 <= k < |log| && log[k].ok && log[k].call.DeleteRole?|
  {
    var rounds := Rounds(steps);
    var log := Flatten(rounds);
    forall i | 0 <= i < |rounds|
      ensures forall j | 0 <= j < |rounds[i]| - 1 :: !IsDeletion(rounds[i][j].call)
      ensures forall e: Entry | e in rounds[i] :: IsDeletion(e.call) <==> e.call.DeleteRole?
    {
      RoundDeletesLast(roles[i], active, dryrun, steps[i]);
    }
    forall e | e in log
      ensures IsDeletion(e.call) <==> e.call.DeleteRole?
    {
      FlattenMember(rounds, e);
    }
    GoneMeans(rounds);
    assert Positions(log, Deletions()) == set k | 0 <= k < |log| && log[k].ok && log[k].call.DeleteRole?;
  }

  lemma RoleCountsMean(roles: seq<Role>, active: set<string>, dryrun: bool)
    ensures |Filter(roles, RoleCounts(active, dryrun))| ==
      |set k | 0 <= k < |roles| && DoomedRole(roles[k], active)
        && (!dryrun || roles[k].profiles.None? || roles[k].inline.None? || roles[k].attached.None?)|
  {
    FilterSize(roles, RoleCounts(active, dryrun));
    assert Positions(roles, RoleCounts(active, dryrun)) ==
      set k | 0 <= k < |roles| && DoomedRole(roles[k], active)
        && (!dryrun || roles[k].profiles.None? || roles[k].inline.None? || roles[k].attached.None?);
  }

  method CleanupRoles(account: CloudAccount, roles: Option<seq<Role>>, active: set<string>, dryrun: bool)
    returns (counters: Counters, failed: bool, ghost steps: seq<Steps>)
    modifies account
    ensures account.log == old(account.log) + Flatten(Rounds(steps)) && RoleRounds(Listed(roles), active, dryrun, steps)
    ensures counters.deleted == GoneIn(Rounds(steps))
    ensures counters.deleted + counters.failed == |Filter(Listed(roles), RoleCounts(active, dryrun))|
    ensures failed <==> roles.None?
  {
    counters, failed, steps := Counters(0, 0), roles.None?, [];
    if roles.None? {
      return;
    }
    var items := roles.value;
    for i := 0 to |items|
      invariant account.log == old(account.log) + Flatten(Rounds(steps))
      invariant RoleRounds(items[..i], active, dryrun, steps)
      invariant counters.deleted == GoneIn(Rounds(steps))
      invariant counters.deleted + counters.failed == |Filter(items[..i], RoleCounts(active, dryrun))|
    {
      FilterStep(items, RoleCounts(active, dryrun), i);
      ghost var s;
      var d, f;
      d, f, s := CleanupRole(account, items[i], active, dryrun);
      AddRole(items, i, active, dryrun, steps, s);
      AddSteps(old(account.log), steps, s);
      counters, steps := counters.Count(d, f), steps + [s];
    }
    assert items[..|items|] == items;
  }

  lemma AllRemoved(r: Role, part: Part, log: seq<Entry>)
    requires r.name.Some? && PartDone(r, part, log) && PartRound(r, part, false, log)
    ensures forall item | item in PartOf(r, part).value :: Entry(Removal(r.name.value, part, item), true) in log
  {
    forall item | item in PartOf(r, part).value
      ensures Entry(Removal(r.name.value, part, item), true) in log
    {
      var k :| 0 <= k < |PartOf(r, part).value| && PartOf(r, part).value[k] == item;
      assert Calls(log)[k] == Removals(r, part)[k] && log[k] in log;
      assert log[k] == Entry(Removal(r.name.value, part, item), true);
    }
  }

  /** A role is deleted last, and only after everything attached to it was listed and each of it removed. */
  lemma RoleDeletedLast(r: Role, dryrun: bool, s: Steps, k: nat)
    requires r.name.Some? && RoleSteps(r, dryrun, s)
    requires k < |s.All()| && s.All()[k].call.DeleteRole?
    ensures k == |s.All()| - 1 && s.All()[k].call == DeleteRole(r.name.value)
    ensures r.profiles.Some? && r.inline.Some? && r.attached.Some?
    ensures AllOk(s.All()[..k])
    ensures Calls(s.All()[..k]) == Removals(r, Profiles) + Removals(r, Inline) + Removals(r, Attached)
    ensures forall i | i in r.profiles.value :: Entry(RemoveFromProfile(r.name.value, i), true) in s.All()[..k]
    ensures forall p | p in r.inline.value :: Entry(DeleteInlinePolicy(r.name.value, p), true) in s.All()[..k]
    ensures forall a | a in r.attached.value :: Entry(DetachPolicy(r.name.value, a), true) in s.All()[..k]
  {
    assert k < |s.Before()| ==> s.Before()[k] == s.All()[k];
    NothingDeletedBefore(r, dryrun, s);
    assert |Calls(s.last)| == |s.last| && s.All()[k] == s.last[0] && s.last[0].call == Calls(s.last)[0];
    assert s.All()[..k] == s.Before();
    AllRemoved(r, Profiles, s.profiles);
    AllRemoved(r, Inline, s.inline);
    AllRemoved(r, Attached, s.attached);
    assert Calls(s.Before()) == Calls(s.profiles) + Calls(s.inline) + Calls(s.attached);
  }

  /** The role of a doomed one is deleted exactly if it is prepared. */
  lemma DeletedIfPrepared(r: Role, s: Steps)
    requires r.name.Some? && RoleSteps(r, false, s) && Prepared(r, s)
    ensures s.All() != [] && s.All()[|s.All()| - 1].call == DeleteRole(r.name.value)
  {
    assert |Calls(s.last)| == |s.last| && s.last[0].call == Calls(s.last)[0];
    assert s.All()[|s.All()| - 1] == s.last[0];
  }

  lemma PreparedIfDeleted(r: Role, s: Steps, e: Entry)
    requires r.name.Some? && RoleSteps(r, false, s) && e in s.All() && e.call.DeleteRole?
    ensures Prepared(r, s)
  {
    NothingDeletedBefore(r, false, s);
    assert e in s.Before() || e in s.last;
    assert |Calls(s.last)| == |s.last|;
  }

  lemma RoleTouched(r: Role, active: set<string>, dryrun: bool, s: Steps, e: Entry)
    requires RoleRound(r, active, dryrun, s) && e in s.All()
    ensures !dryrun && Subject(e.call).Some? && r.name == Subject(e.call) && DoomedRole(r, active) && Concerns(r, e.call)
  {
    StepsConcern(r, dryrun, s);
  }

  /** Only doomed roles are touched. */
  lemma RolesTouched(roles: seq<Role>, active: set<string>, dryrun: bool, steps: seq<Steps>, e: Entry)
    requires RoleRounds(roles, active, dryrun, steps) && e in Flatten(Rounds(steps))
    ensures !dryrun && Subject(e.call).Some?
    ensures exists r | r in roles :: r.name == Subject(e.call) && DoomedRole(r, active) && Concerns(r, e.call)
  {
    FlattenMember(Rounds(steps), e);
    var k :| 0 <= k < |steps| && e in Rounds(steps)[k];
    RoleTouched(roles[k], active, dryrun, steps[k], e);
    assert roles[k] in roles;
  }
}
