/** A whole run of the cleanup command (cmd/osde2e/cleanup/cmd.go). What the cloud lists is an input, nothing if it
    cannot be listed. */
module CleanupRun {
  import opened Seqs
  import opened Text
  import opened ClusterNames
  import opened Account
  import opened Instances
  import opened Storage
  import opened Identity
  import opened Network

  /** The command line. */
  datatype Flags = Flags(dryrun: bool, securityGroup: bool, vpc: bool, iam: bool, s3: bool, ec2: bool)

  datatype Inventory = Inventory(
    groupVpcs: Option<seq<Vpc>>,
    vpcs: Option<seq<Vpc>>,
    providers: Option<seq<Provider>>,
    roles: Option<seq<Role>>,
    buckets: Option<seq<string>>,
    instances: Option<seq<Instance>>)

  ghost predicate TouchableStack(inv: Inventory, active: set<string>, stack: string) {
    exists v | v in Listed(inv.vpcs) :: Orphaned(v, active) && stack == StackOf(NameTag(v.tags).value)
  }

  ghost predicate TouchableGroup(inv: Inventory, active: set<string>, id: string) {
    exists v, g | v in Listed(inv.groupVpcs) && g in Listed(v.groups) :: Stuck(v, active) && g.name != "default" && g.id == id
  }

  /** What a run may call, by kind of resource. */
  ghost predicate Touchable(inv: Inventory, active: set<string>, c: Call) {
    match c
    case TerminateInstance(id) => exists i | i in Listed(inv.instances) :: i.id == id && exists t | t in i.tags :: Condemns(t, active)
    case EmptyBucket(name) => name in Listed(inv.buckets) && DoomedBucket(name, active)
    case DeleteBucket(name) => name in Listed(inv.buckets) && DoomedBucket(name, active)
    case DeleteOidcProvider(arn) => exists p | p in Listed(inv.providers) :: p.arn == arn && DoomedProvider(p, active)
    case DeleteStack(stack) => TouchableStack(inv, active, stack)
    case AwaitStackDeletion(stack) => TouchableStack(inv, active, stack)
    case RevokeIngress(id) => TouchableGroup(inv, active, id)
    case RevokeEgress(id) => TouchableGroup(inv, active, id)
    case DeleteSecurityGroup(id) => TouchableGroup(inv, active, id)
    case RemoveFromProfile(role, profile) =>
      exists r | r in Listed(inv.roles) :: r.name == Some(role) && DoomedRole(r, active) && profile in Listed(r.profiles)
    case DeleteInlinePolicy(role, policy) =>
      exists r | r in Listed(inv.roles) :: r.name == Some(role) && DoomedRole(r, active) && policy in Listed(r.inline)
    case DetachPolicy(role, policy) =>
      exists r | r in Listed(inv.roles) :: r.name == Some(role) && DoomedRole(r, active) && policy in Listed(r.attached)
    case DeleteRole(role) => exists r | r in Listed(inv.roles) :: r.name == Some(role) && DoomedRole(r, active)
  }

  /** Everything logged is allowed, and a dry run logs nothing. */
  ghost predicate Safe(inv: Inventory, active: set<string>, dryrun: bool, log: seq<Entry>) {
    (dryrun ==> log == []) && forall e | e in log :: Touchable(inv, active, e.call)
  }

  lemma IsSafe(inv: Inventory, active: set<string>, dryrun: bool, log: seq<Entry>)
    requires forall e | e in log :: !dryrun && Touchable(inv, active, e.call)
    ensures Safe(inv, active, dryrun, log)
  {
    assert |log| > 0 ==> log[0] in log;
  }

  // ---------- what a run does ----------

  /** The rounds of the parts of a run, one for each resource that the part goes over. */
  datatype Work = Work(
    groups: seq<seq<Entry>>,
    stacks: seq<seq<Entry>>,
    providers: seq<seq<Entry>>,
    roles: seq<Steps>,
    buckets: seq<seq<Entry>>,
    instances: seq<seq<Entry>>)
  {
    function Network(): seq<Entry> { Flatten(groups) + Flatten(stacks) }

    function Identity(): seq<Entry> { Flatten(providers) + Flatten(Rounds(roles)) }

    function Storage(): seq<Entry> { Flatten(buckets) + Flatten(instances) }

    function Log(): seq<Entry> { Network() + Identity() + Storage() }
  }

  const NO_WORK := Work([], [], [], [], [], [])

  /** A part is reached if every part before it that is asked for can list its resources. */
  predicate ReachesVpcs(flags: Flags, inv: Inventory) { flags.securityGroup ==> inv.groupVpcs.Some? }

  predicate ReachesProviders(flags: Flags, inv: Inventory) { ReachesVpcs(flags, inv) && (flags.vpc ==> inv.vpcs.Some?) }

  predicate ReachesRoles(flags: Flags, inv: Inventory) { ReachesProviders(flags, inv) && (flags.iam ==> inv.providers.Some?) }

  predicate ReachesBuckets(flags: Flags, inv: Inventory) { ReachesRoles(flags, inv) && (flags.iam ==> inv.roles.Some?) }

  predicate ReachesInstances(flags: Flags, inv: Inventory) { ReachesBuckets(flags, inv) && (flags.s3 ==> inv.buckets.Some?) }

  predicate Completes(flags: Flags, inv: Inventory) { ReachesInstances(flags, inv) && (flags.ec2 ==> inv.instances.Some?) }

  /** The items of a part that is asked for and reached. */
  function ItemsIf<T>(goes: bool, items: seq<T>): seq<T> { if goes then items else [] }

  ghost predicate NetworkWork(inv: Inventory, active: set<string>, flags: Flags, w: Work) {
    && GroupRounds(ItemsIf(flags.securityGroup, FlatMap(LeftoverGroups(active), Listed(inv.groupVpcs))), flags.dryrun, w.groups)
    && StackRounds(ItemsIf(flags.vpc && ReachesVpcs(flags, inv), OrphanedStacks(Listed(inv.vpcs), active, flags.dryrun)), w.stacks)
  }

  ghost predicate IdentityWork(inv: Inventory, active: set<string>, flags: Flags, w: Work) {
    && ProviderRounds(ItemsIf(flags.iam && ReachesProviders(flags, inv), Listed(inv.providers)), active, flags.dryrun, w.providers)
    && RoleRounds(ItemsIf(flags.iam && ReachesRoles(flags, inv), Listed(inv.roles)), active, flags.dryrun, w.roles)
  }

  ghost predicate StorageWork(inv: Inventory, active: set<string>, flags: Flags, w: Work) {
    && BucketRounds(ItemsIf(flags.s3 && ReachesBuckets(flags, inv), Listed(inv.buckets)), active, flags.dryrun, w.buckets)
    && InstanceRounds(
         ItemsIf(flags.ec2 && ReachesInstances(flags, inv), DoomedInstances(Listed(inv.instances), active, flags.dryrun)),
         w.instances)
  }

  /** Every part that is asked for and reached goes over all its resources, and no other part does anything. */
  ghost predicate Ran(inv: Inventory, active: set<string>, flags: Flags, w: Work) {
    NetworkWork(inv, active, flags, w) && IdentityWork(inv, active, flags, w) && StorageWork(inv, active, flags, w)
  }

  method RunNetwork(account: CloudAccount, flags: Flags, inv: Inventory, active: set<string>)
    returns (failed: bool, ghost w: Work)
    modifies account
    ensures account.log == old(account.log) + w.Network() && NetworkWork(inv, active, flags, w)
    ensures failed <==> !ReachesProviders(flags, inv)
  {
    failed, w := false, NO_WORK;
    var counters;
    ghost var rounds;
    if flags.securityGroup {
      counters, failed, rounds := CleanupSecurityGroups(account, inv.groupVpcs, active, flags.dryrun);
      w := w.(groups := rounds);
      if failed {
        return;
      }
    }
    if flags.vpc {
      counters, failed, rounds := CleanupVPCs(account, inv.vpcs, active, flags.dryrun);
      ConcatAssociative(old(account.log), Flatten(w.groups), Flatten(rounds));
      w := w.(stacks := rounds);
    }
  }

  method RunIdentity(account: CloudAccount, flags: Flags, inv: Inventory, active: set<string>)
    returns (failed: bool, ghost w: Work)
    requires ReachesProviders(flags, inv)
    modifies account
    ensures account.log == old(account.log) + w.Identity() && IdentityWork(inv, active, flags, w)
    ensures failed <==> !ReachesBuckets(flags, inv)
  {
    failed, w := false, NO_WORK;
    if flags.iam {
      var counters;
      ghost var rounds, steps;
      counters, failed, rounds := CleanupOpenIDConnectProviders(account, inv.providers, active, flags.dryrun);
      w := w.(providers := rounds);
      if failed {
        return;
      }
      counters, failed, steps := CleanupRoles(account, inv.roles, active, flags.dryrun);
      ConcatAssociative(old(account.log), Flatten(w.providers), Flatten(Rounds(steps)));
      w := w.(roles := steps);
    }
  }

  /** Instances that cannot be terminated do not fail the run. */
  method RunStorage(account: CloudAccount, flags: Flags, inv: Inventory, active: set<string>)
    returns (failed: bool, ghost w: Work)
    requires ReachesBuckets(flags, inv)
    modifies account
    ensures account.log == old(account.log) + w.Storage() && StorageWork(inv, active, flags, w)
    ensures failed <==> !Completes(flags, inv)
  {
    failed, w := false, NO_WORK;
    var counters;
    ghost var rounds;
    if flags.s3 {
      counters, failed, rounds := CleanupS3Buckets(account, inv.buckets, active, flags.dryrun);
      w := w.(buckets := rounds);
      if failed {
        return;
      }
    }
    if flags.ec2 {
      counters, failed, rounds := TerminateEC2Instances(account, inv.instances, active, flags.dryrun);
      failed := failed && counters.failed == 0;
      ConcatAssociative(old(account.log), Flatten(w.buckets), Flatten(rounds));
      w := w.(instances := rounds);
    }
  }

  function Together(network: Work, identity: Work, storage: Work): Work {
    Work(network.groups, network.stacks, identity.providers, identity.roles, storage.buckets, storage.instances)
  }

  lemma RanTogether(inv: Inventory, active: set<string>, flags: Flags, network: Work, identity: Work, storage: Work)
    requires NetworkWork(inv, active, flags, network) && IdentityWork(inv, active, flags, identity)
    requires StorageWork(inv, active, flags, storage)
    ensures Ran(inv, active, flags, Together(network, identity, storage))
    ensures Together(network, identity, storage).Log() == network.Network() + identity.Identity() + storage.Storage()
  {
  }

  lemma NothingUnreached(inv: Inventory, active: set<string>, flags: Flags)
    ensures !ReachesProviders(flags, inv) ==> IdentityWork(inv, active, flags, NO_WORK)
    ensures !ReachesBuckets(flags, inv) ==> StorageWork(inv, active, flags, NO_WORK)
    ensures NO_WORK.Identity() == [] && NO_WORK.Storage() == []
  {
  }

  /** The parts that are asked for run in this order, until one cannot list its resources. */
  method Run(account: CloudAccount, flags: Flags, inv: Inventory, active: set<string>) returns (failed: bool, ghost w: Work)
    modifies account
    ensures account.log == old(account.log) + w.Log() && Ran(inv, active, flags, w)
    ensures failed <==> !Completes(flags, inv)
    ensures failed <==>
      || (flags.securityGroup && inv.groupVpcs.None?) || (flags.vpc && inv.vpcs.None?)
      || (flags.iam && (inv.providers.None? || inv.roles.None?)) || (flags.s3 && inv.buckets.None?)
      || (flags.ec2 && inv.instances.None?)
  {
    ghost var network, identity, storage := NO_WORK, NO_WORK, NO_WORK;
    NothingUnreached(inv, active, flags);
    failed, network := RunNetwork(account, flags, inv, active);
    if !failed {
      failed, identity := RunIdentity(account, flags, inv, active);
    }
    if !failed {
      failed, storage := RunStorage(account, flags, inv, active);
    }
    w := Together(network, identity, storage);
    RanTogether(inv, active, flags, network, identity, storage);
    ConcatAssociative(old(account.log), network.Network(), identity.Identity());
    ConcatAssociative(old(account.log), network.Network() + identity.Identity(), storage.Storage());
  }

  /** A part that is not asked for does nothing, nor does one behind a part that cannot list its resources. */
  lemma PartsNotReached(inv: Inventory, active: set<string>, flags: Flags, w: Work)
    requires Ran(inv, active, flags, w)
    ensures
      var noGroups := flags.securityGroup && inv.groupVpcs.None?;
      var noVpcs := noGroups || (flags.vpc && inv.vpcs.None?);
      var noProviders := noVpcs || (flags.iam && inv.providers.None?);
      var noRoles := noProviders || (flags.iam && inv.roles.None?);
      var noBuckets := noRoles || (flags.s3 && inv.buckets.None?);
      && (!flags.securityGroup || noGroups ==> w.groups == [])
      && (!flags.vpc || noVpcs ==> w.stacks == [])
      && (!flags.iam || noProviders ==> w.providers == [] && w.roles == [])
      && (noRoles ==> w.roles == [])
      && (!flags.s3 || noBuckets ==> w.buckets == [])
      && (!flags.ec2 || noBuckets || inv.instances.None? ==> w.instances == [])
  {
  }

  // ---------- what a run calls ----------

  ghost predicate Called(log: seq<Entry>, c: Call) { exists e | e in log :: e.call == c }

  lemma LogMember(w: Work, e: Entry)
    ensures e in w.Log() <==>
      || e in Flatten(w.groups) || e in Flatten(w.stacks) || e in Flatten(w.providers)
      || e in Flatten(Rounds(w.roles)) || e in Flatten(w.buckets) || e in Flatten(w.instances)
  {
  }

  lemma BothInRound(bucket: string, active: set<string>, dryrun: bool, round: seq<Entry>, b: string, e: Entry)
    requires BucketRound(bucket, active, dryrun, round)
    requires e in round && (e == Entry(EmptyBucket(b), true) || e.call == DeleteBucket(b))
    ensures |round| == 2 && round[0] == Entry(EmptyBucket(b), true) && round[1].call == DeleteBucket(b)
  {
  }

  /** The part that a call is of: security groups, stacks, providers, roles, buckets, instances. */
  function PartNumber(c: Call): nat {
    match c
    case RevokeIngress(_) => 0
    case RevokeEgress(_) => 0
    case DeleteSecurityGroup(_) => 0
    case DeleteStack(_) => 1
    case AwaitStackDeletion(_) => 1
    case DeleteOidcProvider(_) => 2
    case EmptyBucket(_) => 4
    case DeleteBucket(_) => 4
    case TerminateInstance(_) => 5
    case _ => 3
  }

  lemma GroupCall(inv: Inventory, active: set<string>, flags: Flags, w: Work, e: Entry)
    requires NetworkWork(inv, active, flags, w) && e in Flatten(w.groups)
    ensures !flags.dryrun && Touchable(inv, active, e.call) && PartNumber(e.call) == 0
  {
    FlattenMember(w.groups, e);
    GroupsTouched(Listed(inv.groupVpcs), active, flags.dryrun, w.groups, e);
  }

  lemma StackCall(inv: Inventory, active: set<string>, flags: Flags, w: Work, e: Entry)
    requires NetworkWork(inv, active, flags, w) && e in Flatten(w.stacks)
    ensures !flags.dryrun && Touchable(inv, active, e.call) && PartNumber(e.call) == 1
  {
    FlattenMember(w.stacks, e);
    StacksTouched(Listed(inv.vpcs), active, flags.dryrun, w.stacks, e);
  }

  lemma ProviderCall(inv: Inventory, active: set<string>, flags: Flags, w: Work, e: Entry)
    requires IdentityWork(inv, active, flags, w) && e in Flatten(w.providers)
    ensures !flags.dryrun && Touchable(inv, active, e.call) && PartNumber(e.call) == 2
  {
    FlattenMember(w.providers, e);
    ProvidersTouched(Listed(inv.providers), active, flags.dryrun, w.providers, e);
  }

  lemma RoleCall(inv: Inventory, active: set<string>, flags: Flags, w: Work, e: Entry)
    requires IdentityWork(inv, active, flags, w) && e in Flatten(Rounds(w.roles))
    ensures !flags.dryrun && Touchable(inv, active, e.call) && PartNumber(e.call) == 3
  {
    FlattenMember(Rounds(w.roles), e);
    RolesTouched(Listed(inv.roles), active, flags.dryrun, w.roles, e);
  }

  lemma BucketCall(inv: Inventory, active: set<string>, flags: Flags, w: Work, e: Entry)
    requires StorageWork(inv, active, flags, w) && e in Flatten(w.buckets)
    ensures !flags.dryrun && Touchable(inv, active, e.call) && PartNumber(e.call) == 4
  {
    FlattenMember(w.buckets, e);
    BucketsTouched(Listed(inv.buckets), active, flags.dryrun, w.buckets, e);
  }

  lemma InstanceCall(inv: Inventory, active: set<string>, flags: Flags, w: Work, e: Entry)
    requires StorageWork(inv, active, flags, w) && e in Flatten(w.instances)
    ensures !flags.dryrun && Touchable(inv, active, e.call) && PartNumber(e.call) == 5
  {
    FlattenMember(w.instances, e);
    InstancesTouched(Listed(inv.instances), active, flags.dryrun, w.instances, e);
  }

  /** Everything called is allowed, and in the log of its part. */
  lemma PartOfCall(inv: Inventory, active: set<string>, flags: Flags, w: Work, e: Entry)
    requires Ran(inv, active, flags, w) && e in w.Log()
    ensures !flags.dryrun && Touchable(inv, active, e.call)
    ensures e.call.EmptyBucket? || e.call.DeleteBucket? ==> e in Flatten(w.buckets)
    ensures e.call.DeleteRole? ==> e in Flatten(Rounds(w.roles))
  {
    LogMember(w, e);
    if e in Flatten(w.groups) {
      GroupCall(inv, active, flags, w, e);
    } else if e in Flatten(w.stacks) {
      StackCall(inv, active, flags, w, e);
    } else if e in Flatten(w.providers) {
      ProviderCall(inv, active, flags, w, e);
    } else if e in Flatten(Rounds(w.roles)) {
      RoleCall(inv, active, flags, w, e);
    } else if e in Flatten(w.buckets) {
      BucketCall(inv, active, flags, w, e);
    } else {
      InstanceCall(inv, active, flags, w, e);
    }
  }

  predicate Numbered(log: seq<Entry>, low: nat, high: nat) { forall e | e in log :: low <= PartNumber(e.call) <= high }

  predicate InOrder(log: seq<Entry>) { forall i, j | 0 <= i < j < |log| :: PartNumber(log[i].call) <= PartNumber(log[j].call) }

  lemma OnePart(log: seq<Entry>, n: nat)
    requires forall e | e in log :: PartNumber(e.call) == n
    ensures InOrder(log) && Numbered(log, n, n)
  {
  }

  lemma OneBehindTheOther(a: seq<Entry>, b: seq<Entry>, low: nat, m: nat, n: nat, high: nat)
    requires low <= m <= n <= high
    requires InOrder(a) && Numbered(a, low, m) && InOrder(b) && Numbered(b, n, high)
    ensures InOrder(a + b) && Numbered(a + b, low, high)
  {
  }

  lemma NetworkInOrder(inv: Inventory, active: set<string>, flags: Flags, w: Work)
    requires NetworkWork(inv, active, flags, w)
    ensures InOrder(w.Network()) && Numbered(w.Network(), 0, 1)
  {
    forall e | e in Flatten(w.groups)
      ensures PartNumber(e.call) == 0
    {
      GroupCall(inv, active, flags, w, e);
    }
    forall e | e in Flatten(w.stacks)
      ensures PartNumber(e.call) == 1
    {
      StackCall(inv, active, flags, w, e);
    }
    OnePart(Flatten(w.groups), 0);
    OnePart(Flatten(w.stacks), 1);
    OneBehindTheOther(Flatten(w.groups), Flatten(w.stacks), 0, 0, 1, 1);
  }

  lemma IdentityInOrder(inv: Inventory, active: set<string>, flags: Flags, w: Work)
    requires IdentityWork(inv, active, flags, w)
    ensures InOrder(w.Identity()) && Numbered(w.Identity(), 2, 3) && Numbered(Flatten(w.providers), 2, 2)
  {
    forall e | e in Flatten(w.providers)
      ensures PartNumber(e.call) == 2
    {
      ProviderCall(inv, active, flags, w, e);
    }
    forall e | e in Flatten(Rounds(w.roles))
      ensures PartNumber(e.call) == 3
    {
      RoleCall(inv, active, flags, w, e);
    }
    OnePart(Flatten(w.providers), 2);
    OnePart(Flatten(Rounds(w.roles)), 3);
    OneBehindTheOther(Flatten(w.providers), Flatten(Rounds(w.roles)), 2, 2, 3, 3);
  }

  lemma StorageInOrder(inv: Inventory, active: set<string>, flags: Flags, w: Work)
    requires StorageWork(inv, active, flags, w)
    ensures InOrder(w.Storage()) && Numbered(w.Storage(), 4, 5)
  {
    forall e | e in Flatten(w.buckets)
      ensures PartNumber(e.call) == 4
    {
      BucketCall(inv, active, flags, w, e);
    }
    forall e | e in Flatten(w.instances)
      ensures PartNumber(e.call) == 5
    {
      InstanceCall(inv, active, flags, w, e);
    }
    OnePart(Flatten(w.buckets), 4);
    OnePart(Flatten(w.instances), 5);
    OneBehindTheOther(Flatten(w.buckets), Flatten(w.instances), 4, 4, 5, 5);
  }

  lemma ThreeInOrder(a: seq<Entry>, b: seq<Entry>, c: seq<Entry>)
    requires InOrder(a) && Numbered(a, 0, 1) && InOrder(b) && Numbered(b, 2, 3) && InOrder(c) && Numbered(c, 4, 5)
    ensures InOrder(a + b + c)
  {
    OneBehindTheOther(a, b, 0, 1, 2, 3);
    OneBehindTheOther(a + b, c, 0, 3, 4, 5);
  }

  /** The parts come one after the other, in particular security groups in front of the stacks of the VPCs they are in. */
  lemma PartsInOrder(inv: Inventory, active: set<string>, flags: Flags, w: Work)
    requires Ran(inv, active, flags, w)
    ensures InOrder(w.Log())
  {
    NetworkInOrder(inv, active, flags, w);
    IdentityInOrder(inv, active, flags, w);
    StorageInOrder(inv, active, flags, w);
    ThreeInOrder(w.Network(), w.Identity(), w.Storage());
  }

  /** Everything that a run calls is allowed, and a dry run calls nothing. */
  lemma RunsAreSafe(inv: Inventory, active: set<string>, flags: Flags, w: Work)
    requires Ran(inv, active, flags, w)
    ensures Safe(inv, active, flags.dryrun, w.Log())
  {
    forall e | e in w.Log()
      ensures !flags.dryrun && Touchable(inv, active, e.call)
    {
      PartOfCall(inv, active, flags, w, e);
    }
    IsSafe(inv, active, flags.dryrun, w.Log());
  }

  /** A bucket's deletion is never without its successful emptying, and the other way round. */
  lemma BothCalls(buckets: seq<string>, active: set<string>, dryrun: bool, rounds: seq<seq<Entry>>, b: string, e: Entry)
    requires BucketRounds(buckets, active, dryrun, rounds)
    requires e in Flatten(rounds) && (e == Entry(EmptyBucket(b), true) || e.call == DeleteBucket(b))
    ensures Entry(EmptyBucket(b), true) in Flatten(rounds) && Called(Flatten(rounds), DeleteBucket(b))
  {
    FlattenMember(rounds, e);
    var k :| 0 <= k < |rounds| && e in rounds[k];
    BothInRound(buckets[k], active, dryrun, rounds[k], b, e);
    FlattenMember(rounds, rounds[k][0]);
    FlattenMember(rounds, rounds[k][1]);
  }

  /** In a run that is not dry and goes over the buckets, exactly the doomed buckets are emptied, and deleted if that succeeds. */
  lemma BucketsCalledExactly(inv: Inventory, active: set<string>, flags: Flags, w: Work, b: string)
    requires Ran(inv, active, flags, w) && !flags.dryrun && flags.s3 && ReachesBuckets(flags, inv)
    ensures Called(w.Log(), EmptyBucket(b)) <==> b in Listed(inv.buckets) && DoomedBucket(b, active)
    ensures Called(w.Log(), DeleteBucket(b)) <==> Entry(EmptyBucket(b), true) in w.Log()
  {
    RunsAreSafe(inv, active, flags, w);
    if b in Listed(inv.buckets) && DoomedBucket(b, active) {
      var k :| 0 <= k < |w.buckets| && Listed(inv.buckets)[k] == b;
      assert BucketRound(b, active, false, w.buckets[k]);
      FlattenMember(w.buckets, w.buckets[k][0]);
      LogMember(w, w.buckets[k][0]);
    }
    forall e | e in w.Log() && (e == Entry(EmptyBucket(b), true) || e.call == DeleteBucket(b))
      ensures Entry(EmptyBucket(b), true) in w.Log() && Called(w.Log(), DeleteBucket(b))
    {
      PartOfCall(inv, active, flags, w, e);
      BothCalls(Listed(inv.buckets), active, false, w.buckets, b, e);
      LogMember(w, Entry(EmptyBucket(b), true));
      var d :| d in Flatten(w.buckets) && d.call == DeleteBucket(b);
      LogMember(w, d);
    }
  }

  lemma InstanceTerminated(instances: seq<Instance>, active: set<string>, rounds: seq<seq<Entry>>, i: Instance)
    requires InstanceRounds(DoomedInstances(instances, active, false), rounds)
    requires i in instances && exists t | t in i.tags :: Condemns(t, active)
    ensures Called(Flatten(rounds), TerminateInstance(i.id))
  {
    FilterMember(instances, Condemned(active), i);
    var doomed := DoomedInstances(instances, active, false);
    var k :| 0 <= k < |doomed| && doomed[k] == i;
    assert |Calls(rounds[k])| == |rounds[k]| && Calls(rounds[k])[0] == rounds[k][0].call;
    FlattenMember(rounds, rounds[k][0]);
  }

  /** Exactly the condemned instances are terminated. */
  lemma InstancesCalledExactly(inv: Inventory, active: set<string>, flags: Flags, w: Work, id: string)
    requires Ran(inv, active, flags, w) && !flags.dryrun && flags.ec2 && ReachesInstances(flags, inv)
    ensures Called(w.Log(), TerminateInstance(id)) <==> Touchable(inv, active, TerminateInstance(id))
  {
    RunsAreSafe(inv, active, flags, w);
    var listed := Listed(inv.instances);
    if i :| i in listed && i.id == id && exists t | t in i.tags :: Condemns(t, active) {
      InstanceTerminated(listed, active, w.instances, i);
      var e :| e in Flatten(w.instances) && e.call == TerminateInstance(id);
      LogMember(w, e);
    }
  }

  lemma ProviderDeleted(providers: seq<Provider>, active: set<string>, rounds: seq<seq<Entry>>, p: Provider)
    requires ProviderRounds(providers, active, false, rounds) && p in providers && DoomedProvider(p, active)
    ensures Called(Flatten(rounds), DeleteOidcProvider(p.arn))
  {
    var k :| 0 <= k < |providers| && providers[k] == p;
    assert ProviderRound(p, active, false, rounds[k]);
    assert |Calls(rounds[k])| == |rounds[k]| && Calls(rounds[k])[0] == rounds[k][0].call;
    FlattenMember(rounds, rounds[k][0]);
  }

  /** Exactly the doomed providers are deleted. */
  lemma ProvidersCalledExactly(inv: Inventory, active: set<string>, flags: Flags, w: Work, arn: string)
    requires Ran(inv, active, flags, w) && !flags.dryrun && flags.iam && ReachesProviders(flags, inv)
    ensures Called(w.Log(), DeleteOidcProvider(arn)) <==> Touchable(inv, active, DeleteOidcProvider(arn))
  {
    RunsAreSafe(inv, active, flags, w);
    var listed := Listed(inv.providers);
    if p :| p in listed && p.arn == arn && DoomedProvider(p, active) {
      ProviderDeleted(listed, active, w.providers, p);
      var e :| e in Flatten(w.providers) && e.call == DeleteOidcProvider(arn);
      LogMember(w, e);
    }
  }

  lemma StackDeleted(inv: Inventory, active: set<string>, rounds: seq<seq<Entry>>, stack: string)
    requires StackRounds(OrphanedStacks(Listed(inv.vpcs), active, false), rounds) && TouchableStack(inv, active, stack)
    ensures Called(Flatten(rounds), DeleteStack(stack))
  {
    var vpcs := Listed(inv.vpcs);
    var v :| v in vpcs && Orphaned(v, active) && stack == StackOf(NameTag(v.tags).value);
    FlatMapMember(OrphanedStack(active), vpcs, v, stack);
    var stacks := OrphanedStacks(vpcs, active, false);
    var k :| 0 <= k < |stacks| && stacks[k] == stack;
    assert StackRound(stack, rounds[k]);
    FlattenMember(rounds, rounds[k][0]);
  }

  /** Exactly the orphaned stacks are deleted. */
  lemma StacksCalledExactly(inv: Inventory, active: set<string>, flags: Flags, w: Work, stack: string)
    requires Ran(inv, active, flags, w) && !flags.dryrun && flags.vpc && ReachesVpcs(flags, inv)
    ensures Called(w.Log(), DeleteStack(stack)) <==> Touchable(inv, active, DeleteStack(stack))
  {
    RunsAreSafe(inv, active, flags, w);
    if TouchableStack(inv, active, stack) {
      StackDeleted(inv, active, w.stacks, stack);
      var e :| e in Flatten(w.stacks) && e.call == DeleteStack(stack);
      LogMember(w, e);
    }
  }

  lemma GroupDeleted(vpcs: seq<Vpc>, active: set<string>, rounds: seq<seq<Entry>>, v: Vpc, g: Group)
    requires GroupRounds(FlatMap(LeftoverGroups(active), vpcs), false, rounds)
    requires v in vpcs && g in Listed(v.groups) && Stuck(v, active) && g.name != "default"
    ensures Called(Flatten(rounds), DeleteSecurityGroup(g.id))
  {
    FlatMapMember(LeftoverGroups(active), vpcs, v, g);
    var groups := FlatMap(LeftoverGroups(active), vpcs);
    var k :| 0 <= k < |groups| && groups[k] == g;
    var last := |rounds[k]| - 1;
    assert |Calls(rounds[k])| == |rounds[k]| && Calls(rounds[k])[last] == rounds[k][last].call;
    FlattenMember(rounds, rounds[k][last]);
  }

  lemma TouchableGroupDeleted(inv: Inventory, active: set<string>, rounds: seq<seq<Entry>>, id: string)
    requires GroupRounds(FlatMap(LeftoverGroups(active), Listed(inv.groupVpcs)), false, rounds)
    requires TouchableGroup(inv, active, id)
    ensures Called(Flatten(rounds), DeleteSecurityGroup(id))
  {
    var v, g :| v in Listed(inv.groupVpcs) && g in Listed(v.groups) && Stuck(v, active) && g.name != "default" && g.id == id;
    GroupDeleted(Listed(inv.groupVpcs), active, rounds, v, g);
  }

  /** And exactly the groups other than the default in stuck VPCs. */
  lemma GroupsCalledExactly(inv: Inventory, active: set<string>, flags: Flags, w: Work, id: string)
    requires Ran(inv, active, flags, w) && !flags.dryrun && flags.securityGroup
    ensures Called(w.Log(), DeleteSecurityGroup(id)) <==> Touchable(inv, active, DeleteSecurityGroup(id))
  {
    if e :| e in w.Log() && e.call == DeleteSecurityGroup(id) {
      PartOfCall(inv, active, flags, w, e);
    }
    if TouchableGroup(inv, active, id) {
      TouchableGroupDeleted(inv, active, w.groups, id);
      var e :| e in Flatten(w.groups) && e.call == DeleteSecurityGroup(id);
      LogMember(w, e);
    }
  }

  /** The k-th role is of this name, doomed, and everything attached to it has been removed. */
  ghost predicate Ready(roles: seq<Role>, active: set<string>, steps: seq<Steps>, name: string, k: nat) {
    k < |roles| && k < |steps| && DoomedRole(roles[k], active) && roles[k].name == Some(name) && Prepared(roles[k], steps[k])
  }

  lemma RoleDeleted(roles: seq<Role>, active: set<string>, steps: seq<Steps>, name: string, k: nat)
    requires RoleRounds(roles, active, false, steps) && Ready(roles, active, steps, name, k)
    ensures Called(Flatten(Rounds(steps)), DeleteRole(name))
  {
    assert RoleRound(roles[k], active, false, steps[k]);
    DeletedIfPrepared(roles[k], steps[k]);
    var round := Rounds(steps)[k];
    FlattenMember(Rounds(steps), round[|round| - 1]);
  }

  lemma RoleReady(roles: seq<Role>, active: set<string>, steps: seq<Steps>, name: string, e: Entry) returns (k: nat)
    requires RoleRounds(roles, active, false, steps) && e in Flatten(Rounds(steps)) && e.call == DeleteRole(name)
    ensures Ready(roles, active, steps, name, k)
  {
    FlattenMember(Rounds(steps), e);
    k :| k < |steps| && e in Rounds(steps)[k];
    RoleTouched(roles[k], active, false, steps[k], e);
    PreparedIfDeleted(roles[k], steps[k], e);
  }

  /** A role is deleted exactly if it is doomed and everything attached to it has been removed. */
  lemma RolesCalledExactly(inv: Inventory, active: set<string>, flags: Flags, w: Work, name: string)
    requires Ran(inv, active, flags, w) && !flags.dryrun && flags.iam && ReachesRoles(flags, inv)
    ensures Called(w.Log(), DeleteRole(name)) <==> exists k: nat :: Ready(Listed(inv.roles), active, w.roles, name, k)
  {
    var roles := Listed(inv.roles);
    if k: nat :| Ready(roles, active, w.roles, name, k) {
      RoleDeleted(roles, active, w.roles, name, k);
      var e :| e in Flatten(Rounds(w.roles)) && e.call == DeleteRole(name);
      LogMember(w, e);
    }
    if e :| e in w.Log() && e.call == DeleteRole(name) {
      PartOfCall(inv, active, flags, w, e);
      var k := RoleReady(roles, active, w.roles, name, e);
    }
  }

  /** The role of this name that the k-th call deletes: before that, everything listed for it was removed. */
  ghost predicate RemovedBefore(r: Role, name: string, log: seq<Entry>) {
    && r.name == Some(name) && r.profiles.Some? && r.inline.Some? && r.attached.Some?
    && (forall i | i in r.profiles.value :: Entry(RemoveFromProfile(name, i), true) in log)
    && (forall p | p in r.inline.value :: Entry(DeleteInlinePolicy(name, p), true) in log)
    && (forall a | a in r.attached.value :: Entry(DetachPolicy(name, a), true) in log)
  }

  lemma RemovedInLonger(r: Role, name: string, log: seq<Entry>, longer: seq<Entry>)
    requires RemovedBefore(r, name, log) && forall e | e in log :: e in longer
    ensures RemovedBefore(r, name, longer)
  {
  }

  /** A call for a role is in the middle of a log with other calls around it. */
  lemma MiddleAt(front: seq<Entry>, middle: seq<Entry>, back: seq<Entry>, k: nat)
    requires Numbered(front, 0, 2) && Numbered(back, 4, 5)
    requires k < |front + middle + back| && PartNumber((front + middle + back)[k].call) == 3
    ensures |front| <= k < |front| + |middle|
  {
    var log := front + middle + back;
    assert forall i | 0 <= i < |front| :: log[i] == front[i];
    assert forall i | |front| + |middle| <= i < |log| :: log[i] == back[i - |front| - |middle|];
  }

  lemma RolesInLog(inv: Inventory, active: set<string>, flags: Flags, w: Work)
    requires Ran(inv, active, flags, w)
    ensures Numbered(w.Network() + Flatten(w.providers), 0, 2) && Numbered(w.Storage(), 4, 5)
    ensures w.Log() == w.Network() + Flatten(w.providers) + Flatten(Rounds(w.roles)) + w.Storage()
  {
    NetworkInOrder(inv, active, flags, w);
    IdentityInOrder(inv, active, flags, w);
    StorageInOrder(inv, active, flags, w);
    ConcatAssociative(w.Network(), Flatten(w.providers), Flatten(Rounds(w.roles)));
  }

  lemma EarlierInRound(front: seq<Entry>, rounds: seq<seq<Entry>>, back: seq<Entry>, k: nat) returns (i: nat, m: nat)
    requires |front| <= k < |front| + |Flatten(rounds)|
    ensures i < |rounds| && m < |rounds[i]| && (front + Flatten(rounds) + back)[k] == rounds[i][m]
    ensures forall e | e in rounds[i][..m] :: e in (front + Flatten(rounds) + back)[..k]
  {
    var log := front + Flatten(rounds) + back;
    i, m := FlattenAt(rounds, k - |front|);
    assert log[k] == Flatten(rounds)[k - |front|] == rounds[i][m];
    forall e | e in rounds[i][..m]
      ensures e in log[..k]
    {
      var d :| 0 <= d < m && rounds[i][d] == e;
      assert log[k - m + d] == Flatten(rounds)[k - |front| - m + d] == e;
    }
  }

  lemma RemovedInRound(
      items: seq<Role>, active: set<string>, dryrun: bool, steps: seq<Steps>, i: nat, m: nat, name: string)
    requires RoleRounds(items, active, dryrun, steps) && i < |steps|
    requires m < |Rounds(steps)[i]| && Rounds(steps)[i][m].call == DeleteRole(name)
    ensures DoomedRole(items[i], active) && RemovedBefore(items[i], name, Rounds(steps)[i][..m])
  {
    assert RoleRound(items[i], active, dryrun, steps[i]) && steps[i].All()[m].call == DeleteRole(name);
    RoleDeletedLast(items[i], dryrun, steps[i], m);
  }

  /** In the log of a whole run, too, a role is deleted only behind the removal of everything that is listed for it. */
  lemma RunDeletesRoleLast(inv: Inventory, active: set<string>, flags: Flags, w: Work, k: nat, name: string)
    requires Ran(inv, active, flags, w) && k < |w.Log()| && w.Log()[k].call == DeleteRole(name)
    ensures exists r | r in Listed(inv.roles) :: DoomedRole(r, active) && RemovedBefore(r, name, w.Log()[..k])
  {
    var front := w.Network() + Flatten(w.providers);
    RolesInLog(inv, active, flags, w);
    MiddleAt(front, Flatten(Rounds(w.roles)), w.Storage(), k);
    var i, m := EarlierInRound(front, Rounds(w.roles), w.Storage(), k);
    var items := ItemsIf(flags.iam && ReachesRoles(flags, inv), Listed(inv.roles));
    RemovedInRound(items, active, flags.dryrun, w.roles, i, m, name);
    RemovedInLonger(items[i], name, Rounds(w.roles)[i][..m], w.Log()[..k]);
    assert items[i] in Listed(inv.roles);
  }

  // ---------- the active clusters ----------

  /** An OCM environment: its clusters that the account owns, and whether it can be reached and they can be listed. */
  datatype Environment = Environment(clusters: seq<string>, reachable: bool, listable: bool)

  /** The clusters of the environments that can be listed. */
  function ActiveIn(envs: seq<Environment>): set<string> {
    set e, c | e in envs && e.reachable && e.listable && c in e.clusters :: c
  }

  /** collectActiveClusters: it fails only if no environment can be reached; the clusters of an environment that is
      reached but not listed are missing. */
  method CollectActiveClusters(envs: seq<Environment>) returns (active: Option<set<string>>)
    ensures active.None? <==> forall e | e in envs :: !e.reachable
    ensures active.Some? ==> active.value == ActiveIn(envs)
  {
    var providers: seq<Environment> := [];
    for i := 0 to |envs|
      invariant forall e :: e in providers <==> e in envs[..i] && e.reachable
    {
      if !envs[i].reachable {
        continue;
      }
      providers := providers + [envs[i]];
    }
    if |providers| == 0 {
      return None;
    }
    assert providers[0] in providers;
    var names: set<string> := {};
    for i := 0 to |providers|
      invariant names == ActiveIn(providers[..i])
    {
      assert providers[..i + 1] == providers[..i] + [providers[i]];
      assert providers[i] in providers;
      if !providers[i].listable {
        continue;
      }
      names := names + (set c | c in providers[i].clusters);
    }
    assert providers[..|providers|] == providers;
    active := Some(names);
  }

  /** The command: without any environment it stops before it calls anything. */
  method RunCommand(account: CloudAccount, flags: Flags, envs: seq<Environment>, inv: Inventory)
    returns (failed: bool, ghost w: Work)
    modifies account
    ensures account.log == old(account.log) + w.Log() && Safe(inv, ActiveIn(envs), flags.dryrun, w.Log())
    ensures if exists e | e in envs :: e.reachable then Ran(inv, ActiveIn(envs), flags, w) else w == NO_WORK
    ensures failed <==> (forall e | e in envs :: !e.reachable) || !Completes(flags, inv)
  {
    var active := CollectActiveClusters(envs);
    if active.None? {
      failed, w := true, NO_WORK;
      return;
    }
    failed, w := Run(account, flags, inv, active.value);
    RunsAreSafe(inv, active.value, flags, w);
  }

  // ---------- what becomes of the clusters of all environments ----------

  /** The resource is of a cluster of some environment that can be reached and listed. */
  ghost predicate Known(envs: seq<Environment>, isOf: (string, string) -> bool, resource: string) {
    exists e, c | e in envs && e.reachable && e.listable && c in e.clusters :: isOf(resource, c)
  }

  /** The matchers recognise exactly the resources of known clusters. */
  lemma RecognisedIfKnown(envs: seq<Environment>, name: string)
    ensures ActiveLeading(name, ActiveIn(envs)) <==> Known(envs, NameOf, name)
    ensures ActiveOidc(name, ActiveIn(envs)) <==> Known(envs, UrlOf, name)
    ensures ActiveRole(name, ActiveIn(envs)) <==> Known(envs, RoleOf, name)
    ensures ActiveVpc(name, ActiveIn(envs)) <==> Known(envs, VpcOf, name)
  {
    ActiveLeadingMeans(name, ActiveIn(envs));
    ActiveOidcMeans(name, ActiveIn(envs));
    ActiveRoleMeans(name, ActiveIn(envs));
    ActiveVpcMeans(name, ActiveIn(envs));
  }

  /** In a run of the command that is not dry and goes over the buckets, a listed bucket that is osde2e's is emptied if and
      only if no environment that can be reached and listed has its cluster. */
  lemma BucketsSparedExactly(inv: Inventory, envs: seq<Environment>, flags: Flags, w: Work, b: string)
    requires Ran(inv, ActiveIn(envs), flags, w) && !flags.dryrun && flags.s3 && ReachesBuckets(flags, inv)
    ensures Called(w.Log(), EmptyBucket(b)) <==>
      && b in Listed(inv.buckets) && (Contains(b, "osde2e") || Contains(b, "managed-velero")) && b != "osde2e-logs"
      && !Known(envs, NameOf, b)
  {
    BucketsCalledExactly(inv, ActiveIn(envs), flags, w, b);
    RecognisedIfKnown(envs, b);
  }

  /** It is the same with instances and their name tags. */
  lemma InstancesSparedExactly(inv: Inventory, envs: seq<Environment>, flags: Flags, w: Work, id: string)
    requires Ran(inv, ActiveIn(envs), flags, w) && !flags.dryrun && flags.ec2 && ReachesInstances(flags, inv)
    ensures Called(w.Log(), TerminateInstance(id)) <==>
      exists i, t | i in Listed(inv.instances) && t in i.tags ::
        && i.id == id && t.key == "Name" && !Contains(t.value, "osde2e-proxy")
        && !Known(envs, NameOf, t.value)
  {
    InstancesCalledExactly(inv, ActiveIn(envs), flags, w, id);
    forall t: Tag
      ensures ActiveLeading(t.value, ActiveIn(envs)) <==> Known(envs, NameOf, t.value)
    {
      RecognisedIfKnown(envs, t.value);
    }
  }

  /** A provider that is osde2e's and no known cluster's. */
  ghost predicate UnknownProvider(inv: Inventory, envs: seq<Environment>, arn: string) {
    exists p | p in Listed(inv.providers) ::
      && p.arn == arn && arn != "" && p.url.Some? && p.url.value.Some?
      && (Contains(p.url.value.value, "cloudfront") || Contains(p.url.value.value, "osde2e"))
      && !Known(envs, UrlOf, p.url.value.value)
  }

  lemma ProviderTouchableIfUnknown(inv: Inventory, envs: seq<Environment>, arn: string)
    ensures Touchable(inv, ActiveIn(envs), DeleteOidcProvider(arn)) <==> UnknownProvider(inv, envs, arn)
  {
    forall url
      ensures ActiveOidc(url, ActiveIn(envs)) <==> Known(envs, UrlOf, url)
    {
      RecognisedIfKnown(envs, url);
    }
  }

  /** With providers and their urls. */
  lemma ProvidersSparedExactly(inv: Inventory, envs: seq<Environment>, flags: Flags, w: Work, arn: string)
    requires Ran(inv, ActiveIn(envs), flags, w) && !flags.dryrun && flags.iam && ReachesProviders(flags, inv)
    ensures Called(w.Log(), DeleteOidcProvider(arn)) <==> UnknownProvider(inv, envs, arn)
  {
    ProvidersCalledExactly(inv, ActiveIn(envs), flags, w, arn);
    ProviderTouchableIfUnknown(inv, envs, arn);
  }

  /** The k-th role is of this name, no known cluster's, and everything attached to it has been removed. */
  ghost predicate UnknownReady(envs: seq<Environment>, roles: seq<Role>, steps: seq<Steps>, name: string, k: nat) {
    && k < |roles| && k < |steps| && roles[k].name == Some(name) && roles[k].arn.Some?
    && Contains(roles[k].arn.value, "osde2e") && !Known(envs, RoleOf, roles[k].arn.value) && Prepared(roles[k], steps[k])
  }

  /** With roles and their ARNs. */
  lemma RolesSparedExactly(inv: Inventory, envs: seq<Environment>, flags: Flags, w: Work, name: string)
    requires Ran(inv, ActiveIn(envs), flags, w) && !flags.dryrun && flags.iam && ReachesRoles(flags, inv)
    ensures Called(w.Log(), DeleteRole(name)) <==> exists k: nat :: UnknownReady(envs, Listed(inv.roles), w.roles, name, k)
  {
    RolesCalledExactly(inv, ActiveIn(envs), flags, w, name);
    forall k: nat
      ensures Ready(Listed(inv.roles), ActiveIn(envs), w.roles, name, k) <==>
        UnknownReady(envs, Listed(inv.roles), w.roles, name, k)
    {
      if k < |Listed(inv.roles)| && Listed(inv.roles)[k].arn.Some? {
        RecognisedIfKnown(envs, Listed(inv.roles)[k].arn.value);
      }
    }
  }

  /** A VPC with a name and an existing stack that is no known cluster's. */
  ghost predicate UnknownVpc(envs: seq<Environment>, v: Vpc) {
    NameTag(v.tags).Some? && v.status.Some? && !Known(envs, VpcOf, NameTag(v.tags).value)
  }

  lemma OrphanedIfUnknown(envs: seq<Environment>)
    ensures forall v :: Orphaned(v, ActiveIn(envs)) <==> UnknownVpc(envs, v)
  {
    forall v
      ensures Orphaned(v, ActiveIn(envs)) <==> UnknownVpc(envs, v)
    {
      if NameTag(v.tags).Some? {
        RecognisedIfKnown(envs, NameTag(v.tags).value);
      }
    }
  }

  /** With the stacks of VPCs. */
  lemma StacksSparedExactly(inv: Inventory, envs: seq<Environment>, flags: Flags, w: Work, stack: string)
    requires Ran(inv, ActiveIn(envs), flags, w) && !flags.dryrun && flags.vpc && ReachesVpcs(flags, inv)
    ensures Called(w.Log(), DeleteStack(stack)) <==>
      exists v | v in Listed(inv.vpcs) :: UnknownVpc(envs, v) && stack == StackOf(NameTag(v.tags).value)
  {
    StacksCalledExactly(inv, ActiveIn(envs), flags, w, stack);
    OrphanedIfUnknown(envs);
    assert Touchable(inv, ActiveIn(envs), DeleteStack(stack)) <==> TouchableStack(inv, ActiveIn(envs), stack);
  }

  /** A group other than the default in such a VPC, whose stack could not be deleted. */
  ghost predicate UnknownGroup(inv: Inventory, envs: seq<Environment>, id: string) {
    exists v, g | v in Listed(inv.groupVpcs) && g in Listed(v.groups) ::
      && UnknownVpc(envs, v) && NameTag(v.tags).value != "" && v.status.value == "DELETE_FAILED"
      && g.name != "default" && g.id == id
  }

  lemma TouchableIfUnknown(inv: Inventory, envs: seq<Environment>, id: string)
    ensures Touchable(inv, ActiveIn(envs), DeleteSecurityGroup(id)) <==> UnknownGroup(inv, envs, id)
  {
    OrphanedIfUnknown(envs);
  }

  /** And with the security groups in VPCs. */
  lemma GroupsSparedExactly(inv: Inventory, envs: seq<Environment>, flags: Flags, w: Work, id: string)
    requires Ran(inv, ActiveIn(envs), flags, w) && !flags.dryrun && flags.securityGroup
    ensures Called(w.Log(), DeleteSecurityGroup(id)) <==> UnknownGroup(inv, envs, id)
  {
    GroupsCalledExactly(inv, ActiveIn(envs), flags, w, id);
    TouchableIfUnknown(inv, envs, id);
  }

  // ---------- clusters that a run does not spare ----------

  lemma OnlyBucket(inv: Inventory, active: set<string>, flags: Flags, w: Work, name: string)
    requires Ran(inv, active, flags, w) && !flags.dryrun && flags.s3 && ReachesBuckets(flags, inv)
    requires inv.buckets == Some([name]) && DoomedBucket(name, active)
    ensures Called(w.Log(), EmptyBucket(name))
  {
    assert inv.buckets.value[0] in Listed(inv.buckets);
    BucketsCalledExactly(inv, active, flags, w, name);
  }

  lemma DoomedExamples()
    ensures DoomedBucket("osde2e-abcde-image", {}) && DoomedBucket("osde2e-a-b-image", {"osde2e-a-b"})
    ensures Condemns(Tag("Name", "app-x-master-0"), {"app"})
  {
    MistakenNames();
    assert HasPrefix("osde2e-abcde-image"[0..], "osde2e") && HasPrefix("osde2e-a-b-image"[0..], "osde2e");
    var name := "app-x-master-0";
    forall i | 0 <= i <= |name|
      ensures !HasPrefix(name[i..], "osde2e-proxy")
    {
      assert i <= 2 ==> name[i..][..12][0] == name[i] != 'o';
    }
  }

  const SECOND_UNLISTED := [Environment([], true, true), Environment(["osde2e-abcde"], true, false)]

  /** The bucket of a cluster in the second of two environments, if that can be reached but not listed. */
  lemma UnlistedEnvironment(inv: Inventory, flags: Flags, w: Work)
    requires Ran(inv, ActiveIn(SECOND_UNLISTED), flags, w) && !flags.dryrun && flags.s3 && ReachesBuckets(flags, inv)
    requires inv.buckets == Some(["osde2e-abcde-image"])
    ensures Called(w.Log(), EmptyBucket("osde2e-abcde-image"))
  {
    assert ActiveIn(SECOND_UNLISTED) == {};
    DoomedExamples();
    OnlyBucket(inv, {}, flags, w, "osde2e-abcde-image");
  }

  /** The bucket of the active cluster osde2e-a-b, whose suffix has a dash. */
  lemma DashedCluster(inv: Inventory, flags: Flags, w: Work)
    requires Ran(inv, {"osde2e-a-b"}, flags, w) && !flags.dryrun && flags.s3 && ReachesBuckets(flags, inv)
    requires inv.buckets == Some(["osde2e-a-b-image"])
    ensures Called(w.Log(), EmptyBucket("osde2e-a-b-image"))
  {
    DoomedExamples();
    OnlyBucket(inv, {"osde2e-a-b"}, flags, w, "osde2e-a-b-image");
  }

  /** An instance of the active cluster app, which has a random name. */
  lemma RandomlyNamedCluster(inv: Inventory, flags: Flags, w: Work)
    requires Ran(inv, {"app"}, flags, w) && !flags.dryrun && flags.ec2 && ReachesInstances(flags, inv)
    requires inv.instances == Some([Instance("i-0", [Tag("Name", "app-x-master-0")])])
    ensures Called(w.Log(), TerminateInstance("i-0"))
  {
    DoomedExamples();
    var i := inv.instances.value[0];
    assert i in Listed(inv.instances) && i.tags[0] in i.tags;
    InstancesCalledExactly(inv, {"app"}, flags, w, "i-0");
  }

  // ---------- active clusters are safe ----------

  /** The bucket c-rest of an active cluster c with a findable name is never touched. */
  lemma ActiveBuckets(inv: Inventory, active: set<string>, c: string, rest: string)
    requires FindableName(c) && c in active
    ensures !Touchable(inv, active, EmptyBucket(c + "-" + rest)) && !Touchable(inv, active, DeleteBucket(c + "-" + rest))
  {
    InstanceAndBucketNames(c, rest);
  }

  /** An instance with an identifier of its own is never touched if its name is that of an active cluster. */
  lemma ActiveInstances(inv: Inventory, active: set<string>, id: string)
    requires forall i, t | i in Listed(inv.instances) && i.id == id && t in i.tags && t.key == "Name" ::
               exists c | c in active :: NameOf(t.value, c)
    ensures !Touchable(inv, active, TerminateInstance(id))
  {
    forall name
      ensures ActiveLeading(name, active) <==> exists c | c in active :: NameOf(name, c)
    {
      ActiveLeadingMeans(name, active);
    }
  }

  /** Nor is a provider whose url is that of an active cluster. */
  lemma ActiveProviders(inv: Inventory, active: set<string>, arn: string)
    requires forall p | p in Listed(inv.providers) && p.arn == arn && p.url.Some? && p.url.value.Some? ::
               exists c | c in active :: UrlOf(p.url.value.value, c)
    ensures !Touchable(inv, active, DeleteOidcProvider(arn))
  {
    forall url
      ensures ActiveOidc(url, active) <==> exists c | c in active :: UrlOf(url, c)
    {
      ActiveOidcMeans(url, active);
    }
  }

  ghost predicate ArnAfter(arn: string, active: set<string>) {
    exists id, c, rest | AccountId(id) && c in active && FindableName(c) :: arn == Arn(id, c + "-" + rest)
  }

  /** A role whose ARN is that of c-rest for an active cluster c keeps everything. */
  lemma ActiveRoles(inv: Inventory, active: set<string>, name: string, item: string)
    requires forall r | r in Listed(inv.roles) && r.name == Some(name) && r.arn.Some? :: ArnAfter(r.arn.value, active)
    ensures !Touchable(inv, active, DeleteRole(name)) && !Touchable(inv, active, RemoveFromProfile(name, item))
    ensures !Touchable(inv, active, DeleteInlinePolicy(name, item)) && !Touchable(inv, active, DetachPolicy(name, item))
  {
    forall arn | ArnAfter(arn, active)
      ensures ActiveRole(arn, active)
    {
      var id, c, rest :| AccountId(id) && c in active && FindableName(c) && arn == Arn(id, c + "-" + rest);
      RoleArnsExactly(id, c, rest);
    }
  }

  /** The stack of an active cluster is never deleted, whatever the VPCs are called. */
  lemma ActiveStacks(inv: Inventory, active: set<string>, cluster: string)
    requires cluster in active
    ensures !Touchable(inv, active, DeleteStack(cluster + VPC)) && !Touchable(inv, active, AwaitStackDeletion(cluster + VPC))
  {
  }

  /** A security group that is only in VPCs of active clusters is never touched. */
  lemma ActiveGroups(inv: Inventory, active: set<string>, id: string)
    requires forall v, g | v in Listed(inv.groupVpcs) && g in Listed(v.groups) && g.id == id ::
               NameTag(v.tags).Some? && exists c | c in active :: VpcOf(NameTag(v.tags).value, c)
    ensures !Touchable(inv, active, DeleteSecurityGroup(id))
    ensures !Touchable(inv, active, RevokeIngress(id)) && !Touchable(inv, active, RevokeEgress(id))
  {
    forall name
      ensures ActiveVpc(name, active) <==> exists c | c in active :: VpcOf(name, c)
    {
      ActiveVpcMeans(name, active);
    }
  }
}
