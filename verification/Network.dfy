/** The cleanup of VPC stacks and security groups (pkg/common/aws/vpc.go, pkg/common/aws/securitygroups.go). */
module Network {
  import opened Seqs
  import opened ClusterNames
  import opened Account
  import opened Instances

  datatype Group = Group(id: string, name: string, hasIngress: bool, hasEgress: bool)

  /** status: the state of the stack of the VPC, if it exists; groups: the security groups in the VPC, if they can be listed. */
  datatype Vpc = Vpc(tags: seq<Tag>, status: Option<string>, groups: Option<seq<Group>>)

  /** The value of the first name tag. */
  function NameTag(tags: seq<Tag>): Option<string> {
    if tags == [] then None else if tags[0].key == "Name" then Some(tags[0].value) else NameTag(tags[1..])
  }

  lemma {:induction false} NameTagMeans(tags: seq<Tag>)
    ensures NameTag(tags).None? <==> forall t | t in tags :: t.key != "Name"
    ensures NameTag(tags).Some? ==>
      exists k | 0 <= k < |tags| :: tags[k] == Tag("Name", NameTag(tags).value) && forall j | 0 <= j < k :: tags[j].key != "Name"
  {
    if tags == [] {
    } else if tags[0].key == "Name" {
      assert tags[0] in tags;
    } else {
      var rest := tags[1..];
      NameTagMeans(rest);
      assert tags == [tags[0]] + rest;
      if NameTag(rest).Some? {
        var k :| 0 <= k < |rest| && rest[k] == Tag("Name", NameTag(rest).value) && forall j | 0 <= j < k :: rest[j].key != "Name";
        assert tags[k + 1] == rest[k];
        forall j | 0 <= j < k + 1
          ensures tags[j].key != "Name"
        {
          assert j > 0 ==> tags[j] == rest[j - 1];
        }
      }
    }
  }

  /** The VPC has a name, and its stack is not that of an active cluster and exists. */
  predicate Orphaned(v: Vpc, active: set<string>) {
    NameTag(v.tags).Some? && !ActiveVpc(NameTag(v.tags).value, active) && v.status.Some?
  }

  // ---------- stacks ----------

  function OrphanedStack(active: set<string>): Vpc -> seq<string> {
    (v: Vpc) => if Orphaned(v, active) then [StackOf(NameTag(v.tags).value)] else []
  }

  function OrphanedStacks(vpcs: seq<Vpc>, active: set<string>, dryrun: bool): seq<string> {
    if dryrun then [] else FlatMap(OrphanedStack(active), vpcs)
  }

  predicate StackRound(stack: string, round: seq<Entry>) {
    || round == [Entry(DeleteStack(stack), false)]
    || (|round| == 2 && round[0] == Entry(DeleteStack(stack), true) && round[1].call == AwaitStackDeletion(stack))
  }

  ghost predicate StackRounds(stacks: seq<string>, rounds: seq<seq<Entry>>) {
    |rounds| == |stacks| && forall i | 0 <= i < |rounds| :: StackRound(stacks[i], rounds[i])
  }

  method NamedVpcs(vpcs: seq<Vpc>, ghost active: set<string>) returns (named: seq<Vpc>)
    ensures forall v | v in named :: NameTag(v.tags).Some?
    ensures FlatMap(OrphanedStack(active), named) == FlatMap(OrphanedStack(active), vpcs)
  {
    named := [];
    for i := 0 to |vpcs|
      invariant forall v | v in named :: NameTag(v.tags).Some?
      invariant FlatMap(OrphanedStack(active), named) == FlatMap(OrphanedStack(active), vpcs[..i])
    {
      FlatMapStep(OrphanedStack(active), vpcs, i);
      if NameTag(vpcs[i].tags).None? {
        continue;
      }
      FlatMapStep(OrphanedStack(active), named + [vpcs[i]], |named|);
      assert (named + [vpcs[i]])[..|named|] == named && (named + [vpcs[i]])[..|named| + 1] == named + [vpcs[i]];
      named := named + [vpcs[i]];
    }
    assert vpcs[..|vpcs|] == vpcs;
  }

  /** The loops that collect the stacks of the named VPCs, and keep those that are not of an active cluster and exist. */
  method FindOrphans(vpcs: seq<Vpc>, active: set<string>) returns (orphaned: seq<string>)
    ensures orphaned == FlatMap(OrphanedStack(active), vpcs)
  {
    var named := NamedVpcs(vpcs, active);
    var activeStacks := set c | c in active :: c + VPC;
    orphaned := [];
    for i := 0 to |named|
      invariant orphaned == FlatMap(OrphanedStack(active), named[..i])
    {
      FlatMapStep(OrphanedStack(active), named, i);
      assert named[i] in named;
      var stack := StackOf(NameTag(named[i].tags).value);
      if stack !in activeStacks {
        if named[i].status.None? {
          continue;
        }
        orphaned := orphaned + [stack];
      }
    }
    assert named[..|named|] == named;
  }

  method DeleteOneStack(account: CloudAccount, stack: string) returns (ok: bool, ghost round: seq<Entry>)
    modifies account
    ensures account.log == old(account.log) + round && StackRound(stack, round)
    ensures ok <==> Gone(round)
  {
    ok := account.Do(DeleteStack(stack));
    round := [Entry(DeleteStack(stack), ok)];
    if ok {
      ok := account.Do(AwaitStackDeletion(stack));
      round := round + [Entry(AwaitStackDeletion(stack), ok)];
    }
  }

  method DeleteStacks(account: CloudAccount, stacks: seq<string>) returns (counters: Counters, ghost rounds: seq<seq<Entry>>)
    modifies account
    ensures account.log == old(account.log) + Flatten(rounds) && StackRounds(stacks, rounds)
    ensures counters.deleted == GoneIn(rounds) && counters.deleted + counters.failed == |stacks|
  {
    counters, rounds := Counters(0, 0), [];
    for i := 0 to |stacks|
      invariant account.log == old(account.log) + Flatten(rounds)
      invariant StackRounds(stacks[..i], rounds)
      invariant counters.deleted == GoneIn(rounds) && counters.deleted + counters.failed == i
    {
      ghost var round;
      var ok;
      ok, round := DeleteOneStack(account, stacks[i]);
      AddRound(old(account.log), rounds, round);
      counters, rounds := counters.Count(ok, !ok), rounds + [round];
    }
    assert stacks[..|stacks|] == stacks;
  }

  /** Gone are as many as were awaited with success. */
  lemma StacksCounted(stacks: seq<string>, rounds: seq<seq<Entry>>)
    requires StackRounds(stacks, rounds)
    ensures
      var log := Flatten(rounds);
      GoneIn(rounds) == |set k | 0 <= k < |log| && log[k].ok && log[k].call.AwaitStackDeletion?|
  {
    var log := Flatten(rounds);
    forall e | e in log
      ensures e.call.DeleteStack? || e.call.AwaitStackDeletion?
    {
      FlattenMember(rounds, e);
    }
    GoneMeans(rounds);
    assert Positions(log, Deletions()) == set k | 0 <= k < |log| && log[k].ok && log[k].call.AwaitStackDeletion?;
  }

  method CleanupVPCs(account: CloudAccount, vpcs: Option<seq<Vpc>>, active: set<string>, dryrun: bool)
    returns (counters: Counters, failed: bool, ghost rounds: seq<seq<Entry>>)
    modifies account
    ensures account.log == old(account.log) + Flatten(rounds)
    ensures StackRounds(OrphanedStacks(Listed(vpcs), active, dryrun), rounds)
    ensures counters.deleted == GoneIn(rounds)
    ensures counters.deleted + counters.failed == |OrphanedStacks(Listed(vpcs), active, dryrun)|
    ensures failed <==> vpcs.None?
  {
    counters, failed, rounds := Counters(0, 0), vpcs.None?, [];
    if vpcs.None? {
      return;
    }
    var orphaned := FindOrphans(vpcs.value, active);
    if !dryrun {
      counters, rounds := DeleteStacks(account, orphaned);
    }
  }

  lemma {:induction false} OrphanedStackOf(vpcs: seq<Vpc>, active: set<string>, stack: string)
    requires stack in FlatMap(OrphanedStack(active), vpcs)
    ensures exists v | v in vpcs :: Orphaned(v, active) && stack == StackOf(NameTag(v.tags).value)
  {
    var front := vpcs[..|vpcs| - 1];
    if stack in FlatMap(OrphanedStack(active), front) {
      OrphanedStackOf(front, active, stack);
    } else {
      assert vpcs[|vpcs| - 1] in vpcs && Orphaned(vpcs[|vpcs| - 1], active);
    }
  }

  /** Only the stacks of orphaned VPCs are touched. */
  lemma StacksTouched(vpcs: seq<Vpc>, active: set<string>, dryrun: bool, rounds: seq<seq<Entry>>, e: Entry)
    requires StackRounds(OrphanedStacks(vpcs, active, dryrun), rounds) && e in Flatten(rounds)
    ensures !dryrun && (e.call.DeleteStack? || e.call.AwaitStackDeletion?)
    ensures exists v | v in vpcs :: Orphaned(v, active) && e.call.stack == StackOf(NameTag(v.tags).value)
  {
    FlattenMember(rounds, e);
    OrphanedStackOf(vpcs, active, e.call.stack);
  }

  // ---------- security groups ----------

  /** The VPC is not of an active cluster and its stack could not be deleted. */
  predicate Stuck(v: Vpc, active: set<string>) {
    Orphaned(v, active) && NameTag(v.tags).value != "" && v.status.value == "DELETE_FAILED"
  }

  function LeftoverGroups(active: set<string>): Vpc -> seq<Group> {
    (v: Vpc) => if Stuck(v, active) then Listed(v.groups) else []
  }

  function GroupCounts(dryrun: bool): Group -> bool { (g: Group) => !dryrun && g.name != "default" }

  /** The rules of a group are revoked, and the group is deleted even if that fails. */
  function GroupCalls(g: Group, dryrun: bool): seq<Call> {
    if dryrun || g.name == "default" then []
    else
      (if g.hasIngress then [RevokeIngress(g.id)] else [])
      + (if g.hasEgress then [RevokeEgress(g.id)] else [])
      + [DeleteSecurityGroup(g.id)]
  }

  /** Unless it is the default one or this is a dry run, a group loses the rules it has and is then deleted. */
  lemma GroupCallsMean(g: Group, dryrun: bool, c: Call)
    ensures c in GroupCalls(g, dryrun) <==>
      && !dryrun && g.name != "default"
      && ((c == RevokeIngress(g.id) && g.hasIngress) || (c == RevokeEgress(g.id) && g.hasEgress) || c == DeleteSecurityGroup(g.id))
    ensures forall k | 0 <= k < |GroupCalls(g, dryrun)| ::
      GroupCalls(g, dryrun)[k].DeleteSecurityGroup? <==> k == |GroupCalls(g, dryrun)| - 1
  {
  }

  ghost predicate GroupRounds(groups: seq<Group>, dryrun: bool, rounds: seq<seq<Entry>>) {
    |rounds| == |groups| && forall i | 0 <= i < |rounds| :: Calls(rounds[i]) == GroupCalls(groups[i], dryrun)
  }

  method CleanupGroup(account: CloudAccount, g: Group, dryrun: bool) returns (deleted: bool, failed: bool, ghost round: seq<Entry>)
    modifies account
    ensures account.log == old(account.log) + round && Calls(round) == GroupCalls(g, dryrun)
    ensures deleted <==> Gone(round)
    ensures !(deleted && failed) && (deleted || failed <==> GroupCounts(dryrun)(g))
  {
    deleted, failed, round := false, false, [];
    if g.name == "default" {
      return;
    }
    if dryrun {
      return;
    }
    if g.hasIngress {
      var revoked := account.Do(RevokeIngress(g.id));
      round := [Entry(RevokeIngress(g.id), revoked)];
    }
    if g.hasEgress {
      var revoked := account.Do(RevokeEgress(g.id));
      round := round + [Entry(RevokeEgress(g.id), revoked)];
    }
    var ok := account.Do(DeleteSecurityGroup(g.id));
    round := round + [Entry(DeleteSecurityGroup(g.id), ok)];
    deleted, failed := ok, !ok;
  }

  lemma AddGroup(groups: seq<Group>, i: nat, dryrun: bool, rounds: seq<seq<Entry>>, round: seq<Entry>)
    requires i < |groups| && GroupRounds(groups[..i], dryrun, rounds) && Calls(round) == GroupCalls(groups[i], dryrun)
    ensures GroupRounds(groups[..i + 1], dryrun, rounds + [round])
  {
  }

  method DeleteGroups(account: CloudAccount, groups: seq<Group>, dryrun: bool)
    returns (counters: Counters, ghost rounds: seq<seq<Entry>>)
    modifies account
    ensures account.log == old(account.log) + Flatten(rounds) && GroupRounds(groups, dryrun, rounds)
    ensures counters.deleted == GoneIn(rounds)
    ensures counters.deleted + counters.failed == |Filter(groups, GroupCounts(dryrun))|
  {
    counters, rounds := Counters(0, 0), [];
    for i := 0 to |groups|
      invariant account.log == old(account.log) + Flatten(rounds)
      invariant GroupRounds(groups[..i], dryrun, rounds)
      invariant counters.deleted == GoneIn(rounds)
      invariant counters.deleted + counters.failed == |Filter(groups[..i], GroupCounts(dryrun))|
    {
      FilterStep(groups, GroupCounts(dryrun), i);
      ghost var round;
      var d, f;
      d, f, round := CleanupGroup(account, groups[i], dryrun);
      AddRound(old(account.log), rounds, round);
      AddGroup(groups, i, dryrun, rounds, round);
      counters, rounds := counters.Count(d, f), rounds + [round];
    }
    assert groups[..|groups|] == groups;
  }

  /** The loop over the VPCs. */
  method CollectGroups(vpcs: seq<Vpc>, active: set<string>) returns (groups: seq<Group>)
    ensures groups == FlatMap(LeftoverGroups(active), vpcs)
  {
    var activeStacks := set c | c in active :: c + VPC;
    groups := [];
    for i := 0 to |vpcs|
      invariant groups == FlatMap(LeftoverGroups(active), vpcs[..i])
    {
      FlatMapStep(LeftoverGroups(active), vpcs, i);
      var name := NameTag(vpcs[i].tags);
      if name.None? || name.value == "" {
        continue;
      }
      if StackOf(name.value) in activeStacks {
        continue;
      }
      if vpcs[i].status.None? || vpcs[i].status.value != "DELETE_FAILED" {
        continue;
      }
      if vpcs[i].groups.None? {
        continue;
      }
      groups := groups + vpcs[i].groups.value;
    }
    assert vpcs[..|vpcs|] == vpcs;
  }

  /** Gone are as many as were deleted with success. */
  lemma GroupsCounted(groups: seq<Group>, dryrun: bool, rounds: seq<seq<Entry>>)
    requires GroupRounds(groups, dryrun, rounds)
    ensures
      var log := Flatten(rounds);
      GoneIn(rounds) == |set k | 0 <= k < |log| && log[k].ok && log[k].call.DeleteSecurityGroup?|
  {
    var log := Flatten(rounds);
    forall i, j | 0 <= i < |rounds| && 0 <= j < |rounds[i]|
      ensures IsDeletion(rounds[i][j].call) <==> rounds[i][j].call.DeleteSecurityGroup?
      ensures IsDeletion(rounds[i][j].call) <==> j == |rounds[i]| - 1
    {
      GroupCallsMean(groups[i], dryrun, rounds[i][j].call);
      assert |Calls(rounds[i])| == |rounds[i]| && Calls(rounds[i])[j] == rounds[i][j].call;
    }
    forall e | e in log
      ensures IsDeletion(e.call) <==> e.call.DeleteSecurityGroup?
    {
      FlattenMember(rounds, e);
    }
    GoneMeans(rounds);
    assert Positions(log, Deletions()) == set k | 0 <= k < |log| && log[k].ok && log[k].call.DeleteSecurityGroup?;
  }

  lemma GroupCountsMean(groups: seq<Group>, dryrun: bool)
    ensures |Filter(groups, GroupCounts(dryrun))| == |set k | 0 <= k < |groups| && !dryrun && groups[k].name != "default"|
  {
    FilterSize(groups, GroupCounts(dryrun));
    assert Positions(groups, GroupCounts(dryrun)) == set k | 0 <= k < |groups| && !dryrun && groups[k].name != "default";
  }

  method CleanupSecurityGroups(account: CloudAccount, vpcs: Option<seq<Vpc>>, active: set<string>, dryrun: bool)
    returns (counters: Counters, failed: bool, ghost rounds: seq<seq<Entry>>)
    modifies account
    ensures account.log == old(account.log) + Flatten(rounds)
    ensures GroupRounds(FlatMap(LeftoverGroups(active), Listed(vpcs)), dryrun, rounds)
    ensures counters.deleted == GoneIn(rounds)
    ensures counters.deleted + counters.failed == |Filter(FlatMap(LeftoverGroups(active), Listed(vpcs)), GroupCounts(dryrun))|
    ensures failed <==> vpcs.None?
  {
    counters, failed, rounds := Counters(0, 0), vpcs.None?, [];
    if vpcs.None? {
      return;
    }
    var groups := CollectGroups(vpcs.value, active);
    counters, rounds := DeleteGroups(account, groups, dryrun);
  }

  lemma {:induction false} LeftoverGroupOf(vpcs: seq<Vpc>, active: set<string>, g: Group)
    requires g in FlatMap(LeftoverGroups(active), vpcs)
    ensures exists v | v in vpcs :: Stuck(v, active) && g in Listed(v.groups)
  {
    var front := vpcs[..|vpcs| - 1];
    if g in FlatMap(LeftoverGroups(active), front) {
      LeftoverGroupOf(front, active, g);
    } else {
      assert vpcs[|vpcs| - 1] in vpcs && Stuck(vpcs[|vpcs| - 1], active);
    }
  }

  /** Only groups other than the default in VPCs with a stuck stack are touched. */
  lemma GroupsTouched(vpcs: seq<Vpc>, active: set<string>, dryrun: bool, rounds: seq<seq<Entry>>, e: Entry)
    requires GroupRounds(FlatMap(LeftoverGroups(active), vpcs), dryrun, rounds) && e in Flatten(rounds)
    ensures !dryrun && (e.call.RevokeIngress? || e.call.RevokeEgress? || e.call.DeleteSecurityGroup?)
    ensures exists v, g | v in vpcs && g in Listed(v.groups) :: Stuck(v, active) && g.name != "default" && g.id == e.call.group
  {
    FlattenMember(rounds, e);
    var k :| 0 <= k < |rounds| && e in rounds[k];
    var j :| 0 <= j < |rounds[k]| && rounds[k][j] == e;
    assert e.call == Calls(rounds[k])[j];
    var g := FlatMap(LeftoverGroups(active), vpcs)[k];
    LeftoverGroupOf(vpcs, active, g);
  }
}
