/** The termination of EC2 instances (pkg/common/aws/ec2.go). */
module Instances {
  import opened Seqs
  import opened Text
  import opened ClusterNames
  import opened Account

  datatype Tag = Tag(key: string, value: string)

  datatype Instance = Instance(id: string, tags: seq<Tag>)

  /** A name tag that neither exempts the instance nor names an active cluster. */
  predicate Condemns(t: Tag, active: set<string>) {
    t.key == "Name" && !Contains(t.value, "osde2e-proxy") && !ActiveLeading(t.value, active)
  }

  function Condemned(active: set<string>): Instance -> bool {
    (i: Instance) => exists t | t in i.tags :: Condemns(t, active)
  }

  ghost predicate InstanceRounds(doomed: seq<Instance>, rounds: seq<seq<Entry>>) {
    |rounds| == |doomed| && forall i | 0 <= i < |rounds| :: Calls(rounds[i]) == [TerminateInstance(doomed[i].id)]
  }

  function DoomedInstances(instances: seq<Instance>, active: set<string>, dryrun: bool): seq<Instance> {
    if dryrun then [] else Filter(instances, Condemned(active))
  }

  method HasCondemningTag(tags: seq<Tag>, active: set<string>) returns (found: bool)
    ensures found <==> exists t | t in tags :: Condemns(t, active)
  {
    for i := 0 to |tags|
      invariant forall j | 0 <= j < i :: !Condemns(tags[j], active)
    {
      var tag := tags[i];
      if tag.key != "Name" || Contains(tag.value, "osde2e-proxy") || ActiveLeading(tag.value, active) {
        continue;
      }
      assert tag in tags;
      return true;
    }
    found := false;
  }

  /** Gone are as many as were terminated with success. */
  lemma TerminationsCounted(doomed: seq<Instance>, rounds: seq<seq<Entry>>)
    requires InstanceRounds(doomed, rounds)
    ensures
      var log := Flatten(rounds);
      GoneIn(rounds) == |set k | 0 <= k < |log| && log[k].ok && log[k].call.TerminateInstance?|
  {
    var log := Flatten(rounds);
    forall i | 0 <= i < |rounds|
      ensures |rounds[i]| == 1 && rounds[i][0].call.TerminateInstance?
    {
      assert |Calls(rounds[i])| == |rounds[i]| && Calls(rounds[i])[0] == rounds[i][0].call;
    }
    forall e | e in log
      ensures e.call.TerminateInstance?
    {
      FlattenMember(rounds, e);
    }
    GoneMeans(rounds);
    assert Positions(log, Deletions()) == set k | 0 <= k < |log| && log[k].ok && log[k].call.TerminateInstance?;
  }

  method TerminateAll(account: CloudAccount, doomed: seq<Instance>) returns (counters: Counters, ghost rounds: seq<seq<Entry>>)
    modifies account
    ensures account.log == old(account.log) + Flatten(rounds) && InstanceRounds(doomed, rounds)
    ensures counters.deleted == GoneIn(rounds) && counters.deleted + counters.failed == |doomed|
  {
    counters, rounds := Counters(0, 0), [];
    for i := 0 to |doomed|
      invariant account.log == old(account.log) + Flatten(rounds)
      invariant InstanceRounds(doomed[..i], rounds)
      invariant counters.deleted == GoneIn(rounds) && counters.deleted + counters.failed == i
    {
      var ok := account.Do(TerminateInstance(doomed[i].id));
      ghost var round := [Entry(TerminateInstance(doomed[i].id), ok)];
      AddRound(old(account.log), rounds, round);
      counters, rounds := counters.Count(ok, !ok), rounds + [round];
    }
    assert doomed[..|doomed|] == doomed;
  }

  /** `instances` are the first instances of the reservations; `failed` is how many could not be terminated, if they
      could be listed. */
  method TerminateEC2Instances(account: CloudAccount, instances: Option<seq<Instance>>, active: set<string>, dryrun: bool)
    returns (counters: Counters, failed: bool, ghost rounds: seq<seq<Entry>>)
    modifies account
    ensures account.log == old(account.log) + Flatten(rounds)
    ensures InstanceRounds(DoomedInstances(Listed(instances), active, dryrun), rounds)
    ensures counters.deleted == GoneIn(rounds)
    ensures counters.deleted + counters.failed == |DoomedInstances(Listed(instances), active, dryrun)|
    ensures failed <==> instances.None? || counters.failed > 0
  {
    counters, rounds := Counters(0, 0), [];
    if instances.None? {
      failed := true;
      return;
    }
    var doomed: seq<Instance> := [];
    for i := 0 to |instances.value|
      invariant account.log == old(account.log)
      invariant doomed == Filter(instances.value[..i], Condemned(active))
    {
      FilterStep(instances.value, Condemned(active), i);
      var condemned := HasCondemningTag(instances.value[i].tags, active);
      if condemned {
        doomed := doomed + [instances.value[i]];
      }
    }
    assert instances.value[..|instances.value|] == instances.value;
    if !dryrun {
      counters, rounds := TerminateAll(account, doomed);
    }
    failed := counters.failed > 0;
  }

  /** Only listed instances with a condemning name tag are touched. */
  lemma InstancesTouched(instances: seq<Instance>, active: set<string>, dryrun: bool, rounds: seq<seq<Entry>>, e: Entry)
    requires InstanceRounds(DoomedInstances(instances, active, dryrun), rounds) && e in Flatten(rounds)
    ensures !dryrun && e.call.TerminateInstance?
    ensures exists i | i in instances :: i.id == e.call.id && exists t | t in i.tags :: Condemns(t, active)
  {
    FlattenMember(rounds, e);
    var k :| 0 <= k < |rounds| && e in rounds[k];
    var doomed := DoomedInstances(instances, active, dryrun);
    assert |Calls(rounds[k])| == |rounds[k]| && rounds[k][0].call == Calls(rounds[k])[0];
    FilterMember(instances, Condemned(active), doomed[k]);
  }
}
