/** The changing calls that the cleanup makes to the cloud, and logs of them. */
module Account {
  import opened Seqs

  datatype Call =
    | TerminateInstance(id: string)
    | EmptyBucket(name: string)
    | DeleteBucket(name: string)
    | DeleteOidcProvider(arn: string)
    | RemoveFromProfile(role: string, profile: string)
    | DeleteInlinePolicy(role: string, policy: string)
    | DetachPolicy(role: string, policyArn: string)
    | DeleteRole(role: string)
    | DeleteStack(stack: string)
    | AwaitStackDeletion(stack: string)
    | RevokeIngress(group: string)
    | RevokeEgress(group: string)
    | DeleteSecurityGroup(group: string)

  /** A call and whether it succeeded. */
  datatype Entry = Entry(call: Call, ok: bool)

  class CloudAccount {
    /** Whether the n-th call succeeds. */
    const answers: nat -> bool
    var log: seq<Entry>

    constructor (answers: nat -> bool)
      ensures this.answers == answers && log == []
    {
      this.answers, this.log := answers, [];
    }

    method Do(call: Call) returns (ok: bool)
      modifies this
      ensures log == old(log) + [Entry(call, ok)] && ok == answers(|old(log)|)
    {
      ok := answers(|log|);
      log := log + [Entry(call, ok)];
    }
  }

  function Calls(log: seq<Entry>): (calls: seq<Call>) {
    seq(|log|, i requires 0 <= i < |log| => log[i].call)
  }

  predicate AllOk(log: seq<Entry>) { forall e | e in log :: e.ok }

  /** The call after whose success a resource is gone. */
  predicate IsDeletion(c: Call) {
    c.TerminateInstance? || c.DeleteBucket? || c.DeleteOidcProvider? || c.DeleteRole? || c.AwaitStackDeletion? || c.DeleteSecurityGroup?
  }

  /** A loop over resources logs one round for each of them; a round that deletes its resource ends with that. */
  predicate Gone(round: seq<Entry>) { round != [] && round[|round| - 1].ok && IsDeletion(round[|round| - 1].call) }

  function Flatten(rounds: seq<seq<Entry>>): seq<Entry> {
    if rounds == [] then [] else Flatten(rounds[..|rounds| - 1]) + rounds[|rounds| - 1]
  }

  function GoneIn(rounds: seq<seq<Entry>>): nat {
    if rounds == [] then 0 else GoneIn(rounds[..|rounds| - 1]) + if Gone(rounds[|rounds| - 1]) then 1 else 0
  }

  /** One more round of a loop that began at the log `base`. */
  lemma AddRound(base: seq<Entry>, rounds: seq<seq<Entry>>, round: seq<Entry>)
    ensures base + Flatten(rounds) + round == base + Flatten(rounds + [round])
    ensures GoneIn(rounds + [round]) == GoneIn(rounds) + if Gone(round) then 1 else 0
  {
    assert (rounds + [round])[..|rounds|] == rounds;
    ConcatAssociative(base, Flatten(rounds), round);
  }

  lemma {:induction false} FlattenMember(rounds: seq<seq<Entry>>, e: Entry)
    ensures e in Flatten(rounds) <==> exists i | 0 <= i < |rounds| :: e in rounds[i]
  {
    if rounds == [] {
    } else {
      var front := rounds[..|rounds| - 1];
      FlattenMember(front, e);
      assert rounds == front + [rounds[|rounds| - 1]];
    }
  }

  function Deletions(): Entry -> bool { (e: Entry) => e.ok && IsDeletion(e.call) }

  /** Rounds that can delete only with their last call. */
  ghost predicate DeletesLast(rounds: seq<seq<Entry>>) {
    forall i, j | 0 <= i < |rounds| && 0 <= j < |rounds[i]| - 1 :: !IsDeletion(rounds[i][j].call)
  }

  lemma RoundDeletions(round: seq<Entry>)
    requires forall j | 0 <= j < |round| - 1 :: !IsDeletion(round[j].call)
    ensures |Filter(round, Deletions())| == if Gone(round) then 1 else 0
  {
    if round != [] {
      FilterNone(round[..|round| - 1], Deletions());
    }
  }

  lemma {:induction false} GoneCounts(rounds: seq<seq<Entry>>)
    requires DeletesLast(rounds)
    ensures GoneIn(rounds) == |Filter(Flatten(rounds), Deletions())|
  {
    if rounds == [] {
    } else {
      var front, round := rounds[..|rounds| - 1], rounds[|rounds| - 1];
      assert forall i | 0 <= i < |front| :: front[i] == rounds[i];
      GoneCounts(front);
      RoundDeletions(round);
      FilterConcat(Flatten(front), round, Deletions());
    }
  }

  /** Then as many resources are gone as deletions have succeeded. */
  lemma GoneMeans(rounds: seq<seq<Entry>>)
    requires DeletesLast(rounds)
    ensures GoneIn(rounds) == |Positions(Flatten(rounds), Deletions())|
  {
    GoneCounts(rounds);
    FilterSize(Flatten(rounds), Deletions());
  }

  /** A position of the flattened log is one in some round, with what is in front of it in that round in front of it. */
  lemma {:induction false} FlattenAt(rounds: seq<seq<Entry>>, k: nat) returns (i: nat, m: nat)
    requires k < |Flatten(rounds)|
    ensures i < |rounds| && m < |rounds[i]| && m <= k
    ensures forall d | 0 <= d <= m :: Flatten(rounds)[k - m + d] == rounds[i][d]
  {
    var front := rounds[..|rounds| - 1];
    if k < |Flatten(front)| {
      i, m := FlattenAt(front, k);
    } else {
      i, m := |front|, k - |Flatten(front)|;
    }
  }

  /** What the cloud lists, which may fail. */
  function Listed<T>(listing: Option<seq<T>>): seq<T> {
    if listing.None? then [] else listing.value
  }

  /** `deleted` and `failed` resources. */
  datatype Counters = Counters(deleted: nat, failed: nat) {
    function Count(d: bool, f: bool): Counters {
      Counters(deleted + (if d then 1 else 0), failed + (if f then 1 else 0))
    }
  }
}
