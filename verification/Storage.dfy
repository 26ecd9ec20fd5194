/** The cleanup of buckets (pkg/common/aws/s3.go). */
module Storage {
  import opened Seqs
  import opened Text
  import opened ClusterNames
  import opened Account

  predicate DoomedBucket(name: string, active: set<string>) {
    (Contains(name, "osde2e") || Contains(name, "managed-velero")) && !ActiveLeading(name, active) && name != "osde2e-logs"
  }

  function BucketCounts(active: set<string>, dryrun: bool): string -> bool {
    (b: string) => !dryrun && DoomedBucket(b, active)
  }

  /** A doomed bucket is emptied, and deleted if and only if that succeeds. */
  predicate BucketRound(b: string, active: set<string>, dryrun: bool, round: seq<Entry>) {
    if dryrun || !DoomedBucket(b, active) then round == []
    else
      || round == [Entry(EmptyBucket(b), false)]
      || (|round| == 2 && round[0] == Entry(EmptyBucket(b), true) && round[1].call == DeleteBucket(b))
  }

  ghost predicate BucketRounds(buckets: seq<string>, active: set<string>, dryrun: bool, rounds: seq<seq<Entry>>) {
    |rounds| == |buckets| && forall i | 0 <= i < |rounds| :: BucketRound(buckets[i], active, dryrun, rounds[i])
  }

  method CleanupBucket(account: CloudAccount, b: string, active: set<string>, dryrun: bool)
    returns (deleted: bool, failed: bool, ghost round: seq<Entry>)
    modifies account
    ensures account.log == old(account.log) + round && BucketRound(b, active, dryrun, round)
    ensures deleted <==> Gone(round)
    ensures !(deleted && failed) && (deleted || failed <==> BucketCounts(active, dryrun)(b))
  {
    deleted, failed, round := false, false, [];
    if (Contains(b, "osde2e") || Contains(b, "managed-velero")) && !ActiveLeading(b, active) && b != "osde2e-logs" {
      if !dryrun {
        var emptied := account.Do(EmptyBucket(b));
        round := [Entry(EmptyBucket(b), emptied)];
        if !emptied {
          failed := true;
          return;
        }
        var ok := account.Do(DeleteBucket(b));
        round := round + [Entry(DeleteBucket(b), ok)];
        deleted, failed := ok, !ok;
      }
    }
  }

  /** Gone are as many as were deleted with success. */
  lemma BucketsCounted(buckets: seq<string>, active: set<string>, dryrun: bool, rounds: seq<seq<Entry>>)
    requires BucketRounds(buckets, active, dryrun, rounds)
    ensures
      var log := Flatten(rounds);
      GoneIn(rounds) == |set k | 0 <= k < |log| && log[k].ok && log[k].call.DeleteBucket?|
  {
    var log := Flatten(rounds);
    forall i | 0 <= i < |rounds|
      ensures |rounds[i]| == 2 ==> rounds[i][0].call.EmptyBucket? && rounds[i][1].call.DeleteBucket?
      ensures |rounds[i]| == 1 ==> rounds[i][0].call.EmptyBucket?
      ensures |rounds[i]| <= 2
    {
      assert BucketRound(buckets[i], active, dryrun, rounds[i]);
    }
    forall e | e in log
      ensures e.call.EmptyBucket? || e.call.DeleteBucket?
    {
      FlattenMember(rounds, e);
    }
    GoneMeans(rounds);
    assert Positions(log, Deletions()) == set k | 0 <= k < |log| && log[k].ok && log[k].call.DeleteBucket?;
  }

  lemma BucketCountsMean(buckets: seq<string>, active: set<string>, dryrun: bool)
    ensures |Filter(buckets, BucketCounts(active, dryrun))| ==
      |set k | 0 <= k < |buckets| && !dryrun && DoomedBucket(buckets[k], active)|
  {
    FilterSize(buckets, BucketCounts(active, dryrun));
    assert Positions(buckets, BucketCounts(active, dryrun)) ==
      set k | 0 <= k < |buckets| && !dryrun && DoomedBucket(buckets[k], active);
  }

  method CleanupS3Buckets(account: CloudAccount, buckets: Option<seq<string>>, active: set<string>, dryrun: bool)
    returns (counters: Counters, failed: bool, ghost rounds: seq<seq<Entry>>)
    modifies account
    ensures account.log == old(account.log) + Flatten(rounds) && BucketRounds(Listed(buckets), active, dryrun, rounds)
    ensures counters.deleted == GoneIn(rounds)
    ensures counters.deleted + counters.failed == |Filter(Listed(buckets), BucketCounts(active, dryrun))|
    ensures failed <==> buckets.None?
  {
    counters, failed, rounds := Counters(0, 0), buckets.None?, [];
    if buckets.None? {
      return;
    }
    var items := buckets.value;
    for i := 0 to |items|
      invariant account.log == old(account.log) + Flatten(rounds)
      invariant BucketRounds(items[..i], active, dryrun, rounds)
      invariant counters.deleted == GoneIn(rounds)
      invariant counters.deleted + counters.failed == |Filter(items[..i], BucketCounts(active, dryrun))|
    {
      FilterStep(items, BucketCounts(active, dryrun), i);
      ghost var round;
      var d, f;
      d, f, round := CleanupBucket(account, items[i], active, dryrun);
      AddRound(old(account.log), rounds, round);
      counters, rounds := counters.Count(d, f), rounds + [round];
    }
    assert items[..|items|] == items;
  }

  /** Only doomed buckets are touched. */
  lemma BucketsTouched(buckets: seq<string>, active: set<string>, dryrun: bool, rounds: seq<seq<Entry>>, e: Entry)
    requires BucketRounds(buckets, active, dryrun, rounds) && e in Flatten(rounds)
    ensures !dryrun && (e.call.EmptyBucket? || e.call.DeleteBucket?)
    ensures e.call.name in buckets && DoomedBucket(e.call.name, active)
  {
    FlattenMember(rounds, e);
  }
}
