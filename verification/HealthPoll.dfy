/** The poll loop of waitForClusterReadyWithOverrideAndExpectedNumberOfNodes (pkg/common/cluster/clusterutil.go). */
module HealthPoll {
  import opened Seqs
  import opened Text

  const ERROR_WINDOW: nat := 20

  /** What PollClusterHealth answers: success, or the names of the failed checks and whether there is an error. */
  datatype Health = Clean | Unclean(failures: seq<string>, isError: bool)

  datatype Counters = Counters(cleanRuns: nat, errRuns: nat)

  // ---------- the counters ----------

  /** One poll. From the error window on, an error returns before cleanRuns is reset. */
  function Next(window: nat, c: Counters, h: Health): Counters {
    match h
    case Clean => Counters(c.cleanRuns + 1, 0)
    case Unclean(_, isError) =>
      var errRuns := if isError then c.errRuns + 1 else c.errRuns;
      Counters(if isError && errRuns >= window then c.cleanRuns else 0, errRuns)
  }

  function After(window: nat, polls: seq<Health>): Counters {
    if polls == [] then Counters(0, 0) else Next(window, After(window, polls[..|polls| - 1]), polls[|polls| - 1])
  }

  /** How many polls at the end were clean. */
  function CleanAtEnd(polls: seq<Health>): nat {
    if polls == [] || !polls[|polls| - 1].Clean? then 0 else CleanAtEnd(polls[..|polls| - 1]) + 1
  }

  /** How many polls since the last clean one had an error. */
  function ErrorsSinceClean(polls: seq<Health>): nat {
    if polls == [] || polls[|polls| - 1].Clean? then 0
    else ErrorsSinceClean(polls[..|polls| - 1]) + if polls[|polls| - 1].isError then 1 else 0
  }

  /** The early return never keeps credit, because errors counted mean no clean run counted; so cleanRuns is the
      number of clean polls at the end, and errRuns that of the errors since the last clean poll. */
  lemma {:induction false} CountersMean(window: nat, polls: seq<Health>)
    requires window >= 2
    ensures After(window, polls).errRuns > 0 ==> After(window, polls).cleanRuns == 0
    ensures After(window, polls) == Counters(CleanAtEnd(polls), ErrorsSinceClean(polls))
  {
    if polls == [] {
    } else {
      CountersMean(window, polls[..|polls| - 1]);
    }
  }

  /** This is so because the window is at least two: a window of one keeps the credit of a clean poll over an error. */
  lemma WindowOfTwoIsNeeded(window: nat)
    ensures (forall polls :: After(window, polls).cleanRuns == CleanAtEnd(polls)) <==> window >= 2
  {
    if window >= 2 {
      forall polls
        ensures After(window, polls).cleanRuns == CleanAtEnd(polls)
      {
        CountersMean(window, polls);
      }
    } else {
      var clean, error := [Clean], [Clean, Unclean([], true)];
      assert clean[..0] == [] && error[..1] == clean;
      assert After(window, clean) == Counters(1, 0);
      assert After(window, error).cleanRuns == 1 && CleanAtEnd(error) == 0;
      assert exists polls :: After(window, polls).cleanRuns != CleanAtEnd(polls);
    }
  }

  /** The last n polls were all clean. */
  ghost predicate LastClean(polls: seq<Health>, n: int) {
    0 < n <= |polls| && forall i | |polls| - n <= i < |polls| :: polls[i].Clean?
  }

  lemma {:induction false} CleanAtEndCovers(polls: seq<Health>, n: int)
    ensures 0 < n <= CleanAtEnd(polls) <==> LastClean(polls, n)
  {
    if polls != [] && polls[|polls| - 1].Clean? && n > 1 {
      CleanAtEndCovers(polls[..|polls| - 1], n - 1);
      assert LastClean(polls, n) ==> LastClean(polls[..|polls| - 1], n - 1);
      assert LastClean(polls[..|polls| - 1], n - 1) ==> LastClean(polls, n) by {
        assert forall i | 0 <= i < |polls| - 1 :: polls[..|polls| - 1][i] == polls[i];
      }
    } else if polls != [] && n > 0 {
      assert LastClean(polls, n) ==> polls[|polls| - 1].Clean?;
    }
  }

  // ---------- the poller ----------

  class HealthPoller {
    const cleanRunsNeeded: int
    /** The state of the cluster object, which is fetched once before the loop. */
    const ready: bool
    const unhealthyStatus: string
    var cleanRuns: nat
    var errRuns: nat
    /** The status property of the cluster object; it is set even if the provider refuses the update. */
    var status: string

    ghost function Count(): Counters reads this { Counters(cleanRuns, errRuns) }

    constructor (cleanRunsNeeded: int, ready: bool, status: string, unhealthyStatus: string)
      ensures this.cleanRunsNeeded == cleanRunsNeeded && this.ready == ready && this.unhealthyStatus == unhealthyStatus
      ensures Count() == Counters(0, 0) && this.status == status
    {
      this.cleanRunsNeeded, this.ready, this.unhealthyStatus := cleanRunsNeeded, ready, unhealthyStatus;
      this.cleanRuns, this.errRuns, this.status := 0, 0, status;
    }

    /** The poll closure: whether polling is over, and the status it sends to the provider, if any: the unhealthy status from
        20 errors on, otherwise the failed checks unless they are the status already. */
    method Poll(h: Health) returns (done: bool, sent: Option<string>)
      modifies this
      ensures Count() == if ready then Next(ERROR_WINDOW, old(Count()), h) else old(Count())
      ensures done <==> ready && h.Clean? && cleanRuns == cleanRunsNeeded
      ensures !ready || h.Clean? ==> sent == None
      ensures ready && h.Unclean? && h.isError && errRuns >= 20 ==> sent == Some(unhealthyStatus)
      ensures ready && h.Unclean? && !(h.isError && errRuns >= 20) ==>
        sent == if old(status) == Join(h.failures, ",") then None else Some(Join(h.failures, ","))
      ensures status == if sent.Some? then sent.value else old(status)
    {
      if !ready {
        return false, None;
      }
      var currentStatus := status;
      match h {
        case Clean =>
          cleanRuns := cleanRuns + 1;
          errRuns := 0;
          if cleanRuns == cleanRunsNeeded {
            return true, None;
          }
          return false, None;
        case Unclean(failures, isError) =>
          if isError {
            errRuns := errRuns + 1;
            if errRuns >= ERROR_WINDOW {
              status := unhealthyStatus;
              return false, Some(unhealthyStatus);
            }
          }
          cleanRuns := 0;
          var failureString := Join(failures, ",");
          sent := None;
          if currentStatus != failureString {
            status := failureString;
            sent := Some(failureString);
          }
          return false, sent;
      }
    }
  }

  /** At none of the first k polls had the last n all been clean. */
  ghost predicate NeverClean(polls: seq<Health>, k: nat, n: int) {
    forall m | 0 <= m <= k && m <= |polls| :: !LastClean(polls[..m], n)
  }

  predicate ReportsUnhealthy(polls: seq<Health>, k: nat) {
    k < |polls| && polls[k].Unclean? && polls[k].isError && ErrorsSinceClean(polls[..k + 1]) >= ERROR_WINDOW
  }

  /** At the first poll that ends n clean ones there are exactly n clean polls at the end. */
  lemma FirstClean(polls: seq<Health>, i: nat, n: int)
    requires i < |polls| && NeverClean(polls, i, n)
    ensures polls[i].Clean? && CleanAtEnd(polls[..i + 1]) == n <==> LastClean(polls[..i + 1], n)
  {
    assert polls[..i + 1][..i] == polls[..i];
    CleanAtEndCovers(polls[..i + 1], n);
    CleanAtEndCovers(polls[..i], n);
  }

  /** The loop, on the answers that come before its timeout. It ends at the first poll at which the last
      cleanRunsNeeded polls were all clean; with a cluster that was not ready when it was fetched, or with
      nothing to count to, it times out. The unhealthy status is sent at exactly those polls before the end that
      have an error and at least ERROR_WINDOW errors since the last clean poll. */
  method PollUntilHealthy(poller: HealthPoller, polls: seq<Health>) returns (end: Option<nat>, unhealthy: set<nat>)
    requires poller.Count() == Counters(0, 0)
    modifies poller
    ensures end.Some? ==> poller.ready && end.value < |polls| && LastClean(polls[..end.value + 1], poller.cleanRunsNeeded)
    ensures poller.ready ==> NeverClean(polls, if end.Some? then end.value else |polls|, poller.cleanRunsNeeded)
    ensures unhealthy == set k | 0 <= k < (if end.Some? then end.value else |polls|) && poller.ready && ReportsUnhealthy(polls, k)
  {
    unhealthy := {};
    for i := 0 to |polls|
      invariant poller.ready ==> poller.Count() == After(ERROR_WINDOW, polls[..i])
      invariant poller.ready ==> NeverClean(polls, i, poller.cleanRunsNeeded)
      invariant unhealthy == set k | 0 <= k < i && poller.ready && ReportsUnhealthy(polls, k)
    {
      assert polls[..i + 1][..i] == polls[..i];
      CountersMean(ERROR_WINDOW, polls[..i]);
      CountersMean(ERROR_WINDOW, polls[..i + 1]);
      if poller.ready {
        FirstClean(polls, i, poller.cleanRunsNeeded);
      }
      var done, sent := poller.Poll(polls[i]);
      if done {
        return Some(i), unhealthy;
      }
      if sent.Some? && polls[i].isError && poller.errRuns >= ERROR_WINDOW {
        unhealthy := unhealthy + {i};
      }
    }
    end := None;
  }
}
