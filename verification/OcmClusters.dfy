/** Listing clusters page by page (pkg/common/providers/ocmprovider/cluster.go). The answers to the requests are an
    input, so that clusters may come and go between two of them. */
module OcmClusters {
  import opened Seqs
  import opened OcmVersions

  datatype Cluster = Cluster(id: string, name: string)

  /** The clusters on a page, and the total that comes with it. */
  datatype Answer = Answer(clusters: seq<Cluster>, total: nat)

  /** The answer to the request for each page from 1, nothing if the request fails. */
  type Answers = nat -> Option<Answer>

  function ClustersOn(answers: Answers, page: nat): seq<Cluster> {
    if answers(page).None? then [] else answers(page).value.clusters
  }

  /** The clusters on the first pages. */
  function Received(answers: Answers, pages: nat): seq<Cluster> {
    if pages == 0 then [] else Received(answers, pages - 1) + ClustersOn(answers, pages)
  }

  /** After this many pages there was an empty one, and as many clusters as the first page stated. */
  ghost predicate Complete(answers: Answers, pages: nat) {
    && pages >= 1 && answers(1).Some? && |Received(answers, pages)| >= answers(1).value.total
    && exists p | 1 <= p <= pages :: ClustersOn(answers, p) == []
  }

  /** The loop ends with this page, if it gets there. */
  ghost predicate EndsWith(answers: Answers, pages: nat) {
    pages >= 1 && (answers(pages).None? || Complete(answers, pages))
  }

  ghost predicate FirstEnd(answers: Answers, pages: nat) {
    EndsWith(answers, pages) && forall m | 1 <= m < pages :: !EndsWith(answers, m)
  }

  /** The loop ends at the first page it can end with; there has to be one, such as page n. */
  method ListClusters(answers: Answers, ghost n: nat) returns (r: Option<seq<Cluster>>, requests: nat)
    requires EndsWith(answers, n)
    ensures FirstEnd(answers, requests)
    ensures r == if answers(requests).None? then None else Some(Received(answers, requests))
  {
    var clusters: seq<Cluster> := [];
    var total: Option<nat> := None;
    var emptyPage := false;
    var page := 1;
    while total.None? || |clusters| < total.value || !emptyPage
      invariant 1 <= page && forall m | 1 <= m < page :: !EndsWith(answers, m) || m == page - 1
      invariant forall m | 1 <= m < page :: answers(m).Some?
      invariant clusters == Received(answers, page - 1)
      invariant total == if page == 1 then None else Some(answers(1).value.total)
      invariant emptyPage <==> exists p | 1 <= p < page :: ClustersOn(answers, p) == []
      invariant page - 1 <= n
      decreases n - page
    {
      assert !EndsWith(answers, page - 1);
      if answers(page).None? {
        return None, page;
      }
      var answer := answers(page).value;
      if |answer.clusters| == 0 {
        emptyPage := true;
      }
      if total.None? {
        total := Some(answer.total);
      }
      clusters := clusters + answer.clusters;
      page := page + 1;
    }
    r, requests := Some(clusters), page - 1;
  }

  lemma {:induction false} ReceivedUpTo(answers: Answers, k: nat, pages: nat)
    requires k <= pages && forall p | k < p <= pages :: ClustersOn(answers, p) == []
    ensures Received(answers, pages) == Received(answers, k)
  {
    if k < pages {
      ReceivedUpTo(answers, k, pages - 1);
    }
  }

  lemma {:induction false} ReceivedGrows(answers: Answers, few: nat, many: nat)
    requires few <= many
    ensures |Received(answers, few)| <= |Received(answers, many)|
  {
    if few < many {
      ReceivedGrows(answers, few, many - 1);
    }
  }

  /** Without failing requests, and with nothing behind page k, the loop ends if and only if the first k pages hold as many
      clusters as the first one stated. */
  lemma ListingEndsExactly(answers: Answers, k: nat)
    requires forall p :: answers(p).Some?
    requires forall p | p > k :: ClustersOn(answers, p) == []
    ensures (exists n: nat :: EndsWith(answers, n)) <==> |Received(answers, k)| >= answers(1).value.total
  {
    if |Received(answers, k)| >= answers(1).value.total {
      ReceivedUpTo(answers, k, k + 1);
      assert ClustersOn(answers, k + 1) == [];
      assert EndsWith(answers, k + 1);
    }
    if n: nat :| EndsWith(answers, n) {
      if n <= k {
        ReceivedGrows(answers, n, k);
      } else {
        ReceivedUpTo(answers, k, n);
      }
    }
  }

  /** A server whose clusters do not change. */
  ghost predicate Serves(answers: Answers, all: seq<Cluster>) {
    forall page | page >= 1 :: answers(page) == Some(Answer(Page(all, page), |all|))
  }

  lemma {:induction false} ReceivedFrom(answers: Answers, all: seq<Cluster>, pages: nat)
    requires Serves(answers, all)
    ensures Received(answers, pages) == Seen(all, pages)
  {
    if pages == 0 {
      assert all == [] || all[..0] == [];
    } else {
      ReceivedFrom(answers, all, pages - 1);
      if pages <= PageCount(|all|) {
        PageStep(all, pages);
      }
    }
  }

  /** Such a server is asked for every page and one more, and all its clusters are listed. */
  lemma UnchangedListing(answers: Answers, all: seq<Cluster>, requests: nat)
    requires Serves(answers, all) && FirstEnd(answers, requests)
    ensures requests == if all == [] then 1 else PageCount(|all|) + 1
    ensures Received(answers, requests) == all
  {
    var last := if all == [] then 1 else PageCount(|all|) + 1;
    assert ClustersOn(answers, last) == [];
    ReceivedFrom(answers, all, last);
    assert EndsWith(answers, last);
    var p :| 1 <= p <= requests && ClustersOn(answers, p) == [];
    assert Page(all, p) == [];
    ReceivedFrom(answers, all, requests);
  }

  /** If a cluster of the first page disappears before the second is asked for, so that the last cluster moves to the first
      page and stays unseen, the listing never ends. */
  lemma VanishedCluster(answers: Answers, page: seq<Cluster>)
    requires answers(1) == Some(Answer(page, |page| + 1))
    requires forall p | p != 1 :: answers(p) == Some(Answer([], |page|))
    ensures forall n :: !EndsWith(answers, n)
  {
    ListingEndsExactly(answers, 1);
  }

  function Owns(owned: set<string>): Cluster -> bool { (c: Cluster) => c.id in owned }

  /** `owned` are the identifiers of the clusters of the account, if its subscriptions can be listed. */
  method ListOwnedClusters(owned: Option<set<string>>, answers: Answers, ghost n: nat)
    returns (r: Option<seq<Cluster>>, requests: nat)
    requires EndsWith(answers, n)
    ensures if owned.None? then r.None? && requests == 0 else FirstEnd(answers, requests)
    ensures owned.Some? ==>
      r == if answers(requests).None? then None else Some(Filter(Received(answers, requests), Owns(owned.value)))
    ensures r.Some? ==> owned.Some? && forall c :: c in r.value <==> c in Received(answers, requests) && c.id in owned.value
  {
    if owned.None? {
      return None, 0;
    }
    var all;
    all, requests := ListClusters(answers, n);
    if all.None? {
      return None, requests;
    }
    var clusters: seq<Cluster> := [];
    for i := 0 to |all.value|
      invariant clusters == Filter(all.value[..i], Owns(owned.value))
    {
      FilterStep(all.value, Owns(owned.value), i);
      if all.value[i].id in owned.value {
        clusters := clusters + [all.value[i]];
      }
    }
    assert all.value[..|all.value|] == all.value;
    forall c
      ensures c in clusters <==> c in all.value && c.id in owned.value
    {
      FilterMember(all.value, Owns(owned.value), c);
    }
    r := Some(clusters);
  }
}
