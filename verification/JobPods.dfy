/** Grouping of job pods in the pod health check (pkg/common/cluster/healthchecks/pods.go). */
module JobPods {
  import opened Seqs
  import opened Text
  import opened Sorting

  datatype Phase = Pending | Running | Succeeded | Failed | Unknown

  /** jobName is the job-name label, if there is one. */
  datatype Pod = Pod(namespace: string, name: string, jobName: Option<string>, created: int, phase: Phase, ownedByJob: bool)

  datatype PodError = NoJobName | UnexpectedPhase | NoPods

  datatype Key = Key(namespace: string, job: string)

  predicate Labelled(p: Pod) { p.jobName.Some? && p.jobName.value != "" }

  /** A name of at most 52 characters loses what follows its last dash: that is the timestamp of a cron job. */
  function JobKey(name: string): string {
    if |name| <= 52 && LastIndex(name, '-') != -1 then name[..LastIndex(name, '-')] else name
  }

  function KeyOf(p: Pod): Key {
    Key(p.namespace, if Labelled(p) then JobKey(p.jobName.value) else "")
  }

  function InGroup(key: Key): Pod -> bool { (p: Pod) => KeyOf(p) == key }

  function Group(pods: seq<Pod>, key: Key): seq<Pod> { Filter(pods, InGroup(key)) }

  predicate Older(a: Pod, b: Pod) { a.created < b.created }

  /** The pod created last in the group, the later one in the input on a tie. */
  function LatestOf(pods: seq<Pod>, key: Key): Pod
    requires Group(pods, key) != []
  {
    Latest(Older, Group(pods, key))
  }

  function LatestPhase(pods: seq<Pod>, key: Key): Phase {
    if Group(pods, key) == [] then Succeeded else LatestOf(pods, key).phase
  }

  /** A short name with a dash is its key, the last dash and the rest; any other name is its key. */
  lemma JobKeyMeans(name: string)
    ensures |name| > 52 || '-' !in name ==> JobKey(name) == name
    ensures |name| <= 52 && '-' in name ==> exists rest | '-' !in rest :: name == JobKey(name) + "-" + rest
  {
    var k := LastIndex(name, '-');
    if |name| <= 52 && k != -1 {
      assert '-' !in name[k + 1..] && name == name[..k] + "-" + name[k + 1..];
    }
  }

  /** Pods with job names are in one group exactly if they are of one namespace and one job. */
  lemma SameGroup(p: Pod, q: Pod)
    requires p.jobName.Some? && p.jobName.value != "" && q.jobName.Some? && q.jobName.value != ""
    ensures KeyOf(p) == KeyOf(q) <==> p.namespace == q.namespace && JobKey(p.jobName.value) == JobKey(q.jobName.value)
  {
  }

  /** Pod k of the group: no pod of the group was created after it, and every later one in the input was created before it. */
  ghost predicate IsLatest(pods: seq<Pod>, key: Key, k: nat) {
    && k < |pods| && KeyOf(pods[k]) == key
    && forall j | 0 <= j < |pods| && KeyOf(pods[j]) == key ::
      pods[j].created <= pods[k].created && (j > k ==> pods[j].created < pods[k].created)
  }

  lemma LatestStays(pods: seq<Pod>, key: Key, k: nat, p: Pod)
    requires IsLatest(pods, key, k) && (KeyOf(p) == key ==> p.created < pods[k].created)
    ensures IsLatest(pods + [p], key, k)
  {
  }

  lemma LatestMoves(pods: seq<Pod>, key: Key, p: Pod)
    requires KeyOf(p) == key && forall q | q in pods && KeyOf(q) == key :: q.created <= p.created
    ensures IsLatest(pods + [p], key, |pods|)
  {
  }

  lemma GroupStep(pods: seq<Pod>, p: Pod, key: Key)
    ensures Group(pods + [p], key) == if KeyOf(p) == key then Group(pods, key) + [p] else Group(pods, key)
    ensures Group(pods + [p], key) != [] ==>
      LatestOf(pods + [p], key) ==
        if KeyOf(p) == key && (Group(pods, key) == [] || p.created >= LatestOf(pods, key).created) then p else LatestOf(pods, key)
  {
    assert (pods + [p])[..|pods|] == pods;
    if KeyOf(p) == key {
      assert (Group(pods, key) + [p])[..|Group(pods, key)|] == Group(pods, key);
    }
  }

  lemma {:induction false} LatestOfMeans(pods: seq<Pod>, key: Key) returns (k: nat)
    requires Group(pods, key) != []
    ensures IsLatest(pods, key, k) && pods[k] == LatestOf(pods, key)
  {
    var front, p := pods[..|pods| - 1], pods[|pods| - 1];
    assert pods == front + [p];
    GroupStep(front, p, key);
    if Group(front, key) == [] {
      FilterNone(front, InGroup(key));
      LatestMoves(front, key, p);
      k := |front|;
    } else {
      k := LatestOfMeans(front, key);
      if KeyOf(p) == key && p.created >= front[k].created {
        LatestMoves(front, key, p);
        k := |front|;
      } else {
        LatestStays(front, key, k, p);
      }
    }
  }

  lemma LatestIsUnique(pods: seq<Pod>, key: Key, k: nat, m: nat)
    requires IsLatest(pods, key, k) && IsLatest(pods, key, m)
    ensures k == m
  {
  }

  lemma LatestPhaseMeans(pods: seq<Pod>, p: Pod)
    requires p in pods
    ensures exists k: nat :: IsLatest(pods, KeyOf(p), k)
    ensures forall k: nat | IsLatest(pods, KeyOf(p), k) :: pods[k].phase == LatestPhase(pods, KeyOf(p))
  {
    FilterMember(pods, InGroup(KeyOf(p)), p);
    var k := LatestOfMeans(pods, KeyOf(p));
    forall m: nat | IsLatest(pods, KeyOf(p), m)
      ensures m == k
    {
      LatestIsUnique(pods, KeyOf(p), k, m);
    }
  }

  /** A pod has no job name, or the latest of a group is neither succeeded nor pending. */
  ghost predicate CheckFails(pods: seq<Pod>) {
    exists p | p in pods :: !Labelled(p) || (LatestPhase(pods, KeyOf(p)) != Succeeded && LatestPhase(pods, KeyOf(p)) != Pending)
  }

  function NotSucceeded(): Pod -> bool { (p: Pod) => p.phase != Succeeded }

  /** Not succeeded, in a group whose latest pod is pending. */
  function Reported(pods: seq<Pod>): Pod -> bool {
    (p: Pod) => p.phase != Succeeded && LatestPhase(pods, KeyOf(p)) == Pending
  }

  type Groups = map<string, map<string, seq<Pod>>>

  ghost predicate Grouped(pods: seq<Pod>, groups: Groups) {
    && (forall p | p in pods :: Labelled(p) && p.namespace in groups && KeyOf(p).job in groups[p.namespace])
    && (forall ns, job | ns in groups && job in groups[ns] ::
          groups[ns][job] == Group(pods, Key(ns, job)) && groups[ns][job] != [])
  }

  lemma EmptyGroup(pods: seq<Pod>, groups: Groups, ns: string, job: string)
    requires Grouped(pods, groups) && !(ns in groups && job in groups[ns])
    ensures Group(pods, Key(ns, job)) == []
  {
    var g := Group(pods, Key(ns, job));
    if g != [] {
      FilterMember(pods, InGroup(Key(ns, job)), g[0]);
    }
  }

  lemma GroupedStep(pods: seq<Pod>, i: nat, before: Groups, after: Groups)
    requires i < |pods| && Grouped(pods[..i], before) && Labelled(pods[i])
    requires
      var ns, job := pods[i].namespace, KeyOf(pods[i]).job;
      var inner := if ns in before then before[ns] else map[];
      after == before[ns := inner[job := (if job in inner then inner[job] else []) + [pods[i]]]]
    ensures Grouped(pods[..i + 1], after)
  {
    assert pods[..i + 1] == pods[..i] + [pods[i]];
    forall ns, job | ns in after && job in after[ns]
      ensures after[ns][job] == Group(pods[..i + 1], Key(ns, job)) && after[ns][job] != []
    {
      FilterStep(pods, InGroup(Key(ns, job)), i);
      if !(ns in before && job in before[ns]) {
        EmptyGroup(pods[..i], before, ns, job);
      }
    }
  }

  /** The grouping loop. */
  method GroupPods(pods: seq<Pod>) returns (r: Option<Groups>)
    ensures r.None? <==> exists p | p in pods :: p.jobName.None? || p.jobName.value == ""
    ensures r.Some? ==> Grouped(pods, r.value)
  {
    var groups: Groups := map[];
    for i := 0 to |pods|
      invariant Grouped(pods[..i], groups)
    {
      var pod := pods[i];
      assert pod in pods;
      if pod.jobName.None? || |pod.jobName.value| == 0 {
        return None;
      }
      var job := pod.jobName.value;
      if |job| <= 52 {
        var cutoff := LastIndex(pod.jobName.value, '-');
        if cutoff != -1 {
          job := pod.jobName.value[..cutoff];
        }
      }
      ghost var before := groups;
      var inner := if pod.namespace in groups then groups[pod.namespace] else map[];
      var group := if job in inner then inner[job] else [];
      groups := groups[pod.namespace := inner[job := group + [pod]]];
      GroupedStep(pods, i, before, groups);
    }
    assert pods[..|pods|] == pods;
    r := Some(groups);
  }

  // ---------- judging groups ----------

  function ReportedIn(pods: seq<Pod>, keys: set<Key>): Pod -> bool {
    (p: Pod) => KeyOf(p) in keys && p.phase != Succeeded && LatestPhase(pods, KeyOf(p)) == Pending
  }

  ghost predicate Fine(pods: seq<Pod>, keys: set<Key>) {
    forall k | k in keys :: LatestPhase(pods, k) == Succeeded || LatestPhase(pods, k) == Pending
  }

  /** The groups of these keys are judged fine, and their reported pods collected. */
  ghost predicate Done(pods: seq<Pod>, keys: set<Key>, pending: seq<Pod>) {
    Fine(pods, keys) && multiset(pending) == multiset(Filter(pods, ReportedIn(pods, keys)))
  }

  lemma NoneDone(pods: seq<Pod>)
    ensures Done(pods, {}, [])
  {
    FilterNone(pods, ReportedIn(pods, {}));
  }

  lemma DoneUnion(pods: seq<Pod>, a: set<Key>, b: set<Key>, x: seq<Pod>, y: seq<Pod>)
    requires Done(pods, a, x) && Done(pods, b, y) && a !! b
    ensures Done(pods, a + b, x + y)
  {
    forall p
      ensures multiset(x + y)[p] == multiset(Filter(pods, ReportedIn(pods, a + b)))[p]
    {
      FilterCount(pods, ReportedIn(pods, a), p);
      FilterCount(pods, ReportedIn(pods, b), p);
      FilterCount(pods, ReportedIn(pods, a + b), p);
    }
  }

  lemma GroupDone(pods: seq<Pod>, key: Key, more: seq<Pod>)
    requires LatestPhase(pods, key) == Succeeded || LatestPhase(pods, key) == Pending
    requires LatestPhase(pods, key) == Succeeded ==> more == []
    requires LatestPhase(pods, key) == Pending ==> multiset(more) == multiset(Filter(Group(pods, key), NotSucceeded()))
    ensures Done(pods, {key}, more)
  {
    forall p
      ensures multiset(more)[p] == multiset(Filter(pods, ReportedIn(pods, {key})))[p]
    {
      FilterCount(Group(pods, key), NotSucceeded(), p);
      FilterCount(pods, InGroup(key), p);
      FilterCount(pods, ReportedIn(pods, {key}), p);
    }
  }

  /** Sorts the pods of a group in place. */
  method SortByCreation(group: seq<Pod>) returns (sorted: seq<Pod>)
    ensures sorted == StableSort(Older, group)
  {
    var a := new Pod[|group|](i requires 0 <= i < |group| => group[i]);
    assert a[..] == group;
    SortStableInPlace(Older, a);
    sorted := a[..];
  }

  method KeepNotSucceeded(sorted: seq<Pod>) returns (kept: seq<Pod>)
    ensures kept == Filter(sorted, NotSucceeded())
  {
    kept := [];
    for i := 0 to |sorted|
      invariant kept == Filter(sorted[..i], NotSucceeded())
    {
      FilterStep(sorted, NotSucceeded(), i);
      if sorted[i].phase != Succeeded {
        kept := kept + [sorted[i]];
      }
    }
    assert sorted[..|sorted|] == sorted;
  }

  /** One group: sorted by creation time, judged by its last pod. */
  method CheckGroup(ghost pods: seq<Pod>, ghost key: Key, group: seq<Pod>) returns (r: Option<seq<Pod>>)
    requires group == Group(pods, key) && group != []
    ensures r.None? ==> LatestPhase(pods, key) != Succeeded && LatestPhase(pods, key) != Pending
    ensures r.Some? ==> Done(pods, {key}, r.value)
  {
    var sorted := SortByCreation(group);
    StableSortEndsInLatest(Older, group);
    StableSortSorts(Older, group);
    var latest := sorted[|sorted| - 1];
    if latest.phase == Succeeded {
      GroupDone(pods, key, []);
      return Some([]);
    }
    if latest.phase != Pending {
      return None;
    }
    var pending := KeepNotSucceeded(sorted);
    FilterPermutation(sorted, group, NotSucceeded());
    GroupDone(pods, key, pending);
    r := Some(pending);
  }

  function KeysIn(ns: string, jobs: set<string>): set<Key> { set job | job in jobs :: Key(ns, job) }

  function KeysOf(groups: Groups, names: set<string>): set<Key> {
    set ns, job | ns in names && ns in groups && job in groups[ns] :: Key(ns, job)
  }

  lemma KeysStep(groups: Groups, names: set<string>, ns: string, jobs: set<string>, job: string)
    requires ns in groups && ns !in names && job !in jobs
    ensures KeysIn(ns, jobs + {job}) == KeysIn(ns, jobs) + {Key(ns, job)} && Key(ns, job) !in KeysIn(ns, jobs)
    ensures KeysOf(groups, names + {ns}) == KeysOf(groups, names) + KeysIn(ns, groups[ns].Keys)
    ensures KeysOf(groups, names) !! KeysIn(ns, groups[ns].Keys)
  {
  }

  lemma UnexpectedFails(pods: seq<Pod>, groups: Groups, ns: string, job: string)
    requires Grouped(pods, groups) && ns in groups && job in groups[ns]
    requires LatestPhase(pods, Key(ns, job)) != Succeeded && LatestPhase(pods, Key(ns, job)) != Pending
    ensures CheckFails(pods)
  {
    var g := Group(pods, Key(ns, job));
    FilterMember(pods, InGroup(Key(ns, job)), g[0]);
    assert KeyOf(g[0]) == Key(ns, job);
  }

  /** All groups of one namespace. */
  method CheckNamespace(ghost pods: seq<Pod>, groups: Groups, ns: string) returns (r: Option<seq<Pod>>)
    requires Grouped(pods, groups) && ns in groups
    ensures r.None? ==> CheckFails(pods)
    ensures r.Some? ==> Done(pods, KeysIn(ns, groups[ns].Keys), r.value)
  {
    var jobs := groups[ns];
    var pending: seq<Pod> := [];
    var rest := jobs.Keys;
    NoneDone(pods);
    assert KeysIn(ns, jobs.Keys - rest) == {};
    while rest != {}
      invariant rest <= jobs.Keys
      invariant Done(pods, KeysIn(ns, jobs.Keys - rest), pending)
    {
      var job :| job in rest;
      var more := CheckGroup(pods, Key(ns, job), jobs[job]);
      if more.None? {
        UnexpectedFails(pods, groups, ns, job);
        return None;
      }
      ghost var done := jobs.Keys - rest;
      KeysStep(groups, {}, ns, done, job);
      DoneUnion(pods, KeysIn(ns, done), {Key(ns, job)}, pending, more.value);
      assert jobs.Keys - (rest - {job}) == done + {job};
      pending := pending + more.value;
      rest := rest - {job};
    }
    assert jobs.Keys - rest == jobs.Keys;
    r := Some(pending);
  }

  lemma AllDone(pods: seq<Pod>, groups: Groups, pending: seq<Pod>)
    requires Grouped(pods, groups) && Done(pods, KeysOf(groups, groups.Keys), pending)
    ensures !CheckFails(pods) && multiset(pending) == multiset(Filter(pods, Reported(pods)))
  {
    var keys := KeysOf(groups, groups.Keys);
    forall p | p in pods
      ensures KeyOf(p) in keys
    {
    }
    forall p
      ensures multiset(pending)[p] == multiset(Filter(pods, Reported(pods)))[p]
    {
      FilterCount(pods, ReportedIn(pods, keys), p);
      FilterCount(pods, Reported(pods), p);
      assert p in pods <==> p in multiset(pods);
    }
  }

  lemma CheckMeans(pods: seq<Pod>)
    ensures CheckFails(pods) <==>
      || (exists p | p in pods :: p.jobName.None? || p.jobName.value == "")
      || (exists key, k: nat :: IsLatest(pods, key, k) && pods[k].phase != Succeeded && pods[k].phase != Pending)
    ensures forall p | p in pods ::
      Reported(pods)(p) <==> p.phase != Succeeded && exists k: nat :: IsLatest(pods, KeyOf(p), k) && pods[k].phase == Pending
  {
    forall p | p in pods
      ensures exists k: nat :: IsLatest(pods, KeyOf(p), k)
      ensures forall k: nat | IsLatest(pods, KeyOf(p), k) :: pods[k].phase == LatestPhase(pods, KeyOf(p))
    {
      LatestPhaseMeans(pods, p);
    }
    if key, k: nat :| IsLatest(pods, key, k) && pods[k].phase != Succeeded && pods[k].phase != Pending {
      assert pods[k] in pods;
    }
  }

  /** The result is independent of the order in which the maps are visited: it is an error exactly when a pod has no
      job name or the latest pod of a group is neither succeeded nor pending, and otherwise it lists, each as often
      as it occurs, exactly the pods that have not succeeded in groups whose latest pod is pending. */
  method CheckJobPods(pods: seq<Pod>) returns (r: Result<seq<Pod>, PodError>)
    ensures r.Err? <==> CheckFails(pods)
    ensures r.Ok? ==> multiset(r.value) == multiset(Filter(pods, Reported(pods)))
    ensures r != Err(NoPods)
    ensures r.Err? <==>
      || (exists p | p in pods :: p.jobName.None? || p.jobName.value == "")
      || (exists key, k: nat :: IsLatest(pods, key, k) && pods[k].phase != Succeeded && pods[k].phase != Pending)
    ensures r == Err(NoJobName) <==> exists p | p in pods :: p.jobName.None? || p.jobName.value == ""
    ensures r.Ok? ==> forall p | p in pods ::
      multiset(r.value)[p] ==
        if p.phase != Succeeded && exists k: nat :: IsLatest(pods, KeyOf(p), k) && pods[k].phase == Pending
        then multiset(pods)[p] else 0
  {
    CheckMeans(pods);
    var grouped := GroupPods(pods);
    if grouped.None? {
      return Err(NoJobName);
    }
    var groups := grouped.value;
    var pending: seq<Pod> := [];
    var rest := groups.Keys;
    NoneDone(pods);
    assert KeysOf(groups, groups.Keys - rest) == {};
    while rest != {}
      invariant rest <= groups.Keys
      invariant Done(pods, KeysOf(groups, groups.Keys - rest), pending)
    {
      var ns :| ns in rest;
      var more := CheckNamespace(pods, groups, ns);
      if more.None? {
        return Err(UnexpectedPhase);
      }
      ghost var done := groups.Keys - rest;
      KeysStep(groups, done, ns, {}, "");
      DoneUnion(pods, KeysOf(groups, done), KeysIn(ns, groups[ns].Keys), pending, more.value);
      assert groups.Keys - (rest - {ns}) == done + {ns};
      pending := pending + more.value;
      rest := rest - {ns};
    }
    assert groups.Keys - rest == groups.Keys;
    AllDone(pods, groups, pending);
    forall p {
      FilterCount(pods, Reported(pods), p);
    }
    r := Ok(pending);
  }

  // ---------- the whole check ----------

  function IsJobPod(): Pod -> bool { (p: Pod) => p.ownedByJob }

  function IsPendingPod(): Pod -> bool { (p: Pod) => !p.ownedByJob && p.phase == Pending }

  method FilterPods(listed: seq<Pod>, keep: Pod -> bool) returns (pods: seq<Pod>)
    ensures pods == Filter(listed, keep)
  {
    pods := [];
    for i := 0 to |listed|
      invariant pods == Filter(listed[..i], keep)
    {
      FilterStep(listed, keep, i);
      if keep(listed[i]) {
        pods := pods + [listed[i]];
      }
    }
    assert listed[..|listed|] == listed;
  }

  lemma CountsOfBoth(listed: seq<Pod>, keep: Pod -> bool)
    ensures forall p ::
      var pods := Filter(listed, keep);
      var jobs := Filter(pods, IsJobPod());
      multiset(Filter(pods, IsPendingPod()))[p] + multiset(Filter(jobs, Reported(jobs)))[p] ==
        if !keep(p) then 0 else if p.ownedByJob then multiset(Filter(jobs, Reported(jobs)))[p]
        else if p.phase == Pending then multiset(listed)[p] else 0
  {
    var pods := Filter(listed, keep);
    var jobs := Filter(pods, IsJobPod());
    forall p
      ensures multiset(Filter(pods, IsPendingPod()))[p] == if keep(p) && IsPendingPod()(p) then multiset(listed)[p] else 0
      ensures !keep(p) || !p.ownedByJob ==> multiset(Filter(jobs, Reported(jobs)))[p] == 0
    {
      FilterCount(listed, keep, p);
      FilterCount(pods, IsPendingPod(), p);
      FilterCount(pods, IsJobPod(), p);
      FilterCount(jobs, Reported(jobs), p);
    }
  }

  /** checkPods: the pods that pass the filter are split into job pods and others, which must be succeeded or pending. */
  method CheckPods(listed: seq<Pod>, keep: Pod -> bool) returns (r: Result<seq<Pod>, PodError>)
    ensures r == Err(NoPods) <==> listed == []
    ensures r.Ok? <==>
      && listed != []
      && (forall p | p in listed && keep(p) && !p.ownedByJob :: p.phase in {Succeeded, Pending})
      && !CheckFails(Filter(Filter(listed, keep), IsJobPod()))
    ensures r.Ok? ==>
      var pods := Filter(listed, keep);
      var jobs := Filter(pods, IsJobPod());
      multiset(r.value) == multiset(Filter(pods, IsPendingPod())) + multiset(Filter(jobs, Reported(jobs)))
    ensures r.Ok? ==> forall p ::
      var jobs := Filter(Filter(listed, keep), IsJobPod());
      multiset(r.value)[p] ==
        if !keep(p) then 0 else if p.ownedByJob then multiset(Filter(jobs, Reported(jobs)))[p]
        else if p.phase == Pending then multiset(listed)[p] else 0
  {
    if |listed| == 0 {
      return Err(NoPods);
    }
    var pods := FilterPods(listed, keep);
    forall p
      ensures p in pods <==> p in listed && keep(p)
    {
      FilterMember(listed, keep, p);
    }
    var pending, jobs: seq<Pod> := [], [];
    for i := 0 to |pods|
      invariant pending == Filter(pods[..i], IsPendingPod()) && jobs == Filter(pods[..i], IsJobPod())
      invariant forall k | 0 <= k < i && !pods[k].ownedByJob :: pods[k].phase in {Succeeded, Pending}
    {
      FilterStep(pods, IsPendingPod(), i);
      FilterStep(pods, IsJobPod(), i);
      var pod := pods[i];
      if !pod.ownedByJob {
        if pod.phase == Succeeded {
          continue;
        }
        if pod.phase != Pending {
          assert pod in pods;
          return Err(UnexpectedPhase);
        }
        pending := pending + [pod];
      } else {
        jobs := jobs + [pod];
      }
    }
    assert pods[..|pods|] == pods;
    var pendingJobs := CheckJobPods(jobs);
    if pendingJobs.Err? {
      return pendingJobs;
    }
    CountsOfBoth(listed, keep);
    r := Ok(pending + pendingJobs.value);
  }

  /** What CheckPods answers if job pods, and running and completed ones, are filtered out. */
  lemma NoJobsKept(listed: seq<Pod>, keep: Pod -> bool)
    requires forall p | keep(p) :: !p.ownedByJob && p.phase != Running && p.phase != Succeeded
    ensures !CheckFails(Filter(Filter(listed, keep), IsJobPod()))
    ensures
      var pods := Filter(listed, keep);
      var jobs := Filter(pods, IsJobPod());
      multiset(Filter(pods, IsPendingPod())) + multiset(Filter(jobs, Reported(jobs))) == multiset(Filter(pods, IsPendingPod()))
  {
    var pods := Filter(listed, keep);
    forall p | p in pods
      ensures keep(p)
    {
      FilterMember(listed, keep, p);
    }
    FilterNone(pods, IsJobPod());
  }

  lemma PendingKept(listed: seq<Pod>, keep: Pod -> bool, pending: seq<Pod>)
    requires multiset(pending) == multiset(Filter(Filter(listed, keep), IsPendingPod()))
    ensures pending == [] <==> forall p | p in listed && keep(p) :: !IsPendingPod()(p)
  {
    var kept := Filter(Filter(listed, keep), IsPendingPod());
    assert |pending| == |multiset(pending)| == |multiset(kept)| == |kept|;
    FilterNone(Filter(listed, keep), IsPendingPod());
    forall p
      ensures p in Filter(listed, keep) <==> p in listed && keep(p)
    {
      FilterMember(listed, keep, p);
    }
  }

  /** CheckPodHealth asks only for pods that are not of a job, not running and not completed (and `matches` the
      namespace, names and age): it reports health exactly when there is no such pod, an error exactly when
      nothing is listed or one of them is not pending, and so never judges a job. */
  method CheckPodHealth(listed: seq<Pod>, matches: Pod -> bool) returns (r: Result<bool, PodError>)
    ensures r == Err(NoPods) <==> listed == []
    ensures r == Ok(true) <==> listed != [] && forall p | p in listed && matches(p) :: p.ownedByJob || p.phase in {Running, Succeeded}
    ensures r.Err? <==> listed == [] || exists p | p in listed :: matches(p) && !p.ownedByJob && p.phase in {Failed, Unknown}
  {
    var keep := (p: Pod) => matches(p) && p.phase != Running && p.phase != Succeeded && !p.ownedByJob;
    NoJobsKept(listed, keep);
    var pods := CheckPods(listed, keep);
    if pods.Err? {
      return Err(pods.error);
    }
    PendingKept(listed, keep, pods.value);
    r := Ok(|pods.value| == 0);
  }
}
