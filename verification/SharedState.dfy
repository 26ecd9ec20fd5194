/** Calls from many goroutines that each do one critical section under one mutex, in every interleaving. */
module SharedState {
  import opened Seqs

  /** Where a call stands: not begun, holding the mutex, having read the shared value, having written it, returned. */
  datatype Stage<S, R> = Idle | Locked | Read(local: S) | Written(ret: R) | Done(ret: R)

  /** order: the calls that have locked the mutex, first to last. */
  datatype State<S, R> = State(shared: S, holder: Option<nat>, calls: seq<Stage<S, R>>, order: seq<nat>)

  /** What the call i reads, writes and returns: apply(i, value read) is the value written and the result. */
  function Next<S, R>(apply: (nat, S) -> (S, R), i: nat, s: State<S, R>): State<S, R>
    requires i < |s.calls|
  {
    match s.calls[i]
    case Idle => s.(holder := Some(i), calls := s.calls[i := Locked], order := s.order + [i])
    case Locked => s.(calls := s.calls[i := Read(s.shared)])
    case Read(local) => s.(shared := apply(i, local).0, calls := s.calls[i := Written(apply(i, local).1)])
    case Written(ret) => s.(holder := None, calls := s.calls[i := Done(ret)])
    case Done(_) => s
  }

  /** A call that has not begun can lock the mutex if nobody holds it; one that has begun can go on until it has returned. */
  predicate Enabled<S, R>(i: nat, s: State<S, R>) {
    i < |s.calls| && !s.calls[i].Done? && (s.calls[i].Idle? ==> s.holder.None?)
  }

  ghost predicate StepOf<S, R>(apply: (nat, S) -> (S, R), i: nat, s: State<S, R>, t: State<S, R>) {
    Enabled(i, s) && t == Next(apply, i, s)
  }

  ghost predicate Step<S(!new), R(!new)>(apply: (nat, S) -> (S, R), s: State<S, R>, t: State<S, R>) {
    exists i: nat :: StepOf(apply, i, s, t)
  }

  ghost predicate Run<S(!new), R(!new)>(apply: (nat, S) -> (S, R), initial: S, n: nat, run: seq<State<S, R>>) {
    && run != [] && run[0] == State(initial, None, seq(n, _ => Idle), [])
    && forall k | 0 <= k < |run| - 1 :: Step(apply, run[k], run[k + 1])
  }

  // ---------- one after the other ----------

  /** The shared value after the calls in this order. */
  function After<S, R>(apply: (nat, S) -> (S, R), initial: S, order: seq<nat>): S {
    if order == [] then initial else apply(order[|order| - 1], After(apply, initial, order[..|order| - 1])).0
  }

  /** What the k-th call of this order returns. */
  function Returns<S, R>(apply: (nat, S) -> (S, R), initial: S, order: seq<nat>, k: nat): R
    requires k < |order|
  {
    apply(order[k], After(apply, initial, order[..k])).1
  }

  // ---------- the invariant ----------

  /** The calls that have written. */
  function Committed<S, R>(s: State<S, R>): seq<nat>
    requires s.holder.Some? ==> s.order != [] && s.holder.value < |s.calls|
  {
    if s.holder.Some? && !s.calls[s.holder.value].Written? then s.order[..|s.order| - 1] else s.order
  }

  predicate InSection<S, R>(c: Stage<S, R>) { c.Locked? || c.Read? || c.Written? }

  /** Every call has locked exactly once if it has begun, and at most the last of them is in its section. */
  ghost predicate Exclusive<S, R>(s: State<S, R>) {
    && (forall k | 0 <= k < |s.order| :: s.order[k] < |s.calls|)
    && (forall j, k | 0 <= j < k < |s.order| :: s.order[j] != s.order[k])
    && (forall i | 0 <= i < |s.calls| :: s.calls[i].Idle? <==> i !in s.order)
    && (forall i | 0 <= i < |s.calls| :: InSection(s.calls[i]) <==> s.holder == Some(i))
    && (s.holder.Some? ==> s.order != [] && s.order[|s.order| - 1] == s.holder.value)
  }

  ghost predicate Answered<S, R>(apply: (nat, S) -> (S, R), initial: S, s: State<S, R>, k: nat)
    requires k < |s.order| && s.order[k] < |s.calls|
  {
    var c := s.calls[s.order[k]];
    c.Written? || c.Done? ==> c.ret == Returns(apply, initial, s.order, k)
  }

  /** What has been returned or is about to be is what the calls return one after the other. */
  ghost predicate Right<S, R>(apply: (nat, S) -> (S, R), initial: S, s: State<S, R>)
    requires Exclusive(s)
  {
    && s.shared == After(apply, initial, Committed(s))
    && (s.holder.Some? && s.calls[s.holder.value].Read? ==> s.calls[s.holder.value].local == s.shared)
    && forall k | 0 <= k < |s.order| :: Answered(apply, initial, s, k)
  }

  ghost predicate Inv<S, R>(apply: (nat, S) -> (S, R), initial: S, s: State<S, R>) {
    Exclusive(s) && Right(apply, initial, s)
  }

  lemma LockKeepsExclusive<S, R>(apply: (nat, S) -> (S, R), i: nat, s: State<S, R>, t: State<S, R>)
    requires Exclusive(s) && StepOf(apply, i, s, t) && s.calls[i].Idle?
    ensures Exclusive(t)
  {
    assert t.order == s.order + [i];
    assert forall j :: j in t.order <==> j in s.order || j == i;
  }

  lemma LaterStepKeepsExclusive<S, R>(apply: (nat, S) -> (S, R), i: nat, s: State<S, R>, t: State<S, R>)
    requires Exclusive(s) && StepOf(apply, i, s, t) && !s.calls[i].Idle?
    ensures Exclusive(t)
  {
    assert t.order == s.order;
  }

  lemma LockKeepsRight<S, R>(apply: (nat, S) -> (S, R), initial: S, i: nat, s: State<S, R>, t: State<S, R>)
    requires Inv(apply, initial, s) && StepOf(apply, i, s, t) && Exclusive(t) && s.calls[i].Idle?
    ensures Right(apply, initial, t)
  {
    assert Committed(t) == s.order == Committed(s);
    forall k | 0 <= k < |t.order|
      ensures Answered(apply, initial, t, k)
    {
      if k < |s.order| {
        assert t.order[k] != i && t.order[..k] == s.order[..k];
        assert Answered(apply, initial, s, k);
      }
    }
  }

  /** The holder of the mutex is the last call that has locked it. */
  lemma HolderIsLast<S, R>(apply: (nat, S) -> (S, R), i: nat, s: State<S, R>, t: State<S, R>)
    requires Exclusive(s) && StepOf(apply, i, s, t) && !s.calls[i].Idle?
    ensures s.holder == Some(i) && s.order != [] && s.order[|s.order| - 1] == i && t.order == s.order
    ensures forall k | 0 <= k < |s.order| - 1 :: s.order[k] != i
  {
    assert InSection(s.calls[i]);
  }

  lemma LaterStepKeepsRight<S, R>(apply: (nat, S) -> (S, R), initial: S, i: nat, s: State<S, R>, t: State<S, R>)
    requires Inv(apply, initial, s) && StepOf(apply, i, s, t) && Exclusive(t) && !s.calls[i].Idle?
    ensures Right(apply, initial, t)
  {
    HolderIsLast(apply, i, s, t);
    forall k | 0 <= k < |t.order|
      ensures Answered(apply, initial, t, k)
    {
      assert Answered(apply, initial, s, k);
    }
  }

  lemma {:induction false} RunKeepsInv<S(!new), R(!new)>(
      apply: (nat, S) -> (S, R), initial: S, n: nat, run: seq<State<S, R>>, k: nat)
    requires Run(apply, initial, n, run) && k < |run|
    ensures Inv(apply, initial, run[k]) && |run[k].calls| == n
  {
    if k == 0 {
    } else {
      RunKeepsInv(apply, initial, n, run, k - 1);
      assert Step(apply, run[k - 1], run[k - 1 + 1]);
      var i: nat :| StepOf(apply, i, run[k - 1], run[k]);
      if run[k - 1].calls[i].Idle? {
        LockKeepsExclusive(apply, i, run[k - 1], run[k]);
        LockKeepsRight(apply, initial, i, run[k - 1], run[k]);
      } else {
        LaterStepKeepsExclusive(apply, i, run[k - 1], run[k]);
        LaterStepKeepsRight(apply, initial, i, run[k - 1], run[k]);
      }
    }
  }

  // ---------- no deadlock, no endless run ----------

  ghost predicate AllDone<S, R>(s: State<S, R>) { forall i | 0 <= i < |s.calls| :: s.calls[i].Done? }

  function StepsLeft<S, R>(calls: seq<Stage<S, R>>): nat {
    if calls == [] then 0
    else StepsLeft(calls[..|calls| - 1]) + match calls[|calls| - 1] { case Idle => 4 case Locked => 3 case Read(_) => 2 case Written(_) => 1 case Done(_) => 0 }
  }

  lemma {:induction false} Advance<S, R>(apply: (nat, S) -> (S, R), i: nat, s: State<S, R>, t: State<S, R>, m: nat)
    requires StepOf(apply, i, s, t) && m <= |s.calls|
    ensures |t.calls| == |s.calls| && StepsLeft(t.calls[..m]) + (if i < m then 1 else 0) == StepsLeft(s.calls[..m])
  {
    if m == 0 {
    } else {
      Advance(apply, i, s, t, m - 1);
      assert t.calls[..m][..m - 1] == t.calls[..m - 1] && s.calls[..m][..m - 1] == s.calls[..m - 1];
    }
  }

  lemma {:induction false} StepsAtFirst<S, R>(calls: seq<Stage<S, R>>)
    requires forall i | 0 <= i < |calls| :: calls[i].Idle?
    ensures StepsLeft(calls) == 4 * |calls|
  {
    if calls == [] {
    } else {
      StepsAtFirst(calls[..|calls| - 1]);
    }
  }

  lemma {:induction false} RunLength<S(!new), R(!new)>(
      apply: (nat, S) -> (S, R), initial: S, n: nat, run: seq<State<S, R>>, k: nat)
    requires Run(apply, initial, n, run) && k < |run|
    ensures |run[k].calls| == n && StepsLeft(run[k].calls) + k == 4 * n
  {
    if k == 0 {
      StepsAtFirst(run[0].calls);
    } else {
      RunLength(apply, initial, n, run, k - 1);
      assert Step(apply, run[k - 1], run[k - 1 + 1]);
      var i: nat :| StepOf(apply, i, run[k - 1], run[k]);
      Advance(apply, i, run[k - 1], run[k], n);
      assert run[k].calls[..n] == run[k].calls && run[k - 1].calls[..n] == run[k - 1].calls;
    }
  }

  lemma {:induction false} NoStepsLeft<S, R>(s: State<S, R>, m: nat)
    requires m <= |s.calls|
    ensures StepsLeft(s.calls[..m]) == 0 <==> forall i | 0 <= i < m :: s.calls[i].Done?
  {
    if m == 0 {
    } else {
      NoStepsLeft(s, m - 1);
      assert s.calls[..m][..m - 1] == s.calls[..m - 1];
    }
  }

  ghost predicate CanStep<S(!new), R(!new)>(apply: (nat, S) -> (S, R), s: State<S, R>) {
    exists i | 0 <= i < |s.calls| :: Step(apply, s, Next(apply, i, s))
  }

  /** Runs take at most four steps for each call, are never stuck before that, and then all calls are done. */
  lemma RunsEnd<S(!new), R(!new)>(apply: (nat, S) -> (S, R), initial: S, n: nat, run: seq<State<S, R>>)
    requires Run(apply, initial, n, run)
    ensures |run| <= 4 * n + 1
    ensures |run| == 4 * n + 1 <==> AllDone(run[|run| - 1])
    ensures !AllDone(run[|run| - 1]) ==> CanStep(apply, run[|run| - 1])
  {
    var s := run[|run| - 1];
    RunLength(apply, initial, n, run, |run| - 1);
    NoStepsLeft(s, n);
    assert s.calls[..n] == s.calls;
    if !AllDone(s) {
      RunKeepsInv(apply, initial, n, run, |run| - 1);
      var i: nat :| i < n && !s.calls[i].Done?;
      var j := if s.holder.Some? then s.holder.value else i;
      assert StepOf(apply, j, s, Next(apply, j, s));
    }
  }

  ghost predicate IsOrder(order: seq<nat>, n: nat) {
    && (forall i: nat :: i in order <==> i < n)
    && (forall j, k | 0 <= j < k < |order| :: order[j] != order[k])
  }

  /** When all calls are done, the shared value and all results are those of the calls one after the other, each once,
      in the order in which they locked the mutex. */
  lemma OneAfterTheOther<S(!new), R(!new)>(apply: (nat, S) -> (S, R), initial: S, n: nat, run: seq<State<S, R>>)
    requires Run(apply, initial, n, run) && AllDone(run[|run| - 1])
    ensures
      var s := run[|run| - 1];
      && |s.calls| == n && IsOrder(s.order, n) && s.shared == After(apply, initial, s.order)
      && (forall k | 0 <= k < |s.order| :: s.order[k] < n && s.calls[s.order[k]].Done?)
      && (forall k | 0 <= k < |s.order| :: s.calls[s.order[k]].ret == Returns(apply, initial, s.order, k))
  {
    RunKeepsInv(apply, initial, n, run, |run| - 1);
    var s := run[|run| - 1];
    assert s.holder.None?;
    forall k | 0 <= k < |s.order|
      ensures s.calls[s.order[k]].Done? && s.calls[s.order[k]].ret == Returns(apply, initial, s.order, k)
    {
      assert Answered(apply, initial, s, k);
    }
    forall i: nat
      ensures i in s.order <==> i < n
    {
      if i < n {
        assert !s.calls[i].Idle?;
      }
    }
  }
}

/** AddWorkload (pkg/common/helper/helper.go). */
module Workloads {
  import opened Seqs
  import opened SharedState

  datatype Workload = Workload(name: string, project: string)

  function AddWorkload(w: seq<Workload>): (nat, map<string, string>) -> (map<string, string>, bool) {
    (i: nat, m: map<string, string>) => if i < |w| then (m[w[i].name := w[i].project], true) else (m, false)
  }

  /** The last call in this order for this name. */
  function LastFor(w: seq<Workload>, order: seq<nat>, name: string): Option<nat> {
    if order == [] then None
    else
      var i := order[|order| - 1];
      if i < |w| && w[i].name == name then Some(i) else LastFor(w, order[..|order| - 1], name)
  }

  lemma {:induction false} LastForMeans(w: seq<Workload>, order: seq<nat>, name: string)
    ensures LastFor(w, order, name).None? <==> forall i | i in order && i < |w| :: w[i].name != name
    ensures LastFor(w, order, name).Some? ==>
      exists k | 0 <= k < |order| :: order[k] == LastFor(w, order, name).value < |w| && w[order[k]].name == name
        && forall j | k < j < |order| && order[j] < |w| :: w[order[j]].name != name
  {
    if order == [] {
    } else {
      var last := |order| - 1;
      LastForMeans(w, order[..last], name);
      if order[last] < |w| && w[order[last]].name == name {
        assert order[last] in order;
      } else if LastFor(w, order, name).Some? {
        var front := order[..last];
        var k :| 0 <= k < |front| && front[k] == LastFor(w, front, name).value < |w| && w[front[k]].name == name
          && forall j | k < j < |front| && front[j] < |w| :: w[front[j]].name != name;
        assert order[k] == front[k];
        forall j | k < j < |order| && order[j] < |w|
          ensures w[order[j]].name != name
        {
          assert j < last ==> front[j] == order[j];
        }
      } else {
        assert order == order[..last] + [order[last]];
      }
    }
  }

  /** In m the name has the project of the last call for it in this order, or what it had if there is none. */
  predicate LastWins(w: seq<Workload>, initial: map<string, string>, order: seq<nat>, m: map<string, string>, name: string) {
    match LastFor(w, order, name)
    case Some(i) => i < |w| && name in m && m[name] == w[i].project
    case None => (name in m <==> name in initial) && (name in m ==> m[name] == initial[name])
  }

  lemma {:induction false} AfterAdding(w: seq<Workload>, initial: map<string, string>, order: seq<nat>, name: string)
    ensures LastWins(w, initial, order, After(AddWorkload(w), initial, order), name)
  {
    if order == [] {
    } else {
      AfterAdding(w, initial, order[..|order| - 1], name);
    }
  }

  /** No entry is lost: at the end each name has the project of the last call for it in lock order, and other names
      have what they had. */
  lemma NoEntryIsLost(w: seq<Workload>, initial: map<string, string>, run: seq<State<map<string, string>, bool>>, name: string)
    requires Run(AddWorkload(w), initial, |w|, run) && AllDone(run[|run| - 1])
    ensures
      var s := run[|run| - 1];
      IsOrder(s.order, |w|) && LastWins(w, initial, s.order, s.shared, name)
  {
    OneAfterTheOther(AddWorkload(w), initial, |w|, run);
    AfterAdding(w, initial, run[|run| - 1].order, name);
  }

  /** So every call's name is there at the end. */
  lemma EveryNameIsThere(w: seq<Workload>, initial: map<string, string>, order: seq<nat>, m: map<string, string>, i: nat)
    requires i < |w| && IsOrder(order, |w|) && LastWins(w, initial, order, m, w[i].name)
    ensures w[i].name in m && exists j | 0 <= j < |w| :: w[j].name == w[i].name && m[w[i].name] == w[j].project
  {
    LastForMeans(w, order, w[i].name);
    assert i in order;
  }
}

/** queueNotification and DrainPendingNotifications (pkg/e2e/adhoctestimages/adhoctestimages.go). */
module Notifications {
  import opened SharedState

  datatype Notification = Notification(analysis: string, suite: string, outputDir: string)

  datatype Call = Queue(n: Notification) | Drain

  /** The shared value is the pending queue; draining returns it and empties it. */
  function Apply(calls: seq<Call>): (nat, seq<Notification>) -> (seq<Notification>, seq<Notification>) {
    (i: nat, pending: seq<Notification>) =>
      if i >= |calls| then (pending, [])
      else match calls[i] {
        case Queue(n) => (pending + [n], [])
        case Drain => ([], pending)
      }
  }

  /** The notifications queued in this order. */
  function Queued(calls: seq<Call>, order: seq<nat>): seq<Notification> {
    if order == [] then []
    else
      var i := order[|order| - 1];
      Queued(calls, order[..|order| - 1]) + if i < |calls| && calls[i].Queue? then [calls[i].n] else []
  }

  /** The batches returned in this order, one after the other. */
  function Drained(calls: seq<Call>, order: seq<nat>): seq<Notification> {
    if order == [] then []
    else Drained(calls, order[..|order| - 1]) + Returns(Apply(calls), [], order, |order| - 1)
  }

  lemma {:induction false} DrainedThenPending(calls: seq<Call>, order: seq<nat>)
    ensures Drained(calls, order) + After(Apply(calls), [], order) == Queued(calls, order)
  {
    if order == [] {
    } else {
      DrainedThenPending(calls, order[..|order| - 1]);
    }
  }

  /** A drain returns everything queued since the one before it, in order, and leaves nothing pending. */
  lemma DrainEmpties(calls: seq<Call>, order: seq<nat>, k: nat)
    requires k < |order| && order[k] < |calls| && calls[order[k]].Drain?
    ensures After(Apply(calls), [], order[..k + 1]) == []
    ensures Drained(calls, order[..k]) + Returns(Apply(calls), [], order, k) == Queued(calls, order[..k])
  {
    assert order[..k + 1][..k] == order[..k];
    DrainedThenPending(calls, order[..k]);
  }

  /** The batches as the drain calls have returned them. */
  function Batches(s: State<seq<Notification>, seq<Notification>>, order: seq<nat>): seq<Notification>
    requires forall i | i in order :: i < |s.calls| && s.calls[i].Done?
  {
    if order == [] then []
    else
      assert order[|order| - 1] in order;
      Batches(s, order[..|order| - 1]) + s.calls[order[|order| - 1]].ret
  }

  lemma {:induction false} BatchesAreDrained(
      calls: seq<Call>, s: State<seq<Notification>, seq<Notification>>, order: seq<nat>)
    requires forall k | 0 <= k < |order| :: order[k] < |s.calls| && s.calls[order[k]].Done?
    requires forall k | 0 <= k < |order| :: s.calls[order[k]].ret == Returns(Apply(calls), [], order, k)
    ensures Batches(s, order) == Drained(calls, order)
  {
    if order == [] {
    } else {
      var front := order[..|order| - 1];
      forall k | 0 <= k < |front|
        ensures s.calls[front[k]].ret == Returns(Apply(calls), [], front, k)
      {
        assert front[k] == order[k] && front[..k] == order[..k];
      }
      BatchesAreDrained(calls, s, front);
    }
  }

  /** All batches, in lock order, followed by what is still pending are the queued notifications in lock order, each once. */
  lemma NothingLostOrTwice(calls: seq<Call>, run: seq<State<seq<Notification>, seq<Notification>>>)
    requires Run(Apply(calls), [], |calls|, run) && AllDone(run[|run| - 1])
    ensures
      var s := run[|run| - 1];
      && IsOrder(s.order, |calls|) && |s.calls| == |calls|
      && Batches(s, s.order) + s.shared == Queued(calls, s.order)
  {
    OneAfterTheOther(Apply(calls), [], |calls|, run);
    var s := run[|run| - 1];
    BatchesAreDrained(calls, s, s.order);
    DrainedThenPending(calls, s.order);
  }
}
