/** The concurrent part of collectTestResults (internal/aggregator/aggregator.go): main starts one goroutine
    for each of n files and one that closes the channel, and then ranges over the channel. */
module FanIn {

  /** The main goroutine: about to do wg.Add for file i, to start goroutine i, to start the closer,
      in the range loop, or behind it. */
  datatype Main = Adding(i: nat) | Starting(i: nat) | StartingCloser | Ranging | Returned

  /** The goroutine of one file: not started, ingesting, about to send, about to do wg.Done, finished. */
  datatype Worker = Unborn | Ingesting | Sending | Sent | Finished

  /** The closing goroutine: not started, in wg.Wait, about to close, finished. */
  datatype Closer = NotStarted | Waiting | Closing | Closed

  /** Results are named by their file. A panic (send on or close of a closed channel, a negative
      WaitGroup) ends the program. */
  datatype State = State(
    main: Main,
    workers: seq<Worker>,
    closer: Closer,
    waitGroup: int,
    channel: seq<nat>,
    open: bool,
    received: seq<nat>,
    panicked: bool)

  ghost predicate Init(s: State, n: nat) {
    && n > 0 && s.main == Adding(0)
    && s.workers == seq(n, _ => Unborn)
    && s.closer == NotStarted && s.waitGroup == 0
    && s.channel == [] && s.open && s.received == [] && !s.panicked
  }

  // ---------- steps ----------

  /** n is the number of files, and the capacity of the channel. */
  ghost predicate MainStep(n: nat, s: State, t: State) {
    match s.main
    case Adding(i) => t == s.(waitGroup := s.waitGroup + 1, main := Starting(i))
    case Starting(i) =>
      && i < |s.workers|
      && t == s.(workers := s.workers[i := Ingesting], main := if i + 1 < n then Adding(i + 1) else StartingCloser)
    case StartingCloser => t == s.(closer := Waiting, main := Ranging)
    case Ranging =>
      if s.channel != [] then t == s.(channel := s.channel[1..], received := s.received + [s.channel[0]])
      else !s.open && t == s.(main := Returned)
    case Returned => false
  }

  ghost predicate WorkerStep(n: nat, i: nat, s: State, t: State) {
    && i < |s.workers|
    && match s.workers[i] {
         case Unborn => false
         case Ingesting => t == s.(workers := s.workers[i := Sending])
         case Sending =>
           if !s.open then t == s.(panicked := true)
           else |s.channel| < n && t == s.(channel := s.channel + [i], workers := s.workers[i := Sent])
         case Sent =>
           if s.waitGroup <= 0 then t == s.(panicked := true)
           else t == s.(waitGroup := s.waitGroup - 1, workers := s.workers[i := Finished])
         case Finished => false
       }
  }

  ghost predicate CloserStep(s: State, t: State) {
    match s.closer
    case NotStarted => false
    case Waiting => s.waitGroup == 0 && t == s.(closer := Closing)
    case Closing => if !s.open then t == s.(panicked := true) else t == s.(open := false, closer := Closed)
    case Closed => false
  }

  ghost predicate Step(n: nat, s: State, t: State) {
    !s.panicked && (MainStep(n, s, t) || CloserStep(s, t) || exists i: nat :: WorkerStep(n, i, s, t))
  }

  ghost predicate Run(n: nat, run: seq<State>) {
    run != [] && Init(run[0], n) && forall i | 0 <= i < |run| - 1 :: Step(n, run[i], run[i + 1])
  }

  // ---------- the invariant ----------

  /** How many goroutines main has started. */
  function Started(n: nat, m: Main): nat {
    match m
    case Adding(i) => i
    case Starting(i) => i
    case _ => n
  }

  function Sum(weight: Worker -> nat, workers: seq<Worker>): nat {
    if workers == [] then 0 else Sum(weight, workers[..|workers| - 1]) + weight(workers[|workers| - 1])
  }

  lemma {:induction false} SumUpdate(weight: Worker -> nat, workers: seq<Worker>, i: nat, w: Worker)
    requires i < |workers|
    ensures Sum(weight, workers[i := w]) == Sum(weight, workers) - weight(workers[i]) + weight(w)
  {
    var front := workers[..|workers| - 1];
    if i == |front| {
      assert workers[i := w][..|front|] == front;
    } else {
      assert workers[i := w][..|front|] == front[i := w];
      SumUpdate(weight, front, i, w);
    }
  }

  lemma {:induction false} SumBounds(weight: Worker -> nat, workers: seq<Worker>)
    requires forall w :: weight(w) <= 1
    ensures Sum(weight, workers) <= |workers|
    ensures Sum(weight, workers) == 0 <==> forall i | 0 <= i < |workers| :: weight(workers[i]) == 0
    ensures Sum(weight, workers) == |workers| <==> forall i | 0 <= i < |workers| :: weight(workers[i]) == 1
  {
    if workers == [] {
    } else {
      SumBounds(weight, workers[..|workers| - 1]);
    }
  }

  /** Counted in the WaitGroup by its own wg.Add and not yet by its wg.Done. */
  function Pending(w: Worker): nat { if w.Unborn? || w.Finished? then 0 else 1 }

  function HasSent(w: Worker): nat { if w.Sent? || w.Finished? then 1 else 0 }

  /** Each file that has been sent is in the channel or received, once. */
  ghost predicate Accounted(workers: seq<Worker>, seen: seq<nat>) {
    && |seen| == Sum(HasSent, workers)
    && forall i: nat :: multiset(seen)[i] == if i < |workers| then HasSent(workers[i]) else 0
  }

  ghost predicate Inv(n: nat, s: State) {
    && !s.panicked && |s.workers| == n
    && (s.main.Adding? || s.main.Starting? ==> s.main.i < n)
    && (forall i | 0 <= i < n :: s.workers[i].Unborn? <==> i >= Started(n, s.main))
    && s.waitGroup == Sum(Pending, s.workers) + (if s.main.Starting? then 1 else 0)
    && (s.closer.NotStarted? <==> !(s.main.Ranging? || s.main.Returned?))
    && (s.closer.Closing? || s.closer.Closed? ==> forall i | 0 <= i < n :: s.workers[i].Finished?)
    && (s.open <==> !s.closer.Closed?)
    && Accounted(s.workers, s.received + s.channel)
    && (s.main.Returned? ==> s.channel == [] && !s.open)
  }

  lemma InitInv(n: nat, s: State)
    requires Init(s, n)
    ensures Inv(n, s)
  {
    SumBounds(Pending, s.workers);
    SumBounds(HasSent, s.workers);
  }

  lemma StartKeepsInv(n: nat, s: State, t: State)
    requires Inv(n, s) && s.main.Starting? && MainStep(n, s, t)
    ensures Inv(n, t)
  {
    SumUpdate(Pending, s.workers, s.main.i, Ingesting);
    SumUpdate(HasSent, s.workers, s.main.i, Ingesting);
  }

  lemma ReceiveKeepsInv(n: nat, s: State, t: State)
    requires Inv(n, s) && s.main.Ranging? && MainStep(n, s, t)
    ensures Inv(n, t)
  {
    if s.channel != [] {
      assert s.received + s.channel == t.received + t.channel;
    }
  }

  lemma IngestKeepsInv(n: nat, i: nat, s: State, t: State)
    requires Inv(n, s) && i < n && s.workers[i].Ingesting? && WorkerStep(n, i, s, t)
    ensures Inv(n, t)
  {
    SumUpdate(Pending, s.workers, i, Sending);
    SumUpdate(HasSent, s.workers, i, Sending);
  }

  lemma SendKeepsInv(n: nat, i: nat, s: State, t: State)
    requires Inv(n, s) && i < n && s.workers[i].Sending? && WorkerStep(n, i, s, t)
    ensures Inv(n, t)
  {
    SumUpdate(Pending, s.workers, i, Sent);
    SumUpdate(HasSent, s.workers, i, Sent);
    assert t.received + t.channel == s.received + s.channel + [i];
  }

  lemma DoneKeepsInv(n: nat, i: nat, s: State, t: State)
    requires Inv(n, s) && i < n && s.workers[i].Sent? && WorkerStep(n, i, s, t)
    ensures Inv(n, t)
  {
    SumBounds(Pending, s.workers);
    SumUpdate(Pending, s.workers, i, Finished);
    SumUpdate(HasSent, s.workers, i, Finished);
  }

  lemma CloserKeepsInv(n: nat, s: State, t: State)
    requires Inv(n, s) && CloserStep(s, t)
    ensures Inv(n, t)
  {
    SumBounds(Pending, s.workers);
  }

  lemma StepKeepsInv(n: nat, s: State, t: State)
    requires Inv(n, s) && Step(n, s, t)
    ensures Inv(n, t)
  {
    if MainStep(n, s, t) {
      if s.main.Starting? {
        StartKeepsInv(n, s, t);
      } else if s.main.Ranging? {
        ReceiveKeepsInv(n, s, t);
      }
    } else if CloserStep(s, t) {
      CloserKeepsInv(n, s, t);
    } else {
      var i: nat :| WorkerStep(n, i, s, t);
      match s.workers[i]
      case Ingesting => IngestKeepsInv(n, i, s, t);
      case Sending => SendKeepsInv(n, i, s, t);
      case Sent => DoneKeepsInv(n, i, s, t);
    }
  }

  lemma {:induction false} RunKeepsInv(n: nat, run: seq<State>)
    requires Run(n, run)
    ensures forall s | s in run :: Inv(n, s)
  {
    if |run| == 1 {
      InitInv(n, run[0]);
    } else {
      var front := run[..|run| - 1];
      RunKeepsInv(n, front);
      assert front[|front| - 1] in front;
      assert Step(n, run[|front| - 1], run[|front|]);
      StepKeepsInv(n, run[|front| - 1], run[|front|]);
    }
  }

  // ---------- what holds in every run ----------

  ghost predicate CanStep(n: nat, s: State) { exists t :: Step(n, s, t) }

  ghost predicate AboutToSend(s: State, i: nat) { i < |s.workers| && s.workers[i].Sending? }

  ghost predicate AllFinished(s: State) { forall w | w in s.workers :: w.Finished? }

  lemma WorkerProgress(n: nat, s: State)
    requires Inv(n, s) && s.open && s.waitGroup > 0 && s.main.Ranging?
    requires forall i | AboutToSend(s, i) :: |s.channel| < n
    ensures CanStep(n, s)
  {
    SumBounds(Pending, s.workers);
    var i :| 0 <= i < n && Pending(s.workers[i]) == 1;
    var t;
    if s.workers[i].Ingesting? {
      t := s.(workers := s.workers[i := Sending]);
    } else if s.workers[i].Sending? {
      assert AboutToSend(s, i);
      t := s.(channel := s.channel + [i], workers := s.workers[i := Sent]);
    } else {
      t := s.(waitGroup := s.waitGroup - 1, workers := s.workers[i := Finished]);
    }
    assert WorkerStep(n, i, s, t);
    assert Step(n, s, t);
  }

  lemma RangingProgress(n: nat, s: State)
    requires Inv(n, s) && s.main.Ranging?
    requires forall i | AboutToSend(s, i) :: |s.channel| < n
    ensures CanStep(n, s)
  {
    if s.channel != [] {
      assert Step(n, s, s.(channel := s.channel[1..], received := s.received + [s.channel[0]]));
    } else if !s.open {
      assert Step(n, s, s.(main := Returned));
    } else if s.closer.Closing? {
      assert Step(n, s, s.(open := false, closer := Closed));
    } else if s.waitGroup == 0 {
      assert Step(n, s, s.(closer := Closing));
    } else {
      WorkerProgress(n, s);
    }
  }

  lemma Progress(n: nat, s: State)
    requires Inv(n, s)
    requires forall i | AboutToSend(s, i) :: |s.channel| < n
    ensures CanStep(n, s) <==> !(s.main.Returned? && s.closer.Closed?)
  {
    match s.main
    case Adding(i) =>
      assert Step(n, s, s.(waitGroup := s.waitGroup + 1, main := Starting(i)));
    case Starting(i) =>
      assert Step(n, s, s.(workers := s.workers[i := Ingesting], main := if i + 1 < n then Adding(i + 1) else StartingCloser));
    case StartingCloser =>
      assert Step(n, s, s.(closer := Waiting, main := Ranging));
    case Ranging =>
      RangingProgress(n, s);
    case Returned =>
  }

  /** In every state of every run: no panic (so nothing is sent after the close), a goroutine about to send
      finds the channel open and with room, and some step is possible until main has returned and every
      other goroutine has finished. */
  lemma SafetyAndProgress(n: nat, run: seq<State>, s: State)
    requires Run(n, run) && s in run
    ensures !s.panicked
    ensures forall i | AboutToSend(s, i) :: s.open && |s.channel| < n
    ensures CanStep(n, s) <==> !(s.main.Returned? && s.closer.Closed? && AllFinished(s))
    ensures s.main.Returned? ==> s.closer.Closed? && AllFinished(s)
  {
    RunKeepsInv(n, run);
    SumBounds(HasSent, s.workers);
    Progress(n, s);
  }

  // ---------- every run is finite ----------

  function WorkerLeft(w: Worker): nat {
    match w
    case Unborn => 4
    case Ingesting => 4
    case Sending => 3
    case Sent => 1
    case Finished => 0
  }

  function MainLeft(n: nat, m: Main): int {
    match m
    case Adding(i) => 2 * (n - i) + 2
    case Starting(i) => 2 * (n - i) + 1
    case StartingCloser => 2
    case Ranging => 1
    case Returned => 0
  }

  function CloserLeft(c: Closer): nat {
    match c
    case NotStarted => 2
    case Waiting => 2
    case Closing => 1
    case Closed => 0
  }

  /** Steps that may still be taken. */
  function Left(n: nat, s: State): int {
    Sum(WorkerLeft, s.workers) + MainLeft(n, s.main) + CloserLeft(s.closer) + |s.channel|
  }

  lemma MainDecreases(n: nat, s: State, t: State)
    requires MainStep(n, s, t) && |s.workers| == n && (s.main.Adding? ==> s.main.i < n)
    requires s.main.Starting? ==> s.main.i < n && s.workers[s.main.i].Unborn?
    requires s.main.StartingCloser? ==> s.closer.NotStarted?
    ensures 0 <= Left(n, t) < Left(n, s)
  {
    if s.main.Starting? {
      SumUpdate(WorkerLeft, s.workers, s.main.i, Ingesting);
    }
  }

  lemma WorkerDecreases(n: nat, i: nat, s: State, t: State)
    requires WorkerStep(n, i, s, t) && !t.panicked
    ensures Left(n, t) < Left(n, s) && t.main == s.main
  {
    SumUpdate(WorkerLeft, s.workers, i, t.workers[i]);
  }

  lemma StepDecreases(n: nat, s: State, t: State)
    requires Inv(n, s) && Inv(n, t) && Step(n, s, t)
    ensures 0 <= Left(n, t) < Left(n, s)
  {
    if MainStep(n, s, t) {
      MainDecreases(n, s, t);
    } else if !CloserStep(s, t) {
      var i: nat :| WorkerStep(n, i, s, t);
      WorkerDecreases(n, i, s, t);
    }
  }

  lemma {:induction false} UnbornLeft(n: nat)
    ensures Sum(WorkerLeft, seq(n, _ => Unborn)) == 4 * n
  {
    if n == 0 {
    } else {
      assert seq(n, _ => Unborn)[..n - 1] == seq(n - 1, _ => Unborn);
      UnbornLeft(n - 1);
    }
  }

  /** No run has more than 6n + 4 steps. */
  lemma {:induction false} RunsAreFinite(n: nat, run: seq<State>)
    requires Run(n, run)
    ensures |run| - 1 + Left(n, run[|run| - 1]) <= 6 * n + 4
    ensures |run| - 1 <= 6 * n + 4
  {
    RunKeepsInv(n, run);
    if |run| == 1 {
      UnbornLeft(n);
    } else {
      var front := run[..|run| - 1];
      RunsAreFinite(n, front);
      assert run[|front| - 1] in run && run[|front|] in run && Step(n, run[|front| - 1], run[|front|]);
      StepDecreases(n, run[|front| - 1], run[|front|]);
    }
  }

  // ---------- exactly once ----------

  function Files(n: nat): seq<nat> { seq(n, i => i) }

  lemma {:induction false} FilesOnce(n: nat, i: nat)
    ensures multiset(Files(n))[i] == if i < n then 1 else 0
  {
    if n == 0 {
    } else {
      FilesOnce(n - 1, i);
      assert Files(n) == Files(n - 1) + [n - 1];
    }
  }

  /** When main has returned it has received every file exactly once, in some order. */
  lemma ReceivedExactlyOnce(n: nat, run: seq<State>, s: State)
    requires Run(n, run) && s in run && s.main.Returned?
    ensures multiset(s.received) == multiset(Files(n))
  {
    SafetyAndProgress(n, run, s);
    RunKeepsInv(n, run);
    assert s.received + s.channel == s.received;
    assert forall i | 0 <= i < n :: s.workers[i] in s.workers;
    forall i: nat
      ensures multiset(s.received)[i] == multiset(Files(n))[i]
    {
      FilesOnce(n, i);
    }
  }

  lemma StepSends(n: nat, s: State, t: State)
    requires Step(n, s, t)
    ensures s.received + s.channel <= t.received + t.channel
  {
    if MainStep(n, s, t) {
      if s.main.Ranging? && s.channel != [] {
        assert s.received + s.channel == t.received + t.channel;
      }
    } else if !CloserStep(s, t) {
      var i: nat :| WorkerStep(n, i, s, t);
      if s.workers[i].Sending? && s.open {
        assert t.received + t.channel == s.received + s.channel + [i];
      }
    }
  }

  /** What has been received or sent stays so, in the order of sending. */
  lemma {:induction false} SentInOrder(n: nat, run: seq<State>, i: nat, j: nat)
    requires Run(n, run) && i <= j < |run|
    ensures run[i].received + run[i].channel <= run[j].received + run[j].channel
  {
    if i < j {
      SentInOrder(n, run, i, j - 1);
      assert Step(n, run[j - 1], run[j - 1 + 1]);
      StepSends(n, run[j - 1], run[j]);
    }
  }
}
