/** The fold over the received results in collectTestResults (internal/aggregator/aggregator.go). */
module TestSummary {
  import opened Seqs
  import opened Sorting
  import Semver
  import FanIn

  datatype Test = Test(name: string, className: string, duration: int, status: string)

  datatype Suite = Suite(name: string, tests: seq<Test>)

  datatype FailedTest = FailedTest(name: string, className: string, suiteName: string)

  datatype Summary = Summary(total: nat, passed: nat, failed: nat, skipped: nat, errors: nat, duration: int, suites: nat)

  /** What ingesting each file gave: its suites, or nothing for a file that does not parse. */
  type Parsed = seq<Option<seq<Suite>>>

  function SuitesOf(parsed: Parsed): nat -> seq<Suite> {
    (file: nat) => if file < |parsed| && parsed[file].Some? then parsed[file].value else []
  }

  datatype Tagged = Tagged(suiteName: string, test: Test)

  function TestsOf(s: Suite): seq<Tagged> {
    seq(|s.tests|, i requires 0 <= i < |s.tests| => Tagged(s.name, s.tests[i]))
  }

  /** All tests of the files, in the order of arrival of the files. */
  function AllTests(parsed: Parsed, received: seq<nat>): seq<Tagged> {
    FlatMap(TestsOf, FlatMap(SuitesOf(parsed), received))
  }

  function HasStatus(status: string): Tagged -> bool { (t: Tagged) => t.test.status == status }

  function IsFailure(): Tagged -> bool { (t: Tagged) => t.test.status == "failed" || t.test.status == "error" }

  function Duration(tests: seq<Tagged>): int {
    if tests == [] then 0 else Duration(tests[..|tests| - 1]) + tests[|tests| - 1].test.duration
  }

  function Failure(t: Tagged): FailedTest { FailedTest(t.test.name, t.test.className, t.suiteName) }

  function Failures(tests: seq<Tagged>): seq<FailedTest> {
    FlatMap(t => [Failure(t)], Filter(tests, IsFailure()))
  }

  function Summarize(tests: seq<Tagged>, suites: nat): Summary {
    Summary(|tests|, |Filter(tests, HasStatus("passed"))|, |Filter(tests, HasStatus("failed"))|,
            |Filter(tests, HasStatus("skipped"))|, |Filter(tests, HasStatus("error"))|, Duration(tests), suites)
  }

  /** The summary of the files that arrive in this order. */
  function SummaryOf(parsed: Parsed, received: seq<nat>): Summary {
    Summarize(AllTests(parsed, received), |FlatMap(SuitesOf(parsed), received)|)
  }

  predicate ByName(a: FailedTest, b: FailedTest) { Semver.TextLess(a.name, b.name) }

  lemma ByNameIsStrictWeak()
    ensures StrictWeak(ByName)
  {
    Semver.TextLessIsStrictWeak();
  }

  /** The tests of the files are those of their suites, each with the name of its suite. */
  lemma TestsAre(parsed: Parsed, received: seq<nat>, t: Tagged)
    ensures t in AllTests(parsed, received) <==>
      exists f: nat, s | f in received && f < |parsed| && parsed[f].Some? && s in parsed[f].value ::
        t.suiteName == s.name && t.test in s.tests
  {
    if t in AllTests(parsed, received) {
      var s := FlatMapSource(TestsOf, FlatMap(SuitesOf(parsed), received), t);
      var f := FlatMapSource(SuitesOf(parsed), received, s);
      var k :| 0 <= k < |TestsOf(s)| && TestsOf(s)[k] == t;
      assert s.tests[k] in s.tests;
    }
    if f: nat, s :|
      f in received && f < |parsed| && parsed[f].Some? && s in parsed[f].value && t.suiteName == s.name && t.test in s.tests
    {
      FlatMapMember(SuitesOf(parsed), received, f, s);
      var k :| 0 <= k < |s.tests| && s.tests[k] == t.test;
      assert TestsOf(s)[k] == t;
      FlatMapMember(TestsOf, FlatMap(SuitesOf(parsed), received), s, t);
    }
  }

  /** File by file, and one file has as many as its suites. */
  lemma TestsAddUp(parsed: Parsed, received: seq<nat>, f: nat)
    ensures AllTests(parsed, received + [f]) == AllTests(parsed, received) + FlatMap(TestsOf, SuitesOf(parsed)(f))
  {
    var before := FlatMap(SuitesOf(parsed), received);
    FlatMapConcat(SuitesOf(parsed), received, [f]);
    FlatMapOne(SuitesOf(parsed), f);
    FlatMapConcat(TestsOf, before, SuitesOf(parsed)(f));
  }

  lemma SuiteAddsItsTests(suites: seq<Suite>, s: Suite)
    ensures |FlatMap(TestsOf, suites + [s])| == |FlatMap(TestsOf, suites)| + |s.tests|
  {
    FlatMapConcat(TestsOf, suites, [s]);
    FlatMapOne(TestsOf, s);
  }

  // ---------- the loops ----------

  method CollectSuites(parsed: Parsed, received: seq<nat>) returns (suites: seq<Suite>)
    requires forall f | f in received :: f < |parsed|
    ensures suites == FlatMap(SuitesOf(parsed), received)
  {
    suites := [];
    for i := 0 to |received|
      invariant suites == FlatMap(SuitesOf(parsed), received[..i])
    {
      FlatMapStep(SuitesOf(parsed), received, i);
      assert received[i] in received;
      var result := parsed[received[i]];
      if result.None? {
        continue;
      }
      suites := suites + result.value;
    }
    assert received[..|received|] == received;
  }

  function Counted(s: Summary, t: Test): Summary {
    var add := (status: string) => if t.status == status then 1 else 0;
    Summary(s.total + 1, s.passed + add("passed"), s.failed + add("failed"), s.skipped + add("skipped"),
            s.errors + add("error"), s.duration + t.duration, s.suites)
  }

  /** The body of the counting loops. */
  method CountTest(summary: Summary, failed: seq<FailedTest>, test: Test, suiteName: string)
    returns (s: Summary, f: seq<FailedTest>)
    ensures s == Counted(summary, test)
    ensures f == failed + if IsFailure()(Tagged(suiteName, test)) then [Failure(Tagged(suiteName, test))] else []
  {
    s := summary.(total := summary.total + 1, duration := summary.duration + test.duration);
    f := failed;
    if test.status == "passed" {
      s := s.(passed := s.passed + 1);
    } else if test.status == "failed" {
      s := s.(failed := s.failed + 1);
      f := f + [FailedTest(test.name, test.className, suiteName)];
    } else if test.status == "skipped" {
      s := s.(skipped := s.skipped + 1);
    } else if test.status == "error" {
      s := s.(errors := s.errors + 1);
      f := f + [FailedTest(test.name, test.className, suiteName)];
    }
  }

  lemma SummarizeStep(tests: seq<Tagged>, t: Tagged)
    ensures forall suites :: Summarize(tests + [t], suites) == Counted(Summarize(tests, suites), t.test)
    ensures Failures(tests + [t]) == Failures(tests) + if IsFailure()(t) then [Failure(t)] else []
  {
    assert (tests + [t])[..|tests|] == tests;
    var kept := Filter(tests, IsFailure());
    assert (kept + [t])[..|kept|] == kept;
  }

  method CountSuite(summary: Summary, failed: seq<FailedTest>, suite: Suite, ghost before: seq<Tagged>, ghost suites: nat)
    returns (s: Summary, f: seq<FailedTest>)
    requires summary == Summarize(before, suites) && failed == Failures(before)
    ensures s == Summarize(before + TestsOf(suite), suites) && f == Failures(before + TestsOf(suite))
  {
    s, f := summary, failed;
    ghost var tests := TestsOf(suite);
    assert before + tests[..0] == before;
    for j := 0 to |suite.tests|
      invariant s == Summarize(before + tests[..j], suites) && f == Failures(before + tests[..j])
    {
      assert before + tests[..j + 1] == before + tests[..j] + [tests[j]];
      SummarizeStep(before + tests[..j], tests[j]);
      s, f := CountTest(s, f, suite.tests[j], suite.name);
    }
    assert tests[..|suite.tests|] == tests;
  }

  method CountTests(suites: seq<Suite>) returns (summary: Summary, failed: seq<FailedTest>)
    ensures summary == Summarize(FlatMap(TestsOf, suites), |suites|)
    ensures failed == Failures(FlatMap(TestsOf, suites))
  {
    summary := Summary(0, 0, 0, 0, 0, 0, |suites|);
    failed := [];
    for i := 0 to |suites|
      invariant summary == Summarize(FlatMap(TestsOf, suites[..i]), |suites|)
      invariant failed == Failures(FlatMap(TestsOf, suites[..i]))
    {
      FlatMapStep(TestsOf, suites, i);
      summary, failed := CountSuite(summary, failed, suites[i], FlatMap(TestsOf, suites[..i]), |suites|);
    }
    assert suites[..|suites|] == suites;
  }

  /** The receive loop and the counting loops, over the files in their order of arrival. */
  method CollectTestResults(parsed: Parsed, received: seq<nat>) returns (summary: Summary, failures: seq<FailedTest>)
    requires forall f | f in received :: f < |parsed|
    ensures summary == SummaryOf(parsed, received) && summary.suites == |FlatMap(SuitesOf(parsed), received)|
    ensures SortedBy(ByName, failures) && multiset(failures) == multiset(Failures(AllTests(parsed, received)))
    ensures forall i, j | 0 <= i < j < |failures| :: !Semver.TextLess(failures[j].name, failures[i].name)
  {
    var suites := CollectSuites(parsed, received);
    var failed;
    summary, failed := CountTests(suites);
    ByNameIsStrictWeak();
    failures := SortSlice(ByName, failed);
  }

  // ---------- what the summary says ----------

  /** The total is the sum of the four counts exactly when every status is one of the four. */
  lemma {:induction false} TotalIsSum(tests: seq<Tagged>, suites: nat)
    ensures
      var s := Summarize(tests, suites);
      && s.passed + s.failed + s.skipped + s.errors <= s.total
      && (s.total == s.passed + s.failed + s.skipped + s.errors <==>
          forall t | t in tests :: t.test.status in {"passed", "failed", "skipped", "error"})
  {
    if tests == [] {
    } else {
      var front, t := tests[..|tests| - 1], tests[|tests| - 1];
      assert tests == front + [t];
      TotalIsSum(front, suites);
      SummarizeStep(front, t);
      assert Summarize(tests, suites) == Counted(Summarize(front, suites), t.test);
    }
  }

  lemma {:induction false} FailuresCounted(tests: seq<Tagged>, suites: nat)
    ensures |Failures(tests)| == Summarize(tests, suites).failed + Summarize(tests, suites).errors
  {
    if tests == [] {
    } else {
      var front, t := tests[..|tests| - 1], tests[|tests| - 1];
      assert tests == front + [t];
      FailuresCounted(front, suites);
      SummarizeStep(front, t);
      assert Summarize(tests, suites) == Counted(Summarize(front, suites), t.test);
    }
  }

  /** Each count is the number of positions of tests with that status. */
  lemma CountsMean(tests: seq<Tagged>, suites: nat)
    ensures
      var s := Summarize(tests, suites);
      && s.total == |tests| && s.suites == suites
      && s.passed == |set k | 0 <= k < |tests| && tests[k].test.status == "passed"|
      && s.failed == |set k | 0 <= k < |tests| && tests[k].test.status == "failed"|
      && s.skipped == |set k | 0 <= k < |tests| && tests[k].test.status == "skipped"|
      && s.errors == |set k | 0 <= k < |tests| && tests[k].test.status == "error"|
  {
    FilterSize(tests, HasStatus("passed"));
    FilterSize(tests, HasStatus("failed"));
    FilterSize(tests, HasStatus("skipped"));
    FilterSize(tests, HasStatus("error"));
    assert Positions(tests, HasStatus("passed")) == set k | 0 <= k < |tests| && tests[k].test.status == "passed";
    assert Positions(tests, HasStatus("failed")) == set k | 0 <= k < |tests| && tests[k].test.status == "failed";
    assert Positions(tests, HasStatus("skipped")) == set k | 0 <= k < |tests| && tests[k].test.status == "skipped";
    assert Positions(tests, HasStatus("error")) == set k | 0 <= k < |tests| && tests[k].test.status == "error";
  }

  predicate IsFailureOf(t: Tagged, f: FailedTest) { IsFailure()(t) && f == Failure(t) }

  lemma {:induction false} FailureOf(tests: seq<Tagged>, f: FailedTest)
    ensures f in Failures(tests) <==> exists t | t in tests :: IsFailureOf(t, f)
  {
    if tests == [] {
    } else {
      var front, t := tests[..|tests| - 1], tests[|tests| - 1];
      assert tests == front + [t];
      FailureOf(front, f);
      SummarizeStep(front, t);
      var last := if IsFailure()(t) then [Failure(t)] else [];
      assert Failures(tests) == Failures(front) + last && (f in last <==> IsFailureOf(t, f));
      assert t in tests;
      if x :| x in front && IsFailureOf(x, f) {
        assert x in tests;
      }
    }
  }

  /** There are as many failures as failed and errored tests, and they are exactly those. */
  lemma FailuresAreTheFailedTests(tests: seq<Tagged>, suites: nat)
    ensures |Failures(tests)| == Summarize(tests, suites).failed + Summarize(tests, suites).errors
    ensures forall f :: f in Failures(tests) <==>
      exists t | t in tests :: t.test.status in {"failed", "error"} && f == FailedTest(t.test.name, t.test.className, t.suiteName)
  {
    FailuresCounted(tests, suites);
    forall f
      ensures f in Failures(tests) <==>
        exists t | t in tests :: t.test.status in {"failed", "error"} && f == FailedTest(t.test.name, t.test.className, t.suiteName)
    {
      FailureOf(tests, f);
      assert forall t | IsFailureOf(t, f) :: t.test.status in {"failed", "error"} && f == Failure(t);
    }
  }

  lemma {:induction false} DurationConcat(s: seq<Tagged>, t: seq<Tagged>)
    ensures Duration(s + t) == Duration(s) + Duration(t)
    ensures |s| == 1 ==> Duration(s) == s[0].test.duration
  {
    if t == [] {
      assert s + t == s;
    } else {
      assert (s + t)[..|s + t| - 1] == s + t[..|t| - 1];
      DurationConcat(s, t[..|t| - 1]);
    }
  }

  lemma {:induction false} DurationPermutation(s: seq<Tagged>, t: seq<Tagged>)
    requires multiset(s) == multiset(t)
    ensures Duration(s) == Duration(t)
  {
    if s == [] {
      assert |t| == |multiset(t)| == 0;
    } else {
      var front, x := s[..|s| - 1], s[|s| - 1];
      assert s == front + [x];
      var a, b := SplitPermutation(front, x, t);
      DurationPermutation(front, a + b);
      DurationConcat(a, b);
      DurationConcat(a + [x], b);
      assert (a + [x])[..|a|] == a;
    }
  }

  lemma SummaryPermutation(s: seq<Tagged>, t: seq<Tagged>, suites: nat)
    requires multiset(s) == multiset(t)
    ensures Summarize(s, suites) == Summarize(t, suites)
    ensures multiset(Failures(s)) == multiset(Failures(t))
  {
    DurationPermutation(s, t);
    assert |s| == |multiset(s)| == |multiset(t)| == |t|;
    forall keep: Tagged -> bool
      ensures |Filter(s, keep)| == |Filter(t, keep)|
    {
      FilterPermutation(s, t, keep);
      assert |Filter(s, keep)| == |multiset(Filter(s, keep))|;
      assert |Filter(t, keep)| == |multiset(Filter(t, keep))|;
    }
    FilterPermutation(s, t, IsFailure());
    FlatMapPermutation((x: Tagged) => [Failure(x)], Filter(s, IsFailure()), Filter(t, IsFailure()));
  }

  /** The order in which files arrive changes neither the summary nor which failures are listed. */
  lemma ArrivalOrderDoesNotMatter(parsed: Parsed, order: seq<nat>, other: seq<nat>)
    requires multiset(order) == multiset(other)
    ensures SummaryOf(parsed, order) == SummaryOf(parsed, other)
    ensures multiset(Failures(AllTests(parsed, order))) == multiset(Failures(AllTests(parsed, other)))
  {
    var s, t := FlatMap(SuitesOf(parsed), order), FlatMap(SuitesOf(parsed), other);
    FlatMapPermutation(SuitesOf(parsed), order, other);
    assert |s| == |multiset(s)| == |multiset(t)| == |t|;
    FlatMapPermutation(TestsOf, s, t);
    SummaryPermutation(FlatMap(TestsOf, s), FlatMap(TestsOf, t), |s|);
  }

  /** Nor, however sort.Slice orders failures of one name, which name is at which position of the sorted list. */
  lemma SortedNamesAreUnique(parsed: Parsed, order: seq<nat>, other: seq<nat>, a: seq<FailedTest>, b: seq<FailedTest>, k: nat)
    requires multiset(order) == multiset(other)
    requires SortedBy(ByName, a) && multiset(a) == multiset(Failures(AllTests(parsed, order)))
    requires SortedBy(ByName, b) && multiset(b) == multiset(Failures(AllTests(parsed, other)))
    requires k < |a|
    ensures |a| == |b| && a[k].name == b[k].name
  {
    ArrivalOrderDoesNotMatter(parsed, order, other);
    ByNameIsStrictWeak();
    SortedPermutationsTie(ByName, a, b, k);
    Semver.CompareSeqMirror(Semver.CompareChar, a[k].name, b[k].name);
  }

  /** Every run of the fan-in that returns gives the summary and the failures of the files taken in order. */
  lemma EveryRunGivesOneSummary(parsed: Parsed, run: seq<FanIn.State>, s: FanIn.State)
    requires FanIn.Run(|parsed|, run) && s in run && s.main.Returned?
    ensures SummaryOf(parsed, s.received) == SummaryOf(parsed, FanIn.Files(|parsed|))
    ensures multiset(Failures(AllTests(parsed, s.received))) == multiset(Failures(AllTests(parsed, FanIn.Files(|parsed|))))
  {
    FanIn.ReceivedExactlyOnce(|parsed|, run, s);
    ArrivalOrderDoesNotMatter(parsed, s.received, FanIn.Files(|parsed|));
  }
}
