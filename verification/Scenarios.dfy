/** Ranking chaos scenarios (pkg/krknai/aggregator/aggregator.go). */
module Scenarios {
  import opened Seqs
  import opened Semver
  import opened Sorting

  datatype Scenario = Scenario(generation: int, kind: string, krknFailureScore: real, fitness: real)

  datatype Summary = Summary(
    total: nat, successful: nat, failed: nat, generations: int, maxFitness: real, avgFitness: real, kinds: seq<string>)

  class KrknAIData {
    var summary: Summary
    var topScenarios: seq<Scenario>
    var failedScenarios: seq<Scenario>

    constructor ()
      ensures topScenarios == [] && failedScenarios == []
    {
      summary := Summary(0, 0, 0, 0, 0.0, 0.0, []);
      topScenarios, failedScenarios := [], [];
    }
  }

  function Failed(): Scenario -> bool { (s: Scenario) => s.krknFailureScore < 0.0 }

  function Successful(): Scenario -> bool { (s: Scenario) => s.krknFailureScore >= 0.0 }

  function Fitter(): (Scenario, Scenario) -> bool { (a: Scenario, b: Scenario) => a.fitness > b.fitness }

  function TotalFitness(s: seq<Scenario>): real {
    if s == [] then 0.0 else TotalFitness(s[..|s| - 1]) + s[|s| - 1].fitness
  }

  /** The greatest generation, if that is positive. */
  ghost predicate IsMaxGeneration(s: seq<Scenario>, g: int) {
    g >= 0 && (forall x | x in s :: x.generation <= g) && (g > 0 ==> exists x | x in s :: x.generation == g)
  }

  function Kinds(s: seq<Scenario>): set<string> { set x | x in s :: x.kind }

  /** top are n of the scenarios, or all if there are fewer, in descending order, and rest are not fitter than any of them. */
  ghost predicate Top(scenarios: seq<Scenario>, n: int, top: seq<Scenario>, rest: seq<Scenario>) {
    && multiset(top) + multiset(rest) == multiset(scenarios)
    && |top| == (if n < 0 then 0 else if n < |scenarios| then n else |scenarios|)
    && SortedBy(Fitter(), top) && forall i, j | 0 <= i < |top| && 0 <= j < |rest| :: top[i].fitness >= rest[j].fitness
  }

  ghost predicate IsTop(scenarios: seq<Scenario>, n: int, top: seq<Scenario>) {
    exists rest :: Top(scenarios, n, top, rest)
  }

  // ---------- the method ----------

  function Greater(a: int, b: int): int { if b > a then b else a }

  lemma AddScenario(s: seq<Scenario>, x: Scenario, g: int)
    requires IsMaxGeneration(s, g)
    ensures IsMaxGeneration(s + [x], Greater(g, x.generation))
    ensures Kinds(s + [x]) == Kinds(s) + {x.kind}
  {
    var g' := Greater(g, x.generation);
    if g' > 0 {
      if g' == g {
        var y :| y in s && y.generation == g;
        assert y in s + [x];
      } else {
        assert x in s + [x];
      }
    }
    assert forall y | y in s :: y in s + [x];
    assert x in s + [x];
  }

  lemma AddFitness(s: seq<Scenario>, x: Scenario)
    ensures TotalFitness(s + [x]) == TotalFitness(s) + x.fitness
  {
    assert (s + [x])[..|s|] == s;
  }

  ghost predicate Tallied(s: seq<Scenario>, maxGen: int, kinds: set<string>, failed: seq<Scenario>, total: real) {
    && IsMaxGeneration(s, maxGen) && kinds == Kinds(s)
    && failed == Filter(s, Failed()) && total == TotalFitness(Filter(s, Successful()))
    && |failed| + |Filter(s, Successful())| == |s|
  }

  lemma TallyFailed(s: seq<Scenario>, x: Scenario, maxGen: int, kinds: set<string>, failed: seq<Scenario>, total: real)
    requires Tallied(s, maxGen, kinds, failed, total) && Failed()(x)
    ensures Tallied(s + [x], Greater(maxGen, x.generation), kinds + {x.kind}, failed + [x], total)
  {
    AddScenario(s, x, maxGen);
    assert (s + [x])[..|s|] == s;
  }

  lemma TallySuccessful(s: seq<Scenario>, x: Scenario, maxGen: int, kinds: set<string>, failed: seq<Scenario>, total: real)
    requires Tallied(s, maxGen, kinds, failed, total) && !Failed()(x)
    ensures Tallied(s + [x], Greater(maxGen, x.generation), kinds + {x.kind}, failed, total + x.fitness)
  {
    AddScenario(s, x, maxGen);
    AddFitness(Filter(s, Successful()), x);
    assert (s + [x])[..|s|] == s;
  }

  /** The body of the loop. */
  method TallyOne(ghost before: seq<Scenario>, s: Scenario, maxGen: int, kinds: set<string>, failed: seq<Scenario>, total: real)
    returns (g: int, k: set<string>, f: seq<Scenario>, t: real)
    requires Tallied(before, maxGen, kinds, failed, total)
    ensures Tallied(before + [s], g, k, f, t)
  {
    g, k, f, t := maxGen, kinds, failed, total;
    if s.generation > maxGen {
      g := s.generation;
    }
    k := k + {s.kind};
    if s.krknFailureScore < 0.0 {
      TallyFailed(before, s, maxGen, kinds, failed, total);
      f := f + [s];
    } else {
      TallySuccessful(before, s, maxGen, kinds, failed, total);
      t := t + s.fitness;
    }
  }

  method Tally(scenarios: seq<Scenario>) returns (maxGen: int, kinds: set<string>, failed: seq<Scenario>, total: real)
    ensures Tallied(scenarios, maxGen, kinds, failed, total)
  {
    maxGen, kinds, failed, total := 0, {}, [], 0.0;
    for i := 0 to |scenarios|
      invariant Tallied(scenarios[..i], maxGen, kinds, failed, total)
    {
      assert scenarios[..i + 1] == scenarios[..i] + [scenarios[i]];
      maxGen, kinds, failed, total := TallyOne(scenarios[..i], scenarios[i], maxGen, kinds, failed, total);
    }
    assert scenarios[..|scenarios|] == scenarios;
  }

  function Take<T>(s: seq<T>, n: int): seq<T> { if n < 0 then [] else if n < |s| then s[..n] else s }

  lemma TakeIsTop(successful: seq<Scenario>, n: int, ranked: seq<Scenario>)
    requires SortedBy(Fitter(), ranked) && multiset(ranked) == multiset(successful)
    ensures IsTop(successful, n, Take(ranked, n))
  {
    var top := Take(ranked, n);
    var rest := ranked[|top|..];
    assert ranked == top + rest;
    assert |ranked| == |multiset(ranked)| == |multiset(successful)| == |successful|;
    forall i, j | 0 <= i < |top| && 0 <= j < |rest|
      ensures top[i].fitness >= rest[j].fitness
    {
      assert !Fitter()(ranked[|top| + j], ranked[i]);
    }
    assert Top(successful, n, top, rest);
  }

  lemma {:induction false} FilterSorted<T>(less: (T, T) -> bool, s: seq<T>, keep: T -> bool)
    requires SortedBy(less, s)
    ensures SortedBy(less, Filter(s, keep))
  {
    if s == [] {
    } else {
      var front := s[..|s| - 1];
      FilterSorted(less, front, keep);
      var kept := Filter(front, keep);
      forall i | 0 <= i < |kept|
        ensures !less(s[|s| - 1], kept[i])
      {
        FilterMember(front, keep, kept[i]);
      }
    }
  }

  method TopScenarios(scenarios: seq<Scenario>, n: int) returns (top: seq<Scenario>)
    ensures IsTop(Filter(scenarios, Successful()), n, top)
  {
    var sorted := SortSlice(Fitter(), scenarios);
    top := [];
    for i := 0 to |sorted|
      invariant top == Take(Filter(sorted[..i], Successful()), n)
    {
      FilterStep(sorted, Successful(), i);
      if sorted[i].krknFailureScore >= 0.0 && |top| < n {
        top := top + [sorted[i]];
      }
    }
    assert sorted[..|sorted|] == sorted;
    FilterSorted(Fitter(), sorted, Successful());
    FilterPermutation(sorted, scenarios, Successful());
    TakeIsTop(Filter(scenarios, Successful()), n, Filter(sorted, Successful()));
  }

  method SortedKinds(kinds: set<string>) returns (list: seq<string>)
    ensures SortedBy(TextLess, list) && multiset(list) == multiset(kinds)
  {
    var rest := kinds;
    list := [];
    while rest != {}
      invariant multiset(list) + multiset(rest) == multiset(kinds)
      decreases |rest|
    {
      var k :| k in rest;
      rest := rest - {k};
      list := list + [k];
    }
    TextLessIsStrictWeak();
    list := SortSlice(TextLess, list);
  }

  function Average(s: seq<Scenario>): real
    requires s != []
  {
    TotalFitness(s) / |s| as real
  }

  ghost predicate Summarised(summary: Summary, scenarios: seq<Scenario>, top: seq<Scenario>) {
    var successful := Filter(scenarios, Successful());
    && summary.total == |scenarios| && summary.successful == |successful| && summary.failed == |Filter(scenarios, Failed())|
    && IsMaxGeneration(scenarios, summary.generations - 1)
    && SortedBy(TextLess, summary.kinds) && multiset(summary.kinds) == multiset(Kinds(scenarios))
    && summary.maxFitness == (if top == [] then 0.0 else top[0].fitness)
    && summary.avgFitness == (if successful == [] then 0.0 else Average(successful))
  }

  method Summarise(scenarios: seq<Scenario>, top: seq<Scenario>, n: int)
    returns (summary: Summary, failed: seq<Scenario>)
    requires IsTop(Filter(scenarios, Successful()), n, top)
    ensures Summarised(summary, scenarios, top) && failed == Filter(scenarios, Failed())
  {
    var maxGen, kinds, total;
    maxGen, kinds, failed, total := Tally(scenarios);
    var successCount := |scenarios| - |failed|;
    var list := SortedKinds(kinds);
    var maxFitness, avgFitness := 0.0, 0.0;
    if successCount > 0 {
      avgFitness := total / successCount as real;
      if |top| > 0 {
        maxFitness := top[0].fitness;
      }
    }
    summary := Summary(|scenarios|, successCount, |failed|, maxGen + 1, maxFitness, avgFitness, list);
  }

  lemma ListedOnce(kinds: set<string>, list: seq<string>)
    requires multiset(list) == multiset(kinds)
    ensures forall k :: k in list <==> k in kinds
    ensures forall i, j | 0 <= i < j < |list| :: list[i] != list[j]
  {
    forall k
      ensures k in list <==> k in kinds
    {
      assert k in list <==> k in multiset(list);
    }
    forall i, j | 0 <= i < j < |list|
      ensures list[i] != list[j]
    {
      assert list == list[..j] + [list[j]] + list[j + 1..];
      assert list[i] in list[..j] && multiset(list)[list[j]] <= 1;
      assert list[j] !in multiset(list[..j]);
    }
  }

  /** Failed and successful scenarios together are the scenarios. */
  lemma NothingIsLost(scenarios: seq<Scenario>)
    ensures multiset(Filter(scenarios, Failed())) + multiset(Filter(scenarios, Successful())) == multiset(scenarios)
  {
    forall x: Scenario
      ensures multiset(Filter(scenarios, Failed()))[x] + multiset(Filter(scenarios, Successful()))[x] == multiset(scenarios)[x]
    {
      FilterCount(scenarios, Failed(), x);
      FilterCount(scenarios, Successful(), x);
    }
  }

  lemma SummaryMeans(summary: Summary, scenarios: seq<Scenario>, n: int, top: seq<Scenario>)
    requires scenarios != [] && Summarised(summary, scenarios, top) && IsTop(Filter(scenarios, Successful()), n, top)
    ensures summary.total == summary.successful + summary.failed
    ensures forall k :: k in summary.kinds <==> exists x | x in scenarios :: x.kind == k
    ensures forall i, j | 0 <= i < j < |summary.kinds| :: summary.kinds[i] != summary.kinds[j]
    ensures summary.successful == 0 ==> top == []
  {
    NothingIsLost(scenarios);
    var failed, successful := Filter(scenarios, Failed()), Filter(scenarios, Successful());
    assert |multiset(failed) + multiset(successful)| == |multiset(scenarios)|;
    ListedOnce(Kinds(scenarios), summary.kinds);
  }

  /** n is the configured number of top scenarios. */
  method ProcessScenarios(data: KrknAIData, scenarios: seq<Scenario>, n: int)
    modifies data
    ensures scenarios == [] ==> unchanged(data)
    ensures scenarios != [] ==> data.failedScenarios == Filter(scenarios, Failed())
    ensures scenarios != [] ==> IsTop(Filter(scenarios, Successful()), n, data.topScenarios)
    ensures scenarios != [] ==> Summarised(data.summary, scenarios, data.topScenarios)
    ensures scenarios != [] ==>
      && data.summary.total == |scenarios| && data.summary.failed == |data.failedScenarios|
      && data.summary.total == data.summary.successful + data.summary.failed
      && (forall x | x in scenarios :: x.generation < data.summary.generations)
      && (data.summary.generations > 1 ==> exists x | x in scenarios :: x.generation == data.summary.generations - 1)
      && data.summary.generations >= 1
      && (forall k :: k in data.summary.kinds <==> exists x | x in scenarios :: x.kind == k)
      && (forall i, j | 0 <= i < j < |data.summary.kinds| :: data.summary.kinds[i] != data.summary.kinds[j])
      && (data.topScenarios != [] ==> data.summary.maxFitness == data.topScenarios[0].fitness)
      && (data.summary.successful > 0 ==> data.summary.avgFitness == Average(Filter(scenarios, Successful())))
      && (data.summary.successful == 0 ==> data.summary.maxFitness == 0.0 && data.summary.avgFitness == 0.0)
  {
    if |scenarios| == 0 {
      return;
    }
    var top := TopScenarios(scenarios, n);
    data.summary, data.failedScenarios := Summarise(scenarios, top, n);
    data.topScenarios := top;
    SummaryMeans(data.summary, scenarios, n, top);
  }

  // ---------- what the numbers mean ----------

  /** The first of the top scenarios is the fittest of all. */
  lemma FirstIsMaximum(scenarios: seq<Scenario>, n: int, top: seq<Scenario>)
    requires IsTop(scenarios, n, top) && n >= 1 && scenarios != []
    ensures top != [] && top[0] in scenarios && forall x | x in scenarios :: x.fitness <= top[0].fitness
  {
    var rest :| Top(scenarios, n, top, rest);
    assert top[0] in multiset(top) && top[0] in multiset(scenarios);
    forall x | x in scenarios
      ensures x.fitness <= top[0].fitness
    {
      assert x in multiset(scenarios);
      if x in multiset(top) {
        var i :| 0 <= i < |top| && top[i] == x;
        assert i > 0 ==> !Fitter()(top[i], top[0]);
      } else {
        var j :| 0 <= j < |rest| && rest[j] == x;
      }
    }
  }

  /** The total fitness is that of one scenario, and adds up. */
  lemma {:induction false} TotalAddsUp(s: seq<Scenario>, t: seq<Scenario>)
    ensures TotalFitness(s + t) == TotalFitness(s) + TotalFitness(t)
    ensures |s| == 1 ==> TotalFitness(s) == s[0].fitness
  {
    if t == [] {
      assert s + t == s;
    } else {
      assert (s + t)[..|s + t| - 1] == s + t[..|t| - 1];
      TotalAddsUp(s, t[..|t| - 1]);
    }
  }

  function Times(n: real, x: real): real { n * x }

  lemma OneMore(n: real, x: real)
    ensures Times(n + 1.0, x) == Times(n, x) + x
  {
  }

  lemma {:induction false} TotalBetween(s: seq<Scenario>, low: real, high: real)
    requires forall x | x in s :: low <= x.fitness <= high
    ensures Times(|s| as real, low) <= TotalFitness(s) <= Times(|s| as real, high)
  {
    if s == [] {
    } else {
      TotalBetween(s[..|s| - 1], low, high);
      assert s[|s| - 1] in s;
      OneMore((|s| - 1) as real, low);
      OneMore((|s| - 1) as real, high);
    }
  }

  lemma Positive(a: real, b: real)
    requires a > 0.0 && b > 0.0
    ensures a * b > 0.0
  {
  }

  lemma Quotient(a: real, n: real, low: real, high: real)
    requires n > 0.0 && Times(n, low) <= a <= Times(n, high)
    ensures low <= a / n <= high
  {
    var q := a / n;
    assert n * q == a;
    if q < low {
      Positive(n, low - q);
    }
    if q > high {
      Positive(n, q - high);
    }
  }

  /** The average is between any bounds of the scenarios, in particular their minimum and maximum. */
  lemma AverageBetween(s: seq<Scenario>, low: real, high: real)
    requires s != [] && forall x | x in s :: low <= x.fitness <= high
    ensures low <= Average(s) <= high
  {
    TotalBetween(s, low, high);
    Quotient(TotalFitness(s), |s| as real, low, high);
  }

  /** A top list with the sorted rest behind it is a sorted permutation of the scenarios. */
  lemma Ranked(scenarios: seq<Scenario>, n: int, top: seq<Scenario>) returns (ranked: seq<Scenario>)
    requires IsTop(scenarios, n, top)
    ensures SortedBy(Fitter(), ranked) && multiset(ranked) == multiset(scenarios) && top <= ranked
  {
    var rest :| Top(scenarios, n, top, rest);
    StableSortSorts(Fitter(), rest);
    var sorted := StableSort(Fitter(), rest);
    SameMembers(rest, sorted);
    ranked := top + sorted;
    forall i, j | 0 <= i < j < |ranked|
      ensures !Fitter()(ranked[j], ranked[i])
    {
      if i < |top| <= j {
        assert ranked[j] in sorted && ranked[j] in rest;
        var k :| 0 <= k < |rest| && rest[k] == ranked[j];
      }
    }
  }

  /** However sort.Slice orders equally fit scenarios, the fitness at every position of the top list is the same. */
  lemma TopFitnessIsUnique(scenarios: seq<Scenario>, n: int, a: seq<Scenario>, b: seq<Scenario>, k: nat)
    requires IsTop(scenarios, n, a) && IsTop(scenarios, n, b) && k < |a|
    ensures |a| == |b| && a[k].fitness == b[k].fitness
  {
    var s := Ranked(scenarios, n, a);
    var t := Ranked(scenarios, n, b);
    assert a[k] == s[k] && b[k] == t[k];
    SortedPermutationsTie(Fitter(), s, t, k);
  }
}
