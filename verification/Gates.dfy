/**
 The quality gates of scripts/evaluate_research.py, over exact reals: one cohort
 (`summarize_research`) and several repetitions (`summarize_repetitions`).
 */
module Gates {
  datatype Case<I> = Case(id: I, mustRefuse: bool)

  /** A graded run; an errored one carries no claims and no coverage. */
  datatype Graded<I> = Graded(id: I, repetition: int, claims: nat, support: real, coverage: real, passed: bool,
      critical: bool)

  function Sum<I>(results: seq<Graded<I>>, value: Graded<I> -> real): real {
    if |results| == 0 then 0.0 else Sum(results[..|results| - 1], value) + value(results[|results| - 1])
  }

  function Claims<I>(): Graded<I> -> real {
    (r: Graded<I>) => r.claims as real
  }

  function Supported<I>(): Graded<I> -> real {
    (r: Graded<I>) => r.support * r.claims as real
  }

  function Passing<I>(): Graded<I> -> real {
    (r: Graded<I>) => if r.passed then 1.0 else 0.0
  }

  function Covering<I(==)>(answers: set<I>): Graded<I> -> real {
    (r: Graded<I>) => if r.id in answers then r.coverage else 0.0
  }

  function Answers<I(==)>(cases: seq<Case<I>>): set<I> {
    set i | 0 <= i < |cases| && !cases[i].mustRefuse :: cases[i].id
  }

  function AtLeastOne(x: real): real {
    if x < 1.0 then 1.0 else x
  }

  const RATE := 0.85
  const SUPPORT := 0.95
  const COVERAGE := 0.85

  /** `summarize_research(...)['passed']`. */
  predicate Passes<I(==)>(cases: seq<Case<I>>, results: seq<Graded<I>>) {
    && results != []
    && Sum(results, Passing()) / AtLeastOne(|results| as real) >= RATE
    && (forall r :: r in results && r.critical ==> r.passed)
    && Sum(results, Supported()) / AtLeastOne(Sum(results, Claims())) >= SUPPORT
    && Sum(results, Covering(Answers(cases))) / AtLeastOne(|Answers(cases)| as real) >= COVERAGE
  }

  /******* Cohorts *******/

  /** Results of repetitions 1..n, and of repetition n alone. */
  function Upto<I>(results: seq<Graded<I>>, n: int): seq<Graded<I>> {
    if |results| == 0 then []
    else if results[|results| - 1].repetition <= n then Upto(results[..|results| - 1], n) + [results[|results| - 1]]
    else Upto(results[..|results| - 1], n)
  }

  function Cohort<I>(results: seq<Graded<I>>, n: int): seq<Graded<I>> {
    if |results| == 0 then []
    else if results[|results| - 1].repetition == n then Cohort(results[..|results| - 1], n) + [results[|results| - 1]]
    else Cohort(results[..|results| - 1], n)
  }

  lemma SumAppend<I>(results: seq<Graded<I>>, r: Graded<I>, value: Graded<I> -> real)
    ensures Sum(results + [r], value) == Sum(results, value) + value(r)
  {
    assert (results + [r])[..|results|] == results;
  }

  lemma {:induction false} SumUpto<I>(results: seq<Graded<I>>, n: int, value: Graded<I> -> real)
    ensures Sum(Upto(results, n), value) == Sum(Upto(results, n - 1), value) + Sum(Cohort(results, n), value)
  {
    if |results| > 0 {
      var front, last := results[..|results| - 1], results[|results| - 1];
      SumUpto(front, n, value);
      SumAppend(Upto(front, n), last, value);
      SumAppend(Upto(front, n - 1), last, value);
      SumAppend(Cohort(front, n), last, value);
    }
  }

  lemma {:induction false} UptoNone<I>(results: seq<Graded<I>>)
    requires forall r :: r in results ==> r.repetition >= 1
    ensures Upto(results, 0) == []
  {
    if |results| > 0 {
      assert results[|results| - 1] in results;
      UptoNone(results[..|results| - 1]);
    }
  }

  lemma {:induction false} UptoAll<I>(results: seq<Graded<I>>, n: int)
    requires forall r :: r in results ==> r.repetition <= n
    ensures Upto(results, n) == results
  {
    if |results| > 0 {
      assert results[|results| - 1] in results;
      UptoAll(results[..|results| - 1], n);
    }
  }

  lemma {:induction false} CohortIs<I>(results: seq<Graded<I>>, n: int)
    ensures forall r :: r in Cohort(results, n) <==> r in results && r.repetition == n
  {
    if |results| > 0 {
      CohortIs(results[..|results| - 1], n);
      assert results == results[..|results| - 1] + [results[|results| - 1]];
    }
  }

  lemma {:induction false} CountIsLength<I>(results: seq<Graded<I>>, one: Graded<I> -> real)
    requires forall r :: one(r) == 1.0
    ensures Sum(results, one) == |results| as real
  {
    if |results| > 0 {
      CountIsLength(results[..|results| - 1], one);
    }
  }

  function Ones<I>(): Graded<I> -> real {
    (r: Graded<I>) => 1.0
  }

  ghost predicate Repetitions<I>(results: seq<Graded<I>>, repetitions: nat) {
    forall r :: r in results ==> 1 <= r.repetition <= repetitions
  }

  function Multiple(bound: real, n: nat): real {
    if n == 0 then 0.0 else Multiple(bound, n - 1) + bound
  }

  lemma {:induction false} MultipleIs(bound: real, n: nat)
    ensures Multiple(bound, n) == bound * n as real
  {
    if n > 0 {
      MultipleIs(bound, n - 1);
      assert bound * n as real == bound * (n - 1) as real + bound;
    }
  }

  /** What every cohort has of some quantity, all results together have as often as there are cohorts. */
  lemma {:induction false} Accumulates<I>(results: seq<Graded<I>>, n: nat, value: Graded<I> -> real, bound: real)
    requires forall r :: r in results ==> r.repetition >= 1
    requires forall k :: 1 <= k <= n ==> Sum(Cohort(results, k), value) >= bound
    ensures Sum(Upto(results, n), value) >= Multiple(bound, n)
    decreases n
  {
    if n == 0 {
      UptoNone(results);
    } else {
      Accumulates(results, n - 1, value, bound);
      SumUpto(results, n, value);
    }
  }

  lemma Pooled<I>(results: seq<Graded<I>>, n: nat, value: Graded<I> -> real, bound: real)
    requires Repetitions(results, n) && forall k :: 1 <= k <= n ==> Sum(Cohort(results, k), value) >= bound
    ensures Sum(results, value) >= bound * n as real
  {
    Accumulates(results, n, value, bound);
    UptoAll(results, n);
    MultipleIs(bound, n);
  }

  /** The surplus of `num` over `rate` times `den`, result by result. */
  function Surplus<I>(num: Graded<I> -> real, den: Graded<I> -> real, rate: real): Graded<I> -> real {
    (r: Graded<I>) => num(r) - rate * den(r)
  }

  lemma {:induction false} SurplusSum<I>(results: seq<Graded<I>>, num: Graded<I> -> real, den: Graded<I> -> real,
                                         rate: real)
    ensures Sum(results, Surplus(num, den, rate)) == Sum(results, num) - rate * Sum(results, den)
  {
    if |results| > 0 {
      var front, last := results[..|results| - 1], results[|results| - 1];
      SurplusSum(front, num, den, rate);
      Distribute(rate, Sum(front, den), den(last));
    }
  }

  lemma Distribute(a: real, b: real, c: real)
    ensures a * (b + c) == a * b + a * c
  {
  }

  /******* Expanding ids *******/

  function ExpandedCases<I>(cases: seq<Case<I>>, repetitions: nat): seq<Case<(I, int)>> {
    if repetitions == 0 then []
    else ExpandedCases(cases, repetitions - 1)
         + seq(|cases|, i requires 0 <= i < |cases| => Case((cases[i].id, repetitions), cases[i].mustRefuse))
  }

  function Expanded<I>(r: Graded<I>): Graded<(I, int)> {
    Graded((r.id, r.repetition), r.repetition, r.claims, r.support, r.coverage, r.passed, r.critical)
  }

  function ExpandedResults<I>(results: seq<Graded<I>>): seq<Graded<(I, int)>> {
    seq(|results|, i requires 0 <= i < |results| => Expanded(results[i]))
  }

  lemma {:induction false} ExpandedAnswers<I>(cases: seq<Case<I>>, repetitions: nat)
    ensures forall id, n ::
            (id, n) in Answers(ExpandedCases(cases, repetitions)) <==> id in Answers(cases) && 1 <= n <= repetitions
  {
    if repetitions > 0 {
      ExpandedAnswers(cases, repetitions - 1);
      var before := ExpandedCases(cases, repetitions - 1);
      var all := ExpandedCases(cases, repetitions);
      forall id: I, n: int
        ensures (id, n) in Answers(all) <==> (id, n) in Answers(before) || (id in Answers(cases) && n == repetitions)
      {
        if (id, n) in Answers(before) {
          var i :| 0 <= i < |before| && !before[i].mustRefuse && before[i].id == (id, n);
          assert all[i] == before[i];
        }
        if id in Answers(cases) && n == repetitions {
          var i :| 0 <= i < |cases| && !cases[i].mustRefuse && cases[i].id == id;
          assert all[|before| + i] == Case((id, n), false);
        }
        if (id, n) in Answers(all) {
          var i :| 0 <= i < |all| && !all[i].mustRefuse && all[i].id == (id, n);
          if i < |before| {
            assert all[i] == before[i];
          } else {
            assert all[i] == Case((cases[i - |before|].id, repetitions), cases[i - |before|].mustRefuse);
          }
        }
      }
    }
  }

  lemma {:induction false} PairsCount<I>(ids: set<I>, n: int)
    ensures |set id | id in ids :: (id, n)| == |ids|
    decreases |ids|
  {
    if ids != {} {
      var id :| id in ids;
      PairsCount(ids - {id}, n);
      assert (set x | x in ids :: (x, n)) == (set x | x in ids - {id} :: (x, n)) + {(id, n)};
    }
  }

  lemma ExpandedAnswersStep<I>(cases: seq<Case<I>>, repetitions: nat, last: set<(I, int)>)
    requires repetitions > 0 && last == set id | id in Answers(cases) :: (id, repetitions as int)
    ensures var before := Answers(ExpandedCases(cases, repetitions - 1));
            Answers(ExpandedCases(cases, repetitions)) == before + last && before !! last
  {
    ExpandedAnswers(cases, repetitions);
    ExpandedAnswers(cases, repetitions - 1);
    var before, all := Answers(ExpandedCases(cases, repetitions - 1)), Answers(ExpandedCases(cases, repetitions));
    forall p: (I, int) ensures (p in all <==> p in before || p in last) && !(p in before && p in last) {
      var id, n := p.0, p.1;
      assert p == (id, n);
      assert (id, n) in all <==> id in Answers(cases) && 1 <= n <= repetitions;
      assert (id, n) in before <==> id in Answers(cases) && 1 <= n <= repetitions - 1;
      assert (id, n) in last <==> id in Answers(cases) && n == repetitions;
    }
  }

  lemma {:induction false} ExpandedAnswersCount<I>(cases: seq<Case<I>>, repetitions: nat)
    ensures |Answers(ExpandedCases(cases, repetitions))| == repetitions * |Answers(cases)|
  {
    if repetitions > 0 {
      ExpandedAnswersCount(cases, repetitions - 1);
      var n: int := repetitions;
      var last: set<(I, int)> := set id | id in Answers(cases) :: (id, n);
      PairsCount(Answers(cases), n);
      ExpandedAnswersStep(cases, repetitions, last);
      assert (repetitions - 1) * |Answers(cases)| + |Answers(cases)| == repetitions * |Answers(cases)|;
    } else {
      assert Answers(ExpandedCases(cases, 0)) == {};
    }
  }

  lemma {:induction false} ExpandedSum<I>(results: seq<Graded<I>>, value: Graded<I> -> real,
                                          expanded: Graded<(I, int)> -> real)
    requires forall r :: r in results ==> expanded(Expanded(r)) == value(r)
    ensures Sum(ExpandedResults(results), expanded) == Sum(results, value)
  {
    if |results| > 0 {
      assert results[|results| - 1] in results;
      ExpandedSum(results[..|results| - 1], value, expanded);
      assert ExpandedResults(results)[..|results| - 1] == ExpandedResults(results[..|results| - 1]);
    }
  }

  /******* The pooled gate *******/

  ghost predicate AllCohortsPass<I>(cases: seq<Case<I>>, results: seq<Graded<I>>, repetitions: nat) {
    forall n :: 1 <= n <= repetitions ==> Passes(cases, Cohort(results, n))
  }

  lemma RatioDown(num: real, den: real, rate: real)
    requires 0.0 < rate && num / AtLeastOne(den) >= rate
    ensures num >= rate && num >= rate * den
  {
    var d := AtLeastOne(den);
    assert num == (num / d) * d;
    assert (num / d) * d >= rate * d;
    assert rate * d >= rate * 1.0 && rate * d >= rate * den;
  }

  lemma RatioUp(num: real, den: real, rate: real)
    requires den >= 1.0 && num >= rate * den
    ensures num / AtLeastOne(den) >= rate
  {
    assert num / den - rate == (num - rate * den) / den;
    assert (num - rate * den) / den >= 0.0;
  }

  /**
   A passing cohort has results, claims and answerable cases, and clears each rate without its guarded denominator.
   */
  lemma PassingCohort<I>(cases: seq<Case<I>>, results: seq<Graded<I>>)
    requires Passes(cases, results)
    ensures Sum(results, Passing()) >= RATE * Sum(results, Ones())
    ensures Sum(results, Supported()) >= SUPPORT * Sum(results, Claims()) && Sum(results, Claims()) >= 1.0
    ensures Sum(results, Covering(Answers(cases))) >= COVERAGE * |Answers(cases)| as real && Answers(cases) != {}
    ensures |results| >= 1
  {
    CountIsLength(results, Ones());
    RatioDown(Sum(results, Passing()), |results| as real, RATE);
    RatioDown(Sum(results, Supported()), Sum(results, Claims()), SUPPORT);
    RatioDown(Sum(results, Covering(Answers(cases))), |Answers(cases)| as real, COVERAGE);
    NoClaimsNoSupport(results);
    NoAnswersNoCoverage(results, Answers(cases));
  }

  lemma {:induction false} NoClaimsNoSupport<I>(results: seq<Graded<I>>)
    ensures Sum(results, Claims()) >= 0.0
    ensures Sum(results, Claims()) < 1.0 ==> Sum(results, Claims()) == 0.0 && Sum(results, Supported()) == 0.0
  {
    if |results| > 0 {
      var last := results[|results| - 1];
      NoClaimsNoSupport(results[..|results| - 1]);
      if last.claims == 0 {
        assert last.support * last.claims as real == 0.0;
      } else {
        assert last.claims as real >= 1.0;
      }
    }
  }

  lemma {:induction false} NoAnswersNoCoverage<I>(results: seq<Graded<I>>, answers: set<I>)
    ensures answers == {} ==> Sum(results, Covering(answers)) == 0.0
  {
    if |results| > 0 {
      NoAnswersNoCoverage(results[..|results| - 1], answers);
    }
  }

  function PassedCount<I>(results: seq<Graded<I>>): nat {
    if |results| == 0 then 0
    else PassedCount(results[..|results| - 1]) + if results[|results| - 1].passed then 1 else 0
  }

  function ClaimCount<I>(results: seq<Graded<I>>): nat {
    if |results| == 0 then 0 else ClaimCount(results[..|results| - 1]) + results[|results| - 1].claims
  }

  function SupportedClaims<I>(results: seq<Graded<I>>): real {
    if |results| == 0 then 0.0
    else
      var last := results[|results| - 1];
      SupportedClaims(results[..|results| - 1]) + last.support * last.claims as real
  }

  /** The coverage of the results of the cases that have to be answered. */
  function CoveredAnswers<I(==)>(cases: seq<Case<I>>, results: seq<Graded<I>>): real {
    if |results| == 0 then 0.0
    else
      var last, rest := results[|results| - 1], CoveredAnswers(cases, results[..|results| - 1]);
      if exists i :: 0 <= i < |cases| && !cases[i].mustRefuse && cases[i].id == last.id then rest + last.coverage
      else rest
  }

  lemma {:induction false} SumsAre<I>(cases: seq<Case<I>>, results: seq<Graded<I>>)
    ensures Sum(results, Passing()) == PassedCount(results) as real
    ensures Sum(results, Claims()) == ClaimCount(results) as real
    ensures Sum(results, Supported()) == SupportedClaims(results)
    ensures Sum(results, Covering(Answers(cases))) == CoveredAnswers(cases, results)
  {
    if |results| > 0 {
      SumsAre(cases, results[..|results| - 1]);
    }
  }

  /**
   The gate in the numbers of its report: 17 of 20 results pass, every critical one does, 19 of 20 claims are supported,
   and 17 of 20 cases to answer are covered, none of these vacuously.
   */
  lemma PassesMeans<I>(cases: seq<Case<I>>, results: seq<Graded<I>>)
    ensures Passes(cases, results)
            <==> && |results| >= 1 && 20 * PassedCount(results) >= 17 * |results|
                 && (forall r :: r in results && r.critical ==> r.passed)
                 && ClaimCount(results) >= 1 && 20.0 * SupportedClaims(results) >= 19.0 * ClaimCount(results) as real
                 && Answers(cases) != {} && 20.0 * CoveredAnswers(cases, results) >= 17.0 * |Answers(cases)| as real
  {
    SumsAre(cases, results);
    RateIs(PassedCount(results), |results|);
    if Passes(cases, results) {
      PassingCohort(cases, results);
      CountIsLength(results, Ones());
    } else if |results| >= 1 && ClaimCount(results) >= 1 && Answers(cases) != {} {
      RatioIff(PassedCount(results) as real, |results| as real, RATE);
      RatioIff(SupportedClaims(results), ClaimCount(results) as real, SUPPORT);
      RatioIff(CoveredAnswers(cases, results), |Answers(cases)| as real, COVERAGE);
    }
  }

  lemma RateIs(passes: nat, n: nat)
    ensures 20 * passes >= 17 * n <==> passes as real >= 0.85 * n as real
  {
    assert 20 * passes >= 17 * n <==> (20 * passes) as real >= (17 * n) as real;
  }

  lemma RatioIff(num: real, den: real, rate: real)
    requires den >= 1.0 && rate > 0.0
    ensures num / AtLeastOne(den) >= rate <==> num >= rate * den
  {
    if num >= rate * den {
      RatioUp(num, den, rate);
    }
    if num / AtLeastOne(den) >= rate {
      RatioDown(num, den, rate);
    }
  }

  /** The premises under which the repetitions of one evaluation are summarized together. */
  ghost predicate Summarizable<I>(cases: seq<Case<I>>, results: seq<Graded<I>>, repetitions: nat) {
    repetitions >= 1 && Repetitions(results, repetitions) && AllCohortsPass(cases, results, repetitions)
  }

  lemma PooledRate<I>(cases: seq<Case<I>>, results: seq<Graded<I>>, repetitions: nat)
    requires Summarizable(cases, results, repetitions)
    ensures Sum(results, Passing()) >= RATE * |results| as real
  {
    forall n | 1 <= n <= repetitions ensures Sum(Cohort(results, n), Surplus(Passing(), Ones(), RATE)) >= 0.0 {
      PassingCohort(cases, Cohort(results, n));
      SurplusSum(Cohort(results, n), Passing(), Ones(), RATE);
    }
    Pooled(results, repetitions, Surplus(Passing(), Ones(), RATE), 0.0);
    SurplusSum(results, Passing(), Ones(), RATE);
    CountIsLength(results, Ones());
  }

  lemma PooledHasResults<I>(cases: seq<Case<I>>, results: seq<Graded<I>>, repetitions: nat)
    requires Summarizable(cases, results, repetitions)
    ensures |results| >= 1
  {
    assert Passes(cases, Cohort(results, 1));
    CohortIs(results, 1);
    assert Cohort(results, 1)[0] in results;
  }

  lemma PooledSupport<I>(cases: seq<Case<I>>, results: seq<Graded<I>>, repetitions: nat)
    requires Summarizable(cases, results, repetitions)
    ensures Sum(results, Supported()) >= SUPPORT * Sum(results, Claims())
  {
    forall n | 1 <= n <= repetitions ensures Sum(Cohort(results, n), Surplus(Supported(), Claims(), SUPPORT)) >= 0.0 {
      PassingCohort(cases, Cohort(results, n));
      SurplusSum(Cohort(results, n), Supported(), Claims(), SUPPORT);
    }
    Pooled(results, repetitions, Surplus(Supported(), Claims(), SUPPORT), 0.0);
    SurplusSum(results, Supported(), Claims(), SUPPORT);
  }

  lemma PooledClaims<I>(cases: seq<Case<I>>, results: seq<Graded<I>>, repetitions: nat)
    requires Summarizable(cases, results, repetitions)
    ensures Sum(results, Claims()) >= 1.0
  {
    forall n | 1 <= n <= repetitions ensures Sum(Cohort(results, n), Claims()) >= 1.0 {
      PassingCohort(cases, Cohort(results, n));
    }
    Pooled(results, repetitions, Claims(), 1.0);
  }

  lemma PooledCoverage<I>(cases: seq<Case<I>>, results: seq<Graded<I>>, repetitions: nat)
    requires Summarizable(cases, results, repetitions)
    ensures Sum(results, Covering(Answers(cases))) >= COVERAGE * (repetitions * |Answers(cases)|) as real
    ensures repetitions * |Answers(cases)| >= 1
  {
    var bound := COVERAGE * |Answers(cases)| as real;
    CohortCoverage(cases, results, repetitions, bound);
    Pooled(results, repetitions, Covering(Answers(cases)), bound);
    Product(repetitions, |Answers(cases)|, COVERAGE);
  }

  lemma CohortCoverage<I>(cases: seq<Case<I>>, results: seq<Graded<I>>, repetitions: nat, bound: real)
    requires Summarizable(cases, results, repetitions) && bound == COVERAGE * |Answers(cases)| as real
    ensures forall n :: 1 <= n <= repetitions ==> Sum(Cohort(results, n), Covering(Answers(cases))) >= bound
    ensures |Answers(cases)| >= 1
  {
    forall n | 1 <= n <= repetitions ensures Sum(Cohort(results, n), Covering(Answers(cases))) >= bound {
      PassingCohort(cases, Cohort(results, n));
    }
    PassingCohort(cases, Cohort(results, 1));
  }

  lemma Product(a: nat, b: nat, c: real)
    requires a >= 1 && b >= 1
    ensures a * b >= 1
    ensures c * b as real * a as real == c * (a * b) as real
  {
    assert (a * b) as real == a as real * b as real;
  }

  lemma PooledCritical<I>(cases: seq<Case<I>>, results: seq<Graded<I>>, repetitions: nat)
    requires Summarizable(cases, results, repetitions)
    ensures forall r :: r in ExpandedResults(results) && r.critical ==> r.passed
  {
    var pooled := ExpandedResults(results);
    forall r | r in pooled && r.critical ensures r.passed {
      var i :| 0 <= i < |pooled| && pooled[i] == r;
      assert results[i] in results;
      CohortIs(results, results[i].repetition);
    }
  }

  lemma ExpandedCoverage<I>(cases: seq<Case<I>>, results: seq<Graded<I>>, repetitions: nat)
    requires Repetitions(results, repetitions)
    ensures Sum(ExpandedResults(results), Covering(Answers(ExpandedCases(cases, repetitions))))
            == Sum(results, Covering(Answers(cases)))
  {
    ExpandedAnswers(cases, repetitions);
    ExpandedSum(results, Covering(Answers(cases)), Covering(Answers(ExpandedCases(cases, repetitions))));
  }

  /** When every cohort passes, so does the pooled summary over expanded ids. */
  lemma PooledGateIsRedundant<I>(cases: seq<Case<I>>, results: seq<Graded<I>>, repetitions: nat)
    requires Summarizable(cases, results, repetitions)
    ensures Passes(ExpandedCases(cases, repetitions), ExpandedResults(results))
  {
    var pooled := ExpandedResults(results);
    var answers := Answers(ExpandedCases(cases, repetitions));
    PooledHasResults(cases, results, repetitions);
    PooledRate(cases, results, repetitions);
    ExpandedSum(results, Passing(), Passing());
    RatioUp(Sum(pooled, Passing()), |pooled| as real, RATE);
    PooledSupport(cases, results, repetitions);
    PooledClaims(cases, results, repetitions);
    ExpandedSum(results, Supported(), Supported());
    ExpandedSum(results, Claims(), Claims());
    RatioUp(Sum(pooled, Supported()), Sum(pooled, Claims()), SUPPORT);
    PooledCoverage(cases, results, repetitions);
    ExpandedAnswersCount(cases, repetitions);
    ExpandedCoverage(cases, results, repetitions);
    RatioUp(Sum(pooled, Covering(answers)), |answers| as real, COVERAGE);
    PooledCritical(cases, results, repetitions);
  }

  /**
   `summarize_repetitions`: the pooled summary, then each cohort, then every single result when all are required. For
   results of at least one repetition, none outside the range, the pooled summary decides nothing.
   */
  method SummarizeRepetitions<I(==)>(cases: seq<Case<I>>, results: seq<Graded<I>>, repetitions: nat, requireAll: bool)
    returns (passed: bool)
    ensures passed <==> Passes(ExpandedCases(cases, repetitions), ExpandedResults(results))
                        && AllCohortsPass(cases, results, repetitions)
                        && (requireAll ==> forall r :: r in results ==> r.passed)
    ensures repetitions >= 1 && Repetitions(results, repetitions) ==>
              (passed <==> AllCohortsPass(cases, results, repetitions)
                           && (requireAll ==> forall r :: r in results ==> r.passed))
  {
    passed := Passes(ExpandedCases(cases, repetitions), ExpandedResults(results));
    ghost var pooled := passed;
    for n := 1 to repetitions + 1
      invariant passed <==> pooled && AllCohortsPass(cases, results, n - 1)
    {
      assert AllCohortsPass(cases, results, n)
          <==> AllCohortsPass(cases, results, n - 1) && Passes(cases, Cohort(results, n));
      passed := passed && Passes(cases, Cohort(results, n));
    }
    if Summarizable(cases, results, repetitions) {
      PooledGateIsRedundant(cases, results, repetitions);
    }
    if requireAll {
      passed := passed && forall r | r in results :: r.passed;
    }
  }
}
