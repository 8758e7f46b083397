/**
 The necessary-budget floors of scripts/check_ci_evaluation_budget.py: which of them are
 true lower bounds on the HTTP calls of a quality run that meets its gates.

 A run is judged by what each case costs at least: 8 calls for a passing answer case,
 2 for a passing refusal, 1 for an answer draft or adversarial grade and 1 more for a
 passing answer whose sources must be supported; a failing research case is free. Which
 runs count is decided by the whole gate of module Gates. Exact rationals replace 0.85.
 */
module Floors {
  import opened Outcomes
  import Gates

  /******* Research stages *******/

  datatype Case = Case(critical: bool, mustRefuse: bool)

  const POSITIVE_HTTP := 8
  const REFUSAL_HTTP := 2

  function Worth(c: Case): nat {
    if c.mustRefuse then REFUSAL_HTTP else POSITIVE_HTTP
  }

  /** The cheapest run with these outcomes. */
  function Cost(cases: seq<Case>, passed: seq<bool>): nat
    requires |passed| == |cases|
  {
    if |cases| == 0 then 0
    else
      var last := |cases| - 1;
      Cost(cases[..last], passed[..last]) + if passed[last] then Worth(cases[last]) else 0
  }

  function Passed(passed: seq<bool>): nat {
    if |passed| == 0 then 0 else Passed(passed[..|passed| - 1]) + if passed[|passed| - 1] then 1 else 0
  }

  function Count(cases: seq<Case>, critical: bool, mustRefuse: bool): nat {
    if |cases| == 0 then 0
    else
      var last := |cases| - 1;
      Count(cases[..last], critical, mustRefuse) + if cases[last] == Case(critical, mustRefuse) then 1 else 0
  }

  /** `math.ceil(n * 0.85)`. */
  function RequiredPasses(n: nat): nat {
    (17 * n + 19) / 20
  }

  lemma RequiredPassesIsCeiling(n: nat, k: nat)
    ensures 20 * k >= 17 * n <==> k >= RequiredPasses(n)
    ensures RequiredPasses(n) <= n
  {
  }

  ghost predicate CriticalPass(cases: seq<Case>, passed: seq<bool>)
    requires |passed| == |cases|
  {
    forall i :: 0 <= i < |cases| && cases[i].critical ==> passed[i]
  }

  /** The flags that the 85% and all-critical tests let through. */
  ghost predicate Clears(cases: seq<Case>, passed: seq<bool>) {
    |passed| == |cases| && CriticalPass(cases, passed) && 20 * Passed(passed) >= 17 * |cases|
  }

  /******* The gate of scripts/evaluate_research.py *******/

  type Graded = Gates.Graded<nat>

  function Flags(results: seq<Graded>): seq<bool> {
    seq(|results|, i requires 0 <= i < |results| => results[i].passed)
  }

  function Listed(cases: seq<Case>): seq<Gates.Case<nat>> {
    seq(|cases|, i requires 0 <= i < |cases| => Gates.Case(i, cases[i].mustRefuse))
  }

  /**
   What `evaluate` can report of a case: a passing one is supported, covered, and claims something unless it must
   refuse.
   */
  predicate Possible(c: Case, i: nat, r: Graded) {
    && r.id == i && r.critical == c.critical && 0.0 <= r.support <= 1.0 && 0.0 <= r.coverage <= 1.0
    && (r.passed ==> r.support >= Gates.SUPPORT && r.coverage >= Gates.COVERAGE && (c.mustRefuse <==> r.claims == 0))
  }

  /** A report of every case that passes `summarize_research`: rate, critical cases, support and coverage. */
  ghost predicate Meets(cases: seq<Case>, results: seq<Graded>) {
    && |results| == |cases| && (forall i :: 0 <= i < |cases| ==> Possible(cases[i], i, results[i]))
    && Gates.Passes(Listed(cases), results)
  }

  /** Some case has to be answered; a stage of refusals alone covers nothing and never passes. */
  predicate Answerable(cases: seq<Case>) {
    exists i :: 0 <= i < |cases| && !cases[i].mustRefuse
  }

  lemma {:induction false} PassingSum(results: seq<Graded>)
    ensures Gates.Sum(results, Gates.Passing()) == Passed(Flags(results)) as real
  {
    if |results| > 0 {
      PassingSum(results[..|results| - 1]);
      assert Flags(results)[..|results| - 1] == Flags(results[..|results| - 1]);
    }
  }

  /** What passes the gate clears the two tests, and some case of the stage has to be answered. */
  lemma GateClears(cases: seq<Case>, results: seq<Graded>)
    requires Meets(cases, results)
    ensures Clears(cases, Flags(results)) && Answerable(cases)
  {
    PassingSum(results);
    Gates.PassingCohort(Listed(cases), results);
    Gates.CountIsLength(results, Gates.Ones());
    Gates.RateIs(Passed(Flags(results)), |cases|);
    forall i | 0 <= i < |cases| && cases[i].critical ensures Flags(results)[i] {
      assert Possible(cases[i], i, results[i]) && results[i] in results;
    }
    var id :| id in Gates.Answers(Listed(cases));
    assert !cases[id].mustRefuse;
  }

  /** A report with the given flags in which every answer, passing or not, is fully supported and covered. */
  function Covered(cases: seq<Case>, passed: seq<bool>): seq<Graded>
    requires |passed| == |cases|
  {
    seq(|cases|, i requires 0 <= i < |cases| =>
        Gates.Graded(i, 1, if cases[i].mustRefuse then 0 else 1, 1.0, 1.0, passed[i], cases[i].critical))
  }

  function AnswerCount(cases: seq<Case>): nat {
    if |cases| == 0 then 0 else AnswerCount(cases[..|cases| - 1]) + if cases[|cases| - 1].mustRefuse then 0 else 1
  }

  lemma {:induction false} CoveredSums(cases: seq<Case>, passed: seq<bool>, answers: set<nat>)
    requires |passed| == |cases| && forall i :: 0 <= i < |cases| ==> (i in answers <==> !cases[i].mustRefuse)
    ensures Gates.Sum(Covered(cases, passed), Gates.Claims()) == AnswerCount(cases) as real
    ensures Gates.Sum(Covered(cases, passed), Gates.Supported()) == AnswerCount(cases) as real
    ensures Gates.Sum(Covered(cases, passed), Gates.Covering(answers)) == AnswerCount(cases) as real
  {
    if |cases| > 0 {
      var last := |cases| - 1;
      CoveredSums(cases[..last], passed[..last], answers);
      assert Covered(cases, passed)[..last] == Covered(cases[..last], passed[..last]);
    }
  }

  lemma AnswersAre(cases: seq<Case>)
    ensures forall i: nat :: i in Gates.Answers(Listed(cases)) <==> i < |cases| && !cases[i].mustRefuse
  {
    forall i: nat | i < |cases| && !cases[i].mustRefuse ensures i in Gates.Answers(Listed(cases)) {
      assert Listed(cases)[i].id == i;
    }
  }

  lemma {:induction false} AnswersSize(cases: seq<Case>)
    ensures |Gates.Answers(Listed(cases))| == AnswerCount(cases)
  {
    if |cases| > 0 {
      var last := |cases| - 1;
      AnswersSize(cases[..last]);
      AnswersAre(cases);
      AnswersAre(cases[..last]);
      var before: set<nat> := Gates.Answers(Listed(cases[..last]));
      assert Gates.Answers(Listed(cases)) == if cases[last].mustRefuse then before else before + {last};
    } else {
      assert Gates.Answers(Listed(cases)) == {};
    }
  }

  lemma {:induction false} AnswerableCounts(cases: seq<Case>)
    ensures Answerable(cases) <==> AnswerCount(cases) >= 1
  {
    if |cases| > 0 {
      var last := |cases| - 1;
      AnswerableCounts(cases[..last]);
      if Answerable(cases) && cases[last].mustRefuse {
        var i :| 0 <= i < |cases| && !cases[i].mustRefuse;
        assert !cases[..last][i].mustRefuse;
      }
      if Answerable(cases[..last]) {
        var i :| 0 <= i < last && !cases[..last][i].mustRefuse;
        assert !cases[i].mustRefuse;
      }
    }
  }

  lemma CoveredRatios(cases: seq<Case>, passed: seq<bool>)
    requires Clears(cases, passed) && Answerable(cases)
    ensures var results, answers := Covered(cases, passed), Gates.Answers(Listed(cases));
            && Gates.Sum(results,
                 Gates.Supported()) / Gates.AtLeastOne(Gates.Sum(results, Gates.Claims())) >= Gates.SUPPORT
            && Gates.Sum(results, Gates.Covering(answers)) / Gates.AtLeastOne(|answers| as real) >= Gates.COVERAGE
  {
    AnswersAre(cases);
    CoveredSums(cases, passed, Gates.Answers(Listed(cases)));
    AnswersSize(cases);
    AnswerableCounts(cases);
    Gates.RatioUp(AnswerCount(cases) as real, AnswerCount(cases) as real, Gates.SUPPORT);
    Gates.RatioUp(AnswerCount(cases) as real, AnswerCount(cases) as real, Gates.COVERAGE);
  }

  lemma CoveredRate(cases: seq<Case>, passed: seq<bool>)
    requires Clears(cases, passed) && |cases| >= 1
    ensures Gates.Sum(Covered(cases, passed), Gates.Passing()) / Gates.AtLeastOne(|cases| as real) >= Gates.RATE
  {
    PassingSum(Covered(cases, passed));
    assert Flags(Covered(cases, passed)) == passed;
    Gates.RateIs(Passed(passed), |cases|);
    Gates.RatioUp(Passed(passed) as real, |cases| as real, Gates.RATE);
  }

  lemma CoveredIsPossible(cases: seq<Case>, passed: seq<bool>)
    requires Clears(cases, passed)
    ensures forall i :: 0 <= i < |cases| ==> Possible(cases[i], i, Covered(cases, passed)[i])
    ensures forall r :: r in Covered(cases, passed) && r.critical ==> r.passed
  {
  }

  /** Conversely, all flags that clear the two tests belong to some report that passes the gate. */
  lemma ClearsGate(cases: seq<Case>, passed: seq<bool>)
    requires Clears(cases, passed) && Answerable(cases)
    ensures Meets(cases, Covered(cases, passed)) && Flags(Covered(cases, passed)) == passed
  {
    CoveredIsPossible(cases, passed);
    CoveredRate(cases, passed);
    CoveredRatios(cases, passed);
  }

  /** `stage(...)['critical_path_lower_bound']`. */
  function StageFloor(cases: seq<Case>, repetitions: nat, requireAll: bool): nat {
    repetitions * if requireAll then POSITIVE_HTTP * (Count(cases, true, false) + Count(cases, false, false))
                                     + REFUSAL_HTTP * (Count(cases, true, true) + Count(cases, false, true))
                  else POSITIVE_HTTP * Count(cases, true, false) + REFUSAL_HTTP * Count(cases, true, true)
  }

  /** `research_rate_floor`. */
  function RateFloor(cases: seq<Case>): int {
    REFUSAL_HTTP * Count(cases, true, true)
    + POSITIVE_HTTP * Max(0, RequiredPasses(|cases|) - Count(cases, true, true))
  }

  /** How many noncritical cases pass, refusals and answers apart. */
  function Extra(cases: seq<Case>, passed: seq<bool>, mustRefuse: bool): nat
    requires |passed| == |cases|
  {
    if |cases| == 0 then 0
    else Extra(cases[..|cases| - 1], passed[..|cases| - 1], mustRefuse)
         + if passed[|cases| - 1] && cases[|cases| - 1] == Case(false, mustRefuse) then 1 else 0
  }

  /** Outcomes with all critical cases passing, in numbers. */
  lemma {:induction false} CostByKind(cases: seq<Case>, passed: seq<bool>)
    requires |passed| == |cases| && CriticalPass(cases, passed)
    ensures Cost(cases, passed) == POSITIVE_HTTP * (Count(cases, true, false) + Extra(cases, passed, false))
                                   + REFUSAL_HTTP * (Count(cases, true, true) + Extra(cases, passed, true))
    ensures Passed(passed) == Count(cases, true, false) + Count(cases, true, true)
                              + Extra(cases, passed, false) + Extra(cases, passed, true)
    ensures Extra(cases, passed, true) <= Count(cases, false, true)
  {
    if |cases| > 0 {
      var last := |cases| - 1;
      assert CriticalPass(cases[..last], passed[..last]);
      CostByKind(cases[..last], passed[..last]);
      assert cases[last] == Case(cases[last].critical, cases[last].mustRefuse);
    }
  }

  /** Every run of a stage that requires only its critical cases costs at least the stage's critical path. */
  lemma CriticalPathIsBound(cases: seq<Case>, passed: seq<bool>)
    requires Clears(cases, passed)
    ensures Cost(cases, passed) >= StageFloor(cases, 1, false)
  {
    CostByKind(cases, passed);
  }

  lemma {:induction false} AllPassCost(cases: seq<Case>, passed: seq<bool>)
    requires |passed| == |cases| && forall i :: 0 <= i < |cases| ==> passed[i]
    ensures Cost(cases, passed) == StageFloor(cases, 1, true)
  {
    if |cases| > 0 {
      var last := |cases| - 1;
      AllPassCost(cases[..last], passed[..last]);
    }
  }

  /**
   Whether every must_refuse case is critical, or the critical cases alone already reach the required number of passes.
   */
  predicate FloorApplies(cases: seq<Case>) {
    Count(cases, false, true) == 0 || Count(cases, true, true) + Count(cases, true, false) >= RequiredPasses(|cases|)
  }

  /** Cases that make the pass-rate floor hold for every outcome that meets the gates. */
  ghost predicate FloorHolds(cases: seq<Case>) {
    forall results :: Meets(cases, results) ==> Cost(cases, Flags(results)) >= RateFloor(cases)
  }

  lemma FloorHoldsWhenApplicable(cases: seq<Case>, passed: seq<bool>)
    requires FloorApplies(cases) && Clears(cases, passed)
    ensures Cost(cases, passed) >= RateFloor(cases)
  {
    CostByKind(cases, passed);
    RequiredPassesIsCeiling(|cases|, Passed(passed));
  }

  /** The cheapest outcome passes the critical cases and the fewest others, refusals before answers. */
  function StageMinimum(cases: seq<Case>): int {
    var missing := Max(0, RequiredPasses(|cases|) - Count(cases, true, false) - Count(cases, true, true));
    var refusals := Min(Count(cases, false, true), missing);
    POSITIVE_HTTP * (Count(cases, true, false) + missing - refusals)
        + REFUSAL_HTTP * (Count(cases, true, true) + refusals)
  }

  lemma {:induction false} CountsAll(cases: seq<Case>)
    ensures Count(cases, true, false) + Count(cases, true, true) + Count(cases, false, false)
            + Count(cases, false, true) == |cases|
  {
    if |cases| > 0 {
      CountsAll(cases[..|cases| - 1]);
      var last := cases[|cases| - 1];
      assert last == Case(last.critical, last.mustRefuse);
    }
  }

  /** An outcome with all critical cases and a chosen number of the others passing. */
  lemma {:induction false} Choose(cases: seq<Case>, refusals: nat, answers: nat) returns (passed: seq<bool>)
    requires refusals <= Count(cases, false, true) && answers <= Count(cases, false, false)
    ensures |passed| == |cases| && CriticalPass(cases, passed)
    ensures Extra(cases, passed, true) == refusals && Extra(cases, passed, false) == answers
  {
    if |cases| == 0 {
      passed := [];
    } else {
      var front, last := cases[..|cases| - 1], cases[|cases| - 1];
      var now := last.critical || (if last.mustRefuse then refusals > 0 else answers > 0);
      var before := Choose(front, if now && last == Case(false, true) then refusals - 1 else refusals,
                           if now && last == Case(false, false) then answers - 1 else answers);
      passed := before + [now];
      assert passed[..|front|] == before && last == Case(last.critical, last.mustRefuse);
    }
  }

  lemma MinimumIsBound(cases: seq<Case>, passed: seq<bool>)
    requires Clears(cases, passed)
    ensures Cost(cases, passed) >= StageMinimum(cases)
  {
    CostByKind(cases, passed);
    RequiredPassesIsCeiling(|cases|, Passed(passed));
  }

  lemma Cheapest(cases: seq<Case>) returns (passed: seq<bool>)
    ensures Clears(cases, passed) && Cost(cases, passed) == StageMinimum(cases)
  {
    var missing := Max(0, RequiredPasses(|cases|) - Count(cases, true, false) - Count(cases, true, true));
    var refusals := Min(Count(cases, false, true), missing);
    CountsAll(cases);
    RequiredPassesIsCeiling(|cases|, RequiredPasses(|cases|));
    passed := Choose(cases, refusals, missing - refusals);
    CostByKind(cases, passed);
    RequiredPassesIsCeiling(|cases|, Passed(passed));
  }

  lemma {:induction false} PassedAtMost(passed: seq<bool>)
    ensures Passed(passed) <= |passed|
  {
    if |passed| > 0 {
      PassedAtMost(passed[..|passed| - 1]);
    }
  }

  /**
   Otherwise some report passes the gate for less than the floor: a noncritical refusal passes instead of an answer.
   */
  lemma CheaperOutcome(cases: seq<Case>) returns (results: seq<Graded>)
    requires !FloorApplies(cases) && Answerable(cases)
    ensures Meets(cases, results) && Cost(cases, Flags(results)) < RateFloor(cases)
  {
    var passed := Cheapest(cases);
    ClearsGate(cases, passed);
    results := Covered(cases, passed);
  }

  /** The pass-rate floor is a true lower bound exactly for the case sets that a caller can recognize beforehand. */
  lemma RateFloorIsBoundIff(cases: seq<Case>)
    ensures FloorHolds(cases) <==> FloorApplies(cases) || !Answerable(cases)
  {
    forall results | Meets(cases, results)
      ensures Answerable(cases) && (FloorApplies(cases) ==> Cost(cases, Flags(results)) >= RateFloor(cases))
    {
      GateClears(cases, results);
      if FloorApplies(cases) {
        FloorHoldsWhenApplicable(cases, Flags(results));
      }
    }
    if !FloorApplies(cases) && Answerable(cases) {
      var results := CheaperOutcome(cases);
    }
  }

  /******* The answer stage *******/

  /** `sourced`: the case must cite sources and may not refuse. */
  datatype Answer = Answer(critical: bool, sourced: bool)

  const ADVERSARIAL := 3

  function CountSourced(answers: seq<Answer>, criticalOnly: bool): nat {
    if |answers| == 0 then 0
    else CountSourced(answers[..|answers| - 1], criticalOnly)
         + if answers[|answers| - 1].sourced && (criticalOnly ==> answers[|answers| - 1].critical) then 1 else 0
  }

  /** One draft each, and one support grade for every passing sourced answer. */
  function AnswerCost(answers: seq<Answer>, passed: seq<bool>): nat
    requires |passed| == |answers|
  {
    if |answers| == 0 then 0
    else AnswerCost(answers[..|answers| - 1], passed[..|answers| - 1])
         + 1 + if passed[|answers| - 1] && answers[|answers| - 1].sourced then 1 else 0
  }

  /** The gate of the answer stage, whose adversarial grades are critical. */
  ghost predicate AnswersMeet(answers: seq<Answer>, passed: seq<bool>, adversarial: seq<bool>) {
    && |passed| == |answers| && |adversarial| == ADVERSARIAL && (forall grade :: grade in adversarial ==> grade)
    && (forall i :: 0 <= i < |answers| && answers[i].critical ==> passed[i])
    && 20 * (Passed(passed) + Passed(adversarial)) >= 17 * (|answers| + ADVERSARIAL)
  }

  /** `answer_lower`. */
  function AnswerFloor(answers: seq<Answer>): nat {
    |answers| + ADVERSARIAL + CountSourced(answers, true)
  }

  /** `answer_rate_floor`. */
  function AnswerRateFloor(answers: seq<Answer>): int {
    var maxFailures := |answers| + ADVERSARIAL - RequiredPasses(|answers| + ADVERSARIAL);
    |answers| + ADVERSARIAL + Max(0, CountSourced(answers, false) - maxFailures)
  }

  lemma {:induction false} SourcedPasses(answers: seq<Answer>, passed: seq<bool>)
    requires |passed| == |answers|
    ensures AnswerCost(answers, passed) >= |answers| + CountSourced(answers, false) - (|answers| - Passed(passed))
    ensures AnswerCost(answers, passed) >= |answers|
    ensures (forall i :: 0 <= i < |answers| && answers[i].critical ==> passed[i]) ==>
              AnswerCost(answers, passed) >= |answers| + CountSourced(answers, true)
  {
    if |answers| > 0 {
      var last := |answers| - 1;
      SourcedPasses(answers[..last], passed[..last]);
    }
  }

  lemma AnswerFloorsAreBounds(answers: seq<Answer>, passed: seq<bool>, adversarial: seq<bool>)
    requires AnswersMeet(answers, passed, adversarial)
    ensures AnswerCost(answers, passed) + ADVERSARIAL >= AnswerFloor(answers)
    ensures AnswerCost(answers, passed) + ADVERSARIAL >= AnswerRateFloor(answers)
  {
    SourcedPasses(answers, passed);
    PassedAtMost(adversarial);
    RequiredPassesIsCeiling(|answers| + ADVERSARIAL, Passed(passed) + Passed(adversarial));
  }

  /** The cheapest answer stage fails as many noncritical sourced answers as the gate allows. */
  function AnswerMinimum(answers: seq<Answer>): int {
    var maxFailures := |answers| + ADVERSARIAL - RequiredPasses(|answers| + ADVERSARIAL);
    |answers| + ADVERSARIAL + CountSourced(answers, true)
    + Max(0, CountSourced(answers, false) - CountSourced(answers, true) - maxFailures)
  }

  /** An outcome that fails a chosen number of noncritical sourced answers and nothing else. */
  lemma {:induction false} FailSourced(answers: seq<Answer>, failures: nat) returns (passed: seq<bool>)
    requires failures <= CountSourced(answers, false) - CountSourced(answers, true)
    ensures |passed| == |answers| && Passed(passed) == |answers| - failures
    ensures forall i :: 0 <= i < |answers| && answers[i].critical ==> passed[i]
    ensures AnswerCost(answers, passed) == |answers| + CountSourced(answers, false) - failures
  {
    if |answers| == 0 {
      passed := [];
    } else {
      var front, last := answers[..|answers| - 1], answers[|answers| - 1];
      var fails := last.sourced && !last.critical && failures > 0;
      CriticalAreSourced(front);
      var before := FailSourced(front, if fails then failures - 1 else failures);
      passed := before + [!fails];
      assert passed[..|front|] == before;
    }
  }

  lemma {:induction false} CriticalAreSourced(answers: seq<Answer>)
    ensures CountSourced(answers, true) <= CountSourced(answers, false) <= |answers|
  {
    if |answers| > 0 {
      CriticalAreSourced(answers[..|answers| - 1]);
    }
  }

  lemma AnswerMinimumIsBound(answers: seq<Answer>, passed: seq<bool>, adversarial: seq<bool>)
    requires AnswersMeet(answers, passed, adversarial)
    ensures AnswerCost(answers, passed) + ADVERSARIAL >= AnswerMinimum(answers)
  {
    SourcedPasses(answers, passed);
    PassedAtMost(adversarial);
    RequiredPassesIsCeiling(|answers| + ADVERSARIAL, Passed(passed) + Passed(adversarial));
  }

  lemma CheapestAnswers(answers: seq<Answer>) returns (passed: seq<bool>, adversarial: seq<bool>)
    ensures AnswersMeet(answers, passed, adversarial)
            && AnswerCost(answers, passed) + ADVERSARIAL == AnswerMinimum(answers)
  {
    var required := RequiredPasses(|answers| + ADVERSARIAL);
    CriticalAreSourced(answers);
    RequiredPassesIsCeiling(|answers| + ADVERSARIAL, required);
    passed := FailSourced(answers,
        Min(CountSourced(answers, false) - CountSourced(answers, true), |answers| + ADVERSARIAL - required));
    adversarial := [true, true, true];
    ThreePass();
    RequiredPassesIsCeiling(|answers| + ADVERSARIAL, Passed(passed) + Passed(adversarial));
  }

  lemma ThreePass()
    ensures Passed([true, true, true]) == ADVERSARIAL
  {
    assert [true, true, true][..2] == [true, true] && [true, true][..1] == [true] && [true][..0] == [];
  }

  /******* All four stages *******/

  datatype Suite = Suite(answers: seq<Answer>, research: seq<Case>, stability: seq<Case>, extensions: seq<Case>)

  const STABILITY_REPETITIONS := 3

  /** `required_lower`. */
  function RequiredLower(suite: Suite): int {
    var stability := StageFloor(suite.stability, STABILITY_REPETITIONS, true);
    var extensions := StageFloor(suite.extensions, 1, false);
    Max(AnswerFloor(suite.answers) + StageFloor(suite.research, 1, false) + stability + extensions,
        AnswerRateFloor(suite.answers) + RateFloor(suite.research) + stability + extensions)
  }

  /** The outcomes of one full run. */
  datatype Outcome = Outcome(answers: seq<bool>, adversarial: seq<bool>, research: seq<Graded>,
                             stability: seq<seq<Graded>>, extensions: seq<Graded>)

  /** Every stage passes its gate; the stability stage requires each result of each repetition. */
  ghost predicate MeetsAll(suite: Suite, outcome: Outcome) {
    && AnswersMeet(suite.answers, outcome.answers, outcome.adversarial)
    && Meets(suite.research, outcome.research) && Meets(suite.extensions, outcome.extensions)
    && |outcome.stability| == STABILITY_REPETITIONS
    && forall n :: 0 <= n < STABILITY_REPETITIONS ==>
         Meets(suite.stability, outcome.stability[n]) && forall r :: r in outcome.stability[n] ==> r.passed
  }

  function TotalCost(suite: Suite, outcome: Outcome): nat
    requires |outcome.answers| == |suite.answers| && |outcome.research| == |suite.research|
    requires |outcome.extensions| == |suite.extensions| && |outcome.stability| == STABILITY_REPETITIONS
    requires forall n :: 0 <= n < STABILITY_REPETITIONS ==> |outcome.stability[n]| == |suite.stability|
  {
    AnswerCost(suite.answers, outcome.answers) + ADVERSARIAL + Cost(suite.research, Flags(outcome.research))
    + Cost(suite.stability, Flags(outcome.stability[0])) + Cost(suite.stability, Flags(outcome.stability[1]))
    + Cost(suite.stability, Flags(outcome.stability[2])) + Cost(suite.extensions, Flags(outcome.extensions))
  }

  lemma StabilityCost(suite: Suite, outcome: Outcome)
    requires MeetsAll(suite, outcome)
    ensures forall n :: 0 <= n < STABILITY_REPETITIONS ==>
              Cost(suite.stability, Flags(outcome.stability[n])) == StageFloor(suite.stability, 1, true)
  {
    forall n | 0 <= n < STABILITY_REPETITIONS
      ensures Cost(suite.stability, Flags(outcome.stability[n])) == StageFloor(suite.stability, 1, true)
    {
      assert forall i :: 0 <= i < |outcome.stability[n]| ==> outcome.stability[n][i] in outcome.stability[n];
      AllPassCost(suite.stability, Flags(outcome.stability[n]));
    }
  }

  /**
   Every full run that meets all gates costs at least `required_lower`, when the research floor applies to its cases.
   */
  lemma RequiredLowerIsBound(suite: Suite, outcome: Outcome)
    requires MeetsAll(suite, outcome) && FloorApplies(suite.research)
    ensures TotalCost(suite, outcome) >= RequiredLower(suite)
  {
    AnswerFloorsAreBounds(suite.answers, outcome.answers, outcome.adversarial);
    GateClears(suite.research, outcome.research);
    GateClears(suite.extensions, outcome.extensions);
    CriticalPathIsBound(suite.research, Flags(outcome.research));
    FloorHoldsWhenApplicable(suite.research, Flags(outcome.research));
    CriticalPathIsBound(suite.extensions, Flags(outcome.extensions));
    StabilityCost(suite, outcome);
  }

  /** `required_lower` bounds every run of the suite that meets all gates. */
  ghost predicate LowerHolds(suite: Suite) {
    forall outcome :: MeetsAll(suite, outcome) ==> TotalCost(suite, outcome) >= RequiredLower(suite)
  }

  /** Each research stage has a case that must be answered; no other suite passes all gates. */
  predicate Judgeable(suite: Suite) {
    Answerable(suite.research) && Answerable(suite.stability) && Answerable(suite.extensions)
  }

  /** What the cheapest run that meets all gates costs. */
  function MinimumCost(suite: Suite): int {
    AnswerMinimum(suite.answers) + StageMinimum(suite.research)
    + StageFloor(suite.stability, STABILITY_REPETITIONS, true) + StageMinimum(suite.extensions)
  }

  lemma MinimumCostIsBound(suite: Suite, outcome: Outcome)
    requires MeetsAll(suite, outcome)
    ensures Judgeable(suite) && TotalCost(suite, outcome) >= MinimumCost(suite)
  {
    AnswerMinimumIsBound(suite.answers, outcome.answers, outcome.adversarial);
    GateClears(suite.research, outcome.research);
    GateClears(suite.extensions, outcome.extensions);
    GateClears(suite.stability, outcome.stability[0]);
    MinimumIsBound(suite.research, Flags(outcome.research));
    MinimumIsBound(suite.extensions, Flags(outcome.extensions));
    StabilityCost(suite, outcome);
  }

  lemma {:induction false} AllPassed(passed: seq<bool>)
    requires forall i :: 0 <= i < |passed| ==> passed[i]
    ensures Passed(passed) == |passed|
  {
    if |passed| > 0 {
      AllPassed(passed[..|passed| - 1]);
    }
  }

  lemma AllPassMeets(cases: seq<Case>) returns (results: seq<Graded>)
    requires Answerable(cases)
    ensures Meets(cases, results) && forall r :: r in results ==> r.passed
  {
    var passed := seq(|cases|, i requires 0 <= i < |cases| => true);
    AllPassed(passed);
    ClearsGate(cases, passed);
    results := Covered(cases, passed);
  }

  lemma CheapestRun(suite: Suite) returns (outcome: Outcome)
    requires Judgeable(suite)
    ensures MeetsAll(suite, outcome) && TotalCost(suite, outcome) == MinimumCost(suite)
  {
    var answers, adversarial := CheapestAnswers(suite.answers);
    var research := Cheapest(suite.research);
    var extensions := Cheapest(suite.extensions);
    ClearsGate(suite.research, research);
    ClearsGate(suite.extensions, extensions);
    var all := AllPassMeets(suite.stability);
    outcome := Outcome(answers, adversarial, Covered(suite.research, research), [all, all, all],
                       Covered(suite.extensions, extensions));
    StabilityCost(suite, outcome);
  }

  /**
   `required_lower` is a true bound for a suite exactly when it does not exceed the cost of the suite's cheapest run,
   or the suite has a stage that nothing passes.
   */
  lemma LowerHoldsIff(suite: Suite)
    ensures LowerHolds(suite) <==> !Judgeable(suite) || MinimumCost(suite) >= RequiredLower(suite)
  {
    forall o | MeetsAll(suite, o) ensures Judgeable(suite) && TotalCost(suite, o) >= MinimumCost(suite) {
      MinimumCostIsBound(suite, o);
    }
    if Judgeable(suite) {
      var outcome := CheapestRun(suite);
    }
  }

  /** These research cases beside one critical answer in each other research stage. */
  function Beside(research: seq<Case>): Suite {
    Suite([], research, [Case(true, false)], [Case(true, false)])
  }

  lemma BesideCosts(research: seq<Case>)
    ensures Answerable(research) ==> Judgeable(Beside(research))
    ensures RequiredLower(Beside(research)) - MinimumCost(Beside(research))
         >= RateFloor(research) - StageMinimum(research)
  {
    var one := [Case(true, false)];
    assert !one[0].mustRefuse;
    assert one[..0] == [];
    assert Count(one, true, false) == 1
        && Count(one, true, true) == Count(one, false, true) == Count(one, false, false) == 0;
  }

  /**
   The research cases alone decide for every suite around them exactly when the research floor applies to them, or none
   of them has to be answered.
   */
  lemma RequiredLowerIsBoundIff(research: seq<Case>)
    ensures (forall suite: Suite :: suite.research == research ==> LowerHolds(suite))
            <==> FloorApplies(research) || !Answerable(research)
  {
    if FloorApplies(research) || !Answerable(research) {
      forall suite: Suite | suite.research == research ensures LowerHolds(suite) {
        LowerHoldsIff(suite);
        forall outcome | FloorApplies(research) && MeetsAll(suite, outcome)
          ensures TotalCost(suite, outcome) >= RequiredLower(suite)
        {
          RequiredLowerIsBound(suite, outcome);
        }
      }
    } else {
      BesideCosts(research);
      LowerHoldsIff(Beside(research));
      assert Beside(research).research == research && !LowerHolds(Beside(research));
    }
  }

  /** Without noncritical refusals the larger of a stage's two floors is exactly what the stage costs at least. */
  lemma StageFloorsAreTight(cases: seq<Case>)
    requires Count(cases, false, true) == 0
    ensures StageMinimum(cases) == Max(StageFloor(cases, 1, false), RateFloor(cases))
  {
  }

  /** The larger of the two answer floors is exactly what the answer stage costs at least. */
  lemma AnswerFloorsAreTight(answers: seq<Answer>)
    ensures AnswerMinimum(answers) == Max(AnswerFloor(answers), AnswerRateFloor(answers))
  {
    CriticalAreSourced(answers);
  }

  /**
   The numbers of the repository's own suite: 7 answers, 5 of them sourced and 1 of those critical; 30 research cases,
   15 critical answers, 5 critical refusals and 10 other answers; 3 stability answers; 4 critical extension answers.
   The critical paths need 245 calls and `required_lower` is 296, which the cheapest run attains.
   */
  lemma RepositoryNeeds296(suite: Suite)
    requires |suite.answers| == 7 && CountSourced(suite.answers, false) == 5 && CountSourced(suite.answers, true) == 1
    requires Count(suite.research, true, false) == 15 && Count(suite.research, true, true) == 5
    requires Count(suite.research, false, false) == 10 && Count(suite.research, false, true) == 0
    requires Count(suite.stability, true, false) == 1 && Count(suite.stability, false, false) == 2
    requires Count(suite.stability, true, true) == Count(suite.stability, false, true) == 0
    requires Count(suite.extensions, true, false) == 4 && Count(suite.extensions, true, true) == 0
    requires Count(suite.extensions, false, false) == Count(suite.extensions, false, true) == 0
    ensures RequiredLower(suite) == MinimumCost(suite) == 296
    ensures AnswerFloor(suite.answers) == 11 && StageFloor(suite.research, 1, false) == 130
    ensures AnswerRateFloor(suite.answers) == 14 && RateFloor(suite.research) == 178
    ensures StageFloor(suite.stability, 3, true) == 72 && StageFloor(suite.extensions, 1, false) == 32
  {
    CountsAll(suite.research);
    CountsAll(suite.extensions);
  }
}
