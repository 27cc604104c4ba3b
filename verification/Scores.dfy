/**
 Scores of evaluation results: rule scores, their rounding, and the mean that a run gets once nothing
 is pending. Numbers are real; rounding is half to even.
 */
module Scores {
  import opened Criteria
  import opened Wrappers
  import Sections

  datatype Method = Rule | Judge | Manual

  // ----- scores -----

  function RoundHalfEven(x: real): int {
    var below := x.Floor;
    var rest := x - below as real;
    if rest < 0.5 || (rest == 0.5 && below % 2 == 0) then below else below + 1
  }

  function RoundTenth(x: real): real {
    RoundHalfEven(x * 10.0) as real / 10.0
  }

  predicate InRange(x: real) {
    0.0 <= x <= 100.0
  }

  lemma RoundingStaysInRange(x: real)
    requires InRange(x)
    ensures InRange(RoundTenth(x))
  {
    var y := x * 10.0;
    assert 0 <= y.Floor <= 1000;
    assert y.Floor == 1000 ==> y == 1000.0;
  }

  function CountPassed(terms: seq<TermCheck>): nat {
    if terms == [] then 0 else CountPassed(terms[..|terms| - 1]) + if terms[|terms| - 1] == Passed then 1 else 0
  }

  function Checked(terms: seq<string>, output: string, checks: Checks): seq<TermCheck> {
    seq(|terms|, i requires 0 <= i < |terms| => Check(terms[i], output, checks))
  }

  /** The share of passed terms in percent; none without terms, or when one cannot be evaluated. */
  function RuleScore(criteria: Option<string>, output: string, checks: Checks): Option<real> {
    if criteria.None? then None else
      var results := Checked(Required(criteria.value), output, checks);
      if results == [] || Unsafe in results then None
      else Some(RoundTenth(CountPassed(results) as real / |results| as real * 100.0))
  }

  method ScoreRule(criteria: Option<string>, output: string, checks: Checks) returns (score: Option<real>)
    ensures score == RuleScore(criteria, output, checks)
    ensures score.Some? ==> InRange(score.value)
  {
    if criteria.None? {
      return None;
    }
    if Sections.Strip(criteria.value) == "" {
      BlankHasNoTerms(criteria.value);
      return None;
    }
    var required := RequiredTerms(criteria.value);
    if required == [] {
      return None;
    }
    ghost var results := Checked(required, output, checks);
    var hits := 0;
    for i := 0 to |required|
      invariant hits == CountPassed(results[..i]) && 0 <= hits <= i
      invariant Unsafe !in results[..i]
    {
      assert results[..i + 1][..i] == results[..i];
      var passed := Check(required[i], output, checks);
      assert passed == results[i];
      if passed == Unsafe {
        return None;
      }
      if passed == Passed {
        hits := hits + 1;
      }
    }
    assert results[..|required|] == results;
    RatioInRange(hits, |required|);
    return Some(RoundTenth(hits as real / |required| as real * 100.0));
  }

  lemma RatioInRange(m: nat, n: nat)
    requires m <= n && 0 < n
    ensures InRange(RoundTenth(m as real / n as real * 100.0))
  {
    assert 0.0 <= m as real / n as real <= 1.0;
    RoundingStaysInRange(m as real / n as real * 100.0);
  }

  function Clamp(score: int): int {
    if score < 0 then 0 else if 100 < score then 100 else score
  }

  // ----- a run and its results -----

  datatype CaseResult = CaseResult(kind: Method, score: Option<real>, pending: bool, humanScore: Option<int>)

  ghost predicate AnyPending(results: seq<CaseResult>) {
    exists i :: 0 <= i < |results| && results[i].pending
  }

  function ScoreSum(results: seq<CaseResult>): real {
    if results == [] then 0.0 else
      ScoreSum(results[..|results| - 1]) + match results[|results| - 1].score case Some(s) => s case None => 0.0
  }

  function ScoreCount(results: seq<CaseResult>): nat {
    if results == [] then 0 else
      ScoreCount(results[..|results| - 1]) + if results[|results| - 1].score.Some? then 1 else 0
  }

  /** The rounded mean of the scores there are. */
  function MeanScore(results: seq<CaseResult>): Option<real> {
    if ScoreCount(results) == 0 then None else Some(RoundTenth(ScoreSum(results) / ScoreCount(results) as real))
  }

  ghost predicate ResultsGood(results: seq<CaseResult>) {
    forall i :: 0 <= i < |results| ==>
      var r := results[i];
      && (r.score.Some? ==> InRange(r.score.value))
      && (r.pending ==> r.kind == Manual && r.score.None?)
      && (r.humanScore.Some? ==> r.kind == Judge && r.score.Some? && 20 <= r.humanScore.value <= 100)
  }

  /** Absent while anything is pending, otherwise the rounded mean of the results' scores. */
  ghost predicate ScoreRight(results: seq<CaseResult>, score: Option<real>) {
    if AnyPending(results) then score.None? else score == MeanScore(results)
  }

  lemma {:induction false} SumInRange(results: seq<CaseResult>)
    requires ResultsGood(results)
    ensures 0.0 <= ScoreSum(results) <= 100.0 * ScoreCount(results) as real
  {
    if results == [] {
    } else {
      SumInRange(results[..|results| - 1]);
    }
  }

  /** The aggregate is a score too. */
  lemma MeanInRange(results: seq<CaseResult>)
    requires ResultsGood(results) && MeanScore(results).Some?
    ensures InRange(MeanScore(results).value)
  {
    SumInRange(results);
    var sum, n := ScoreSum(results), ScoreCount(results) as real;
    QuotientInRange(sum, n);
    RoundingStaysInRange(sum / n);
  }

  lemma QuotientInRange(sum: real, n: real)
    requires 0.0 < n && 0.0 <= sum <= 100.0 * n
    ensures InRange(sum / n)
  {
    var q := sum / n;
    assert q * n == sum;
    assert 100.0 < q ==> (q - 100.0) * n > 0.0;
    assert q < 0.0 ==> (0.0 - q) * n > 0.0;
  }

  lemma RuleScoreInRange(criteria: Option<string>, output: string, checks: Checks)
    requires RuleScore(criteria, output, checks).Some?
    ensures InRange(RuleScore(criteria, output, checks).value)
  {
    var results := Checked(Required(criteria.value), output, checks);
    CountBounded(results);
    RatioInRange(CountPassed(results), |results|);
  }

  lemma {:induction false} CountBounded(terms: seq<TermCheck>)
    ensures CountPassed(terms) <= |terms|
  {
    if terms == [] {
    } else {
      CountBounded(terms[..|terms| - 1]);
    }
  }

  // ----- what scores mean -----

  /** The nearest whole number, the even one of two. */
  ghost predicate IsNearest(n: int, x: real) {
    -0.5 <= n as real - x <= 0.5 && (n as real - x == 0.5 || n as real - x == -0.5 ==> n % 2 == 0)
  }

  lemma RoundsToNearest(x: real, n: int)
    ensures RoundHalfEven(x) == n <==> IsNearest(n, x)
  {
    var below := x.Floor;
    assert below as real <= x < below as real + 1.0;
    if IsNearest(n, x) {
      assert below - 1 < n < below + 2;
    }
  }

  /** A score rounded to tenths: the nearest whole number of them. */
  lemma RoundsToTenth(x: real, tenths: int)
    ensures RoundTenth(x) == tenths as real / 10.0 <==> IsNearest(tenths, 10.0 * x)
  {
    RoundsToNearest(x * 10.0, tenths);
  }

  ghost function PassedTerms(terms: seq<string>, output: string, checks: Checks): set<nat> {
    set i: nat | i < |terms| && Check(terms[i], output, checks) == Passed
  }

  lemma PassedOn(terms: seq<string>, term: string, output: string, checks: Checks)
    ensures PassedTerms(terms + [term], output, checks)
         == PassedTerms(terms, output, checks) + if Check(term, output, checks) == Passed then {|terms|} else {}
  {
    var all := terms + [term];
    assert forall i :: 0 <= i < |terms| ==> all[i] == terms[i];
    assert all[|terms|] == term;
  }

  lemma CountOn(terms: seq<string>, term: string, output: string, checks: Checks)
    ensures CountPassed(Checked(terms + [term], output, checks))
         == CountPassed(Checked(terms, output, checks)) + if Check(term, output, checks) == Passed then 1 else 0
  {
    var all := terms + [term];
    assert Checked(all, output, checks)[..|terms|] == Checked(terms, output, checks);
    assert Checked(all, output, checks)[|terms|] == Check(term, output, checks);
  }

  lemma {:induction false} CountIsSize(terms: seq<string>, output: string, checks: Checks)
    ensures CountPassed(Checked(terms, output, checks)) == |PassedTerms(terms, output, checks)|
  {
    if terms == [] {
      assert PassedTerms(terms, output, checks) == {};
    } else {
      var front, last := terms[..|terms| - 1], terms[|terms| - 1];
      CountIsSize(front, output, checks);
      PassedOn(front, last, output, checks);
      CountOn(front, last, output, checks);
      assert terms == front + [last];
    }
  }

  /**
   A rule score is there exactly when there are criteria with terms, none of which is unsafe, and is then
   the rounded share of the terms that pass.
   */
  lemma RuleScoreExactly(criteria: Option<string>, output: string, checks: Checks)
    ensures RuleScore(criteria, output, checks).Some? <==>
            && criteria.Some? && Required(criteria.value) != []
            && forall i :: 0 <= i < |Required(criteria.value)| ==>
                 Check(Required(criteria.value)[i], output, checks) != Unsafe
    ensures RuleScore(criteria, output, checks).Some? ==>
              var terms := Required(criteria.value);
              var share := |PassedTerms(terms, output, checks)| as real / |terms| as real;
              RuleScore(criteria, output, checks).value == RoundTenth(share * 100.0)
  {
    if criteria.Some? {
      var terms := Required(criteria.value);
      var results := Checked(terms, output, checks);
      CountIsSize(terms, output, checks);
      assert forall i :: 0 <= i < |terms| ==> results[i] == Check(terms[i], output, checks);
    }
  }
}
