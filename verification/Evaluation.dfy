/** Evaluation runs: the loop over the cases with its totals, and the ratings people give later. */
module Evaluation {
  import opened Criteria
  import opened EvalCases
  import opened LlmClient
  import opened Pricing
  import opened Scores
  import opened Wrappers

  datatype RunState = RunState(results: seq<CaseResult>, score: Option<real>, totals: Totals)

  ghost predicate Inv(run: RunState) {
    ResultsGood(run.results) && ScoreRight(run.results, run.score)
  }

  // ----- the result loop -----

  /** The row recorded for a case. */
  function ResultFor(t: Trial, o: CaseOutcome): CaseResult {
    if o.result.None? || t.execution.RunFailed? then CaseResult(t.kind, None, false, None)
    else match t.kind
      case Manual => CaseResult(Manual, None, true, None)
      case Judge => CaseResult(Judge, if o.judge.Some? then Some(o.judge.value.0 as real) else None, false, None)
      case Rule => CaseResult(Rule, RuleScore(t.criteria, t.execution.output, t.checks), false, None)
  }

  lemma ResultIsGood(cfg: Config, c: Connection, t: Trial, o: CaseOutcome)
    requires OutcomeFits(cfg, c, t, o)
    ensures ResultsGood([ResultFor(t, o)])
  {
    if t.kind == Rule && t.execution.RunOk? && RuleScore(t.criteria, t.execution.output, t.checks).Some? {
      RuleScoreInRange(t.criteria, t.execution.output, t.checks);
    }
  }

  /**
   The ledger has the calls of these outcomes, the totals count them, and the tokens counted are those
   of the ledger and of all responses.
   */
  ghost predicate Booked(cfg: Config, c: Connection, trials: seq<Trial>, outcomes: seq<CaseOutcome>,
                         ledger: seq<Billed>, totals: Totals)
  {
    && ledger == AllBilled(cfg, c, outcomes)
    && totals == TallyOf(AllCalls(cfg, c, outcomes))
    && totals.usage == Total(Usages(ledger)) == Total(AllResponses(trials))
  }

  lemma BookedOn(cfg: Config, c: Connection, trials: seq<Trial>, i: nat, outcomes: seq<CaseOutcome>,
                 ledger: seq<Billed>, totals: Totals, o: CaseOutcome)
    requires i < |trials| && Booked(cfg, c, trials[..i], outcomes, ledger, totals) && OutcomeFits(cfg, c, trials[i], o)
    ensures Booked(cfg, c, trials[..i + 1], outcomes + [o], ledger + BilledFor(cfg, c, o),
                   Together(totals, TallyOf(CallsOf(cfg, c, o))))
  {
    assert (outcomes + [o])[..|outcomes|] == outcomes;
    TallyAppend(AllCalls(cfg, c, outcomes), CallsOf(cfg, c, o));
    TokensOn(cfg, c, ledger, o, trials[i]);
    ResponsesOn(trials, i);
    TokensCounted(cfg, c, o);
  }

  /** One good result a case, in the cases' order. */
  ghost predicate Recorded(cfg: Config, c: Connection, trials: seq<Trial>, outcomes: seq<CaseOutcome>,
                           results: seq<CaseResult>)
  {
    && |results| == |outcomes| == |trials| && ResultsGood(results)
    && forall i :: 0 <= i < |trials| ==>
         OutcomeFits(cfg, c, trials[i], outcomes[i]) && results[i] == ResultFor(trials[i], outcomes[i])
  }

  lemma RecordOn(cfg: Config, c: Connection, trials: seq<Trial>, i: nat, outcomes: seq<CaseOutcome>,
                 results: seq<CaseResult>, o: CaseOutcome)
    requires i < |trials| && Recorded(cfg, c, trials[..i], outcomes, results) && OutcomeFits(cfg, c, trials[i], o)
    ensures Recorded(cfg, c, trials[..i + 1], outcomes + [o], results + [ResultFor(trials[i], o)])
  {
    ResultIsGood(cfg, c, trials[i], o);
    assert ResultsGood(results + [ResultFor(trials[i], o)]) by {
      assert [ResultFor(trials[i], o)][0] == ResultFor(trials[i], o);
    }
    assert forall k :: 0 <= k < i ==> trials[..i + 1][k] == trials[..i][k];
  }

  lemma ScoresOn(results: seq<CaseResult>, result: CaseResult)
    ensures ScoreSum(results + [result]) == ScoreSum(results) + (match result.score case Some(s) => s case None => 0.0)
    ensures ScoreCount(results + [result]) == ScoreCount(results) + (if result.score.Some? then 1 else 0)
    ensures AnyPending(results + [result]) <==> AnyPending(results) || result.pending
  {
    var results' := results + [result];
    assert results'[..|results|] == results && results'[|results|] == result;
    if k :| 0 <= k < |results| && results[k].pending {
      assert results'[k].pending;
    }
  }

  /** What a result row records: the rule's score is computed here, the judge's came with the outcome. */
  method Score(cfg: Config, c: Connection, t: Trial, o: CaseOutcome) returns (result: CaseResult)
    requires OutcomeFits(cfg, c, t, o)
    ensures result == ResultFor(t, o)
  {
    if o.result == None {
      return CaseResult(t.kind, None, false, None);
    }
    if t.kind == Manual {
      return CaseResult(Manual, None, true, None);
    }
    var score := None;
    if t.kind == Judge {
      if o.judge.Some? {
        score := Some(o.judge.value.0 as real);
      }
    } else {
      score := ScoreRule(t.criteria, t.execution.output, t.checks);
    }
    return CaseResult(t.kind, score, false, None);
  }

  /** The loop over the cases: a result each, its calls in the ledger, and the run's score so far as it has one. */
  method RunCases(cfg: Config, c: Connection, trials: seq<Trial>)
    returns (ledger: seq<Billed>, ghost outcomes: seq<CaseOutcome>, recorded: seq<CaseResult>, totals: Totals,
             score: Option<real>)
    ensures Recorded(cfg, c, trials, outcomes, recorded) && ScoreRight(recorded, score)
    ensures Booked(cfg, c, trials, outcomes, ledger, totals)
  {
    var sum, count, anyPending := 0.0, 0, false;
    totals := Totals(Usage(0, 0), 0, 0.0);
    recorded := [];
    ledger, outcomes := [], [];
    for i := 0 to |trials|
      invariant Recorded(cfg, c, trials[..i], outcomes, recorded)
      invariant Booked(cfg, c, trials[..i], outcomes, ledger, totals)
      invariant sum == ScoreSum(recorded) && count == ScoreCount(recorded) && (anyPending <==> AnyPending(recorded))
    {
      var outcome := ExecuteCase(cfg, c, trials[i]);
      BookedOn(cfg, c, trials, i, outcomes, ledger, totals, outcome);
      var billed;
      billed, totals := Bill(cfg, c, outcome, totals);
      ledger := ledger + billed;
      var result := Score(cfg, c, trials[i], outcome);
      RecordOn(cfg, c, trials, i, outcomes, recorded, outcome);
      ScoresOn(recorded, result);
      if result.pending {
        anyPending := true;
      }
      if result.score.Some? {
        sum, count := sum + result.score.value, count + 1;
      }
      recorded, outcomes := recorded + [result], outcomes + [outcome];
    }
    assert trials[..|trials|] == trials;
    score := if anyPending || count == 0 then None else Some(RoundTenth(sum / count as real));
  }

  /** The counted cost and that of the ledger rows differ by at most half a millionth for each successful call. */
  ghost predicate CostsAgree(outcomes: seq<CaseOutcome>, ledger: seq<Billed>, totals: Totals) {
    var slack := Times(AllSucceeded(outcomes), HALF_MILLIONTH);
    -slack <= totals.cost - LedgerCost(ledger) <= slack
  }

  ghost predicate RunOf(cfg: Config, c: Connection, trials: seq<Trial>, outcomes: seq<CaseOutcome>,
                        results: seq<CaseResult>, ledger: seq<Billed>, totals: Totals)
  {
    Recorded(cfg, c, trials, outcomes, results) && Booked(cfg, c, trials, outcomes, ledger, totals)
  }

  lemma RunCostMatchesLedger(cfg: Config, c: Connection, trials: seq<Trial>, outcomes: seq<CaseOutcome>,
                             results: seq<CaseResult>, ledger: seq<Billed>, totals: Totals)
    requires RunOf(cfg, c, trials, outcomes, results, ledger, totals) && AssumesNothing(cfg, c)
    ensures CostsAgree(outcomes, ledger, totals)
  {
    forall o | o in outcomes
      ensures CostsShown(cfg, c, o)
    {
      var i :| 0 <= i < |outcomes| && outcomes[i] == o;
      assert OutcomeFits(cfg, c, trials[i], outcomes[i]);
    }
    forall u {
      ShownWhenNothingAssumed(cfg, c, u);
    }
    CostMatchesLedger(cfg, c, outcomes);
  }

  /** A case rated by a person, whose run succeeds with this usage. */
  function LoneTrial(u: Usage, checks: Checks): Trial {
    Trial(Manual, RunOk(u, "", 0), NoFormat, Rejected, Rejected, 0, None, None, checks)
  }

  function LoneOutcome(cfg: Config, c: Connection, u: Usage): CaseOutcome {
    CaseOutcome(Some(Shown(cfg, c, u, 0)), None, [])
  }

  lemma LoneOutcomeFits(cfg: Config, c: Connection, u: Usage, checks: Checks)
    ensures var o := LoneOutcome(cfg, c, u);
            && OutcomeFits(cfg, c, LoneTrial(u, checks), o)
            && BilledFor(cfg, c, o) == [Row(cfg, c, EvalCase, u)] && CallsOf(cfg, c, o) == [Shown(cfg, c, u, 0)]
  {
    var o := LoneOutcome(cfg, c, u);
    assert BilledUsages(o) == Responses(LoneTrial(u, checks)) == [u];
    assert FailedRows(cfg, c, []) == [] && FailedCalls(cfg, c, []) == [];
  }

  /** The run of one case. */
  lemma RunOfOne(cfg: Config, c: Connection, t: Trial, o: CaseOutcome)
    requires OutcomeFits(cfg, c, t, o)
    ensures RunOf(cfg, c, [t], [o], [ResultFor(t, o)], BilledFor(cfg, c, o), TallyOf(CallsOf(cfg, c, o)))
  {
    ResultIsGood(cfg, c, t, o);
    BookedOne(cfg, c, t, o);
  }

  lemma OneBilled(cfg: Config, c: Connection, o: CaseOutcome)
    ensures AllBilled(cfg, c, [o]) == BilledFor(cfg, c, o)
  {
    assert [o][..0] == [];
  }

  lemma OneCalled(cfg: Config, c: Connection, o: CaseOutcome)
    ensures AllCalls(cfg, c, [o]) == CallsOf(cfg, c, o)
  {
    assert [o][..0] == [];
  }

  lemma OneResponded(t: Trial)
    ensures AllResponses([t]) == Responses(t)
  {
    assert [t][..0] == [];
  }

  lemma BookedOne(cfg: Config, c: Connection, t: Trial, o: CaseOutcome)
    requires OutcomeFits(cfg, c, t, o)
    ensures Booked(cfg, c, [t], [o], BilledFor(cfg, c, o), TallyOf(CallsOf(cfg, c, o)))
  {
    OneBilled(cfg, c, o);
    OneCalled(cfg, c, o);
    OneResponded(t);
    UsagesOfBilled(cfg, c, o);
    TokensCounted(cfg, c, o);
  }

  /** The run of that case alone counts what is shown for its call, and its ledger has what is billed. */
  lemma LoneRun(cfg: Config, c: Connection, u: Usage, checks: Checks)
    ensures var t, o := LoneTrial(u, checks), LoneOutcome(cfg, c, u);
            RunOf(cfg, c, [t], [o], [ResultFor(t, o)], [Row(cfg, c, EvalCase, u)], TallyOf([Shown(cfg, c, u, 0)]))
  {
    LoneOutcomeFits(cfg, c, u, checks);
    RunOfOne(cfg, c, LoneTrial(u, checks), LoneOutcome(cfg, c, u));
  }

  lemma LoneCosts(cfg: Config, c: Connection, u: Usage)
    ensures TallyOf([Shown(cfg, c, u, 0)]).cost == RoundMillionth(CostUsd(cfg, c, u, false))
    ensures LedgerCost([Row(cfg, c, EvalCase, u)]) == PricedCost(cfg, c, u)
    ensures AllSucceeded([LoneOutcome(cfg, c, u)]) == 1
  {
    TallyOptional(Some(Shown(cfg, c, u, 0)));
    LedgerOptional(Some(Row(cfg, c, EvalCase, u)));
    var o := LoneOutcome(cfg, c, u);
    assert [o][..0] == [];
  }

  /** It is a run whose costs disagree as soon as what is shown for the call is not what is billed. */
  lemma LoneRunDisagrees(cfg: Config, c: Connection, u: Usage)
    requires !ShownAsBilled(cfg, c, u)
    ensures !CostsAgree([LoneOutcome(cfg, c, u)], [Row(cfg, c, EvalCase, u)], TallyOf([Shown(cfg, c, u, 0)]))
  {
    LoneCosts(cfg, c, u);
    OneHalf();
  }

  lemma OneHalf()
    ensures Times(1, HALF_MILLIONTH) == HALF_MILLIONTH
  {
  }

  ghost predicate CostsAlwaysAgree(cfg: Config, c: Connection) {
    forall trials, outcomes, results, ledger, totals ::
      RunOf(cfg, c, trials, outcomes, results, ledger, totals) ==> CostsAgree(outcomes, ledger, totals)
  }

  lemma CostsAgreeFor(cfg: Config, c: Connection, trials: seq<Trial>, outcomes: seq<CaseOutcome>,
                      results: seq<CaseResult>, ledger: seq<Billed>, totals: Totals)
    requires RunOf(cfg, c, trials, outcomes, results, ledger, totals) && CostsAlwaysAgree(cfg, c)
    ensures CostsAgree(outcomes, ledger, totals)
  {
  }

  lemma CostsDisagree(cfg: Config, c: Connection, u: Usage)
    requires !ShownAsBilled(cfg, c, u)
    ensures !CostsAlwaysAgree(cfg, c)
  {
    var checks := Checks(_ => false, (_, _) => NotFound, s => s);
    var t, o, ledger, totals := LoneTrial(u, checks), LoneOutcome(cfg, c, u), [Row(cfg, c, EvalCase, u)],
                                TallyOf([Shown(cfg, c, u, 0)]);
    LoneRun(cfg, c, u, checks);
    LoneRunDisagrees(cfg, c, u);
    if CostsAlwaysAgree(cfg, c) {
      CostsAgreeFor(cfg, c, [t], [o], [ResultFor(t, o)], ledger, totals);
    }
  }

  /**
   The counted cost of every run agrees with its ledger, if and only if no limit is set or the rates are
   known and assumed tokens cost at most half a millionth of a dollar.
   */
  lemma RunCostExactly(cfg: Config, c: Connection)
    ensures CostsAlwaysAgree(cfg, c) <==> AssumesNothing(cfg, c)
  {
    if AssumesNothing(cfg, c) {
      forall trials, outcomes, results, ledger, totals | RunOf(cfg, c, trials, outcomes, results, ledger, totals)
        ensures CostsAgree(outcomes, ledger, totals)
      {
        RunCostMatchesLedger(cfg, c, trials, outcomes, results, ledger, totals);
      }
    } else {
      var u := Usage(if RatesFor(cfg, c).Some? then 0 else 1, 0);
      UnshownIsBilled(cfg, c, u);
      CostsDisagree(cfg, c, u);
    }
  }

  /** One successful case that reports no tokens is counted at nothing, and its ledger row is 2.4 cents. */
  lemma UnreportedRun(u: Usage, checks: Checks)
    requires NoTokens(u)
    ensures var cfg, c := TERSE_CONFIG, HOSTED;
            var t, o, ledger, totals := LoneTrial(u, checks), LoneOutcome(cfg, c, u), [Row(cfg, c, EvalCase, u)],
                                        TallyOf([Shown(cfg, c, u, 0)]);
            && RunOf(cfg, c, [t], [o], [ResultFor(t, o)], ledger, totals)
            && totals.cost == 0.0 && LedgerCost(ledger) == 0.024
  {
    LoneRun(TERSE_CONFIG, HOSTED, u, checks);
    LoneCosts(TERSE_CONFIG, HOSTED, u);
    UnreportedCost(u);
  }

  lemma UnreportedCost(u: Usage)
    requires NoTokens(u)
    ensures RoundMillionth(CostUsd(TERSE_CONFIG, HOSTED, u, false)) == 0.0
    ensures PricedCost(TERSE_CONFIG, HOSTED, u) == 0.024
  {
    RoundingOfZero();
    var rates := Rates(2.0, 10.0);
    assert RatesFor(TERSE_CONFIG, HOSTED) == Some(rates);
    var input, output := rates.input / 1_000_000.0, rates.output / 1_000_000.0;
    TimesIsProduct(2_000, input);
    TimesIsProduct(2_000, output);
    assert CostAt(rates, ASSUMED_USAGE) == 0.024;
  }

  class EvalRun {
    var results: seq<CaseResult>
    var score: Option<real>
    var totals: Totals

    function State(): RunState
      reads this
    {
      RunState(results, score, totals)
    }

    constructor ()
      ensures State() == RunState([], None, Totals(Usage(0, 0), 0, 0.0))
    {
      results, score, totals := [], None, Totals(Usage(0, 0), 0, 0.0);
    }

    /**
     Run every case and record the results. The stored totals are those of the calls made: tokens as
     in the ledger rows written and in all the responses received, latency, and cost rounded once more.
     */
    method RunEvaluation(cfg: Config, c: Connection, trials: seq<Trial>)
      returns (ledger: seq<Billed>, ghost outcomes: seq<CaseOutcome>)
      modifies this
      ensures Inv(State()) && Recorded(cfg, c, trials, outcomes, results)
      ensures ledger == AllBilled(cfg, c, outcomes)
      ensures totals.usage == Total(Usages(ledger)) == Total(AllResponses(trials))
      ensures var counted := TallyOf(AllCalls(cfg, c, outcomes));
              totals == counted.(cost := RoundMillionth(counted.cost))
    {
      var recorded, counted, mean;
      ledger, outcomes, recorded, counted, mean := RunCases(cfg, c, trials);
      results := recorded;
      score := mean;
      totals := counted.(cost := RoundMillionth(counted.cost));
    }

    /** A person's rating of result `i`: 1 to 5 stars. */
    method Rate(i: nat, stars: int) returns (r: Result<(), RatingError>)
      requires 1 <= stars <= 5
      modifies this
      ensures (State(), r) == Rated(old(State()), i, stars)
    {
      if i < |results| && results[i].kind == Judge && results[i].score.Some? {
        if results[i].humanScore.Some? {
          return Failure(AlreadyRated);
        }
        results := results[i := results[i].(humanScore := Some(stars * 20))];
        return Success(());
      }
      if |results| <= i || !results[i].pending {
        return Failure(NotPending);
      }
      SubmitManualRating(i, stars);
      return Success(());
    }

    method SubmitManualRating(i: nat, stars: int)
      requires i < |results|
      modifies this
      ensures State() == ManuallyRated(old(State()), i, stars)
    {
      results := results[i := results[i].(score := Some((stars * 20) as real), pending := false)];
      var remaining := HasPending(results);
      if !remaining && score == None {
        var sum, count := Tally(results);
        score := if count == 0 then None else Some(RoundTenth(sum / count as real));
      }
    }
  }

  method HasPending(results: seq<CaseResult>) returns (any: bool)
    ensures any <==> AnyPending(results)
  {
    any := false;
    for i := 0 to |results|
      invariant any <==> exists k :: 0 <= k < i && results[k].pending
    {
      any := any || results[i].pending;
    }
  }

  method Tally(results: seq<CaseResult>) returns (sum: real, count: nat)
    ensures sum == ScoreSum(results) && count == ScoreCount(results)
  {
    sum, count := 0.0, 0;
    for i := 0 to |results|
      invariant sum == ScoreSum(results[..i]) && count == ScoreCount(results[..i])
    {
      assert results[..i + 1][..i] == results[..i];
      if results[i].score.Some? {
        sum, count := sum + results[i].score.value, count + 1;
      }
    }
    assert results[..|results|] == results;
  }

  // ----- ratings -----

  datatype RatingError = AlreadyRated | NotPending

  ghost function ManuallyRated(run: RunState, i: nat, stars: int): RunState
    requires i < |run.results|
  {
    var results := run.results[i := run.results[i].(score := Some((stars * 20) as real), pending := false)];
    run.(results := results, score := if !AnyPending(results) && run.score.None? then MeanScore(results) else run.score)
  }

  ghost function Rated(run: RunState, i: nat, stars: int): (RunState, Result<(), RatingError>) {
    if i < |run.results| && run.results[i].kind == Judge && run.results[i].score.Some? then
      if run.results[i].humanScore.Some? then (run, Failure(AlreadyRated))
      else (run.(results := run.results[i := run.results[i].(humanScore := Some(stars * 20))]), Success(()))
    else if |run.results| <= i || !run.results[i].pending then (run, Failure(NotPending))
    else (ManuallyRated(run, i, stars), Success(()))
  }

  datatype Rating = Rating(result: nat, stars: int)

  ghost predicate StarsInRange(ratings: seq<Rating>) {
    forall k :: 0 <= k < |ratings| ==> 1 <= ratings[k].stars <= 5
  }

  ghost function AfterRatings(run: RunState, ratings: seq<Rating>): RunState
    decreases |ratings|
  {
    if ratings == [] then run else AfterRatings(Rated(run, ratings[0].result, ratings[0].stars).0, ratings[1..])
  }

  /** Changing what is not a score leaves the mean alone. */
  lemma {:induction false} SameScores(a: seq<CaseResult>, b: seq<CaseResult>)
    requires |a| == |b| && forall i :: 0 <= i < |a| ==> a[i].score == b[i].score
    ensures ScoreSum(a) == ScoreSum(b) && ScoreCount(a) == ScoreCount(b)
  {
    if a == [] {
    } else {
      SameScores(a[..|a| - 1], b[..|b| - 1]);
    }
  }

  lemma RatingKeepsInv(run: RunState, i: nat, stars: int)
    requires Inv(run) && 1 <= stars <= 5
    ensures Inv(Rated(run, i, stars).0)
  {
    var run' := Rated(run, i, stars).0;
    if run' != run {
      if run.results[i].kind == Judge {
        SameScores(run.results, run'.results);
        assert AnyPending(run'.results) == AnyPending(run.results) by {
          assert forall k :: 0 <= k < |run.results| ==> run'.results[k].pending == run.results[k].pending;
        }
      } else {
        assert run.results[i].pending && AnyPending(run.results);
      }
    }
  }

  /** After a run and any sequence of ratings, scores are in range and the run's is the rounded mean, or absent. */
  lemma {:induction false} RatingsKeepInv(run: RunState, ratings: seq<Rating>)
    requires Inv(run) && StarsInRange(ratings)
    ensures Inv(AfterRatings(run, ratings))
    ensures AfterRatings(run, ratings).score.Some? ==> InRange(AfterRatings(run, ratings).score.value)
    decreases |ratings|
  {
    if ratings == [] {
      if run.score.Some? {
        MeanInRange(run.results);
      }
    } else {
      RatingKeepsInv(run, ratings[0].result, ratings[0].stars);
      RatingsKeepInv(Rated(run, ratings[0].result, ratings[0].stars).0, ratings[1..]);
    }
  }

  /**
   The run is finalized by rating its last pending result, and by nothing else; a judge result's rating
   never counts.
   */
  lemma FinalizedByLastRating(run: RunState, i: nat, stars: int)
    requires Inv(run) && 1 <= stars <= 5
    ensures var run' := Rated(run, i, stars).0;
            && (run.score.None? && run'.score.Some? <==>
                  i < |run.results| && run.results[i].pending
                  && forall k :: 0 <= k < |run.results| && k != i ==> !run.results[k].pending)
            && (run.score.Some? ==> run'.score == run.score)
            && (i < |run.results| && run.results[i].kind == Judge ==> run'.score == run.score)
  {
    RatingKeepsInv(run, i, stars);
    var run' := Rated(run, i, stars).0;
    if i < |run.results| && run.results[i].pending {
      assert AnyPending(run.results);
      assert run'.results[i].score.Some?;
      ScoredCounts(run'.results, i);
      assert forall k :: 0 <= k < |run.results| && k != i ==> run'.results[k].pending == run.results[k].pending;
    } else if run' != run {
      SameScores(run.results, run'.results);
    }
  }

  lemma {:induction false} ScoredCounts(results: seq<CaseResult>, i: nat)
    requires i < |results| && results[i].score.Some?
    ensures 0 < ScoreCount(results)
  {
    if i == |results| - 1 {
    } else {
      ScoredCounts(results[..|results| - 1], i);
    }
  }

  // ----- what results and ratings record -----

  /** The score the judge's JSON holds, if the exchange brought JSON. */
  ghost function Judged(t: Trial): Option<int> {
    if ReturnsJson(t.first, t.second, t.capability) then t.judged else None
  }

  /**
   What is recorded for a case: nothing when its run failed; a pending result for a person to rate; the
   judge's score held to 0..100; or the rule's score of the output.
   */
  lemma ResultExactly(cfg: Config, c: Connection, t: Trial, o: CaseOutcome)
    requires OutcomeFits(cfg, c, t, o)
    ensures var r := ResultFor(t, o);
            && r.kind == t.kind && r.humanScore == None
            && (r.pending <==> t.execution.RunOk? && t.kind == Manual)
            && (match t.execution
                case RunFailed(_) => r.score == None
                case RunOk(_, output, _) =>
                  match t.kind
                  case Manual => r.score == None
                  case Rule => r.score == RuleScore(t.criteria, output, t.checks)
                  case Judge =>
                    && (r.score.Some? <==> Judged(t).Some?)
                    && (r.score.Some? ==>
                          var s := Judged(t).value;
                          r.score.value == if s < 0 then 0.0 else if s > 100 then 100.0 else s as real))
  {
  }

  /** A rating records 20 points a star in the one result rated: beside a judge's score, or as a pending one's score. */
  lemma RatedExactly(run: RunState, i: nat, stars: int)
    ensures var (run', r) := Rated(run, i, stars);
            && (r.Failure? ==> run' == run)
            && (r.Success? <==>
                  && i < |run.results|
                  && var before := run.results[i];
                     if before.kind == Judge && before.score.Some? then before.humanScore.None? else before.pending)
            && |run'.results| == |run.results| && run'.totals == run.totals
            && (forall k :: 0 <= k < |run.results| && k != i ==> run'.results[k] == run.results[k])
            && (r.Success? ==>
                  var before, after := run.results[i], run'.results[i];
                  if before.kind == Judge && before.score.Some? then
                    after == before.(humanScore := Some(20 * stars))
                  else after == before.(score := Some(20.0 * stars as real), pending := false))
  {
  }

  // ----- the time a run counts -----

  /** The calls that succeeded: every run that did, and every grading that gave a grade. */
  function SuccessfulCalls(trials: seq<Trial>): nat {
    if trials == [] then 0 else
      var last := trials[|trials| - 1];
      SuccessfulCalls(trials[..|trials| - 1]) + (if last.execution.RunOk? then 1 else 0)
      + (if IsGraded(last) then 1 else 0)
  }

  lemma {:induction false} SuccessesCounted(cfg: Config, c: Connection, trials: seq<Trial>, outcomes: seq<CaseOutcome>)
    requires |trials| == |outcomes|
    requires forall i :: 0 <= i < |trials| ==> OutcomeFits(cfg, c, trials[i], outcomes[i])
    ensures AllSucceeded(outcomes) == SuccessfulCalls(trials)
  {
    if trials == [] {
    } else {
      var k := |trials| - 1;
      SuccessesCounted(cfg, c, trials[..k], outcomes[..k]);
      assert OutcomeFits(cfg, c, trials[k], outcomes[k]);
    }
  }

  function Latencies(trials: seq<Trial>): nat {
    if trials == [] then 0 else Latencies(trials[..|trials| - 1]) + LatencyOf(trials[|trials| - 1])
  }

  lemma LatencyOn(cfg: Config, c: Connection, outcomes: seq<CaseOutcome>)
    requires outcomes != []
    ensures TallyOf(AllCalls(cfg, c, outcomes)).latency
         == TallyOf(AllCalls(cfg, c, outcomes[..|outcomes| - 1])).latency
          + TallyOf(CallsOf(cfg, c, outcomes[|outcomes| - 1])).latency
  {
    TallyAppend(AllCalls(cfg, c, outcomes[..|outcomes| - 1]), CallsOf(cfg, c, outcomes[|outcomes| - 1]));
  }

  /** A run's latency is that of its runs and grades; failed calls take none. */
  lemma {:induction false} RunLatency(cfg: Config, c: Connection, trials: seq<Trial>, outcomes: seq<CaseOutcome>)
    requires |trials| == |outcomes|
    requires forall i :: 0 <= i < |trials| ==> OutcomeFits(cfg, c, trials[i], outcomes[i])
    ensures TallyOf(AllCalls(cfg, c, outcomes)).latency == Latencies(trials)
  {
    if trials == [] {
    } else {
      var k := |trials| - 1;
      RunLatency(cfg, c, trials[..k], outcomes[..k]);
      LatencyCounted(cfg, c, trials[k], outcomes[k]);
      LatencyOn(cfg, c, outcomes);
    }
  }
}
