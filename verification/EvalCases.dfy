/**
 One case of an evaluation: what running and grading it brings, what is billed for it, and what the
 run's totals count of it - tokens, latency and cost.
 */
module EvalCases {
  import opened Criteria
  import opened LlmClient
  import opened Pricing
  import opened Scores
  import opened Wrappers

  datatype Source = EvalCase | EvalJudge

  /** A ledger row. */
  datatype Billed = Billed(source: Source, usage: Usage, cost: real)

  /** A call as the run's totals count it. */
  datatype Call = Call(usage: Usage, latency: nat, cost: real)

  datatype Totals = Totals(usage: Usage, latency: nat, cost: real)

  // ----- what calls cost -----

  function RoundMillionth(x: real): real {
    RoundHalfEven(x * 1_000_000.0) as real / 1_000_000.0
  }

  lemma RoundingIsNear(x: real)
    ensures -0.0000005 <= RoundMillionth(x) - x <= 0.0000005
  {
    var y := x * 1_000_000.0;
    assert -0.5 <= RoundHalfEven(y) as real - y <= 0.5;
    assert RoundMillionth(x) * 1_000_000.0 == RoundHalfEven(y) as real;
  }

  /** The nearest whole number of millionths. */
  lemma RoundsToMillionth(x: real, millionths: int)
    ensures RoundMillionth(x) == millionths as real / 1_000_000.0 <==> IsNearest(millionths, 1_000_000.0 * x)
  {
    RoundsToNearest(x * 1_000_000.0, millionths);
  }

  /** A successful call shows its published cost, rounded; its ledger row may assume more. */
  function Shown(cfg: Config, c: Connection, u: Usage, latency: nat): Call {
    Call(u, latency, RoundMillionth(CostUsd(cfg, c, u, false)))
  }

  function Row(cfg: Config, c: Connection, source: Source, u: Usage): Billed {
    Billed(source, u, PricedCost(cfg, c, u))
  }

  function TallyOf(calls: seq<Call>): Totals {
    if calls == [] then Totals(Usage(0, 0), 0, 0.0) else
      Counted(TallyOf(calls[..|calls| - 1]), calls[|calls| - 1])
  }

  function Counted(totals: Totals, call: Call): Totals {
    Totals(Plus(totals.usage, call.usage), totals.latency + call.latency, totals.cost + call.cost)
  }

  function Together(a: Totals, b: Totals): Totals {
    Totals(Plus(a.usage, b.usage), a.latency + b.latency, a.cost + b.cost)
  }

  lemma {:induction false} TallyAppend(a: seq<Call>, b: seq<Call>)
    ensures TallyOf(a + b) == Together(TallyOf(a), TallyOf(b))
  {
    if b == [] {
      assert a + b == a;
    } else {
      var front, last := b[..|b| - 1], b[|b| - 1];
      assert (a + b)[..|a + b| - 1] == a + front && (a + b)[|a + b| - 1] == last;
      TallyAppend(a, front);
    }
  }

  function LedgerCost(rows: seq<Billed>): real {
    if rows == [] then 0.0 else LedgerCost(rows[..|rows| - 1]) + rows[|rows| - 1].cost
  }

  lemma {:induction false} LedgerCostAppend(a: seq<Billed>, b: seq<Billed>)
    ensures LedgerCost(a + b) == LedgerCost(a) + LedgerCost(b)
  {
    if b == [] {
      assert a + b == a;
    } else {
      var front, last := b[..|b| - 1], b[|b| - 1];
      assert (a + b)[..|a + b| - 1] == a + front && (a + b)[|a + b| - 1] == last;
      LedgerCostAppend(a, front);
    }
  }

  // ----- executing a case -----

  /** Running the prompt: a response may have been received even when the run then failed. */
  datatype Execution =
    | RunOk(usage: Usage, output: string, latency: nat)
    | RunFailed(captured: seq<Usage>)

  /** What the world does with one case: its run, the judge's two attempts, time and answer, the rule's checks. */
  datatype Trial = Trial(
    kind: Method,
    execution: Execution,
    capability: StructuredOutput,
    first: Attempt,
    second: Attempt,
    judgeLatency: nat,
    judged: Option<int>,
    criteria: Option<string>,
    checks: Checks)

  datatype CaseOutcome = CaseOutcome(result: Option<Call>, judge: Option<(int, Call)>, failed: seq<(Source, Usage)>)

  /** Every provider response the case received. */
  function Responses(t: Trial): seq<Usage> {
    match t.execution
    case RunFailed(captured) => captured
    case RunOk(usage, _, _) => [usage] + if t.kind == Judge then Received(t.first, t.second, t.capability) else []
  }

  function Tagged(source: Source, usages: seq<Usage>): seq<(Source, Usage)> {
    seq(|usages|, i requires 0 <= i < |usages| => (source, usages[i]))
  }

  function Usages(rows: seq<Billed>): seq<Usage> {
    seq(|rows|, i requires 0 <= i < |rows| => rows[i].usage)
  }

  function FailedRows(cfg: Config, c: Connection, failed: seq<(Source, Usage)>): seq<Billed> {
    seq(|failed|, i requires 0 <= i < |failed| => Row(cfg, c, failed[i].0, failed[i].1))
  }

  /** What the outcome will be billed as, one row per call or per captured response. */
  function BilledFor(cfg: Config, c: Connection, o: CaseOutcome): seq<Billed> {
    FailedRows(cfg, c, o.failed)
    + (if o.result.Some? then [Row(cfg, c, EvalCase, o.result.value.usage)] else [])
    + (if o.judge.Some? then [Row(cfg, c, EvalJudge, o.judge.value.1.usage)] else [])
  }

  function FailedCalls(cfg: Config, c: Connection, failed: seq<(Source, Usage)>): seq<Call> {
    seq(|failed|, i requires 0 <= i < |failed| => Call(failed[i].1, 0, PricedCost(cfg, c, failed[i].1)))
  }

  /** What the outcome adds to the totals: responses of failed calls count no latency, and cost what the ledger says. */
  function CallsOf(cfg: Config, c: Connection, o: CaseOutcome): seq<Call> {
    FailedCalls(cfg, c, o.failed)
    + (if o.result.Some? then [o.result.value] else [])
    + (if o.judge.Some? then [o.judge.value.1] else [])
  }

  /** The tokens of what the outcome will be billed as. */
  ghost function BilledUsages(o: CaseOutcome): seq<Usage> {
    seq(|o.failed|, i requires 0 <= i < |o.failed| => o.failed[i].1)
    + (if o.result.Some? then [o.result.value.usage] else [])
    + (if o.judge.Some? then [o.judge.value.1.usage] else [])
  }

  predicate IsGraded(t: Trial) {
    t.execution.RunOk? && t.kind == Judge && ReturnsJson(t.first, t.second, t.capability) && t.judged.Some?
  }

  /**
   The case ran, and was graded when the judge's JSON held a score; every response is billed once, as
   what it was for.
   */
  ghost predicate OutcomeFits(cfg: Config, c: Connection, t: Trial, o: CaseOutcome) {
    && o.result == (match t.execution
                    case RunOk(usage, _, latency) => Some(Shown(cfg, c, usage, latency))
                    case RunFailed(_) => None)
    && (o.judge.Some? <==> IsGraded(t))
    && (o.judge.Some? ==>
          && o.judge.value.0 == Clamp(t.judged.value)
          && o.judge.value.1 == Shown(cfg, c, Total(Received(t.first, t.second, t.capability)), t.judgeLatency))
    && (forall b :: b in o.failed ==> b.0 == if t.execution.RunFailed? then EvalCase else EvalJudge)
    && Total(BilledUsages(o)) == Total(Responses(t))
  }

  lemma UsagesOfBilled(cfg: Config, c: Connection, o: CaseOutcome)
    ensures Usages(BilledFor(cfg, c, o)) == BilledUsages(o)
  {
    assert Usages(FailedRows(cfg, c, o.failed)) == BilledUsages(o.(result := None, judge := None));
  }

  lemma UsagesOfFailed(source: Source, captured: seq<Usage>)
    ensures BilledUsages(CaseOutcome(None, None, Tagged(source, captured))) == captured
  {
  }

  lemma UsagesUngraded(result: Call, captured: seq<Usage>)
    ensures BilledUsages(CaseOutcome(Some(result), None, Tagged(EvalJudge, captured))) == captured + [result.usage]
  {
  }

  lemma UsagesGraded(result: Call, judge: (int, Call))
    ensures BilledUsages(CaseOutcome(Some(result), Some(judge), [])) == [result.usage] + [judge.1.usage]
  {
  }

  method ExecuteCase(cfg: Config, c: Connection, t: Trial) returns (o: CaseOutcome)
    ensures OutcomeFits(cfg, c, t, o)
  {
    match t.execution
    case RunFailed(captured) =>
      o := CaseOutcome(None, None, Tagged(EvalCase, captured));
      UsagesOfFailed(EvalCase, captured);
    case RunOk(usage, _, latency) =>
      var result := Shown(cfg, c, usage, latency);
      if t.kind != Judge {
        o := CaseOutcome(Some(result), None, []);
        assert BilledUsages(o) == [usage] == Responses(t);
        return;
      }
      var completion, captured := JsonCompletion(t.capability, t.first, t.second);
      if completion.Parsed? && t.judged.Some? {
        var grade := Shown(cfg, c, completion.usage, t.judgeLatency);
        o := CaseOutcome(Some(result), Some((Clamp(t.judged.value), grade)), []);
        UsagesGraded(result, o.judge.value);
        TotalOn([usage], completion.usage);
        TotalAppend([usage], captured);
      } else {
        o := CaseOutcome(Some(result), None, Tagged(EvalJudge, captured));
        UsagesUngraded(result, captured);
        TotalAppend(captured, [usage]);
        TotalAppend([usage], captured);
      }
  }

  // ----- billing -----

  /** Record a case's billed calls, adding each one to the totals. */
  method Bill(cfg: Config, c: Connection, o: CaseOutcome, totals: Totals)
    returns (billed: seq<Billed>, totals': Totals)
    ensures billed == BilledFor(cfg, c, o)
    ensures totals' == Together(totals, TallyOf(CallsOf(cfg, c, o)))
  {
    ghost var calls := FailedCalls(cfg, c, o.failed);
    billed, totals' := BillFailed(cfg, c, o.failed, totals);
    if o.result.Some? {
      billed := billed + [Row(cfg, c, EvalCase, o.result.value.usage)];
      CountOne(calls, o.result.value);
      totals', calls := Counted(totals', o.result.value), calls + [o.result.value];
    }
    if o.judge.Some? {
      billed := billed + [Row(cfg, c, EvalJudge, o.judge.value.1.usage)];
      CountOne(calls, o.judge.value.1);
      totals', calls := Counted(totals', o.judge.value.1), calls + [o.judge.value.1];
    }
    assert calls == CallsOf(cfg, c, o);
  }

  method BillFailed(cfg: Config, c: Connection, failed: seq<(Source, Usage)>, totals: Totals)
    returns (billed: seq<Billed>, totals': Totals)
    ensures billed == FailedRows(cfg, c, failed)
    ensures totals' == Together(totals, TallyOf(FailedCalls(cfg, c, failed)))
  {
    billed, totals' := [], totals;
    for k := 0 to |failed|
      invariant billed == FailedRows(cfg, c, failed[..k])
      invariant totals' == Together(totals, TallyOf(FailedCalls(cfg, c, failed[..k])))
    {
      var row := Row(cfg, c, failed[k].0, failed[k].1);
      FailedOn(cfg, c, failed, k);
      billed := billed + [row];
      totals' := Counted(totals', Call(failed[k].1, 0, row.cost));
    }
    assert failed[..|failed|] == failed;
  }

  lemma FailedOn(cfg: Config, c: Connection, failed: seq<(Source, Usage)>, k: nat)
    requires k < |failed|
    ensures FailedRows(cfg, c, failed[..k + 1])
            == FailedRows(cfg, c, failed[..k]) + [Row(cfg, c, failed[k].0, failed[k].1)]
    ensures TallyOf(FailedCalls(cfg, c, failed[..k + 1])) ==
            Counted(TallyOf(FailedCalls(cfg, c, failed[..k])), Call(failed[k].1, 0, PricedCost(cfg, c, failed[k].1)))
  {
    assert FailedCalls(cfg, c, failed[..k + 1])[..k] == FailedCalls(cfg, c, failed[..k]);
  }

  lemma CountOne(calls: seq<Call>, call: Call)
    ensures TallyOf(calls + [call]) == Counted(TallyOf(calls), call)
  {
    assert (calls + [call])[..|calls|] == calls;
  }

  function AllBilled(cfg: Config, c: Connection, outcomes: seq<CaseOutcome>): seq<Billed> {
    if outcomes == [] then [] else
      AllBilled(cfg, c, outcomes[..|outcomes| - 1]) + BilledFor(cfg, c, outcomes[|outcomes| - 1])
  }

  function AllCalls(cfg: Config, c: Connection, outcomes: seq<CaseOutcome>): seq<Call> {
    if outcomes == [] then [] else
      AllCalls(cfg, c, outcomes[..|outcomes| - 1]) + CallsOf(cfg, c, outcomes[|outcomes| - 1])
  }

  lemma TokensCounted(cfg: Config, c: Connection, o: CaseOutcome)
    ensures TallyOf(CallsOf(cfg, c, o)).usage == Total(BilledUsages(o))
  {
    var calls := CallsOf(cfg, c, o);
    UsagesOfTally(calls);
    assert CallUsages(calls) == BilledUsages(o);
  }

  function CallUsages(calls: seq<Call>): seq<Usage> {
    seq(|calls|, i requires 0 <= i < |calls| => calls[i].usage)
  }

  lemma {:induction false} UsagesOfTally(calls: seq<Call>)
    ensures TallyOf(calls).usage == Total(CallUsages(calls))
  {
    if calls == [] {
    } else {
      var front, last := calls[..|calls| - 1], calls[|calls| - 1];
      UsagesOfTally(front);
      TotalOn(CallUsages(front), last.usage);
      assert CallUsages(calls) == CallUsages(front) + [last.usage];
    }
  }

  function AllResponses(trials: seq<Trial>): seq<Usage> {
    if trials == [] then [] else AllResponses(trials[..|trials| - 1]) + Responses(trials[|trials| - 1])
  }

  /** Billing one more case adds the tokens of its responses to the ledger. */
  lemma TokensOn(cfg: Config, c: Connection, ledger: seq<Billed>, o: CaseOutcome, t: Trial)
    requires OutcomeFits(cfg, c, t, o)
    ensures Total(Usages(ledger + BilledFor(cfg, c, o))) == Plus(Total(Usages(ledger)), Total(Responses(t)))
  {
    UsagesOfBilled(cfg, c, o);
    UsagesAppend(ledger, BilledFor(cfg, c, o));
    TotalAppend(Usages(ledger), BilledUsages(o));
  }

  lemma UsagesAppend(a: seq<Billed>, b: seq<Billed>)
    ensures Usages(a + b) == Usages(a) + Usages(b)
  {
  }

  lemma ResponsesOn(trials: seq<Trial>, i: nat)
    requires i < |trials|
    ensures Total(AllResponses(trials[..i + 1])) == Plus(Total(AllResponses(trials[..i])), Total(Responses(trials[i])))
  {
    assert trials[..i + 1][..i] == trials[..i];
    TotalAppend(AllResponses(trials[..i]), Responses(trials[i]));
  }

  // ----- the run's cost against the ledger's -----

  const HALF_MILLIONTH := 0.0000005

  predicate WithinHalf(x: real) {
    -HALF_MILLIONTH <= x <= HALF_MILLIONTH
  }

  /** What is shown for a call is what the ledger records for it, up to rounding. */
  predicate ShownAsBilled(cfg: Config, c: Connection, u: Usage) {
    WithinHalf(RoundMillionth(CostUsd(cfg, c, u, false)) - PricedCost(cfg, c, u))
  }

  /** No limit is set, or rates are known and assumed tokens cost next to nothing at these rates. */
  predicate AssumesNothing(cfg: Config, c: Connection) {
    || !AnyLimit(cfg)
    || (RatesFor(cfg, c).Some? && WithinHalf(CostAt(RatesFor(cfg, c).value, ASSUMED_USAGE)))
  }

  lemma RoundingOfZero()
    ensures RoundMillionth(0.0) == 0.0
  {
  }

  lemma PublishedIsBilled(cfg: Config, c: Connection, u: Usage)
    requires AsPublished(cfg, c, u)
    ensures ShownAsBilled(cfg, c, u)
  {
    RoundingIsNear(CostUsd(cfg, c, u, false));
  }

  /** The usage whose cost the ledger assumes: none reported, or one token at rates that are not known. */
  predicate IsUnshown(cfg: Config, c: Connection, u: Usage) {
    if RatesFor(cfg, c).Some? then NoTokens(u) else OneToken(u)
  }

  predicate OneToken(u: Usage) {
    u.promptTokens == 1 && u.completionTokens == 0
  }

  lemma ShownForNothing(cfg: Config, c: Connection, u: Usage, billed: real)
    requires CostUsd(cfg, c, u, false) == 0.0 && PricedCost(cfg, c, u) == billed
    ensures ShownAsBilled(cfg, c, u) <==> WithinHalf(billed)
  {
    RoundingOfZero();
  }

  lemma UnreportedIsBilled(cfg: Config, c: Connection, u: Usage)
    requires AnyLimit(cfg) && RatesFor(cfg, c).Some? && NoTokens(u)
    ensures ShownAsBilled(cfg, c, u) <==> WithinHalf(CostAt(RatesFor(cfg, c).value, ASSUMED_USAGE))
  {
    var assumed := CostAt(RatesFor(cfg, c).value, ASSUMED_USAGE);
    assert CostUsd(cfg, c, u, false) == 0.0 && PricedCost(cfg, c, u) == assumed;
    ShownForNothing(cfg, c, u, assumed);
  }

  lemma UnpricedIsBilled(cfg: Config, c: Connection, u: Usage)
    requires AnyLimit(cfg) && RatesFor(cfg, c).None? && OneToken(u)
    ensures !ShownAsBilled(cfg, c, u)
  {
    assert CostUsd(cfg, c, u, false) == 0.0 && PricedCost(cfg, c, u) == 0.000015;
    ShownForNothing(cfg, c, u, 0.000015);
  }

  lemma UnshownIsBilled(cfg: Config, c: Connection, u: Usage)
    requires !AssumesNothing(cfg, c) && IsUnshown(cfg, c, u)
    ensures !ShownAsBilled(cfg, c, u)
  {
    if RatesFor(cfg, c).Some? {
      UnreportedIsBilled(cfg, c, u);
    } else {
      UnpricedIsBilled(cfg, c, u);
    }
  }

  lemma ShownWhenNothingAssumed(cfg: Config, c: Connection, u: Usage)
    requires AssumesNothing(cfg, c)
    ensures ShownAsBilled(cfg, c, u)
  {
    if AnyLimit(cfg) && NoTokens(u) {
      UnreportedIsBilled(cfg, c, u);
    } else {
      PublishedIsBilled(cfg, c, u);
    }
  }

  ghost predicate AllAsBilled(cfg: Config, c: Connection, outcomes: seq<CaseOutcome>) {
    forall o :: o in outcomes ==>
      && (o.result.Some? ==> ShownAsBilled(cfg, c, o.result.value.usage))
      && (o.judge.Some? ==> ShownAsBilled(cfg, c, o.judge.value.1.usage))
  }

  function Succeeded(o: CaseOutcome): nat {
    (if o.result.Some? then 1 else 0) + (if o.judge.Some? then 1 else 0)
  }

  function AllSucceeded(outcomes: seq<CaseOutcome>): nat {
    if outcomes == [] then 0 else AllSucceeded(outcomes[..|outcomes| - 1]) + Succeeded(outcomes[|outcomes| - 1])
  }

  /** The shown costs are those of `Shown`. */
  ghost predicate CostsShown(cfg: Config, c: Connection, o: CaseOutcome) {
    && (o.result.Some? ==> o.result.value.cost == RoundMillionth(CostUsd(cfg, c, o.result.value.usage, false)))
    && (o.judge.Some? ==> o.judge.value.1.cost == RoundMillionth(CostUsd(cfg, c, o.judge.value.1.usage, false)))
  }

  lemma {:induction false} FailedCostsAgree(cfg: Config, c: Connection, failed: seq<(Source, Usage)>)
    ensures TallyOf(FailedCalls(cfg, c, failed)).cost == LedgerCost(FailedRows(cfg, c, failed))
  {
    if failed == [] {
    } else {
      var front := failed[..|failed| - 1];
      FailedCostsAgree(cfg, c, front);
      assert FailedCalls(cfg, c, failed)[..|front|] == FailedCalls(cfg, c, front);
      assert FailedRows(cfg, c, failed)[..|front|] == FailedRows(cfg, c, front);
    }
  }

  lemma TallyOptional(call: Option<Call>)
    ensures TallyOf(if call.Some? then [call.value] else []).cost == if call.Some? then call.value.cost else 0.0
  {
    assert call.Some? ==> [call.value][..0] == [];
  }

  lemma LedgerOptional(row: Option<Billed>)
    ensures LedgerCost(if row.Some? then [row.value] else []) == if row.Some? then row.value.cost else 0.0
  {
    assert row.Some? ==> [row.value][..0] == [];
  }

  ghost predicate OutcomeWithin(cfg: Config, c: Connection, o: CaseOutcome) {
    -Times(Succeeded(o), HALF_MILLIONTH)
    <= TallyOf(CallsOf(cfg, c, o)).cost - LedgerCost(BilledFor(cfg, c, o)) <= Times(Succeeded(o), HALF_MILLIONTH)
  }

  lemma OutcomeCost(cfg: Config, c: Connection, o: CaseOutcome)
    requires CostsShown(cfg, c, o) && AllAsBilled(cfg, c, [o])
    ensures OutcomeWithin(cfg, c, o)
  {
    assert o in [o];
    FailedCostsAgree(cfg, c, o.failed);
    TallyOfCalls(cfg, c, o);
    LedgerOfRows(cfg, c, o);
    assert Times(1, HALF_MILLIONTH) == HALF_MILLIONTH && Times(2, HALF_MILLIONTH) == HALF_MILLIONTH + HALF_MILLIONTH;
  }

  lemma TallyOfCalls(cfg: Config, c: Connection, o: CaseOutcome)
    ensures TallyOf(CallsOf(cfg, c, o)).cost
         == TallyOf(FailedCalls(cfg, c, o.failed)).cost + (if o.result.Some? then o.result.value.cost else 0.0)
          + (if o.judge.Some? then o.judge.value.1.cost else 0.0)
  {
    var failed := FailedCalls(cfg, c, o.failed);
    var result: seq<Call> := if o.result.Some? then [o.result.value] else [];
    var judge: seq<Call> := if o.judge.Some? then [o.judge.value.1] else [];
    TallyAppend(failed + result, judge);
    TallyAppend(failed, result);
    TallyOptional(o.result);
    TallyOptional(if o.judge.Some? then Some(o.judge.value.1) else None);
  }

  lemma LedgerOfRows(cfg: Config, c: Connection, o: CaseOutcome)
    ensures LedgerCost(BilledFor(cfg, c, o))
         == LedgerCost(FailedRows(cfg, c, o.failed))
          + (if o.result.Some? then PricedCost(cfg, c, o.result.value.usage) else 0.0)
          + (if o.judge.Some? then PricedCost(cfg, c, o.judge.value.1.usage) else 0.0)
  {
    var failed := FailedRows(cfg, c, o.failed);
    var result := if o.result.Some? then Some(Row(cfg, c, EvalCase, o.result.value.usage)) else None;
    var judge := if o.judge.Some? then Some(Row(cfg, c, EvalJudge, o.judge.value.1.usage)) else None;
    var a: seq<Billed> := if result.Some? then [result.value] else [];
    var b: seq<Billed> := if judge.Some? then [judge.value] else [];
    LedgerCostAppend(failed + a, b);
    LedgerCostAppend(failed, a);
    LedgerOptional(result);
    LedgerOptional(judge);
  }

  /**
   The counted cost differs from the cost of the ledger rows by at most half a millionth of a dollar for
   each successful call.
   */
  ghost predicate CostsWithin(cfg: Config, c: Connection, outcomes: seq<CaseOutcome>) {
    -Times(AllSucceeded(outcomes), HALF_MILLIONTH)
    <= TallyOf(AllCalls(cfg, c, outcomes)).cost - LedgerCost(AllBilled(cfg, c, outcomes))
    <= Times(AllSucceeded(outcomes), HALF_MILLIONTH)
  }

  lemma CostStep(cfg: Config, c: Connection, outcomes: seq<CaseOutcome>)
    requires outcomes != [] && CostsWithin(cfg, c, outcomes[..|outcomes| - 1])
    requires OutcomeWithin(cfg, c, outcomes[|outcomes| - 1])
    ensures CostsWithin(cfg, c, outcomes)
  {
    var front, last := outcomes[..|outcomes| - 1], outcomes[|outcomes| - 1];
    CostsOn(cfg, c, outcomes);
    TimesSum(AllSucceeded(front), Succeeded(last), HALF_MILLIONTH);
  }

  lemma NothingWithin(cfg: Config, c: Connection, outcomes: seq<CaseOutcome>)
    requires outcomes == []
    ensures CostsWithin(cfg, c, outcomes)
  {
  }

  /** When every successful call shows what is billed for it, the run's costs agree so. */
  lemma {:induction false} CostMatchesLedger(cfg: Config, c: Connection, outcomes: seq<CaseOutcome>)
    requires AllAsBilled(cfg, c, outcomes) && forall o :: o in outcomes ==> CostsShown(cfg, c, o)
    ensures CostsWithin(cfg, c, outcomes)
  {
    if outcomes == [] {
      NothingWithin(cfg, c, outcomes);
    } else {
      var last := outcomes[|outcomes| - 1];
      assert last in outcomes;
      CostMatchesLedger(cfg, c, outcomes[..|outcomes| - 1]);
      OutcomeCost(cfg, c, last);
      CostStep(cfg, c, outcomes);
    }
  }

  lemma CostsOn(cfg: Config, c: Connection, outcomes: seq<CaseOutcome>)
    requires outcomes != []
    ensures var front, last := outcomes[..|outcomes| - 1], outcomes[|outcomes| - 1];
            && TallyOf(AllCalls(cfg, c, outcomes)).cost
                == TallyOf(AllCalls(cfg, c, front)).cost + TallyOf(CallsOf(cfg, c, last)).cost
            && LedgerCost(AllBilled(cfg, c, outcomes))
                == LedgerCost(AllBilled(cfg, c, front)) + LedgerCost(BilledFor(cfg, c, last))
  {
    var front, last := outcomes[..|outcomes| - 1], outcomes[|outcomes| - 1];
    TallyAppend(AllCalls(cfg, c, front), CallsOf(cfg, c, last));
    LedgerCostAppend(AllBilled(cfg, c, front), BilledFor(cfg, c, last));
  }

  // ----- what each row is for, and how long the calls took -----

  /** What is billed for one purpose. */
  function UsagesFor(rows: seq<Billed>, source: Source): seq<Usage> {
    if rows == [] then [] else
      var last := rows[|rows| - 1];
      UsagesFor(rows[..|rows| - 1], source) + if last.source == source then [last.usage] else []
  }

  lemma UsagesForOn(rows: seq<Billed>, row: Billed, source: Source)
    ensures UsagesFor(rows + [row], source)
         == UsagesFor(rows, source) + if row.source == source then [row.usage] else []
  {
    assert (rows + [row])[..|rows|] == rows;
  }

  lemma {:induction false} AllForOne(rows: seq<Billed>, source: Source)
    requires forall i :: 0 <= i < |rows| ==> rows[i].source == source
    ensures UsagesFor(rows, source) == Usages(rows)
    ensures forall other :: other != source ==> UsagesFor(rows, other) == []
  {
    if rows == [] {
    } else {
      var front, last := rows[..|rows| - 1], rows[|rows| - 1];
      AllForOne(front, source);
      assert Usages(rows) == Usages(front) + [last.usage];
    }
  }

  /** The latency counted for one case: its run's, and the grading's if there was a grade. */
  function LatencyOf(t: Trial): nat {
    match t.execution
    case RunFailed(_) => 0
    case RunOk(_, _, latency) => latency + if IsGraded(t) then t.judgeLatency else 0
  }

  lemma {:induction false} FailedTakeNoTime(cfg: Config, c: Connection, failed: seq<(Source, Usage)>)
    ensures TallyOf(FailedCalls(cfg, c, failed)).latency == 0
  {
    if failed == [] {
    } else {
      var front := failed[..|failed| - 1];
      FailedTakeNoTime(cfg, c, front);
      assert FailedCalls(cfg, c, failed)[..|front|] == FailedCalls(cfg, c, front);
    }
  }

  lemma OneLatency(call: Option<Call>)
    ensures TallyOf(if call.Some? then [call.value] else []).latency == if call.Some? then call.value.latency else 0
  {
    assert call.Some? ==> [call.value][..0] == [];
  }

  lemma LatencyOfCalls(cfg: Config, c: Connection, o: CaseOutcome)
    ensures TallyOf(CallsOf(cfg, c, o)).latency
         == (if o.result.Some? then o.result.value.latency else 0)
          + (if o.judge.Some? then o.judge.value.1.latency else 0)
  {
    var failed := FailedCalls(cfg, c, o.failed);
    var result: seq<Call> := if o.result.Some? then [o.result.value] else [];
    var judge: seq<Call> := if o.judge.Some? then [o.judge.value.1] else [];
    TallyAppend(failed + result, judge);
    TallyAppend(failed, result);
    FailedTakeNoTime(cfg, c, o.failed);
    OneLatency(o.result);
    OneLatency(if o.judge.Some? then Some(o.judge.value.1) else None);
  }

  lemma LatencyCounted(cfg: Config, c: Connection, t: Trial, o: CaseOutcome)
    requires OutcomeFits(cfg, c, t, o)
    ensures TallyOf(CallsOf(cfg, c, o)).latency == LatencyOf(t)
  {
    LatencyOfCalls(cfg, c, o);
  }

  lemma FailedRowsFor(cfg: Config, c: Connection, failed: seq<(Source, Usage)>, source: Source)
    requires forall b :: b in failed ==> b.0 == source
    ensures UsagesFor(FailedRows(cfg, c, failed), source) == Usages(FailedRows(cfg, c, failed))
    ensures forall other :: other != source ==> UsagesFor(FailedRows(cfg, c, failed), other) == []
  {
    assert forall i :: 0 <= i < |failed| ==> FailedRows(cfg, c, failed)[i].source == failed[i].0;
    AllForOne(FailedRows(cfg, c, failed), source);
  }

  function UsageIf(u: Option<Usage>): seq<Usage> {
    if u.Some? then [u.value] else []
  }

  function ResultUsage(o: CaseOutcome): Option<Usage> {
    if o.result.Some? then Some(o.result.value.usage) else None
  }

  function JudgeUsage(o: CaseOutcome): Option<Usage> {
    if o.judge.Some? then Some(o.judge.value.1.usage) else None
  }

  /** The rows of an outcome by purpose: running the case, and grading it. */
  lemma RowsByPurpose(cfg: Config, c: Connection, o: CaseOutcome)
    ensures var rows, failed := BilledFor(cfg, c, o), FailedRows(cfg, c, o.failed);
            && UsagesFor(rows, EvalCase) == UsagesFor(failed, EvalCase) + UsageIf(ResultUsage(o))
            && UsagesFor(rows, EvalJudge) == UsagesFor(failed, EvalJudge) + UsageIf(JudgeUsage(o))
  {
    var failed := FailedRows(cfg, c, o.failed);
    var rows := failed;
    if o.result.Some? {
      var row := Row(cfg, c, EvalCase, o.result.value.usage);
      UsagesForOn(rows, row, EvalCase);
      UsagesForOn(rows, row, EvalJudge);
      rows := rows + [row];
    }
    if o.judge.Some? {
      var row := Row(cfg, c, EvalJudge, o.judge.value.1.usage);
      UsagesForOn(rows, row, EvalCase);
      UsagesForOn(rows, row, EvalJudge);
      rows := rows + [row];
    }
    assert rows == BilledFor(cfg, c, o);
  }

  /** The tokens billed for grading are what is billed in all, less the run's. */
  lemma TotalLess(a: seq<Usage>, u: Usage, b: seq<Usage>, received: seq<Usage>)
    requires Total(a + [u] + b) == Total([u] + received)
    ensures Total(a + b) == Total(received)
  {
    TotalOfThree(a, u, b);
    TotalAfter(u, received);
    TotalAppend(a, b);
    PlusLess(Total(a), u, Total(b), Total(received));
  }

  lemma PlusLess(x: Usage, u: Usage, y: Usage, rest: Usage)
    requires Plus(Plus(x, u), y) == Plus(u, rest)
    ensures Plus(x, y) == rest
  {
  }

  lemma TotalOfThree(a: seq<Usage>, u: Usage, b: seq<Usage>)
    ensures Total(a + [u] + b) == Plus(Plus(Total(a), u), Total(b))
  {
    TotalAppend(a + [u], b);
    TotalOn(a, u);
  }

  lemma TotalAfter(u: Usage, b: seq<Usage>)
    ensures Total([u] + b) == Plus(u, Total(b))
  {
    var none: seq<Usage> := [];
    TotalAppend([u], b);
    TotalOn(none, u);
    assert none + [u] == [u];
  }

  /** Every response is billed as what it was for: the run's as the case's, the judge's as the judge's. */
  lemma PurposesExactly(cfg: Config, c: Connection, t: Trial, o: CaseOutcome)
    requires OutcomeFits(cfg, c, t, o)
    ensures var rows := BilledFor(cfg, c, o);
            match t.execution
            case RunFailed(captured) =>
              Total(UsagesFor(rows, EvalCase)) == Total(captured) && UsagesFor(rows, EvalJudge) == []
            case RunOk(usage, _, _) =>
              && UsagesFor(rows, EvalCase) == [usage]
              && Total(UsagesFor(rows, EvalJudge))
                 == Total(if t.kind == Judge then Received(t.first, t.second, t.capability) else [])
  {
    RowsByPurpose(cfg, c, o);
    FailedRowsFor(cfg, c, o.failed, if t.execution.RunFailed? then EvalCase else EvalJudge);
    match t.execution
    case RunFailed(_) => FailedRun(cfg, c, t, o);
    case RunOk(_, _, _) => GradingTotal(cfg, c, t, o);
  }

  lemma FailedRun(cfg: Config, c: Connection, t: Trial, o: CaseOutcome)
    requires OutcomeFits(cfg, c, t, o) && t.execution.RunFailed?
    ensures UsageIf(ResultUsage(o)) == UsageIf(JudgeUsage(o)) == []
    ensures Total(Usages(FailedRows(cfg, c, o.failed)) + []) == Total(t.execution.captured)
  {
    assert BilledUsages(o) == Usages(FailedRows(cfg, c, o.failed)) + [];
  }

  lemma GradingTotal(cfg: Config, c: Connection, t: Trial, o: CaseOutcome)
    requires OutcomeFits(cfg, c, t, o) && t.execution.RunOk?
    ensures o.result.Some? && o.result.value.usage == t.execution.usage
    ensures Total(Usages(FailedRows(cfg, c, o.failed)) + UsageIf(JudgeUsage(o)))
         == Total(if t.kind == Judge then Received(t.first, t.second, t.capability) else [])
  {
    var failed, grading := Usages(FailedRows(cfg, c, o.failed)), UsageIf(JudgeUsage(o));
    assert BilledUsages(o) == failed + [t.execution.usage] + grading;
    TotalLess(failed, t.execution.usage, grading,
              if t.kind == Judge then Received(t.first, t.second, t.capability) else []);
  }
}
