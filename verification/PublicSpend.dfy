/**
 The free refiner's ledger: each call holds its place at a pessimistic cost before the provider is
 contacted, and settles at what the provider reported.

 Money is real-valued; times are seconds, and which month a day falls in is the calendar's business.
 */
module PublicSpend {
  import opened LlmClient
  import opened Pricing
  import opened Wrappers

  /** A ledger row; `inputChars`, `estimate` and `settled` record the reservation it started as. */
  datatype Row = Row(connection: Connection, cost: real, createdAt: int, promptTokens: nat, completionTokens: nat,
                     inputChars: nat, estimate: real, settled: bool)

  datatype Refusal = DailyLimitReached | GlobalBudgetReached | PublicBudgetReached

  const ATTEMPTS_PER_CALL := 4
  const CHARS_PER_TOKEN := 3
  const PROMPT_OVERHEAD_TOKENS := 3000
  const SECONDS_PER_DAY := 86_400

  /** A response's token counts, with the provider and model that gave them. */
  datatype Reply = Reply(connection: Connection, usage: Usage)

  function UsagesOf(replies: seq<Reply>): seq<Usage> {
    seq(|replies|, i requires 0 <= i < |replies| => replies[i].usage)
  }

  // ----- estimates and settlements -----

  function CeilDiv(n: nat, d: nat): nat
    requires d > 0
  {
    (n + d - 1) / d
  }

  function InputTokens(chars: nat): nat {
    CeilDiv(chars, CHARS_PER_TOKEN) + PROMPT_OVERHEAD_TOKENS
  }

  function PerAttempt(cfg: Config, c: Connection, chars: nat): real {
    CostUsd(cfg, c, Usage(InputTokens(chars), cfg.outputCap), true)
  }

  function EstimatedCost(cfg: Config, c: Connection, chars: nat): real {
    if AnyLimit(cfg) then Times(ATTEMPTS_PER_CALL, PerAttempt(cfg, c, chars)) else 0.0
  }

  function SumCosts(cfg: Config, replies: seq<Reply>): real {
    if replies == [] then 0.0 else
      var last := replies[|replies| - 1];
      SumCosts(cfg, replies[..|replies| - 1]) + PricedCost(cfg, last.connection, last.usage)
  }

  predicate SomeUnreported(replies: seq<Reply>) {
    exists r :: r in replies && NoTokens(r.usage)
  }

  function SettledCost(cfg: Config, row: Row, replies: seq<Reply>): real {
    var cost := SumCosts(cfg, replies);
    if SomeUnreported(replies) && cost < row.cost then row.cost else cost
  }

  function LastConnection(row: Row, replies: seq<Reply>): Connection {
    if replies == [] then row.connection else replies[|replies| - 1].connection
  }

  function Settled(cfg: Config, row: Row, replies: seq<Reply>): Row {
    row.(connection := LastConnection(row, replies),
         cost := SettledCost(cfg, row, replies),
         promptTokens := SumPrompt(UsagesOf(replies)),
         completionTokens := SumCompletion(UsagesOf(replies)),
         settled := true)
  }

  // ----- admission -----

  function DayOf(t: int): int {
    t / SECONDS_PER_DAY
  }

  function MonthOf(cfg: Config, t: int): int {
    cfg.monthOfDay(DayOf(t))
  }

  function CallsSince(rows: seq<Row>, day: int): nat {
    if rows == [] then 0 else
      CallsSince(rows[..|rows| - 1], day) + if day <= DayOf(rows[|rows| - 1].createdAt) then 1 else 0
  }

  function CallsOn(rows: seq<Row>, day: int): nat {
    if rows == [] then 0 else
      CallsOn(rows[..|rows| - 1], day) + if day == DayOf(rows[|rows| - 1].createdAt) then 1 else 0
  }

  function SpentSince(cfg: Config, rows: seq<Row>, month: int): real {
    if rows == [] then 0.0 else
      SpentSince(cfg, rows[..|rows| - 1], month) +
      if month <= MonthOf(cfg, rows[|rows| - 1].createdAt) then rows[|rows| - 1].cost else 0.0
  }

  function SpentIn(cfg: Config, rows: seq<Row>, month: int): real {
    if rows == [] then 0.0 else
      SpentIn(cfg, rows[..|rows| - 1], month) +
      if month == MonthOf(cfg, rows[|rows| - 1].createdAt) then rows[|rows| - 1].cost else 0.0
  }

  function NonNegative(x: real): real {
    if x < 0.0 then 0.0 else x
  }

  /**
   Why a call is turned away, the day's calls being counted at `counted` and the month's spend added up
   at `summed`, when accounts had spent `others`.
   */
  function RefusalOf(cfg: Config, rows: seq<Row>, estimate: real, counted: int, summed: int,
                     others: real): Option<Refusal>
  {
    var spent := SpentSince(cfg, rows, MonthOf(cfg, summed));
    if cfg.dailyLimit <= CallsSince(rows, DayOf(counted)) then Some(DailyLimitReached)
    else if cfg.globalLimit.Some? && cfg.globalLimit.value <= others + spent + NonNegative(estimate)
        then Some(GlobalBudgetReached)
    else if cfg.publicLimit.Some? && cfg.publicLimit.value <= spent + NonNegative(estimate)
        then Some(PublicBudgetReached)
    else None
  }

  function Reservation(cfg: Config, c: Connection, chars: nat, createdAt: int): Row {
    Row(c, EstimatedCost(cfg, c, chars), createdAt, 0, 0, chars, EstimatedCost(cfg, c, chars), false)
  }

  /** The three times a reservation reads the clock, under one lock: for the day, for the month, for the row's stamp. */
  datatype ClockReadings = ClockReadings(counted: int, summed: int, created: int)

  function Reserved(cfg: Config, rows: seq<Row>, c: Connection, chars: nat, clock: ClockReadings,
                    others: real): seq<Row>
  {
    if RefusalOf(cfg, rows, EstimatedCost(cfg, c, chars), clock.counted, clock.summed, others).Some? then rows
    else rows + [Reservation(cfg, c, chars, clock.created)]
  }

  datatype Outcome =
    | Completed(captured: seq<Reply>, reply: Reply)
    | Raised(captured: seq<Reply>)

  /** What a call is settled with, on either path. */
  function Billable(outcome: Outcome): seq<Reply> {
    match outcome
    case Completed(captured, reply) => if captured == [] then [reply] else captured
    case Raised(captured) => captured
  }

  class PublicLedger {
    var rows: seq<Row>

    constructor ()
      ensures rows == []
    {
      rows := [];
    }

    method CallsFrom(day: int) returns (n: nat)
      ensures n == CallsSince(rows, day)
    {
      n := 0;
      for i := 0 to |rows|
        invariant n == CallsSince(rows[..i], day)
      {
        assert rows[..i + 1][..i] == rows[..i];
        if day <= DayOf(rows[i].createdAt) {
          n := n + 1;
        }
      }
      assert rows[..|rows|] == rows;
    }

    method SpentFrom(cfg: Config, month: int) returns (sum: real)
      ensures sum == SpentSince(cfg, rows, month)
    {
      sum := 0.0;
      for i := 0 to |rows|
        invariant sum == SpentSince(cfg, rows[..i], month)
      {
        assert rows[..i + 1][..i] == rows[..i];
        if month <= MonthOf(cfg, rows[i].createdAt) {
          sum := sum + rows[i].cost;
        }
      }
      assert rows[..|rows|] == rows;
    }

    method ReserveCall(cfg: Config, c: Connection, chars: nat, clock: ClockReadings, others: real)
      returns (r: Result<nat, Refusal>)
      modifies this
      ensures rows == Reserved(cfg, old(rows), c, chars, clock, others)
      ensures r == match RefusalOf(cfg, old(rows), EstimatedCost(cfg, c, chars), clock.counted, clock.summed, others)
                   case None => Success(|old(rows)|)
                   case Some(e) => Failure(e)
    {
      var estimate := EstimatedCost(cfg, c, chars);
      var calls := CallsFrom(DayOf(clock.counted));
      if calls >= cfg.dailyLimit {
        return Failure(DailyLimitReached);
      }
      var spent := SpentFrom(cfg, MonthOf(cfg, clock.summed));
      if cfg.globalLimit.Some? && others + spent + NonNegative(estimate) >= cfg.globalLimit.value {
        return Failure(GlobalBudgetReached);
      }
      if cfg.publicLimit.Some? && spent + NonNegative(estimate) >= cfg.publicLimit.value {
        return Failure(PublicBudgetReached);
      }
      rows := rows + [Row(c, estimate, clock.created, 0, 0, chars, estimate, false)];
      return Success(|rows| - 1);
    }

    method SettleCall(cfg: Config, i: nat, replies: seq<Reply>)
      requires i < |rows|
      modifies this
      ensures rows == old(rows)[i := Settled(cfg, old(rows)[i], replies)]
    {
      var row := rows[i];
      var connection := row.connection;
      if replies != [] {
        connection := replies[|replies| - 1].connection;
      }
      var prompt, completion, cost := 0, 0, 0.0;
      var unreported := false;
      for k := 0 to |replies|
        invariant prompt == SumPrompt(UsagesOf(replies[..k])) && completion == SumCompletion(UsagesOf(replies[..k]))
        invariant cost == SumCosts(cfg, replies[..k])
        invariant unreported <==> exists j :: 0 <= j < k && NoTokens(replies[j].usage)
      {
        assert replies[..k + 1][..k] == replies[..k];
        assert UsagesOf(replies[..k + 1])[..k] == UsagesOf(replies[..k]);
        prompt := prompt + replies[k].usage.promptTokens;
        completion := completion + replies[k].usage.completionTokens;
        cost := cost + PricedCost(cfg, replies[k].connection, replies[k].usage);
        unreported := unreported || NoTokens(replies[k].usage);
      }
      assert replies[..|replies|] == replies;
      assert unreported <==> SomeUnreported(replies);
      if unreported && cost < row.cost {
        cost := row.cost;
      }
      rows := rows[i := row.(connection := connection, cost := cost, promptTokens := prompt,
                             completionTokens := completion, settled := true)];
    }

    /** Both ways a provider call can end settle its row. */
    method FinishCall(cfg: Config, i: nat, outcome: Outcome)
      requires i < |rows|
      modifies this
      ensures rows == old(rows)[i := Settled(cfg, old(rows)[i], Billable(outcome))]
    {
      match outcome
      case Raised(captured) =>
        SettleCall(cfg, i, captured);
      case Completed(captured, reply) =>
        SettleCall(cfg, i, if captured != [] then captured else [reply]);
    }
  }

  // ----- what the limits count -----

  lemma DayExactly(cfg: Config, t: int, day: int)
    ensures DayOf(t) == day <==> day * 24 * 3600 <= t < (day + 1) * 24 * 3600
    ensures DayOf(t) == day ==> MonthOf(cfg, t) == cfg.monthOfDay(day)
  {
  }

  /** The calls since a day are those of the day and those since the next. */
  lemma {:induction false} CallsByDay(rows: seq<Row>, day: int)
    ensures CallsSince(rows, day) == CallsOn(rows, day) + CallsSince(rows, day + 1)
  {
    if rows == [] {
    } else {
      CallsByDay(rows[..|rows| - 1], day);
    }
  }

  ghost function RowsOn(rows: seq<Row>, day: int): set<nat> {
    set i: nat | i < |rows| && day * 24 * 3600 <= rows[i].createdAt < (day + 1) * 24 * 3600
  }

  /** The calls of a day are its rows. */
  lemma {:induction false} CallsAreRows(rows: seq<Row>, day: int)
    ensures CallsOn(rows, day) == |RowsOn(rows, day)|
  {
    if rows == [] {
      assert RowsOn(rows, day) == {};
    } else {
      var front, last := rows[..|rows| - 1], |rows| - 1;
      CallsAreRows(front, day);
      if day * 24 * 3600 <= rows[last].createdAt < (day + 1) * 24 * 3600 {
        assert RowsOn(rows, day) == RowsOn(front, day) + {last};
      } else {
        assert RowsOn(rows, day) == RowsOn(front, day);
      }
    }
  }

  /** The spend since a month is that of the month and that since the next. */
  lemma {:induction false} SpendByMonth(cfg: Config, rows: seq<Row>, month: int)
    ensures SpentSince(cfg, rows, month) == SpentIn(cfg, rows, month) + SpentSince(cfg, rows, month + 1)
  {
    if rows == [] {
    } else {
      SpendByMonth(cfg, rows[..|rows| - 1], month);
    }
  }

  /** The ledger with the call in it is within all the limits, strictly below the ceilings. */
  ghost predicate WouldFit(cfg: Config, rows: seq<Row>, day: int, month: int, others: real) {
    && CallsSince(rows, day) <= cfg.dailyLimit
    && (cfg.globalLimit.Some? ==> others + SpentSince(cfg, rows, month) < cfg.globalLimit.value)
    && (cfg.publicLimit.Some? ==> SpentSince(cfg, rows, month) < cfg.publicLimit.value)
  }

  /**
   A call is admitted exactly when the ledger with its reservation would be within every limit, shared
   ceiling included; a refusal names the first limit that it would break.
   */
  lemma AdmittedExactly(cfg: Config, rows: seq<Row>, c: Connection, chars: nat, clock: ClockReadings, others: real)
    requires DayOf(clock.counted) <= DayOf(clock.created) && MonthOf(cfg, clock.summed) <= MonthOf(cfg, clock.created)
    requires 0.0 <= EstimatedCost(cfg, c, chars)
    ensures var with := rows + [Reservation(cfg, c, chars, clock.created)];
            var day, month := DayOf(clock.counted), MonthOf(cfg, clock.summed);
            Reserved(cfg, rows, c, chars, clock, others)
            == if WouldFit(cfg, with, day, month, others) then with else rows
    ensures var with := rows + [Reservation(cfg, c, chars, clock.created)];
            var refusal := RefusalOf(cfg, rows, EstimatedCost(cfg, c, chars), clock.counted, clock.summed, others);
            var month := MonthOf(cfg, clock.summed);
            && (refusal == Some(DailyLimitReached) <==> cfg.dailyLimit < CallsSince(with, DayOf(clock.counted)))
            && (refusal == Some(GlobalBudgetReached) ==>
                  cfg.globalLimit.Some? && cfg.globalLimit.value <= others + SpentSince(cfg, with, month))
            && (refusal == Some(PublicBudgetReached) ==>
                  && cfg.publicLimit.Some? && cfg.publicLimit.value <= SpentSince(cfg, with, month)
                  && (cfg.globalLimit.Some? ==> others + SpentSince(cfg, with, month) < cfg.globalLimit.value))
  {
    var with := rows + [Reservation(cfg, c, chars, clock.created)];
    assert with[..|rows|] == rows;
  }

  /** An admitted call's row holds the estimate and no tokens, and is yet to be settled. */
  lemma ReservedRow(cfg: Config, rows: seq<Row>, c: Connection, chars: nat, clock: ClockReadings, others: real)
    ensures var rows' := Reserved(cfg, rows, c, chars, clock, others);
            rows' == rows ||
            (|rows'| == |rows| + 1 && rows'[..|rows|] == rows
             && var row := rows'[|rows|];
                && row.connection == c && row.createdAt == clock.created && row.inputChars == chars
                && row.cost == row.estimate == EstimatedCost(cfg, c, chars)
                && row.promptTokens == 0 && row.completionTokens == 0 && !row.settled)
  {
  }

  /** An estimate below zero counts as nothing. */
  lemma NegativeEstimate(cfg: Config, rows: seq<Row>, estimate: real, counted: int, summed: int, others: real)
    requires estimate <= 0.0
    ensures RefusalOf(cfg, rows, estimate, counted, summed, others)
         == RefusalOf(cfg, rows, 0.0, counted, summed, others)
  {
  }

  /**
   The reservation: 4 attempts, each with the whole input at three characters a token, 3,000 more, and the
   cap; nothing without a ceiling.
   */
  lemma EstimateExactly(cfg: Config, c: Connection, chars: nat, rates: Rates)
    requires if exists r :: Published(cfg, c, r) then Published(cfg, c, rates) else rates == Rates(15.0, 75.0)
    ensures exists tokens: nat ::
              && 3 * (tokens - 3_000) - 3 < chars <= 3 * (tokens - 3_000)
              && EstimatedCost(cfg, c, chars)
                 == if NoCeiling(cfg) then 0.0
                    else 4.0 * (Dollars(tokens, rates.input) + Dollars(cfg.outputCap, rates.output))
  {
    var tokens := InputTokens(chars);
    var u := Usage(tokens, cfg.outputCap);
    if Published(cfg, c, rates) {
      assert RatesFor(cfg, c) == Some(rates);
    } else {
      assert c in cfg.prices ==> !Published(cfg, c, cfg.prices[c]);
      assert !Published(cfg, c, Rates(0.0, 0.0));
    }
    assert PerAttempt(cfg, c, chars) == CostAt(rates, u);
    CostIsDollars(rates, u);
    TimesIsProduct(4, PerAttempt(cfg, c, chars));
    assert 3 * (tokens - 3_000) - 3 < chars <= 3 * (tokens - 3_000);
  }

  // ----- what settling leaves -----

  /** The costs of the responses one by one. */
  function Costs(cfg: Config, replies: seq<Reply>): seq<real> {
    seq(|replies|, i requires 0 <= i < |replies| => PricedCost(cfg, replies[i].connection, replies[i].usage))
  }

  function Sum(costs: seq<real>): real {
    if costs == [] then 0.0 else costs[0] + Sum(costs[1..])
  }

  lemma {:induction false} SumOn(costs: seq<real>, cost: real)
    ensures Sum(costs + [cost]) == Sum(costs) + cost
  {
    if costs == [] {
      assert [cost][1..] == [];
    } else {
      assert (costs + [cost])[1..] == costs[1..] + [cost];
      SumOn(costs[1..], cost);
    }
  }

  lemma {:induction false} SumCostsIsSum(cfg: Config, replies: seq<Reply>)
    ensures SumCosts(cfg, replies) == Sum(Costs(cfg, replies))
  {
    if replies == [] {
    } else {
      var front, last := replies[..|replies| - 1], replies[|replies| - 1];
      SumCostsIsSum(cfg, front);
      SumOn(Costs(cfg, front), PricedCost(cfg, last.connection, last.usage));
      assert Costs(cfg, replies) == Costs(cfg, front) + [PricedCost(cfg, last.connection, last.usage)];
    }
  }

  /**
   A finished call is billed for every response captured, or for the one returned when none was: all their
   tokens, the last one's provider, and the sum of their costs - or the reservation, if that is more and a
   response came without counts. Nothing else about the row changes.
   */
  lemma FinishedExactly(cfg: Config, row: Row, outcome: Outcome)
    ensures var q := Settled(cfg, row, Billable(outcome));
            var billed := match outcome
                          case Completed(captured, reply) => if captured != [] then captured else [reply]
                          case Raised(captured) => captured;
            var sum := Sum(Costs(cfg, billed));
            && Usage(q.promptTokens, q.completionTokens) == Total(UsagesOf(billed))
            && (billed == [] ==> q.connection == row.connection && q.cost == 0.0)
            && (billed != [] ==> q.connection == billed[|billed| - 1].connection)
            && ((forall i :: 0 <= i < |billed| ==> !NoTokens(billed[i].usage)) ==> q.cost == sum)
            && ((exists i :: 0 <= i < |billed| && NoTokens(billed[i].usage)) ==>
                  q.cost == (if row.cost < sum then sum else row.cost))
            && q.createdAt == row.createdAt && q.inputChars == row.inputChars && q.estimate == row.estimate
            && q.settled
  {
    SumCostsIsSum(cfg, Billable(outcome));
  }
}
