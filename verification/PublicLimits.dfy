/**
 The free refiner's limits over any interleaving of reservations and settlements by many visitors: the
 calls of a day, what settling can cost, and the public ceiling of a month.
 */
module PublicLimits {
  import opened LlmClient
  import opened Pricing
  import opened PublicSpend
  import opened Wrappers

  // ----- any interleaving of reservations and settlements -----

  datatype Action =
    | Reserve(connection: Connection, chars: nat, clock: ClockReadings, others: real)
    | Finish(row: nat, outcome: Outcome)

  /** Each reservation is settled once. The clock may read anything. */
  ghost predicate Enabled(rows: seq<Row>, a: Action) {
    a.Finish? ==> a.row < |rows| && !rows[a.row].settled
  }

  /** No reservation's row is stamped with an earlier day than the one its calls were counted for. */
  ghost predicate DaysInOrder(run: seq<Action>) {
    forall a :: a in run && a.Reserve? ==> DayOf(a.clock.counted) <= DayOf(a.clock.created)
  }

  /** Nor with an earlier month than the one its spend was added up for. */
  ghost predicate MonthsInOrder(cfg: Config, run: seq<Action>) {
    forall a :: a in run && a.Reserve? ==> MonthOf(cfg, a.clock.summed) <= MonthOf(cfg, a.clock.created)
  }

  function Next(cfg: Config, rows: seq<Row>, a: Action): seq<Row> {
    match a
    case Reserve(c, chars, clock, others) => Reserved(cfg, rows, c, chars, clock, others)
    case Finish(i, outcome) => if i < |rows| then rows[i := Settled(cfg, rows[i], Billable(outcome))] else rows
  }

  ghost predicate Runs(cfg: Config, rows: seq<Row>, run: seq<Action>)
    decreases |run|
  {
    run != [] ==> Enabled(rows, run[0]) && Runs(cfg, Next(cfg, rows, run[0]), run[1..])
  }

  ghost function After(cfg: Config, rows: seq<Row>, run: seq<Action>): seq<Row>
    decreases |run|
  {
    if run == [] then rows else After(cfg, Next(cfg, rows, run[0]), run[1..])
  }

  // ----- the daily cap -----

  lemma {:induction false} CallsOnOrLater(rows: seq<Row>, from: int, day: int)
    requires from <= day
    ensures CallsOn(rows, day) <= CallsSince(rows, from)
  {
    if rows == [] {
    } else {
      CallsOnOrLater(rows[..|rows| - 1], from, day);
    }
  }

  lemma {:induction false} CallsOnKept(rows: seq<Row>, i: nat, row: Row, day: int)
    requires i < |rows| && row.createdAt == rows[i].createdAt
    ensures CallsOn(rows[i := row], day) == CallsOn(rows, day)
  {
    var front := rows[..|rows| - 1];
    if i < |rows| - 1 {
      CallsOnKept(front, i, row, day);
      assert rows[i := row][..|rows| - 1] == front[i := row];
    } else {
      assert rows[i := row][..|rows| - 1] == front;
    }
  }

  ghost predicate DailyCapHolds(cfg: Config, rows: seq<Row>) {
    forall day :: CallsOn(rows, day) <= cfg.dailyLimit
  }

  lemma StepKeepsDailyCap(cfg: Config, rows: seq<Row>, a: Action)
    requires DailyCapHolds(cfg, rows) && Enabled(rows, a) && DaysInOrder([a])
    ensures DailyCapHolds(cfg, Next(cfg, rows, a))
  {
    var rows' := Next(cfg, rows, a);
    assert a in [a];
    forall day
      ensures CallsOn(rows', day) <= cfg.dailyLimit
    {
      if a.Finish? {
        CallsOnKept(rows, a.row, rows'[a.row], day);
      } else if rows' != rows {
        assert rows'[..|rows|] == rows;
        CallsOnOrLater(rows, DayOf(a.clock.counted), DayOf(a.clock.created));
      }
    }
  }

  /** No day ever has more calls than the daily limit, as long as no row is stamped with a day before its count. */
  lemma {:induction false} DailyCap(cfg: Config, rows: seq<Row>, run: seq<Action>)
    requires DailyCapHolds(cfg, rows) && Runs(cfg, rows, run) && DaysInOrder(run)
    ensures DailyCapHolds(cfg, After(cfg, rows, run))
    decreases |run|
  {
    if run == [] {
    } else {
      assert DaysInOrder([run[0]]) && DaysInOrder(run[1..]);
      StepKeepsDailyCap(cfg, rows, run[0]);
      DailyCap(cfg, Next(cfg, rows, run[0]), run[1..]);
    }
  }

  function Copies(row: Row, n: nat): seq<Row> {
    seq(n, i => row)
  }

  lemma {:induction false} CallsInCopies(row: Row, n: nat, day: int)
    ensures CallsOn(Copies(row, n), day) == if day == DayOf(row.createdAt) then n else 0
    ensures CallsSince(Copies(row, n), day) == if day <= DayOf(row.createdAt) then n else 0
  {
    if n == 0 {
    } else {
      assert Copies(row, n)[..n - 1] == Copies(row, n - 1);
      CallsInCopies(row, n - 1, day);
    }
  }

  /**
   The order of the readings is what the cap rests on. Without ceilings, a reservation that reads the
   clock so keeps the cap of every ledger within it, if and only if the row's day is not before the
   counted one: with a clock that steps back over midnight a full day takes one call more.
   */
  lemma DailyCapNeedsOrder(cfg: Config, c: Connection, chars: nat, clock: ClockReadings, others: real)
    requires cfg.globalLimit.None? && cfg.publicLimit.None? && 0 < cfg.dailyLimit
    ensures (forall rows :: DailyCapHolds(cfg, rows) ==>
            DailyCapHolds(cfg, Reserved(cfg, rows, c, chars, clock, others)))
            <==> DayOf(clock.counted) <= DayOf(clock.created)
  {
    if DayOf(clock.counted) <= DayOf(clock.created) {
      forall rows | DailyCapHolds(cfg, rows)
        ensures DailyCapHolds(cfg, Reserved(cfg, rows, c, chars, clock, others))
      {
        StepKeepsDailyCap(cfg, rows, Reserve(c, chars, clock, others));
      }
    } else {
      FullDayTakesOneMore(cfg, c, chars, clock, others);
    }
  }

  lemma FullDayTakesOneMore(cfg: Config, c: Connection, chars: nat, clock: ClockReadings, others: real)
    requires cfg.globalLimit.None? && cfg.publicLimit.None? && 0 < cfg.dailyLimit
    requires DayOf(clock.created) < DayOf(clock.counted)
    ensures var full := Copies(Reservation(cfg, c, chars, clock.created), cfg.dailyLimit);
            DailyCapHolds(cfg, full) && !DailyCapHolds(cfg, Reserved(cfg, full, c, chars, clock, others))
  {
    var row := Reservation(cfg, c, chars, clock.created);
    var full := Copies(row, cfg.dailyLimit);
    forall day
      ensures CallsOn(full, day) <= cfg.dailyLimit
    {
      CallsInCopies(row, cfg.dailyLimit, day);
    }
    CallsInCopies(row, cfg.dailyLimit, DayOf(clock.counted));
    assert (full + [row])[..|full|] == full;
    CallsInCopies(row, cfg.dailyLimit, DayOf(clock.created));
    assert CallsOn(full + [row], DayOf(clock.created)) == cfg.dailyLimit + 1;
  }

  // ----- settling within the reservation -----

  /** The response used no more than one attempt was estimated at. */
  predicate WithinAttempt(cfg: Config, chars: nat, u: Usage) {
    u.promptTokens <= InputTokens(chars) && u.completionTokens <= cfg.outputCap
  }

  /** At most so many responses, all of the row's own provider and model and within the estimate. */
  ghost predicate WithinEstimate(cfg: Config, row: Row, responses: nat, replies: seq<Reply>) {
    |replies| <= responses
    && forall r :: r in replies ==> r.connection == row.connection && WithinAttempt(cfg, row.inputChars, r.usage)
  }

  /** What one response can be charged at most. */
  function Worst(cfg: Config, c: Connection, chars: nat): real {
    var attempt := PerAttempt(cfg, c, chars);
    var assumed := CostAt(EffectiveRates(cfg, c), ASSUMED_USAGE);
    if RatesFor(cfg, c).Some? && attempt < assumed then assumed else attempt
  }

  lemma ChargedAtMost(cfg: Config, c: Connection, chars: nat, u: Usage)
    requires Priced(cfg) && AnyLimit(cfg) && WithinAttempt(cfg, chars, u)
    ensures 0.0 <= PricedCost(cfg, c, u) <= Worst(cfg, c, chars)
  {
    CostGrows(EffectiveRates(cfg, c), u, Usage(InputTokens(chars), cfg.outputCap));
    CostGrows(EffectiveRates(cfg, c), ASSUMED_USAGE, ASSUMED_USAGE);
  }

  lemma {:induction false} SumAtMost(cfg: Config, row: Row, replies: seq<Reply>)
    requires Priced(cfg) && AnyLimit(cfg) && WithinEstimate(cfg, row, |replies|, replies)
    ensures 0.0 <= SumCosts(cfg, replies) <= Times(|replies|, Worst(cfg, row.connection, row.inputChars))
  {
    if replies == [] {
    } else {
      SumAtMost(cfg, row, replies[..|replies| - 1]);
      ChargedAtMost(cfg, row.connection, row.inputChars, replies[|replies| - 1].usage);
    }
  }

  /**
   The condition a deployment can check: charging the assumed tokens for every response comes to no
   more than the reservation.
   */
  predicate AssumedFits(cfg: Config, c: Connection, chars: nat, responses: nat) {
    RatesFor(cfg, c).Some? ==>
      Times(responses, CostAt(EffectiveRates(cfg, c), ASSUMED_USAGE)) <= EstimatedCost(cfg, c, chars)
  }

  function Unreported(c: Connection, n: nat): seq<Reply> {
    seq(n, i => Reply(c, Usage(0, 0)))
  }

  lemma {:induction false} UnreportedCosts(cfg: Config, c: Connection, n: nat)
    requires AnyLimit(cfg) && RatesFor(cfg, c).Some?
    ensures SumCosts(cfg, Unreported(c, n)) == Times(n, CostAt(EffectiveRates(cfg, c), ASSUMED_USAGE))
  {
    if n == 0 {
    } else {
      assert Unreported(c, n)[..n - 1] == Unreported(c, n - 1);
      UnreportedCosts(cfg, c, n - 1);
    }
  }

  /**
   A call with at most `responses` responses, all within the estimate, settles at no more than its
   reservation - for all such calls, if and only if the assumed tokens fit.
   */
  lemma SettlingFits(cfg: Config, row: Row, responses: nat)
    requires Priced(cfg) && AnyLimit(cfg) && responses <= ATTEMPTS_PER_CALL
    requires row.cost == EstimatedCost(cfg, row.connection, row.inputChars)
    ensures (forall replies :: WithinEstimate(cfg, row, responses, replies) ==>
               0.0 <= Settled(cfg, row, replies).cost <= row.cost)
            <==> AssumedFits(cfg, row.connection, row.inputChars, responses)
  {
    if AssumedFits(cfg, row.connection, row.inputChars, responses) {
      forall replies | WithinEstimate(cfg, row, responses, replies)
        ensures 0.0 <= Settled(cfg, row, replies).cost <= row.cost
      {
        SettlesWithin(cfg, row, responses, replies);
      }
    } else {
      UnreportedExceeds(cfg, row, responses);
    }
  }

  lemma SettlesWithin(cfg: Config, row: Row, responses: nat, replies: seq<Reply>)
    requires Priced(cfg) && AnyLimit(cfg) && responses <= ATTEMPTS_PER_CALL
    requires row.cost == EstimatedCost(cfg, row.connection, row.inputChars)
    requires AssumedFits(cfg, row.connection, row.inputChars, responses)
    requires WithinEstimate(cfg, row, responses, replies)
    ensures 0.0 <= Settled(cfg, row, replies).cost <= row.cost
    ensures Settled(cfg, row, replies).connection == row.connection
  {
    SumAtMost(cfg, row, replies);
    WorstFits(cfg, row.connection, row.inputChars, responses, |replies|);
  }

  /** Responses without token counts are the ones that can break the reservation. */
  lemma UnreportedExceeds(cfg: Config, row: Row, responses: nat)
    requires AnyLimit(cfg) && row.cost == EstimatedCost(cfg, row.connection, row.inputChars)
    requires !AssumedFits(cfg, row.connection, row.inputChars, responses)
    ensures WithinEstimate(cfg, row, responses, Unreported(row.connection, responses))
    ensures row.cost < Settled(cfg, row, Unreported(row.connection, responses)).cost
  {
    UnreportedCosts(cfg, row.connection, responses);
  }

  /** With an output cap of one token the assumed tokens fit long requests only. */
  lemma TerseFits(chars: nat)
    ensures AssumedFits(TERSE_CONFIG, HOSTED, chars, 2) <==> 8_982 < chars
  {
    var rates, tokens := Rates(2.0, 10.0), InputTokens(chars);
    assert RatesFor(TERSE_CONFIG, HOSTED) == Some(rates);
    var input, output := rates.input / 1_000_000.0, rates.output / 1_000_000.0;
    TimesIsProduct(tokens, input);
    TimesIsProduct(1, output);
    TimesIsProduct(2_000, input);
    TimesIsProduct(2_000, output);
    TimesIsProduct(ATTEMPTS_PER_CALL, CostAt(rates, Usage(tokens, 1)));
    TimesIsProduct(2, CostAt(rates, ASSUMED_USAGE));
    assert tokens < 5_995 <==> chars <= 8_982;
  }

  /** Two responses without counts then settle above the reservation, for any other request. */
  lemma ReservationExceeded(chars: nat, createdAt: int)
    requires 1 <= chars <= 8_982
    ensures var row := Reservation(TERSE_CONFIG, HOSTED, chars, createdAt);
            && Priced(TERSE_CONFIG) && AnyLimit(TERSE_CONFIG)
            && WithinEstimate(TERSE_CONFIG, row, 2, Unreported(HOSTED, 2))
            && row.cost < Settled(TERSE_CONFIG, row, Unreported(HOSTED, 2)).cost
  {
    TerseFits(chars);
    UnreportedExceeds(TERSE_CONFIG, Reservation(TERSE_CONFIG, HOSTED, chars, createdAt), 2);
  }

  lemma WorstFits(cfg: Config, c: Connection, chars: nat, responses: nat, n: nat)
    requires Priced(cfg) && AnyLimit(cfg) && n <= responses <= ATTEMPTS_PER_CALL
            && AssumedFits(cfg, c, chars, responses)
    ensures Times(n, Worst(cfg, c, chars)) <= EstimatedCost(cfg, c, chars)
  {
    var attempt, assumed := PerAttempt(cfg, c, chars), CostAt(EffectiveRates(cfg, c), ASSUMED_USAGE);
    var whole := Usage(InputTokens(chars), cfg.outputCap);
    CostGrows(EffectiveRates(cfg, c), whole, whole);
    CostGrows(EffectiveRates(cfg, c), ASSUMED_USAGE, ASSUMED_USAGE);
    TimesGrows(attempt, n, ATTEMPTS_PER_CALL);
    TimesGrows(assumed, n, responses);
  }

  lemma AssumedAgainstCap(cfg: Config, c: Connection, chars: nat, half: nat)
    requires Priced(cfg) && ASSUMED_USAGE == Usage(2 * half, 2 * half)
    ensures half <= cfg.outputCap ==>
              CostAt(EffectiveRates(cfg, c), ASSUMED_USAGE) <= PerAttempt(cfg, c, chars) + PerAttempt(cfg, c, chars)
    ensures 2 * half <= cfg.outputCap ==> CostAt(EffectiveRates(cfg, c), ASSUMED_USAGE) <= PerAttempt(cfg, c, chars)
  {
    var rates, attempt := EffectiveRates(cfg, c), Usage(InputTokens(chars), cfg.outputCap);
    var i, o := rates.input / 1_000_000.0, rates.output / 1_000_000.0;
    if 2 * half <= cfg.outputCap {
      CostGrows(rates, ASSUMED_USAGE, attempt);
    }
    if half <= cfg.outputCap {
      CostGrows(rates, Usage(half, half), attempt);
      TimesDoubles(half, i);
      TimesDoubles(half, o);
      TimesAdds(half, i, i);
      TimesAdds(half, o, o);
    }
  }

  /**
   A JSON completion receives at most two responses, so an output cap of 1,000 tokens is enough;
   2,000 would do for every one of the four attempts.
   */
  lemma CapsThatFit(cfg: Config, c: Connection, chars: nat, responses: nat)
    requires Priced(cfg) && AnyLimit(cfg)
    ensures 1_000 <= cfg.outputCap && responses <= 2 ==> AssumedFits(cfg, c, chars, responses)
    ensures 2_000 <= cfg.outputCap && responses <= ATTEMPTS_PER_CALL ==> AssumedFits(cfg, c, chars, responses)
  {
    var attempt, assumed := PerAttempt(cfg, c, chars), CostAt(EffectiveRates(cfg, c), ASSUMED_USAGE);
    AssumedAgainstCap(cfg, c, chars, 1_000);
    EstimateIsNonNegative(cfg, c, chars);
    if 2_000 <= cfg.outputCap && responses <= ATTEMPTS_PER_CALL {
      TimesScales(responses, assumed, attempt);
      TimesGrows(attempt, responses, ATTEMPTS_PER_CALL);
    }
    if 1_000 <= cfg.outputCap && responses <= 2 {
      TimesScales(responses, assumed, attempt + attempt);
      TimesDoubles(responses, attempt);
      TimesGrows(attempt, 2 * responses, ATTEMPTS_PER_CALL);
    }
  }

  lemma EstimateIsNonNegative(cfg: Config, c: Connection, chars: nat)
    requires Priced(cfg)
    ensures 0.0 <= PerAttempt(cfg, c, chars) && 0.0 <= EstimatedCost(cfg, c, chars)
  {
    var whole := Usage(InputTokens(chars), cfg.outputCap);
    CostGrows(EffectiveRates(cfg, c), whole, whole);
    TimesGrows(PerAttempt(cfg, c, chars), ATTEMPTS_PER_CALL, ATTEMPTS_PER_CALL);
  }

  // ----- the monthly ceiling -----

  ghost predicate CalendarInOrder(cfg: Config) {
    forall a, b :: a <= b ==> cfg.monthOfDay(a) <= cfg.monthOfDay(b)
  }

  /** Unsettled rows stand at their estimate; no row stands above it. */
  ghost predicate RowsStand(cfg: Config, rows: seq<Row>) {
    forall i :: 0 <= i < |rows| ==>
      && rows[i].estimate == EstimatedCost(cfg, rows[i].connection, rows[i].inputChars)
      && 0.0 <= rows[i].cost <= rows[i].estimate
      && (!rows[i].settled ==> rows[i].cost == rows[i].estimate)
  }

  ghost predicate BelowCeiling(cfg: Config, rows: seq<Row>, month: int) {
    cfg.publicLimit.Some? && ((exists i :: 0 <= i < |rows| && MonthOf(cfg, rows[i].createdAt) == month) ==>
                                SpentIn(cfg, rows, month) < cfg.publicLimit.value)
  }

  /** The provider kept to the estimate, and the assumed tokens fit. */
  ghost predicate KeepsToEstimate(cfg: Config, rows: seq<Row>, a: Action) {
    RepliesWithin(cfg, rows, a) && (a.Finish? ==> AssumedFits(cfg, rows[a.row].connection, rows[a.row].inputChars, 2))
  }

  /** Two responses at most, as a JSON completion has, each within the estimate for one attempt. */
  ghost predicate RepliesWithin(cfg: Config, rows: seq<Row>, a: Action) {
    a.Finish? ==> a.row < |rows| && WithinEstimate(cfg, rows[a.row], 2, Billable(a.outcome))
  }

  ghost predicate AllKeepToEstimate(cfg: Config, rows: seq<Row>, run: seq<Action>)
    decreases |run|
  {
    run != [] ==> KeepsToEstimate(cfg, rows, run[0]) && AllKeepToEstimate(cfg, Next(cfg, rows, run[0]), run[1..])
  }

  ghost predicate AllRepliesWithin(cfg: Config, rows: seq<Row>, run: seq<Action>)
    decreases |run|
  {
    run != [] ==> RepliesWithin(cfg, rows, run[0]) && AllRepliesWithin(cfg, Next(cfg, rows, run[0]), run[1..])
  }

  lemma {:induction false} CapKeepsToEstimate(cfg: Config, rows: seq<Row>, run: seq<Action>)
    requires Priced(cfg) && AnyLimit(cfg) && 1_000 <= cfg.outputCap && AllRepliesWithin(cfg, rows, run)
    ensures AllKeepToEstimate(cfg, rows, run)
    decreases |run|
  {
    if run == [] {
    } else {
      if run[0].Finish? {
        CapsThatFit(cfg, rows[run[0].row].connection, rows[run[0].row].inputChars, 2);
      }
      CapKeepsToEstimate(cfg, Next(cfg, rows, run[0]), run[1..]);
    }
  }

  lemma {:induction false} SpentInOrLater(cfg: Config, rows: seq<Row>, from: int, month: int)
    requires from <= month && RowsStand(cfg, rows)
    ensures 0.0 <= SpentIn(cfg, rows, month) <= SpentSince(cfg, rows, from)
  {
    if rows == [] {
    } else {
      SpentInOrLater(cfg, rows[..|rows| - 1], from, month);
    }
  }

  lemma {:induction false} SpentInLowered(cfg: Config, rows: seq<Row>, i: nat, row: Row, month: int)
    requires i < |rows| && row.createdAt == rows[i].createdAt && row.cost <= rows[i].cost
    ensures SpentIn(cfg, rows[i := row], month) <= SpentIn(cfg, rows, month)
  {
    var front := rows[..|rows| - 1];
    if i < |rows| - 1 {
      SpentInLowered(cfg, front, i, row, month);
      assert rows[i := row][..|rows| - 1] == front[i := row];
    } else {
      assert rows[i := row][..|rows| - 1] == front;
    }
  }

  ghost predicate CeilingHolds(cfg: Config, rows: seq<Row>) {
    RowsStand(cfg, rows) && forall month :: BelowCeiling(cfg, rows, month)
  }

  lemma FinishKeepsCeiling(cfg: Config, rows: seq<Row>, a: Action)
    requires Priced(cfg) && CeilingHolds(cfg, rows) && a.Finish? && Enabled(rows, a) && KeepsToEstimate(cfg, rows, a)
    ensures CeilingHolds(cfg, Next(cfg, rows, a))
  {
    var rows', i := Next(cfg, rows, a), a.row;
    assert BelowCeiling(cfg, rows, 0);
    SettlesWithin(cfg, rows[i], 2, Billable(a.outcome));
    assert 0.0 <= rows'[i].cost <= rows[i].cost;
    forall month
      ensures BelowCeiling(cfg, rows', month)
    {
      assert BelowCeiling(cfg, rows, month);
      SpentInLowered(cfg, rows, i, rows'[i], month);
      if k :| 0 <= k < |rows'| && MonthOf(cfg, rows'[k].createdAt) == month {
        assert MonthOf(cfg, rows[k].createdAt) == month;
      }
    }
  }

  lemma AppendedBelow(cfg: Config, rows: seq<Row>, row: Row, now: int, month: int)
    requires CeilingHolds(cfg, rows) && cfg.publicLimit.Some? && MonthOf(cfg, now) <= MonthOf(cfg, row.createdAt)
    requires SpentSince(cfg, rows, MonthOf(cfg, now)) + row.cost < cfg.publicLimit.value
    ensures BelowCeiling(cfg, rows + [row], month)
  {
    var rows' := rows + [row];
    assert rows'[..|rows|] == rows;
    assert BelowCeiling(cfg, rows, month);
    if month == MonthOf(cfg, row.createdAt) {
      SpentInOrLater(cfg, rows, MonthOf(cfg, now), month);
    } else if k :| 0 <= k < |rows'| && MonthOf(cfg, rows'[k].createdAt) == month {
      assert rows[k] == rows'[k];
    }
  }

  lemma ReserveKeepsCeiling(cfg: Config, rows: seq<Row>, a: Action)
    requires Priced(cfg) && CeilingHolds(cfg, rows) && a.Reserve? && MonthsInOrder(cfg, [a])
    ensures CeilingHolds(cfg, Next(cfg, rows, a))
  {
    var estimate := EstimatedCost(cfg, a.connection, a.chars);
    EstimateIsNonNegative(cfg, a.connection, a.chars);
    assert BelowCeiling(cfg, rows, 0);
    assert a in [a];
    if RefusalOf(cfg, rows, estimate, a.clock.counted, a.clock.summed, a.others).None? {
      forall month
        ensures BelowCeiling(cfg, Next(cfg, rows, a), month)
      {
        AppendedBelow(cfg, rows, Reservation(cfg, a.connection, a.chars, a.clock.created), a.clock.summed, month);
      }
    }
  }

  /**
   Once any call of a month is admitted, the month's public spend stays strictly below the public
   ceiling, as long as no row is stamped with a month before the one its spend was added up for.
   */
  lemma {:induction false} MonthlyCeiling(cfg: Config, rows: seq<Row>, run: seq<Action>)
    requires Priced(cfg) && CeilingHolds(cfg, rows)
    requires Runs(cfg, rows, run) && AllKeepToEstimate(cfg, rows, run) && MonthsInOrder(cfg, run)
    ensures CeilingHolds(cfg, After(cfg, rows, run))
    decreases |run|
  {
    if run == [] {
    } else {
      assert MonthsInOrder(cfg, [run[0]]) && MonthsInOrder(cfg, run[1..]);
      if run[0].Finish? {
        FinishKeepsCeiling(cfg, rows, run[0]);
      } else {
        ReserveKeepsCeiling(cfg, rows, run[0]);
      }
      MonthlyCeiling(cfg, Next(cfg, rows, run[0]), run[1..]);
    }
  }

  // ----- a month's ceiling rests on the order of the readings too -----

  lemma {:induction false} SpentOnCopies(cfg: Config, row: Row, n: nat, month: int)
    ensures SpentIn(cfg, Copies(row, n), month) == if month == MonthOf(cfg, row.createdAt)
            then Times(n, row.cost) else 0.0
    ensures MonthOf(cfg, row.createdAt) < month ==> SpentSince(cfg, Copies(row, n), month) == 0.0
  {
    if n == 0 {
    } else {
      assert Copies(row, n)[..n - 1] == Copies(row, n - 1);
      SpentOnCopies(cfg, row, n - 1, month);
    }
  }

  /** As many rows of one cost as fit below a ceiling, and not one more. */
  lemma FillsCeiling(cost: real, limit: real) returns (n: nat)
    requires 0.0 < cost < limit
    ensures Times(n, cost) < limit <= Times(n, cost) + cost
  {
    n := 0;
    while Times(n, cost) + cost < limit
      invariant Times(n, cost) < limit
      decreases (limit / cost).Floor - n
    {
      n := n + 1;
      TimesIsProduct(n, cost);
      BelowQuotient(n, cost, limit);
    }
  }

  lemma BelowQuotient(n: nat, cost: real, limit: real)
    requires 0.0 < cost && n as real * cost < limit
    ensures n <= (limit / cost).Floor
  {
    var quotient := limit / cost;
    assert quotient * cost == limit;
    assert quotient < n as real ==> quotient * cost < n as real * cost;
  }

  /**
   A priced reservation that counts and sums on one day keeps the ceiling of every ledger below it,
   if and only if its row's month is not before that day's.
   */
  lemma CeilingNeedsOrder(cfg: Config, c: Connection, chars: nat, clock: ClockReadings, others: real)
    requires Priced(cfg) && CalendarInOrder(cfg) && cfg.globalLimit.None? && cfg.publicLimit.Some? && 0 < cfg.dailyLimit
    requires 0.0 < EstimatedCost(cfg, c, chars) < cfg.publicLimit.value && DayOf(clock.counted) == DayOf(clock.summed)
    ensures (forall rows :: CeilingHolds(cfg, rows) ==> CeilingHolds(cfg, Reserved(cfg, rows, c, chars, clock, others)))
            <==> MonthOf(cfg, clock.summed) <= MonthOf(cfg, clock.created)
  {
    if MonthOf(cfg, clock.summed) <= MonthOf(cfg, clock.created) {
      forall rows | CeilingHolds(cfg, rows)
        ensures CeilingHolds(cfg, Reserved(cfg, rows, c, chars, clock, others))
      {
        ReserveKeepsCeiling(cfg, rows, Reserve(c, chars, clock, others));
      }
    } else {
      FullMonthTakesOneMore(cfg, c, chars, clock, others);
    }
  }

  lemma FullMonthTakesOneMore(cfg: Config, c: Connection, chars: nat, clock: ClockReadings, others: real)
    requires CalendarInOrder(cfg) && cfg.globalLimit.None? && cfg.publicLimit.Some? && 0 < cfg.dailyLimit
    requires 0.0 < EstimatedCost(cfg, c, chars) < cfg.publicLimit.value && DayOf(clock.counted) == DayOf(clock.summed)
    requires MonthOf(cfg, clock.created) < MonthOf(cfg, clock.summed)
    ensures exists rows :: CeilingHolds(cfg, rows) && !CeilingHolds(cfg, Reserved(cfg, rows, c, chars, clock, others))
  {
    var row := Reservation(cfg, c, chars, clock.created);
    var n := FillsCeiling(row.cost, cfg.publicLimit.value);
    var full := Copies(row, n);
    forall month
      ensures BelowCeiling(cfg, full, month)
    {
      SpentOnCopies(cfg, row, n, month);
    }
    assert CeilingHolds(cfg, full);
    FullMonthAdmits(cfg, c, chars, clock, others, n);
    SpentOnCopies(cfg, row, n, MonthOf(cfg, clock.created));
    assert (full + [row])[..n] == full && (full + [row])[n] == row;
    assert !BelowCeiling(cfg, full + [row], MonthOf(cfg, clock.created));
  }

  lemma EarlierDay(cfg: Config, a: int, b: int)
    requires CalendarInOrder(cfg) && cfg.monthOfDay(a) < cfg.monthOfDay(b)
    ensures a < b
  {
  }

  lemma FullMonthAdmits(cfg: Config, c: Connection, chars: nat, clock: ClockReadings, others: real, n: nat)
    requires CalendarInOrder(cfg) && cfg.globalLimit.None? && cfg.publicLimit.Some? && 0 < cfg.dailyLimit
    requires 0.0 < EstimatedCost(cfg, c, chars) < cfg.publicLimit.value && DayOf(clock.counted) == DayOf(clock.summed)
    requires MonthOf(cfg, clock.created) < MonthOf(cfg, clock.summed)
    ensures var row := Reservation(cfg, c, chars, clock.created);
            Reserved(cfg, Copies(row, n), c, chars, clock, others) == Copies(row, n) + [row]
  {
    var row := Reservation(cfg, c, chars, clock.created);
    EarlierDay(cfg, DayOf(clock.created), DayOf(clock.counted));
    CallsInCopies(row, n, DayOf(clock.counted));
    SpentOnCopies(cfg, row, n, MonthOf(cfg, clock.summed));
  }

  // ----- from an empty ledger -----

  /**
   The ledger starts empty, so both limits hold in every state a run can reach: the day's with rows
   stamped in order, the month's when moreover the output cap is at least 1,000 tokens, or else the
   assumed tokens fit each call, and no response exceeds the estimate for an attempt.
   */
  lemma LimitsAlwaysHold(cfg: Config, run: seq<Action>)
    requires Runs(cfg, [], run)
    ensures DaysInOrder(run) ==> DailyCapHolds(cfg, After(cfg, [], run))
    ensures cfg.publicLimit.Some? && Priced(cfg) && MonthsInOrder(cfg, run) &&
            ((1_000 <= cfg.outputCap && AllRepliesWithin(cfg, [], run)) || AllKeepToEstimate(cfg, [], run)) ==>
              forall month :: BelowCeiling(cfg, After(cfg, [], run), month)
  {
    if DaysInOrder(run) {
      DailyCap(cfg, [], run);
    }
    if cfg.publicLimit.Some? && Priced(cfg) && MonthsInOrder(cfg, run) {
      if 1_000 <= cfg.outputCap && AllRepliesWithin(cfg, [], run) {
        CapKeepsToEstimate(cfg, [], run);
      }
      if AllKeepToEstimate(cfg, [], run) {
        MonthlyCeiling(cfg, [], run);
      }
    }
  }
}
