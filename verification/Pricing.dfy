/**
 What provider calls cost: published rates, the pessimistic rates that stand in for them while a
 spend ceiling is set, and the cost recorded for a response. Money is real-valued.
 */
module Pricing {
  import opened LlmClient
  import opened Wrappers

  datatype Rates = Rates(input: real, output: real)

  datatype Connection = Connection(provider: string, model: string)

  datatype Config = Config(
    dailyLimit: nat,
    globalLimit: Option<real>,
    userLimit: Option<real>,
    publicLimit: Option<real>,
    outputCap: nat,
    prices: map<Connection, Rates>,
    monthOfDay: int -> int)

  const FALLBACK_RATES := Rates(15.0, 75.0)
  const ASSUMED_USAGE := Usage(2_000, 2_000)

  const HOSTED := Connection("openai", "small")

  /** Hosted rates of 2 and 10 dollars a million tokens, a public ceiling of 25 dollars, an output cap of one token. */
  const TERSE_CONFIG := Config(200, None, None, Some(25.0), 1, map[HOSTED := Rates(2.0, 10.0)], day => day / 31)

  function RatesFor(cfg: Config, c: Connection): Option<Rates> {
    if c.provider == "ollama" || c.provider == "vllm" then Some(Rates(0.0, 0.0))
    else if c in cfg.prices then Some(cfg.prices[c]) else None
  }

  /** `n` times `x`, as repeated addition. */
  function Times(n: nat, x: real): real {
    if n == 0 then 0.0 else Times(n - 1, x) + x
  }

  lemma {:induction false} TimesIsProduct(n: nat, x: real)
    ensures Times(n, x) == n as real * x
  {
    if n == 0 {
    } else {
      TimesIsProduct(n - 1, x);
      assert (n - 1) as real * x + x == n as real * x;
    }
  }

  /** Rates are per million tokens. */
  function CostAt(rates: Rates, u: Usage): real {
    Times(u.promptTokens, rates.input / 1_000_000.0) + Times(u.completionTokens, rates.output / 1_000_000.0)
  }

  function CostUsd(cfg: Config, c: Connection, u: Usage, assumeWhenUnknown: bool): real {
    match RatesFor(cfg, c)
    case Some(rates) => CostAt(rates, u)
    case None => if assumeWhenUnknown then CostAt(FALLBACK_RATES, u) else 0.0
  }

  /** The shared, the per-account and the public ceiling are all unset. */
  predicate NoCeiling(cfg: Config) {
    cfg.globalLimit == None && cfg.userLimit == None && cfg.publicLimit == None
  }

  /** Dollars for `tokens` at a rate per million. */
  function Dollars(tokens: nat, rate: real): real {
    tokens as real * rate / 1_000_000.0
  }

  lemma CostIsDollars(rates: Rates, u: Usage)
    ensures CostAt(rates, u) == Dollars(u.promptTokens, rates.input) + Dollars(u.completionTokens, rates.output)
  {
    TimesIsDollars(u.promptTokens, rates.input);
    TimesIsDollars(u.completionTokens, rates.output);
  }

  lemma {:induction false} TimesIsDollars(n: nat, rate: real)
    ensures Times(n, rate / 1_000_000.0) == Dollars(n, rate)
  {
    if n == 0 {
    } else {
      TimesIsDollars(n - 1, rate);
      assert (n - 1) as real * rate + rate == n as real * rate;
    }
  }

  predicate AnyLimit(cfg: Config) {
    cfg.globalLimit.Some? || cfg.userLimit.Some? || cfg.publicLimit.Some?
  }

  predicate NoTokens(u: Usage) {
    u.promptTokens == 0 && u.completionTokens == 0
  }

  /** A priced model that reported no usage is charged for assumed tokens while a ceiling is set. */
  function PricedCost(cfg: Config, c: Connection, u: Usage): real {
    var estimated := AnyLimit(cfg) && NoTokens(u) && RatesFor(cfg, c).Some?;
    CostUsd(cfg, c, if estimated then ASSUMED_USAGE else u, AnyLimit(cfg))
  }

  /** The rates of a connection: nothing for the local providers, else the published ones if there are any. */
  predicate Published(cfg: Config, c: Connection, rates: Rates) {
    if c.provider in {"ollama", "vllm"} then rates == Rates(0.0, 0.0) else c in cfg.prices && cfg.prices[c] == rates
  }

  lemma NoneArePublished(cfg: Config, c: Connection)
    requires forall r :: !Published(cfg, c, r)
    ensures RatesFor(cfg, c) == None
  {
    assert c in cfg.prices ==> !Published(cfg, c, cfg.prices[c]);
    assert !Published(cfg, c, Rates(0.0, 0.0));
  }

  /** A limit is any of the three ceilings; a response without counts reported neither kind of token. */
  lemma CeilingExactly(cfg: Config, u: Usage)
    ensures AnyLimit(cfg) <==> !NoCeiling(cfg)
    ensures NoTokens(u) <==> u == Usage(0, 0)
  {
  }

  /**
   What is recorded for a response when rates are published: its tokens at these rates, or 2,000 tokens each
   way when it reported none and a ceiling is set.
   */
  lemma PublishedCostExactly(cfg: Config, c: Connection, u: Usage, rates: Rates)
    requires Published(cfg, c, rates)
    ensures PricedCost(cfg, c, u) == CostAt(rates, if AnyLimit(cfg) && NoTokens(u) then Usage(2_000, 2_000) else u)
  {
    assert RatesFor(cfg, c) == Some(rates);
  }

  /** When none are: 15 and 75 dollars a million tokens if a ceiling is set, else nothing. */
  lemma UnpublishedCostExactly(cfg: Config, c: Connection, u: Usage)
    requires forall rates :: !Published(cfg, c, rates)
    ensures PricedCost(cfg, c, u) ==
            if NoCeiling(cfg) then 0.0 else Dollars(u.promptTokens, 15.0) + Dollars(u.completionTokens, 75.0)
  {
    NoneArePublished(cfg, c);
    CostIsDollars(FALLBACK_RATES, u);
  }

  /** The ledger records the published cost. */
  predicate AsPublished(cfg: Config, c: Connection, u: Usage) {
    PricedCost(cfg, c, u) == CostUsd(cfg, c, u, false)
  }

  /** It does unless a ceiling is set and usage or rates are unknown, at rates that are not zero. */
  lemma AsPublishedExactly(cfg: Config, c: Connection, u: Usage)
    ensures AsPublished(cfg, c, u) <==>
            || !AnyLimit(cfg)
            || (RatesFor(cfg, c).Some? && (NoTokens(u) ==> CostAt(RatesFor(cfg, c).value, ASSUMED_USAGE) == 0.0))
            || (RatesFor(cfg, c).None? && CostAt(FALLBACK_RATES, u) == 0.0)
  {
  }

  function EffectiveRates(cfg: Config, c: Connection): Rates {
    match RatesFor(cfg, c) case Some(rates) => rates case None => FALLBACK_RATES
  }

  ghost predicate Priced(cfg: Config) {
    forall c :: c in cfg.prices ==> 0.0 <= cfg.prices[c].input && 0.0 <= cfg.prices[c].output
  }

  lemma CostGrows(rates: Rates, u: Usage, v: Usage)
    requires 0.0 <= rates.input && 0.0 <= rates.output
    requires u.promptTokens <= v.promptTokens && u.completionTokens <= v.completionTokens
    ensures 0.0 <= CostAt(rates, u) <= CostAt(rates, v)
  {
    TimesGrows(rates.input / 1_000_000.0, u.promptTokens, v.promptTokens);
    TimesGrows(rates.output / 1_000_000.0, u.completionTokens, v.completionTokens);
  }

  lemma {:induction false} TimesGrows(x: real, m: nat, n: nat)
    requires 0.0 <= x && m <= n
    ensures 0.0 <= Times(m, x) <= Times(n, x)
    decreases n
  {
    if n == 0 {
    } else if m == 0 {
      TimesGrows(x, 0, n - 1);
    } else {
      TimesGrows(x, m - 1, n - 1);
    }
  }

  lemma {:induction false} TimesSum(m: nat, n: nat, x: real)
    ensures Times(m + n, x) == Times(m, x) + Times(n, x)
  {
    if n == 0 {
    } else {
      TimesSum(m, n - 1, x);
    }
  }

  lemma {:induction false} TimesScales(n: nat, x: real, y: real)
    requires x <= y
    ensures Times(n, x) <= Times(n, y)
  {
    if n == 0 {
    } else {
      TimesScales(n - 1, x, y);
    }
  }

  lemma {:induction false} TimesDoubles(n: nat, x: real)
    ensures Times(2 * n, x) == Times(n, x + x)
  {
    if n == 0 {
    } else {
      TimesDoubles(n - 1, x);
    }
  }

  lemma {:induction false} TimesAdds(n: nat, x: real, y: real)
    ensures Times(n, x + y) == Times(n, x) + Times(n, y)
  {
    if n == 0 {
    } else {
      TimesAdds(n - 1, x, y);
    }
  }
}
