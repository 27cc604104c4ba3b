/** Completions that must come back as JSON, and the token usage every response brings. */
module LlmClient {
  datatype Usage = Usage(promptTokens: nat, completionTokens: nat)

  function SumPrompt(usages: seq<Usage>): nat {
    if usages == [] then 0 else SumPrompt(usages[..|usages| - 1]) + usages[|usages| - 1].promptTokens
  }

  function SumCompletion(usages: seq<Usage>): nat {
    if usages == [] then 0 else SumCompletion(usages[..|usages| - 1]) + usages[|usages| - 1].completionTokens
  }

  /** The tokens of all the responses together. */
  function Total(usages: seq<Usage>): Usage {
    Usage(SumPrompt(usages), SumCompletion(usages))
  }

  function Plus(a: Usage, b: Usage): Usage {
    Usage(a.promptTokens + b.promptTokens, a.completionTokens + b.completionTokens)
  }

  lemma TotalOn(usages: seq<Usage>, u: Usage)
    ensures Total(usages + [u]) == Plus(Total(usages), u)
  {
    assert (usages + [u])[..|usages|] == usages;
  }

  lemma {:induction false} TotalAppend(a: seq<Usage>, b: seq<Usage>)
    ensures Total(a + b) == Plus(Total(a), Total(b))
  {
    if b == [] {
      assert a + b == a;
    } else {
      var front, last := b[..|b| - 1], b[|b| - 1];
      assert b == front + [last];
      assert a + b == a + front + [last];
      TotalAppend(a, front);
      TotalOn(a + front, last);
      TotalOn(front, last);
    }
  }

  datatype StructuredOutput = JsonSchema | JsonObject | NoFormat

  /** The provider's answer to one attempt. */
  datatype Attempt =
    | Rejected                               // a 400: no response
    | Failed                                 // any other error: no response
    | Answered(usage: Usage, isJson: bool)

  datatype Completion =
    | Parsed(usage: Usage)
    | NotJson
    | ProviderError

  function ResponseFormatFor(capability: StructuredOutput, degraded: bool): StructuredOutput {
    if !degraded then capability else if capability == JsonSchema then JsonObject else NoFormat
  }

  /** A 400 is only forgiven when there was a format to drop and another attempt to make. */
  predicate Propagates(a: Attempt, capability: StructuredOutput, degraded: bool) {
    a.Failed? || (a.Rejected? && (degraded || ResponseFormatFor(capability, degraded) == NoFormat))
  }

  /** The attempt ends the exchange: an error is raised or JSON is returned. */
  predicate Settles(a: Attempt, capability: StructuredOutput, degraded: bool) {
    Propagates(a, capability, degraded) || (a.Answered? && a.isJson)
  }

  function UsageOf(a: Attempt): seq<Usage> {
    if a.Answered? then [a.usage] else []
  }

  predicate ReturnsJson(first: Attempt, second: Attempt, capability: StructuredOutput) {
    (first.Answered? && first.isJson) || (!Settles(first, capability, false) && second.Answered? && second.isJson)
  }

  /** What the first attempts brought. */
  function Gathered(first: Attempt, second: Attempt, made: nat): seq<Usage> {
    if made == 0 then [] else if made == 1 then UsageOf(first) else UsageOf(first) + UsageOf(second)
  }

  /** The responses received: a second attempt is made only if the first does not settle it. */
  function Received(first: Attempt, second: Attempt, capability: StructuredOutput): seq<Usage> {
    Gathered(first, second, if Settles(first, capability, false) then 1 else 2)
  }

  /**
   Two attempts at most. Every response's usage is captured as it arrives, and the usage returned is
   the total over all of them.
   */
  method JsonCompletion(capability: StructuredOutput, first: Attempt, second: Attempt)
    returns (r: Completion, captured: seq<Usage>)
    ensures captured == Received(first, second, capability) && |captured| <= 2
    ensures r.Parsed? ==> r.usage == Total(captured) && captured != []
    ensures r.Parsed? <==> ReturnsJson(first, second, capability)
    ensures r.ProviderError? <==> Propagates(first, capability, false) ||
                                  (!Settles(first, capability, false) && Propagates(second, capability, true))
  {
    captured := [];
    var total := Usage(0, 0);
    for i := 0 to 2
      invariant total == Total(captured)
      invariant captured == Gathered(first, second, i)
      invariant 1 <= i ==> !Settles(first, capability, false)
      invariant 2 <= i ==> !Settles(second, capability, true)
    {
      var degraded := i == 1;
      var attempt := if degraded then second else first;
      var format := ResponseFormatFor(capability, degraded);
      match attempt
      case Failed =>
        return ProviderError, captured;
      case Rejected =>
        if format == NoFormat || degraded {
          return ProviderError, captured;
        }
      case Answered(usage, isJson) =>
        TotalOn(captured, usage);
        captured := captured + [usage];
        total := Usage(total.promptTokens + usage.promptTokens, total.completionTokens + usage.completionTokens);
        if isJson {
          return Parsed(total), captured;
        }
    }
    return NotJson, captured;
  }

  function Rung(format: StructuredOutput): nat {
    match format case NoFormat => 0 case JsonObject => 1 case JsonSchema => 2
  }

  /** The first attempt asks for what the provider can do, the second for one rung less. */
  lemma FormatLadder(capability: StructuredOutput)
    ensures ResponseFormatFor(capability, false) == capability
    ensures Rung(ResponseFormatFor(capability, true)) == if capability == NoFormat then 0 else Rung(capability) - 1
  {
  }

  /** A first answer that is worth another try: not JSON, or a 400 while a format was asked for. */
  predicate TriedAgain(first: Attempt, capability: StructuredOutput) {
    match first
    case Answered(_, isJson) => !isJson
    case Rejected => capability != NoFormat
    case Failed => false
  }

  /**
   The exchange in closed form: which attempts are made, whose usage is received, and which of the three
   endings it comes to.
   */
  lemma ExchangeExactly(first: Attempt, second: Attempt, capability: StructuredOutput)
    ensures Settles(first, capability, false) <==> !TriedAgain(first, capability)
    ensures Received(first, second, capability)
         == (if first.Answered? then [first.usage] else [])
          + (if TriedAgain(first, capability) && second.Answered? then [second.usage] else [])
    ensures var last := if TriedAgain(first, capability) then second else first;
            && (ReturnsJson(first, second, capability) <==> last.Answered? && last.isJson)
            && (last.Answered? && !last.isJson ==> TriedAgain(first, capability))
            && (!last.Answered? <==>
                  Propagates(first, capability, false)
                  || (!Settles(first, capability, false) && Propagates(second, capability, true)))
  {
  }
}
