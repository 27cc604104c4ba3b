/**
 The criteria of a rule-scored case: comma-separated terms, where a comma inside brackets or after a
 backslash belongs to its term, and what an output must do to pass each term.
 */
module Criteria {
  import opened Sections

  // ----- splitting -----

  /** How many brackets are open, and whether a backslash came just before. */
  datatype Scan = Scan(depth: nat, escaped: bool)

  const OPEN := Scan(0, false)

  predicate IsOpener(c: char) {
    c == '(' || c == '[' || c == '{'
  }

  predicate IsCloser(c: char) {
    c == ')' || c == ']' || c == '}'
  }

  function Next(s: Scan, c: char): Scan {
    if s.escaped then s.(escaped := false)
    else if c == '\\' then s.(escaped := true)
    else if IsOpener(c) then s.(depth := s.depth + 1)
    else if IsCloser(c) then s.(depth := if s.depth == 0 then 0 else s.depth - 1)
    else s
  }

  predicate Separates(s: Scan, c: char) {
    s == OPEN && c == ','
  }

  /** Split `rest`, `current` being read of the present term. */
  function SplitFrom(rest: string, current: string, s: Scan): seq<string>
    decreases |rest|
  {
    if rest == "" then [current]
    else if Separates(s, rest[0]) then [current] + SplitFrom(rest[1..], "", OPEN)
    else SplitFrom(rest[1..], current + [rest[0]], Next(s, rest[0]))
  }

  function Split(criteria: string): seq<string> {
    SplitFrom(criteria, "", OPEN)
  }

  method SplitCriteria(criteria: string) returns (terms: seq<string>)
    ensures terms == Split(criteria)
  {
    terms := [];
    var current := "";
    var depth := 0;
    var escaped := false;
    assert criteria[0..] == criteria;
    for i := 0 to |criteria|
      invariant 0 <= depth
      invariant terms + SplitFrom(criteria[i..], current, Scan(depth, escaped)) == Split(criteria)
    {
      var c := criteria[i];
      TakeChar(criteria, i, current, Scan(depth, escaped), terms);
      if escaped {
        current := current + [c];
        escaped := false;
      } else if c == '\\' {
        current := current + [c];
        escaped := true;
      } else if IsOpener(c) {
        depth := depth + 1;
        current := current + [c];
      } else if IsCloser(c) {
        depth := if 0 < depth - 1 then depth - 1 else 0;
        current := current + [c];
      } else if c == ',' && depth == 0 {
        terms := terms + [current];
        current := "";
      } else {
        current := current + [c];
      }
    }
    terms := terms + [current];
  }

  lemma TakeChar(criteria: string, i: nat, current: string, s: Scan, terms: seq<string>)
    requires i < |criteria|
    ensures var c, rest := criteria[i], criteria[i + 1..];
            terms + SplitFrom(criteria[i..], current, s) ==
            if Separates(s, c) then terms + [current] + SplitFrom(rest, "", OPEN)
            else terms + SplitFrom(rest, current + [c], Next(s, c))
  {
    assert criteria[i..][1..] == criteria[i + 1..];
  }

  // ----- what splitting means -----

  /** No comma in `t` separates, read on from `s`. */
  predicate Whole(t: string, s: Scan) {
    t != "" ==> !Separates(s, t[0]) && Whole(t[1..], Next(s, t[0]))
  }

  function EndOf(t: string, s: Scan): Scan {
    if t == "" then s else EndOf(t[1..], Next(s, t[0]))
  }

  /** Terms that no comma separates further; each but the last closes its brackets and escapes nothing after it. */
  ghost predicate AreTerms(terms: seq<string>) {
    && terms != []
    && (forall i :: 0 <= i < |terms| ==> Whole(terms[i], OPEN))
    && (forall i :: 0 <= i < |terms| - 1 ==> EndOf(terms[i], OPEN) == OPEN)
  }

  lemma {:induction false} WholeOn(t: string, c: char, s: Scan)
    requires Whole(t, s) && !Separates(EndOf(t, s), c)
    ensures Whole(t + [c], s) && EndOf(t + [c], s) == Next(EndOf(t, s), c)
  {
    if t == "" {
      assert t + [c] == [c] && [c][1..] == "";
    } else {
      assert (t + [c])[1..] == t[1..] + [c];
      WholeOn(t[1..], c, Next(s, t[0]));
    }
  }

  lemma {:induction false} SplitReads(rest: string, current: string)
    requires Whole(current, OPEN)
    ensures var terms := SplitFrom(rest, current, EndOf(current, OPEN));
            AreTerms(terms) && Join(terms, ",") == current + rest
    decreases |rest|
  {
    var s := EndOf(current, OPEN);
    if rest == "" {
      assert current + rest == current;
    } else if Separates(s, rest[0]) {
      SplitReads(rest[1..], "");
      var terms := SplitFrom(rest[1..], "", OPEN);
      AreTermsCons(current, terms);
      assert current + "," + ("" + rest[1..]) == current + rest;
    } else {
      WholeOn(current, rest[0], OPEN);
      SplitReads(rest[1..], current + [rest[0]]);
      assert current + [rest[0]] + rest[1..] == current + rest;
    }
  }

  lemma AreTermsCons(term: string, terms: seq<string>)
    requires AreTerms(terms) && Whole(term, OPEN) && EndOf(term, OPEN) == OPEN
    ensures AreTerms([term] + terms) && Join([term] + terms, ",") == term + "," + Join(terms, ",")
  {
    assert ([term] + terms)[1..] == terms;
  }

  lemma {:induction false} SplitPasses(t: string, rest: string, current: string, s: Scan)
    requires Whole(t, s)
    ensures SplitFrom(t + rest, current, s) == SplitFrom(rest, current + t, EndOf(t, s))
    decreases |t|
  {
    if t == "" {
      assert t + rest == rest && current + t == current;
    } else {
      assert (t + rest)[1..] == t[1..] + rest;
      SplitPasses(t[1..], rest, current + [t[0]], Next(s, t[0]));
      assert current + [t[0]] + t[1..] == current + t;
    }
  }

  lemma {:induction false} SplitOfJoin(terms: seq<string>)
    requires AreTerms(terms)
    ensures Split(Join(terms, ",")) == terms
  {
    var term, back := terms[0], terms[1..];
    if back == [] {
      SplitPasses(term, "", "", OPEN);
      assert term + "" == term && "" + term == term;
    } else {
      assert AreTerms(back) by {
        assert forall i :: 0 <= i < |back| ==> back[i] == terms[i + 1];
      }
      SplitOfJoin(back);
      var rest := "," + Join(back, ",");
      SplitPasses(term, rest, "", OPEN);
      assert term + rest == Join(terms, ",") && "" + term == term && rest[1..] == Join(back, ",");
    }
  }

  /** The terms are the one list that joins to the criteria and cannot be split further. */
  lemma SplitExactly(criteria: string, terms: seq<string>)
    ensures terms == Split(criteria) <==> AreTerms(terms) && Join(terms, ",") == criteria
  {
    SplitReads(criteria, "");
    assert "" + criteria == criteria;
    if AreTerms(terms) {
      SplitOfJoin(terms);
    }
  }

  predicate IsPlain(t: string) {
    forall i :: 0 <= i < |t| ==> t[i] != '\\' && !IsOpener(t[i]) && !IsCloser(t[i])
  }

  /** Without brackets and backslashes every comma separates, as in an ordinary split. */
  lemma {:induction false} PlainSplit(rest: string, current: string)
    requires IsPlain(rest) && ',' !in current
    ensures forall term :: term in SplitFrom(rest, current, OPEN) ==> ',' !in term
    decreases |rest|
  {
    if rest == "" {
    } else if rest[0] == ',' {
      PlainSplit(rest[1..], "");
    } else {
      assert Next(OPEN, rest[0]) == OPEN;
      PlainSplit(rest[1..], current + [rest[0]]);
    }
  }

  // ----- checking a term -----

  datatype TermCheck = Passed | Missed | Unsafe

  datatype Search = Found | NotFound | BadPattern | UnsafePattern

  /** JSON parsing, the time-bounded search and lower-casing, whatever they compute. */
  datatype Checks = Checks(isJson: string -> bool, search: (string, string) -> Search, lower: string -> string)

  predicate Contains(text: string, part: string) {
    Find(text, part).Some?
  }

  ghost predicate IsInside(part: string, text: string) {
    exists before: string, after: string :: text == before + part + after
  }

  lemma ContainsExactly(text: string, part: string)
    ensures Contains(text, part) <==> IsInside(part, text)
  {
    match Find(text, part)
    case Some(k) =>
      assert text == text[..k] + part + text[k + |part|..];
    case None =>
      if before: string, after: string :| text == before + part + after {
        assert OccursAt(text, part, |before|);
        FindIsFirst(text, part, |before|);
      }
  }

  function PassedIf(condition: bool): TermCheck {
    if condition then Passed else Missed
  }

  function Check(term: string, output: string, checks: Checks): TermCheck {
    if term == "{json}" then PassedIf(checks.isJson(output))
    else if StartsWith(term, "~") then
      match checks.search(term[1..], output)
      case Found => Passed
      case NotFound => Missed
      case BadPattern => Missed
      case UnsafePattern => Unsafe
    else if StartsWith(term, "!") then PassedIf(!Contains(checks.lower(output), checks.lower(term[1..])))
    else PassedIf(Contains(checks.lower(output), checks.lower(term)))
  }

  /** Neither the JSON test nor a pattern. */
  predicate IsLiteral(term: string) {
    term != "{json}" && !StartsWith(term, "~")
  }

  /**
   A plain term passes exactly when it occurs in the output, upper and lower case alike; one after "!"
   passes exactly when the rest occurs nowhere. No such term is unsafe.
   */
  lemma PassesExactly(term: string, output: string, checks: Checks)
    requires IsLiteral(term)
    ensures var text := checks.lower(output);
            && Check(term, output, checks) != Unsafe
            && (Check(term, output, checks) == Passed <==>
                  if StartsWith(term, "!") then !IsInside(checks.lower(term[1..]), text)
                  else IsInside(checks.lower(term), text))
  {
    var part := checks.lower(if StartsWith(term, "!") then term[1..] else term);
    ContainsExactly(checks.lower(output), part);
  }

  /** A pattern passes when it is found and is unsafe when its search was cut short; "{json}" asks for JSON. */
  lemma SpecialTerms(pattern: string, output: string, checks: Checks)
    ensures Check("{json}", output, checks) == if checks.isJson(output) then Passed else Missed
    ensures var r := Check("~" + pattern, output, checks);
            && (r == Passed <==> checks.search(pattern, output) == Found)
            && (r == Unsafe <==> checks.search(pattern, output) == UnsafePattern)
  {
    var term := "~" + pattern;
    assert term[1..] == pattern && term[0] == '~' && term != "{json}";
  }

  function NonBlank(terms: seq<string>): seq<string> {
    if terms == [] then [] else
      var term := Strip(terms[|terms| - 1]);
      NonBlank(terms[..|terms| - 1]) + if term == "" then [] else [term]
  }

  /** The terms an output is checked against. */
  function Required(criteria: string): seq<string> {
    NonBlank(Split(criteria))
  }

  /** `required` are the non-blank terms stripped, in order: number `i` comes from place `places[i]`. */
  ghost predicate ComesFrom(terms: seq<string>, required: seq<string>, places: seq<nat>) {
    && |places| == |required|
    && (forall i, j :: 0 <= i < j < |places| ==> places[i] < places[j])
    && (forall i :: 0 <= i < |places| ==> places[i] < |terms| && required[i] == Strip(terms[places[i]]) != "")
    && (forall k :: 0 <= k < |terms| ==> Strip(terms[k]) == "" || k in places)
  }

  lemma NonBlankOn(terms: seq<string>, term: string)
    ensures NonBlank(terms + [term]) == NonBlank(terms) + if Strip(term) == "" then [] else [Strip(term)]
  {
    assert (terms + [term])[..|terms|] == terms;
  }

  lemma {:induction false} RequiredAreTerms(terms: seq<string>)
    ensures exists places :: ComesFrom(terms, NonBlank(terms), places)
  {
    if terms == [] {
      assert ComesFrom(terms, NonBlank(terms), []);
    } else {
      var front, last := terms[..|terms| - 1], terms[|terms| - 1];
      RequiredAreTerms(front);
      var places :| ComesFrom(front, NonBlank(front), places);
      NonBlankOn(front, last);
      assert terms == front + [last];
      var places' := RequiredOn(front, NonBlank(front), places, last);
    }
  }

  lemma RequiredOn(terms: seq<string>, required: seq<string>, places: seq<nat>, term: string)
    returns (places': seq<nat>)
    requires ComesFrom(terms, required, places)
    ensures ComesFrom(terms + [term], required + (if Strip(term) == "" then [] else [Strip(term)]), places')
  {
    if Strip(term) == "" {
      BlankOn(terms, required, places, term);
      assert required + [] == required;
      places' := places;
    } else {
      TermOn(terms, required, places, term);
      places' := places + [|terms|];
    }
  }

  lemma BlankOn(terms: seq<string>, required: seq<string>, places: seq<nat>, term: string)
    requires ComesFrom(terms, required, places) && Strip(term) == ""
    ensures ComesFrom(terms + [term], required, places)
  {
  }

  lemma TermOn(terms: seq<string>, required: seq<string>, places: seq<nat>, term: string)
    requires ComesFrom(terms, required, places) && Strip(term) != ""
    ensures ComesFrom(terms + [term], required + [Strip(term)], places + [|terms|])
  {
    var terms', places' := terms + [term], places + [|terms|];
    assert places'[|places|] == |terms|;
    forall k | 0 <= k < |terms'|
      ensures Strip(terms'[k]) == "" || k in places'
    {
      if k < |terms| {
        assert terms'[k] == terms[k];
      }
    }
  }

  method RequiredTerms(criteria: string) returns (required: seq<string>)
    ensures required == Required(criteria)
  {
    var terms := SplitCriteria(criteria);
    required := [];
    for i := 0 to |terms|
      invariant required == NonBlank(terms[..i])
    {
      assert terms[..i + 1][..i] == terms[..i];
      var term := Strip(terms[i]);
      if term != "" {
        required := required + [term];
      }
    }
    assert terms[..|terms|] == terms;
  }

  lemma {:induction false} StripOfSpaces(s: string)
    ensures Strip(s) == "" <==> forall i :: 0 <= i < |s| ==> IsSpace(s[i])
  {
    StripStartOfSpaces(s);
    StripStartLeaves(s);
    if StripStart(s) != "" {
      StripEndKeepsFirst(StripStart(s));
    }
  }

  lemma {:induction false} StripStartOfSpaces(s: string)
    ensures StripStart(s) == "" <==> forall i :: 0 <= i < |s| ==> IsSpace(s[i])
  {
    if s == "" {
    } else if IsSpace(s[0]) {
      StripStartOfSpaces(s[1..]);
      assert forall i :: 0 < i < |s| ==> s[i] == s[1..][i - 1];
    }
  }

  lemma {:induction false} StripEndKeepsFirst(s: string)
    requires s != "" && !IsSpace(s[0])
    ensures StripEnd(s) != ""
  {
    if |s| == 1 {
    } else {
      StripEndKeepsFirst(s[..|s| - 1]);
    }
  }

  /** Blank criteria have no terms, so the check for them made first changes nothing. */
  lemma BlankHasNoTerms(criteria: string)
    requires Strip(criteria) == ""
    ensures Required(criteria) == []
  {
    StripOfSpaces(criteria);
    SpacesAreWhole(criteria);
    SplitPasses(criteria, "", "", OPEN);
    assert criteria + "" == criteria && "" + criteria == criteria;
    assert SplitFrom("", criteria, OPEN) == [criteria];
    var none: seq<string> := [];
    assert NonBlank([criteria]) == NonBlank([criteria][..0]) + [] && [criteria][..0] == none;
  }

  lemma {:induction false} SpacesAreWhole(t: string)
    requires forall i :: 0 <= i < |t| ==> IsSpace(t[i])
    ensures Whole(t, OPEN) && EndOf(t, OPEN) == OPEN
  {
    if t == "" {
    } else {
      assert IsSpace(t[0]);
      SpacesAreWhole(t[1..]);
    }
  }
}
