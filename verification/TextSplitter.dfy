/**
 Splitting an over-long imported section: at paragraph breaks where possible, never inside a
 `{{placeholder}}` or between the halves of a surrogate pair, and without losing a character.
 */
module TextSplitter {
  import opened JsText
  import opened Wrappers

  const MAX_SECTION := 10_000

  type Span = (nat, nat)

  // ----- placeholders -----

  predicate IsNameStart(u: CodeUnit) {
    'A' as int <= u <= 'Z' as int || 'a' as int <= u <= 'z' as int || u == '_' as int
  }

  predicate IsNameChar(u: CodeUnit) {
    IsNameStart(u) || '0' as int <= u <= '9' as int || u == '-' as int
  }

  function SkipSpaces(t: Text, at: nat): (r: nat)
    requires at <= |t|
    ensures at <= r <= |t|
    decreases |t| - at
  {
    if at < |t| && IsSpace(t[at]) then SkipSpaces(t, at + 1) else at
  }

  function SkipName(t: Text, at: nat): (r: nat)
    requires at <= |t|
    ensures at <= r <= |t|
    decreases |t| - at
  {
    if at < |t| && IsNameChar(t[at]) then SkipName(t, at + 1) else at
  }

  /** Where the placeholder starting at `at` ends, if one does. */
  function PlaceholderEnd(t: Text, at: nat): (r: Option<nat>)
    requires at <= |t|
    ensures r.Some? ==> at + 4 < r.value <= |t|
    ensures r.Some? ==> t[at] == OPEN_BRACE && t[at + 1] == OPEN_BRACE && t[r.value - 1] == CLOSE_BRACE
  {
    if |t| < at + 2 || t[at] != OPEN_BRACE || t[at + 1] != OPEN_BRACE then None else
      var name := SkipSpaces(t, at + 2);
      if name == |t| || !IsNameStart(t[name]) then None else
        var end := SkipSpaces(t, SkipName(t, name + 1));
        if end + 2 <= |t| && t[end] == CLOSE_BRACE && t[end + 1] == CLOSE_BRACE then Some(end + 2) else None
  }

  ghost predicate AreSpans(t: Text, spans: seq<Span>) {
    && (forall i :: 0 <= i < |spans| ==> spans[i].0 <= |t| && PlaceholderEnd(t, spans[i].0) == Some(spans[i].1))
    && (forall i, j :: 0 <= i < j < |spans| ==> spans[i].1 <= spans[j].0)
  }

  /** The placeholders of `t` from `from` on, leftmost first and not overlapping. */
  function Spans(t: Text, from: nat): (r: seq<Span>)
    requires from <= |t|
    ensures AreSpans(t, r)
    ensures forall i :: 0 <= i < |r| ==> from <= r[i].0
    decreases |t| - from
  {
    if from == |t| then [] else
      match PlaceholderEnd(t, from)
      case Some(end) => [(from, end)] + Spans(t, end)
      case None => Spans(t, from + 1)
  }

  // ----- the pattern they match -----

  /** A letter or an underscore. */
  predicate IsLetter(u: CodeUnit) {
    0x41 <= u <= 0x5A || 0x61 <= u <= 0x7A || u == 0x5F
  }

  predicate IsDigitOrHyphen(u: CodeUnit) {
    0x30 <= u <= 0x39 || u == 0x2D
  }

  ghost predicate IsVariableName(t: Text) {
    t != [] && IsLetter(t[0]) && forall i :: 0 <= i < |t| ==> IsLetter(t[i]) || IsDigitOrHyphen(t[i])
  }

  ghost predicate AllSpace(t: Text) {
    forall i :: 0 <= i < |t| ==> IsSpace(t[i])
  }

  function Written(before: Text, name: Text, after: Text): Text {
    [0x7B, 0x7B] + before + name + after + [0x7D, 0x7D]
  }

  /** Two braces, white space, a name, white space, two braces. */
  ghost predicate IsVariable(t: Text) {
    exists before, name, after :: AllSpace(before) && IsVariableName(name) && AllSpace(after)
                                  && t == Written(before, name, after)
  }

  lemma NameCharsAre(u: CodeUnit)
    ensures IsNameStart(u) <==> IsLetter(u)
    ensures IsNameChar(u) <==> IsLetter(u) || IsDigitOrHyphen(u)
    ensures IsNameChar(u) ==> !IsSpace(u) && u != OPEN_BRACE && u != CLOSE_BRACE
    ensures IsSpace(u) ==> u != OPEN_BRACE && u != CLOSE_BRACE
  {
  }

  /** What a placeholder found at `at` is made of: white space up to `name`, the name up to `rest`, white space. */
  ghost predicate MadeOf(t: Text, at: nat, name: nat, rest: nat, end: nat) {
    && at + 2 <= name < rest <= end - 2 && end <= |t|
    && t[at] == t[at + 1] == 0x7B && t[end - 2] == t[end - 1] == 0x7D
    && (forall i :: at + 2 <= i < name ==> IsSpace(t[i]))
    && IsLetter(t[name]) && (forall i :: name <= i < rest ==> IsLetter(t[i]) || IsDigitOrHyphen(t[i]))
    && (forall i :: rest <= i < end - 2 ==> IsSpace(t[i]))
  }

  lemma MadeOfIsVariable(t: Text, at: nat, name: nat, rest: nat, end: nat)
    requires MadeOf(t, at, name, rest, end)
    ensures IsVariable(t[at..end])
  {
    var a, n, b := t[at + 2..name], t[name..rest], t[rest..end - 2];
    assert AllSpace(a) && AllSpace(b) && IsVariableName(n);
    assert t[at..end] == Written(a, n, b);
  }

  lemma VariableIsMadeOf(t: Text, at: nat, end: nat)
    requires at <= end <= |t| && IsVariable(t[at..end])
    ensures exists name, rest :: MadeOf(t, at, name, rest, end)
  {
    var a, n, b :| AllSpace(a) && IsVariableName(n) && AllSpace(b) && t[at..end] == Written(a, n, b);
    var name := at + 2 + |a|;
    var rest := name + |n|;
    assert forall i :: at <= i < end ==> t[i] == Written(a, n, b)[i - at];
    assert forall i :: at + 2 <= i < name ==> t[i] == a[i - at - 2];
    assert forall i :: name <= i < rest ==> t[i] == n[i - name];
    assert forall i :: rest <= i < end - 2 ==> t[i] == b[i - rest];
    assert MadeOf(t, at, name, rest, end);
  }

  lemma {:induction false} SkipSpacesIs(t: Text, at: nat, to: nat)
    requires at <= to <= |t|
    ensures SkipSpaces(t, at) == to <==> (forall i :: at <= i < to ==> IsSpace(t[i])) && (to < |t| ==> !IsSpace(t[to]))
    decreases |t| - at
  {
    if at == |t| || !IsSpace(t[at]) {
    } else if at == to {
      assert at + 1 <= SkipSpaces(t, at + 1);
    } else {
      SkipSpacesIs(t, at + 1, to);
    }
  }

  lemma {:induction false} SkipNameIs(t: Text, at: nat, to: nat)
    requires at <= to <= |t|
    ensures SkipName(t, at) == to
            <==> (forall i :: at <= i < to ==> IsNameChar(t[i])) && (to < |t| ==> !IsNameChar(t[to]))
    decreases |t| - at
  {
    if at == |t| || !IsNameChar(t[at]) {
    } else if at == to {
      assert at + 1 <= SkipName(t, at + 1);
    } else {
      SkipNameIs(t, at + 1, to);
    }
  }

  lemma FoundIsMadeOf(t: Text, at: nat, end: nat)
    requires at <= |t| && PlaceholderEnd(t, at) == Some(end)
    ensures exists name, rest :: MadeOf(t, at, name, rest, end)
  {
    var name := SkipSpaces(t, at + 2);
    var rest := SkipName(t, name + 1);
    SkipSpacesIs(t, at + 2, name);
    SkipNameIs(t, name + 1, rest);
    SkipSpacesIs(t, rest, end - 2);
    forall u: CodeUnit
      ensures IsNameStart(u) <==> IsLetter(u)
      ensures IsNameChar(u) <==> IsLetter(u) || IsDigitOrHyphen(u)
    {
      NameCharsAre(u);
    }
    assert MadeOf(t, at, name, rest, end);
  }

  lemma MadeOfIsFound(t: Text, at: nat, name: nat, rest: nat, end: nat)
    requires MadeOf(t, at, name, rest, end)
    ensures PlaceholderEnd(t, at) == Some(end)
  {
    forall u: CodeUnit
      ensures IsNameStart(u) <==> IsLetter(u)
      ensures IsNameChar(u) <==> IsLetter(u) || IsDigitOrHyphen(u)
      ensures IsNameChar(u) ==> !IsSpace(u) && u != CLOSE_BRACE
      ensures IsSpace(u) ==> u != CLOSE_BRACE
    {
      NameCharsAre(u);
    }
    assert !IsNameChar(t[rest]) && !IsSpace(t[end - 2]);
    SkipSpacesIs(t, at + 2, name);
    SkipNameIs(t, name + 1, rest);
    SkipSpacesIs(t, rest, end - 2);
  }

  /** The search finds exactly the pattern. */
  lemma PlaceholderEndExactly(t: Text, at: nat, end: nat)
    requires at <= end <= |t|
    ensures PlaceholderEnd(t, at) == Some(end) <==> IsVariable(t[at..end])
  {
    if PlaceholderEnd(t, at) == Some(end) {
      FoundIsMadeOf(t, at, end);
      var name, rest :| MadeOf(t, at, name, rest, end);
      MadeOfIsVariable(t, at, name, rest, end);
    }
    if IsVariable(t[at..end]) {
      VariableIsMadeOf(t, at, end);
      var name, rest :| MadeOf(t, at, name, rest, end);
      MadeOfIsFound(t, at, name, rest, end);
    }
  }

  /** Placeholders never overlap: past its first brace none starts within another. */
  lemma NoneWithin(t: Text, at: nat, end: nat, k: nat)
    requires at < k < end <= |t| && PlaceholderEnd(t, at) == Some(end)
    ensures PlaceholderEnd(t, k) == None
  {
    FoundIsMadeOf(t, at, end);
    var name, rest :| MadeOf(t, at, name, rest, end);
    var second := if k == at + 1 then k + 1 else k;
    assert t[second] != OPEN_BRACE;
  }

  lemma {:induction false} SpansFindAll(t: Text, from: nat, at: nat, end: nat)
    requires from <= at <= |t| && PlaceholderEnd(t, at) == Some(end)
    ensures (at, end) in Spans(t, from)
    decreases |t| - from
  {
    match PlaceholderEnd(t, from)
    case Some(first) =>
      if from < at < first {
        NoneWithin(t, from, first, at);
      } else if from < at {
        SpansFindAll(t, first, at, end);
        assert (at, end) in [(from, first)] + Spans(t, first);
      } else {
        assert Spans(t, from)[0] == (at, end);
      }
    case None =>
      SpansFindAll(t, from + 1, at, end);
  }

  /** The spans are all occurrences of the pattern, in order; they do not overlap. */
  lemma SpansExactly(t: Text, at: nat, end: nat)
    ensures (at, end) in Spans(t, 0) <==> at <= end <= |t| && IsVariable(t[at..end])
  {
    if at <= end <= |t| {
      PlaceholderEndExactly(t, at, end);
      if IsVariable(t[at..end]) {
        SpansFindAll(t, 0, at, end);
      }
    }
  }

  datatype Part = Plain(text: Text) | Variable(text: Text)

  function Texts(parts: seq<Part>): seq<Text> {
    if parts == [] then [] else Texts(parts[..|parts| - 1]) + [parts[|parts| - 1].text]
  }

  function Length(parts: seq<Part>): nat {
    if parts == [] then 0 else Length(parts[..|parts| - 1]) + |parts[|parts| - 1].text|
  }

  /** Where the placeholders lie, read off the parts. */
  function Located(parts: seq<Part>): seq<Span> {
    if parts == [] then [] else
      var front, last := parts[..|parts| - 1], parts[|parts| - 1];
      if last.Variable? then Located(front) + [(Length(front), Length(front) + |last.text|)] else Located(front)
  }

  lemma PartsOn(parts: seq<Part>, part: Part)
    ensures Texts(parts + [part]) == Texts(parts) + [part.text]
    ensures Length(parts + [part]) == Length(parts) + |part.text|
    ensures Located(parts + [part]) ==
            if part.Variable? then Located(parts) + [(Length(parts), Length(parts) + |part.text|)] else Located(parts)
    ensures Concat(Texts(parts + [part])) == Concat(Texts(parts)) + part.text
  {
    assert (parts + [part])[..|parts|] == parts;
    ConcatAppend(Texts(parts), [part.text]);
    ConcatOne(part.text);
  }

  predicate EndsPlain(parts: seq<Part>) {
    parts != [] && parts[|parts| - 1].Plain?
  }

  /** No part is empty, and plain runs do not touch. */
  ghost predicate Tidy(parts: seq<Part>) {
    && (forall i :: 0 <= i < |parts| ==> parts[i].text != [])
    && (forall i :: 0 < i < |parts| ==> parts[i - 1].Variable? || parts[i].Variable?)
  }

  /** The parts are the text up to `last`, with its placeholders where `found` says. */
  ghost predicate Covers(t: Text, parts: seq<Part>, last: nat, found: seq<Span>) {
    && last <= |t| && Length(parts) == last
    && Concat(Texts(parts)) == t[..last]
    && Located(parts) == found
    && Tidy(parts)
  }

  lemma CoverMore(t: Text, parts: seq<Part>, last: nat, found: seq<Span>, to: nat, part: Part)
    requires Covers(t, parts, last, found) && last < to <= |t|
    requires part.text == t[last..to] && (part.Plain? ==> !EndsPlain(parts))
    ensures Covers(t, parts + [part], to, if part.Variable? then found + [(last, to)] else found)
  {
    PartsOn(parts, part);
    assert t[..last] + t[last..to] == t[..to];
  }

  ghost predicate InOrder(spans: seq<Span>, length: nat) {
    && (forall i :: 0 <= i < |spans| ==> spans[i].0 < spans[i].1 <= length)
    && (forall i, j :: 0 <= i < j < |spans| ==> spans[i].1 <= spans[j].0)
  }

  lemma CoverMatch(t: Text, parts: seq<Part>, last: nat, matches: seq<Span>, i: nat)
    requires InOrder(matches, |t|) && i < |matches| && last <= matches[i].0
    requires Covers(t, parts, last, matches[..i]) && !EndsPlain(parts)
    ensures var (from, to) := matches[i];
            Covers(t, (if from > last then parts + [Plain(t[last..from])] else parts) + [Variable(t[from..to])],
                   to, matches[..i + 1])
  {
    var (from, to) := matches[i];
    var before := parts;
    if from > last {
      CoverMore(t, parts, last, matches[..i], from, Plain(t[last..from]));
      before := parts + [Plain(t[last..from])];
    }
    CoverMore(t, before, from, matches[..i], to, Variable(t[from..to]));
    assert matches[..i + 1] == matches[..i] + [(from, to)];
  }

  method SplitAround(t: Text, matches: seq<Span>) returns (parts: seq<Part>)
    requires InOrder(matches, |t|)
    ensures Covers(t, parts, |t|, matches)
  {
    parts := [];
    var last := 0;
    for i := 0 to |matches|
      invariant i < |matches| ==> last <= matches[i].0
      invariant Covers(t, parts, last, matches[..i]) && !EndsPlain(parts)
    {
      var (from, to) := matches[i];
      CoverMatch(t, parts, last, matches, i);
      if from > last {
        parts := parts + [Plain(t[last..from])];
      }
      parts := parts + [Variable(t[from..to])];
      last := to;
    }
    assert matches[..|matches|] == matches;
    if last < |t| {
      CoverMore(t, parts, last, matches, |t|, Plain(t[last..]));
      parts := parts + [Plain(t[last..])];
    }
  }

  /** Part `i` is a variable and lies at `span`. */
  ghost predicate VariableAt(parts: seq<Part>, i: nat, span: Span) {
    i < |parts| && parts[i].Variable? && span == (Length(parts[..i]), Length(parts[..i + 1]))
  }

  lemma {:induction false} LocatedMeans(parts: seq<Part>, span: Span)
    ensures span in Located(parts) <==> exists i :: VariableAt(parts, i, span)
  {
    if parts == [] {
    } else {
      var front, k := parts[..|parts| - 1], |parts| - 1;
      LocatedMeans(front, span);
      assert parts[..k] == front && parts[..k + 1] == parts;
      forall i: nat | i < k
        ensures VariableAt(front, i, span) <==> VariableAt(parts, i, span)
      {
        assert front[..i] == parts[..i] && front[..i + 1] == parts[..i + 1];
      }
      assert VariableAt(parts, k, span) <==> parts[k].Variable? && span == (Length(front), Length(parts));
    }
  }

  /** The variables among the parts are exactly the occurrences of the pattern in the text. */
  ghost predicate HoldsVariables(t: Text, parts: seq<Part>) {
    forall at: nat, end: nat ::
      (at <= end <= |t| && IsVariable(t[at..end])) <==> exists i :: VariableAt(parts, i, (at, end))
  }

  lemma LocatedAreVariables(t: Text, parts: seq<Part>)
    requires Located(parts) == Spans(t, 0)
    ensures HoldsVariables(t, parts)
  {
    forall at: nat, end: nat
      ensures (at <= end <= |t| && IsVariable(t[at..end])) <==> exists i :: VariableAt(parts, i, (at, end))
    {
      SpansExactly(t, at, end);
      LocatedMeans(parts, (at, end));
    }
  }

  /** The parts give the text back and hold its placeholders where they are. */
  method SplitVariables(t: Text) returns (parts: seq<Part>)
    ensures Concat(Texts(parts)) == t && HoldsVariables(t, parts)
    ensures Located(parts) == Spans(t, 0)
    ensures Tidy(parts)
  {
    parts := SplitAround(t, Spans(t, 0));
    assert t[..|t|] == t;
    LocatedAreVariables(t, parts);
  }

  lemma LocatedOn(parts: seq<Part>, i: nat)
    requires i < |parts|
    ensures var offset := Length(parts[..i]);
            && Length(parts[..i + 1]) == offset + |parts[i].text|
            && Located(parts[..i + 1])
            == if parts[i].Variable? then Located(parts[..i]) + [(offset, offset + |parts[i].text|)]
                else Located(parts[..i])
  {
    assert parts[..i + 1] == parts[..i] + [parts[i]];
    PartsOn(parts[..i], parts[i]);
  }

  method PlaceholderSpans(t: Text) returns (spans: seq<Span>)
    ensures spans == Spans(t, 0)
  {
    var parts := SplitVariables(t);
    spans := [];
    var offset: nat := 0;
    for i := 0 to |parts|
      invariant offset == Length(parts[..i]) && spans == Located(parts[..i])
    {
      LocatedOn(parts, i);
      if parts[i].Variable? {
        spans := spans + [(offset, offset + |parts[i].text|)];
      }
      offset := offset + |parts[i].text|;
    }
    assert parts[..|parts|] == parts;
  }

  // ----- where to cut -----

  function Inside(spans: seq<Span>, at: int): Option<Span> {
    if spans == [] then None
    else if spans[0].0 < at < spans[0].1 then Some(spans[0])
    else Inside(spans[1..], at)
  }

  lemma {:induction false} InsideFinds(spans: seq<Span>, at: int)
    ensures Inside(spans, at).Some? ==>
              Inside(spans, at).value in spans && Inside(spans, at).value.0 < at < Inside(spans, at).value.1
    ensures Inside(spans, at).None? ==> forall s :: s in spans ==> !(s.0 < at < s.1)
  {
    if spans == [] {
    } else {
      InsideFinds(spans[1..], at);
    }
  }

  predicate BreakAt(t: Text, k: int) {
    0 <= k && k + 1 < |t| && t[k] == NEWLINE && t[k + 1] == NEWLINE
  }

  function LastBreak(t: Text, k: int): (r: int)
    ensures -1 <= r && (0 <= k ==> r <= k)
    ensures r != -1 ==> BreakAt(t, r)
    ensures forall b :: r < b <= k ==> !BreakAt(t, b)
    decreases k
  {
    if k < 0 then -1 else if BreakAt(t, k) then k else LastBreak(t, k - 1)
  }

  /** `text.lastIndexOf('\n\n', position)`: a negative position searches from 0. */
  function LastIndexOfBreak(t: Text, position: int): int {
    LastBreak(t, if position < 0 then 0 else position)
  }

  /** A cut just after a paragraph break, in reach of `start` and not inside a placeholder. */
  ghost predicate ParagraphCut(t: Text, spans: seq<Span>, start: nat, cut: int) {
    start < cut <= start + MAX_SECTION && BreakAt(t, cut - 2) && Inside(spans, cut).None?
  }

  /**
   The cut before surrogates are looked at: after the last paragraph break in reach; failing that
   after 10,000 units, or at the edge of the placeholder there (its end, when it starts the section).
   */
  ghost predicate FirstChoice(t: Text, spans: seq<Span>, start: nat, cut: int) {
    || (ParagraphCut(t, spans, start, cut) && forall later :: cut < later ==> !ParagraphCut(t, spans, start, later))
    || ((forall other :: !ParagraphCut(t, spans, start, other)) &&
        match Inside(spans, start + MAX_SECTION)
        case None => cut == start + MAX_SECTION
        case Some(span) => cut == if start < span.0 then span.0 else span.1)
  }

  function KeepPair(t: Text, start: nat, cut: int): int {
    if 0 <= cut < |t| && IsLowSurrogate(t[cut]) && start < cut - 1 then cut - 1 else cut
  }

  ghost predicate IsCut(t: Text, spans: seq<Span>, start: nat, cut: int) {
    exists choice :: FirstChoice(t, spans, start, choice) && cut == KeepPair(t, start, choice)
  }

  /** A break at the very start of the text is never inside a placeholder, so the search below stops. */
  lemma NoPlaceholderAroundFirstBreak(t: Text, spans: seq<Span>)
    requires AreSpans(t, spans) && BreakAt(t, 0)
    ensures Inside(spans, 2).None?
  {
    InsideFinds(spans, 2);
  }

  /** Where the backward search stopped: a paragraph cut, the last one, or none is in reach. */
  lemma ParagraphChosen(t: Text, spans: seq<Span>, start: nat, paragraph: int)
    requires -1 <= paragraph <= start + MAX_SECTION - 2 && (paragraph != -1 ==> BreakAt(t, paragraph))
    requires forall later :: paragraph + 2 < later ==> !ParagraphCut(t, spans, start, later)
    requires paragraph == -1 || paragraph + 2 <= start || Inside(spans, paragraph + 2).None?
    ensures if paragraph != -1 && paragraph + 2 > start then FirstChoice(t, spans, start, paragraph + 2)
            else forall other :: !ParagraphCut(t, spans, start, other)
  {
    if paragraph != -1 && paragraph + 2 > start {
      assert ParagraphCut(t, spans, start, paragraph + 2);
    }
  }

  method NextCut(t: Text, spans: seq<Span>, start: nat) returns (end: nat)
    requires AreSpans(t, spans) && MAX_SECTION < |t| - start
    ensures IsCut(t, spans, start, end)
  {
    end := start + MAX_SECTION;
    var paragraph := LastIndexOfBreak(t, end - 2);
    while paragraph != -1 && paragraph + 2 > start && Inside(spans, paragraph + 2).Some?
      invariant -1 <= paragraph <= end - 2 && (paragraph != -1 ==> BreakAt(t, paragraph))
      invariant forall later :: paragraph + 2 < later ==> !ParagraphCut(t, spans, start, later)
      decreases paragraph
    {
      if paragraph == 0 {
        NoPlaceholderAroundFirstBreak(t, spans);
      }
      paragraph := LastIndexOfBreak(t, paragraph - 1);
    }
    ParagraphChosen(t, spans, start, paragraph);
    if paragraph != -1 && paragraph + 2 > start {
      end := paragraph + 2;
    }
    var span := Inside(spans, end);
    InsideFinds(spans, end);
    if span.Some? {
      end := if span.value.0 > start then span.value.0 else span.value.1;
    }
    assert FirstChoice(t, spans, start, end);
    if end < |t| && IsLowSurrogate(t[end]) && end - 1 > start {
      end := end - 1;
    }
  }

  lemma CutAdvances(t: Text, spans: seq<Span>, start: nat, cut: int)
    requires AreSpans(t, spans) && MAX_SECTION < |t| - start && IsCut(t, spans, start, cut)
    ensures start < cut <= |t|
  {
    InsideFinds(spans, start + MAX_SECTION);
  }

  ghost predicate SplitsPair(t: Text, at: int) {
    0 < at < |t| && IsHighSurrogate(t[at - 1]) && IsLowSurrogate(t[at])
  }

  /** Ends of placeholders are braces, and around braces and newlines well-formed text has no surrogates. */
  lemma NoPairHere(t: Text, spans: seq<Span>, start: nat, choice: int)
    requires AreSpans(t, spans) && WellFormed(t) && MAX_SECTION < |t| - start
    requires FirstChoice(t, spans, start, choice) && choice != start + MAX_SECTION
    ensures KeepPair(t, start, choice) == choice && !SplitsPair(t, choice)
  {
    InsideFinds(spans, start + MAX_SECTION);
  }

  lemma ChoiceIsClean(t: Text, spans: seq<Span>, start: nat, choice: int)
    requires AreSpans(t, spans) && MAX_SECTION < |t| - start
    requires Inside(spans, start).None? && FirstChoice(t, spans, start, choice)
    ensures start < choice <= |t| && Inside(spans, choice).None?
    ensures choice - start <= MAX_SECTION || (start as nat, choice as nat) in spans
  {
    InsideFinds(spans, start);
    InsideFinds(spans, start + MAX_SECTION);
    InsideFinds(spans, choice);
    if Inside(spans, start + MAX_SECTION).Some? {
      var span := Inside(spans, start + MAX_SECTION).value;
      assert span == (span.0, span.1);
    }
  }

  /** From a good place to start, the next cut is a good place too, and the part fits or is one placeholder. */
  lemma CutIsClean(t: Text, spans: seq<Span>, start: nat, cut: int)
    requires AreSpans(t, spans) && WellFormed(t) && MAX_SECTION < |t| - start
    requires Inside(spans, start).None? && IsCut(t, spans, start, cut)
    ensures start < cut <= |t| && Inside(spans, cut).None? && !SplitsPair(t, cut)
    ensures cut - start <= MAX_SECTION || (start as nat, cut as nat) in spans
  {
    var choice :| FirstChoice(t, spans, start, choice) && cut == KeepPair(t, start, choice);
    ChoiceIsClean(t, spans, start, choice);
    if choice != start + MAX_SECTION {
      NoPairHere(t, spans, start, choice);
    } else {
      InsideFinds(spans, choice);
      InsideFinds(spans, cut);
    }
  }

  // ----- the cuts, stated on the text alone -----

  /** Two newlines end at `cut`, at most 10,000 units on, and no occurrence of the pattern lies across it. */
  ghost predicate CutsParagraph(t: Text, start: nat, cut: int) {
    && start < cut <= start + 10_000 && 2 <= cut <= |t| && t[cut - 2] == t[cut - 1] == 0x0A
    && forall at, end :: 0 <= at < cut < end <= |t| ==> !IsVariable(t[at..end])
  }

  /** An occurrence of the pattern lies across `place`. */
  ghost predicate Across(t: Text, place: nat, at: nat, end: nat) {
    at < place < end <= |t| && IsVariable(t[at..end])
  }

  ghost predicate IsLastParagraph(t: Text, start: nat, cut: int) {
    CutsParagraph(t, start, cut) && forall later :: CutsParagraph(t, start, later) ==> later <= cut
  }

  /** At the limit, or where an occurrence across it begins, or ends if it begins the part. */
  ghost predicate CutsAtLimit(t: Text, start: nat, limit: nat, choice: int) {
    || (choice == limit && forall at, end :: !Across(t, limit, at, end))
    || (exists at: nat, end: nat :: Across(t, limit, at, end) && choice == if start < at then at else end)
  }

  /** After the last paragraph in reach, or 10,000 units on when there is none. */
  ghost predicate ChoosesCut(t: Text, start: nat, choice: int) {
    || IsLastParagraph(t, start, choice)
    || ((forall cut :: !CutsParagraph(t, start, cut)) && CutsAtLimit(t, start, start + 10_000, choice))
  }

  lemma ParagraphsAgree(t: Text, start: nat, cut: int)
    requires start + 10_000 < |t|
    ensures ParagraphCut(t, Spans(t, 0), start, cut) <==> CutsParagraph(t, start, cut)
  {
    InsideFinds(Spans(t, 0), cut);
    if start < cut <= start + 10_000 && BreakAt(t, cut - 2) {
      forall at, end | 0 <= at < cut < end <= |t|
        ensures (at, end) in Spans(t, 0) <==> IsVariable(t[at..end])
      {
        SpansExactly(t, at, end);
      }
      if Inside(Spans(t, 0), cut).Some? {
        var s := Inside(Spans(t, 0), cut).value;
        assert s == (s.0, s.1);
        SpansExactly(t, s.0, s.1);
      }
    }
  }

  lemma AcrossAgree(t: Text, place: nat)
    ensures match Inside(Spans(t, 0), place)
            case None => forall at, end :: !Across(t, place, at, end)
            case Some(s) => Across(t, place, s.0, s.1)
  {
    InsideFinds(Spans(t, 0), place);
    match Inside(Spans(t, 0), place)
    case None =>
      forall at, end
        ensures !Across(t, place, at, end)
      {
        SpansExactly(t, at, end);
      }
    case Some(s) =>
      assert s == (s.0, s.1);
      SpansExactly(t, s.0, s.1);
  }

  lemma LimitAgrees(t: Text, start: nat, choice: int)
    requires match Inside(Spans(t, 0), start + MAX_SECTION)
             case None => choice == start + MAX_SECTION
             case Some(span) => choice == if start < span.0 then span.0 else span.1
    ensures CutsAtLimit(t, start, start + 10_000, choice)
  {
    AcrossAgree(t, start + MAX_SECTION);
  }

  lemma LastAgrees(t: Text, start: nat, choice: int)
    requires start + 10_000 < |t| && ParagraphCut(t, Spans(t, 0), start, choice)
    requires forall later :: choice < later ==> !ParagraphCut(t, Spans(t, 0), start, later)
    ensures IsLastParagraph(t, start, choice)
  {
    ParagraphsAgree(t, start, choice);
    forall later | CutsParagraph(t, start, later)
      ensures later <= choice
    {
      ParagraphsAgree(t, start, later);
    }
  }

  lemma ChoicesAgree(t: Text, start: nat, choice: int)
    requires start + 10_000 < |t| && FirstChoice(t, Spans(t, 0), start, choice)
    ensures ChoosesCut(t, start, choice)
  {
    if ParagraphCut(t, Spans(t, 0), start, choice) && forall later :: choice < later ==>
         !ParagraphCut(t, Spans(t, 0), start, later)
    {
      LastAgrees(t, start, choice);
    } else {
      forall cut
        ensures !CutsParagraph(t, start, cut)
      {
        ParagraphsAgree(t, start, cut);
      }
      LimitAgrees(t, start, choice);
    }
  }

  /** The cut the rules choose, one unit earlier when a low surrogate follows it. */
  lemma CutExactly(t: Text, start: nat, cut: int)
    requires start + 10_000 < |t| && IsCut(t, Spans(t, 0), start, cut)
    ensures exists choice ::
              && ChoosesCut(t, start, choice) && start < choice <= |t|
              && cut == if choice < |t| && 0xDC00 <= t[choice] <= 0xDFFF && start < choice - 1 then choice - 1
                        else choice
  {
    var choice :| FirstChoice(t, Spans(t, 0), start, choice) && cut == KeepPair(t, start, choice);
    ChoicesAgree(t, start, choice);
    InsideFinds(Spans(t, 0), start + MAX_SECTION);
  }

  // ----- splitting -----

  ghost predicate IsPiece(t: Text, part: Text, from: nat, to: nat) {
    from <= to <= |t| && part == t[from..to]
  }

  /** `cuts` are the places where the parts meet, both ends included. */
  ghost predicate CutsOf(t: Text, parts: seq<Text>, cuts: seq<nat>) {
    && |cuts| == |parts| + 1 && cuts[0] == 0
    && forall i :: 0 <= i < |parts| ==> IsPiece(t, parts[i], cuts[i], cuts[i + 1])
  }

  /** Each cut is the one the rules choose from the cut before it, while more than one section's worth is left. */
  ghost predicate CutByTheRules(t: Text, spans: seq<Span>, cuts: seq<nat>) {
    forall i :: 0 <= i < |cuts| - 1 ==> MAX_SECTION < |t| - cuts[i] && IsCut(t, spans, cuts[i], cuts[i + 1])
  }

  ghost predicate CleanPlace(t: Text, spans: seq<Span>, at: nat) {
    Inside(spans, at).None? && !SplitsPair(t, at)
  }

  ghost predicate FitsOrPlaceholder(spans: seq<Span>, from: nat, to: nat) {
    to - from <= MAX_SECTION || (from, to) in spans
  }

  /** No cut is inside a placeholder or a surrogate pair, and a part is over-long only as one whole placeholder. */
  ghost predicate CleanCuts(t: Text, spans: seq<Span>, cuts: seq<nat>) {
    && (forall i :: 0 <= i < |cuts| ==> CleanPlace(t, spans, cuts[i]))
    && (forall i :: 0 <= i < |cuts| - 1 ==> FitsOrPlaceholder(spans, cuts[i], cuts[i + 1]))
  }

  lemma EndsAreClean(t: Text, at: nat)
    requires at == 0 || at == |t|
    ensures Inside(Spans(t, 0), at).None? && !SplitsPair(t, at)
  {
    InsideFinds(Spans(t, 0), at);
  }

  ghost predicate SplitUpTo(t: Text, parts: seq<Text>, cuts: seq<nat>, start: nat) {
    start <= |t| && CutsOf(t, parts, cuts) && cuts[|parts|] == start && Concat(parts) == t[..start]
  }

  lemma TakePart(t: Text, parts: seq<Text>, cuts: seq<nat>, start: nat, end: nat)
    requires SplitUpTo(t, parts, cuts, start) && start <= end <= |t|
    ensures SplitUpTo(t, parts + [t[start..end]], cuts + [end], end)
  {
    ConcatAppend(parts, [t[start..end]]);
    ConcatOne(t[start..end]);
    assert t[..start] + t[start..end] == t[..end];
    CutsOn(t, parts, cuts, end);
  }

  lemma CutsOn(t: Text, parts: seq<Text>, cuts: seq<nat>, end: nat)
    requires CutsOf(t, parts, cuts) && cuts[|parts|] <= end <= |t|
    ensures CutsOf(t, parts + [t[cuts[|parts|]..end]], cuts + [end])
  {
    var parts', cuts' := parts + [t[cuts[|parts|]..end]], cuts + [end];
    forall i | 0 <= i < |parts'|
      ensures IsPiece(t, parts'[i], cuts'[i], cuts'[i + 1])
    {
      if i < |parts| {
        assert parts'[i] == parts[i] && cuts'[i] == cuts[i] && cuts'[i + 1] == cuts[i + 1];
      } else {
        assert cuts'[i] == cuts[|parts|] && cuts'[i + 1] == end;
      }
    }
  }

  lemma CleanOn(t: Text, spans: seq<Span>, cuts: seq<nat>, end: nat)
    requires cuts != [] && CleanCuts(t, spans, cuts)
    requires CleanPlace(t, spans, end) && FitsOrPlaceholder(spans, cuts[|cuts| - 1], end)
    ensures CleanCuts(t, spans, cuts + [end])
  {
  }

  lemma CutOn(t: Text, spans: seq<Span>, cuts: seq<nat>, end: nat)
    requires AreSpans(t, spans) && cuts != [] && CutByTheRules(t, spans, cuts)
            && (WellFormed(t) ==> CleanCuts(t, spans, cuts))
    requires var start := cuts[|cuts| - 1]; MAX_SECTION < |t| - start && IsCut(t, spans, start, end)
    ensures cuts[|cuts| - 1] < end <= |t|
    ensures CutByTheRules(t, spans, cuts + [end]) && (WellFormed(t) ==> CleanCuts(t, spans, cuts + [end]))
  {
    CutAdvances(t, spans, cuts[|cuts| - 1], end);
    if WellFormed(t) {
      assert CleanPlace(t, spans, cuts[|cuts| - 1]);
      CutIsClean(t, spans, cuts[|cuts| - 1], end);
      CleanOn(t, spans, cuts, end);
    }
  }

  lemma CutAtEnd(t: Text, cuts: seq<nat>)
    requires cuts != [] && |t| - cuts[|cuts| - 1] <= MAX_SECTION && CleanCuts(t, Spans(t, 0), cuts)
    ensures CleanCuts(t, Spans(t, 0), cuts + [|t|])
  {
    EndsAreClean(t, |t|);
    CleanOn(t, Spans(t, 0), cuts, |t|);
  }

  /** The parts lose nothing, and each cut is where the rules put it. */
  ghost predicate IsSplit(t: Text, parts: seq<Text>, cuts: seq<nat>) {
    && Concat(parts) == t
    && parts != [] && CutsOf(t, parts, cuts) && cuts[|parts|] == |t|
    && CutByTheRules(t, Spans(t, 0), cuts[..|parts|]) && |parts[|parts| - 1]| <= MAX_SECTION
    && (WellFormed(t) ==> CleanCuts(t, Spans(t, 0), cuts))
  }

  /** No cut falls within an occurrence of the pattern, and only such an occurrence can be over-long. */
  ghost predicate SparesVariables(t: Text, parts: seq<Text>, cuts: seq<nat>) {
    && (forall i, at, end ::
          0 <= i < |cuts| && 0 <= at <= end <= |t| && IsVariable(t[at..end]) ==> !(at < cuts[i] < end))
    && (forall i :: 0 <= i < |parts| ==> |parts[i]| <= 10_000 || IsVariable(parts[i]))
  }

  lemma CleanCutsSpare(t: Text, parts: seq<Text>, cuts: seq<nat>)
    requires CutsOf(t, parts, cuts) && CleanCuts(t, Spans(t, 0), cuts)
    ensures SparesVariables(t, parts, cuts)
  {
    forall i, at, end | 0 <= i < |cuts| && 0 <= at <= end <= |t| && IsVariable(t[at..end])
      ensures !(at < cuts[i] < end)
    {
      SpansExactly(t, at, end);
      assert CleanPlace(t, Spans(t, 0), cuts[i]);
      InsideFinds(Spans(t, 0), cuts[i]);
    }
    forall i | 0 <= i < |parts|
      ensures |parts[i]| <= 10_000 || IsVariable(parts[i])
    {
      assert IsPiece(t, parts[i], cuts[i], cuts[i + 1]);
      assert FitsOrPlaceholder(Spans(t, 0), cuts[i], cuts[i + 1]);
      SpansExactly(t, cuts[i], cuts[i + 1]);
    }
  }

  method SplitText(t: Text) returns (parts: seq<Text>, ghost cuts: seq<nat>)
    ensures parts != [] && Concat(parts) == t && |parts[|parts| - 1]| <= MAX_SECTION
    ensures IsSplit(t, parts, cuts)
    ensures WellFormed(t) ==> SparesVariables(t, parts, cuts)
  {
    var spans := PlaceholderSpans(t);
    parts, cuts := [], [0];
    var start := 0;
    EndsAreClean(t, 0);
    while |t| - start > MAX_SECTION
      invariant SplitUpTo(t, parts, cuts, start)
      invariant CutByTheRules(t, spans, cuts)
      invariant WellFormed(t) ==> CleanCuts(t, spans, cuts)
    {
      var end := NextCut(t, spans, start);
      CutOn(t, spans, cuts, end);
      TakePart(t, parts, cuts, start, end);
      parts, cuts := parts + [t[start..end]], cuts + [end];
      start := end;
    }
    if WellFormed(t) {
      CutAtEnd(t, cuts);
    }
    TakePart(t, parts, cuts, start, |t|);
    assert (cuts + [|t|])[..|cuts|] == cuts && t[..|t|] == t;
    parts, cuts := parts + [t[start..]], cuts + [|t|];
    if WellFormed(t) {
      CleanCutsSpare(t, parts, cuts);
    }
  }

  lemma CutIsUnique(t: Text, spans: seq<Span>, start: nat, a: int, b: int)
    requires IsCut(t, spans, start, a) && IsCut(t, spans, start, b)
    ensures a == b
  {
    var x :| FirstChoice(t, spans, start, x) && a == KeepPair(t, start, x);
    var y :| FirstChoice(t, spans, start, y) && b == KeepPair(t, start, y);
    assert x == y;
  }

  lemma {:induction false} CutsAgree(t: Text, a: seq<Text>, ca: seq<nat>, b: seq<Text>, cb: seq<nat>, i: nat)
    requires IsSplit(t, a, ca) && IsSplit(t, b, cb) && i < |a|
    ensures i < |b| && ca[i] == cb[i]
  {
    if i == 0 {
    } else {
      CutsAgree(t, a, ca, b, cb, i - 1);
      assert ca[..|a|][i - 1] == ca[i - 1] && ca[..|a|][i] == ca[i];
      assert IsPiece(t, b[i - 1], cb[i - 1], cb[i]);
      if i < |b| {
        assert cb[..|b|][i - 1] == cb[i - 1] && cb[..|b|][i] == cb[i];
        CutIsUnique(t, Spans(t, 0), ca[i - 1], ca[i], cb[i]);
      }
    }
  }

  /** There is one way to split a text. */
  lemma SplitIsUnique(t: Text, a: seq<Text>, ca: seq<nat>, b: seq<Text>, cb: seq<nat>)
    requires IsSplit(t, a, ca) && IsSplit(t, b, cb)
    ensures a == b
  {
    CutsAgree(t, a, ca, b, cb, |a| - 1);
    CutsAgree(t, b, cb, a, ca, |b| - 1);
    forall i | 0 <= i < |a|
      ensures a[i] == b[i]
    {
      CutsAgree(t, a, ca, b, cb, i);
      if i + 1 < |a| {
        CutsAgree(t, a, ca, b, cb, i + 1);
      }
      assert IsPiece(t, a[i], ca[i], ca[i + 1]) && IsPiece(t, b[i], cb[i], cb[i + 1]);
    }
  }
}
