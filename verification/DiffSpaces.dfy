/**
 The diff's promise that no change is a lone space: it is kept for texts of words with one and the same
 white space between them, and for no wider kind of text.
 */
module DiffSpaces {
  import opened Diff
  import opened JsText

  /** No run of added or removed text is white space only. */
  ghost predicate NoLoneSpace(runs: seq<DiffToken>) {
    forall i :: 0 <= i < |runs| ==> IsSubstantial(runs[i])
  }

  ghost predicate IsSubstantial(run: DiffToken) {
    run.kind == Unchanged || HasText(run.text)
  }

  // ----- tokens that alternate -----

  /** Words with `space` between any two: no white space at either end, none missing, none different. */
  ghost predicate WordsFirst(tokens: seq<Text>, space: Text) {
    tokens != [] ==> HasText(tokens[0]) && SpaceFirst(tokens[1..], space)
  }

  /** What is left after a word: nothing, or `space` and the words after it. */
  ghost predicate SpaceFirst(tokens: seq<Text>, space: Text) {
    tokens != [] ==> tokens[0] == space && |tokens| > 1 && WordsFirst(tokens[1..], space)
  }

  ghost predicate Alternate(tokens: seq<Text>, space: Text) {
    WordsFirst(tokens, space) || SpaceFirst(tokens, space)
  }

  // ----- every changed white space goes with a changed word -----

  /** The kind of change that a word just before made, if it was one. */
  datatype Before = Word(kind: Kind) | Other

  function After(t: DiffToken, space: Text): Before {
    if t.kind != Unchanged && t.text != space then Word(t.kind) else Other
  }

  /** Changed white space stands next to a changed word of its kind: the one before, or the one that follows. */
  ghost predicate Accompanied(before: Before, script: seq<DiffToken>, space: Text)
    decreases |script|
  {
    script != [] ==>
      && IsAccompanied(before, script, space)
      && Accompanied(After(script[0], space), script[1..], space)
  }

  ghost predicate IsAccompanied(before: Before, script: seq<DiffToken>, space: Text)
    requires script != []
  {
    var t := script[0];
    if t.kind == Unchanged then true
    else if t.text != space then HasText(t.text)
    else before == Word(t.kind) || (|script| > 1 && script[1].kind == t.kind && HasText(script[1].text))
  }

  lemma AccompaniedOn(before: Before, t: DiffToken, script: seq<DiffToken>, space: Text)
    requires Accompanied(After(t, space), script, space)
    requires IsAccompanied(before, [t] + script, space)
    ensures Accompanied(before, [t] + script, space)
  {
    assert ([t] + script)[1..] == script;
  }

  lemma {:induction false} MarkedAccompanied(before: Before, kind: Kind, tokens: seq<Text>, space: Text)
    requires kind != Unchanged && !HasText(space) && Alternate(tokens, space)
    ensures Accompanied(before, Marked(kind, tokens), space)
    decreases |tokens|
  {
    if tokens == [] {
    } else {
      var t, back := DiffToken(kind, tokens[0]), Marked(kind, tokens[1..]);
      assert Marked(kind, tokens) == [t] + back;
      MarkedAccompanied(After(t, space), kind, tokens[1..], space);
      if tokens[0] == space {
        assert back[0] == DiffToken(kind, tokens[1]) && tokens[1] == tokens[1..][0];
      }
      AccompaniedOn(before, t, back, space);
    }
  }

  /** Dropping a token never makes a common subsequence longer. */
  lemma LcsDrops(a: seq<Text>, b: seq<Text>)
    requires b != []
    ensures LcsLength(a, b[1..]) <= LcsLength(a, b)
  {
    WalkSides(a, b[1..]);
    var kept := Kept(Walk(a, b[1..]));
    Weaken(kept, b);
    LcsIsLongest(kept, a, b);
  }

  /** Both lists go on alike: at the start, and after each token that is kept. */
  lemma {:induction false} AfterKept(a: seq<Text>, b: seq<Text>, space: Text)
    requires !HasText(space)
    requires (WordsFirst(a, space) && WordsFirst(b, space)) || (SpaceFirst(a, space) && SpaceFirst(b, space))
    ensures Accompanied(Other, Walk(a, b), space)
    decreases |a| + |b|, 1
  {
    if a == [] {
      MarkedAccompanied(Other, Added, b, space);
    } else if b == [] {
      MarkedAccompanied(Other, Removed, a, space);
    } else if a[0] == b[0] {
      AfterKept(a[1..], b[1..], space);
      AccompaniedOn(Other, DiffToken(Unchanged, a[0]), Walk(a[1..], b[1..]), space);
    } else {
      Changing(Other, a, b, space);
    }
  }

  /** Removing goes on, if with white space then after a removed word; the next added token is a word. */
  lemma {:induction false} Changing(before: Before, a: seq<Text>, b: seq<Text>, space: Text)
    requires !HasText(space) && b != [] && WordsFirst(b, space)
    requires if before == Word(Removed) then SpaceFirst(a, space) else WordsFirst(a, space)
    ensures Accompanied(before, Walk(a, b), space)
    decreases |a| + |b|, 0
  {
    if a == [] {
      MarkedAccompanied(before, Added, b, space);
    } else if a[0] == b[0] {
      AfterKept(a[1..], b[1..], space);
      AccompaniedOn(before, DiffToken(Unchanged, a[0]), Walk(a[1..], b[1..]), space);
    } else if LcsLength(a[1..], b) >= LcsLength(a, b[1..]) {
      var t := DiffToken(Removed, a[0]);
      Changing(After(t, space), a[1..], b, space);
      AccompaniedOn(before, t, Walk(a[1..], b), space);
    } else {
      var t := DiffToken(Added, b[0]);
      LcsDrops(a[1..], b);
      Adding(After(t, space), a, b[1..], space);
      AccompaniedOn(before, t, Walk(a, b[1..]), space);
    }
  }

  /** Once a token is added the next old token is needed, so adding goes on until it is met. */
  lemma {:induction false} Adding(before: Before, a: seq<Text>, b: seq<Text>, space: Text)
    requires !HasText(space) && a != [] && Alternate(a, space)
    requires LcsLength(a[1..], b) < LcsLength(a, b)
    requires if before == Word(Added) then SpaceFirst(b, space) else before == Other && WordsFirst(b, space)
    ensures Accompanied(before, Walk(a, b), space)
    decreases |a| + |b|, 0
  {
    assert b != [];
    if a[0] == b[0] {
      AfterKept(a[1..], b[1..], space);
      AccompaniedOn(before, DiffToken(Unchanged, a[0]), Walk(a[1..], b[1..]), space);
    } else {
      var t := DiffToken(Added, b[0]);
      LcsDrops(a[1..], b);
      Adding(After(t, space), a, b[1..], space);
      AccompaniedOn(before, t, Walk(a, b[1..]), space);
    }
  }

  // ----- from tokens to runs -----

  /** Token `i` is white space that changed without a word of its kind just before it. */
  ghost predicate WaitsForWord(script: seq<DiffToken>, i: nat, space: Text)
    requires i < |script|
  {
    && script[i].kind != Unchanged && script[i].text == space
    && !(0 < i && script[i - 1].kind == script[i].kind && script[i - 1].text != space)
  }

  ghost predicate WordNextAt(script: seq<DiffToken>, i: nat, space: Text)
    requires i < |script|
  {
    && (WaitsForWord(script, i, space) ==>
          i + 1 < |script| && script[i + 1].kind == script[i].kind && HasText(script[i + 1].text))
    && (script[i].kind != Unchanged && script[i].text != space ==> HasText(script[i].text))
  }

  ghost predicate WordsComeNext(script: seq<DiffToken>, space: Text) {
    forall i :: 0 <= i < |script| ==> WordNextAt(script, i, space)
  }

  lemma {:induction false} AccompaniedMeans(before: Before, script: seq<DiffToken>, space: Text, i: nat)
    requires Accompanied(before, script, space) && i < |script|
    ensures script[i].kind != Unchanged && script[i].text != space ==> HasText(script[i].text)
    ensures script[i].kind != Unchanged && script[i].text == space ==>
              || (if i == 0 then before == Word(script[i].kind)
                  else script[i - 1].kind == script[i].kind && script[i - 1].text != space)
              || (i + 1 < |script| && script[i + 1].kind == script[i].kind && HasText(script[i + 1].text))
    decreases |script|
  {
    if i == 0 {
    } else {
      AccompaniedMeans(After(script[0], space), script[1..], space, i - 1);
    }
  }

  /** All runs but the last are substantial, and so is the last unless its word is still to come. */
  ghost predicate SubstantialSoFar(runs: seq<DiffToken>, waiting: bool) {
    && (forall i :: 0 <= i < |runs| - 1 ==> IsSubstantial(runs[i]))
    && (runs != [] && !waiting ==> IsSubstantial(runs[|runs| - 1]))
  }

  lemma HasTextOn(a: Text, b: Text)
    ensures HasText(a) || HasText(b) ==> HasText(a + b)
  {
    if i :| 0 <= i < |a| && !IsSpace(a[i]) {
      assert (a + b)[i] == a[i];
    } else if i :| 0 <= i < |b| && !IsSpace(b[i]) {
      assert (a + b)[|a| + i] == b[i];
    }
  }

  lemma {:induction false} LastRunEnds(tokens: seq<DiffToken>)
    requires tokens != []
    ensures MergeAll(tokens) != [] && MergeAll(tokens)[|MergeAll(tokens)| - 1].kind == tokens[|tokens| - 1].kind
  {
  }

  lemma MergeAllOn(script: seq<DiffToken>, n: nat)
    requires 0 < n <= |script|
    ensures MergeAll(script[..n]) == Merge(MergeAll(script[..n - 1]), script[n - 1])
  {
    assert script[..n][..n - 1] == script[..n - 1];
  }

  lemma SubstantialOn(runs: seq<DiffToken>, t: DiffToken, waited: bool, waits: bool)
    requires SubstantialSoFar(runs, waited)
    requires waited ==> runs != [] && runs[|runs| - 1].kind == t.kind && HasText(t.text)
    requires t.kind == Unchanged || HasText(t.text) || waits || (runs != [] && runs[|runs| - 1].kind == t.kind)
    ensures SubstantialSoFar(Merge(runs, t), waits)
  {
    if runs != [] {
      HasTextOn(runs[|runs| - 1].text, t.text);
    }
  }

  lemma {:induction false} MergedSoFar(script: seq<DiffToken>, n: nat, space: Text)
    requires !HasText(space) && WordsComeNext(script, space) && n <= |script|
    ensures SubstantialSoFar(MergeAll(script[..n]), 0 < n && WaitsForWord(script, n - 1, space))
  {
    if n == 0 {
    } else {
      var runs, t := MergeAll(script[..n - 1]), script[n - 1];
      MergedSoFar(script, n - 1, space);
      MergeAllOn(script, n);
      assert WordNextAt(script, n - 1, space);
      if n > 1 {
        LastRunEnds(script[..n - 1]);
        assert script[..n - 1][n - 2] == script[n - 2];
        assert WordNextAt(script, n - 2, space);
      }
      SubstantialOn(runs, t, 1 < n && WaitsForWord(script, n - 2, space), WaitsForWord(script, n - 1, space));
    }
  }

  lemma MergedIsSubstantial(script: seq<DiffToken>, space: Text)
    requires !HasText(space) && Accompanied(Other, script, space)
    ensures NoLoneSpace(MergeAll(script))
  {
    forall i | 0 <= i < |script|
      ensures WordNextAt(script, i, space)
    {
      AccompaniedMeans(Other, script, space, i);
    }
    MergedSoFar(script, |script|, space);
    assert script[..|script|] == script;
    if script != [] {
      assert WordNextAt(script, |script| - 1, space);
    }
  }

  lemma AlternatingDiff(oldText: Text, newText: Text, space: Text)
    requires !HasText(space) && WordsFirst(Tokenize(oldText), space) && WordsFirst(Tokenize(newText), space)
    ensures NoLoneSpace(Diffed(oldText, newText))
  {
    if oldText == newText {
    } else if WithinCap(oldText, newText) {
      AfterKept(Tokenize(oldText), Tokenize(newText), space);
      MergedIsSubstantial(Walk(Tokenize(oldText), Tokenize(newText)), space);
    } else {
      WordsHaveText(oldText, space);
      WordsHaveText(newText, space);
      ReplacedIsSubstantial(oldText, newText);
    }
  }

  lemma ReplacedIsSubstantial(oldText: Text, newText: Text)
    requires oldText != [] ==> HasText(oldText)
    requires newText != [] ==> HasText(newText)
    ensures NoLoneSpace(WholeText(Removed, oldText) + WholeText(Added, newText))
  {
  }

  lemma WordsHaveText(t: Text, space: Text)
    requires WordsFirst(Tokenize(t), space)
    ensures t != [] ==> HasText(t)
  {
    TokenizeShape(t);
    var tokens := Tokenize(t);
    if tokens != [] {
      HasTextOn(tokens[0], Concat(tokens[1..]));
    }
  }

  // ----- kinds of text -----

  /**
   A kind of text: the white space there may be in it, whether it may begin or end with white space, and
   whether words and placeholders may touch.
   */
  datatype Layout = Layout(separators: set<Text>, leading: bool, trailing: bool, touching: bool)

  ghost predicate TokensLaidOut(tokens: seq<Text>, layout: Layout) {
    && (forall i :: 0 <= i < |tokens| && StartsWithSpace(tokens[i]) ==> tokens[i] in layout.separators)
    && (tokens != [] && !layout.leading ==> !StartsWithSpace(tokens[0]))
    && (tokens != [] && !layout.trailing ==> !StartsWithSpace(tokens[|tokens| - 1]))
    && (!layout.touching ==>
          forall i :: 0 < i < |tokens| ==> StartsWithSpace(tokens[i - 1]) || StartsWithSpace(tokens[i]))
  }

  ghost predicate LaidOut(t: Text, layout: Layout) {
    TokensLaidOut(Tokenize(t), layout)
  }

  /** One separator, between any two words and nowhere else; or no white space at all. */
  predicate IsPlain(layout: Layout) {
    || layout.separators == {}
    || (|layout.separators| == 1 && !layout.leading && !layout.trailing && !layout.touching)
  }

  ghost predicate NeverLone(layout: Layout) {
    forall x, y :: LaidOut(x, layout) && LaidOut(y, layout) ==> NoLoneSpace(Diffed(x, y))
  }

  ghost predicate IsWhite(s: Text) {
    s != [] && !HasText(s)
  }

  // ----- plain kinds keep the promise -----

  ghost predicate TokensAlternate(tokens: seq<Text>, space: Text) {
    && (forall i :: 0 <= i < |tokens| ==> if StartsWithSpace(tokens[i]) then tokens[i] == space else HasText(tokens[i]))
    && (forall i :: 0 < i < |tokens| ==> StartsWithSpace(tokens[i - 1]) != StartsWithSpace(tokens[i]))
    && (tokens != [] ==> !StartsWithSpace(tokens[|tokens| - 1]))
  }

  lemma {:induction false} AlternatingTokens(tokens: seq<Text>, space: Text)
    requires TokensAlternate(tokens, space)
    ensures tokens == [] || !StartsWithSpace(tokens[0]) ==> WordsFirst(tokens, space)
    ensures tokens == [] || StartsWithSpace(tokens[0]) ==> SpaceFirst(tokens, space)
  {
    if tokens == [] {
    } else {
      var back := tokens[1..];
      assert TokensAlternate(back, space) by {
        assert forall i :: 0 <= i < |back| ==> back[i] == tokens[i + 1];
        forall i | 0 < i < |back|
          ensures StartsWithSpace(back[i - 1]) != StartsWithSpace(back[i])
        {
          var j := i + 1;
          assert back[i] == tokens[j] && back[i - 1] == tokens[j - 1];
        }
      }
      AlternatingTokens(back, space);
      if back != [] {
        var j := 1;
        assert StartsWithSpace(tokens[j - 1]) != StartsWithSpace(tokens[j]);
      }
    }
  }

  lemma TokensHaveText(t: Text)
    ensures forall tok :: tok in Tokenize(t) && !StartsWithSpace(tok) ==> HasText(tok)
  {
    TokenizeShape(t);
    forall tok | tok in Tokenize(t) && !StartsWithSpace(tok)
      ensures HasText(tok)
    {
      assert !IsSpace(tok[0]);
    }
  }

  lemma PlainWords(t: Text, layout: Layout, space: Text)
    requires LaidOut(t, layout) && layout.separators == {space}
    requires !layout.leading && !layout.trailing && !layout.touching
    ensures WordsFirst(Tokenize(t), space)
  {
    TokenizeShape(t);
    TokensHaveText(t);
    AlternatingTokens(Tokenize(t), space);
  }

  lemma {:induction false} WordsAccompanied(script: seq<DiffToken>, space: Text)
    requires forall i :: 0 <= i < |script| ==> HasText(script[i].text) && script[i].text != space
    ensures forall before :: Accompanied(before, script, space)
  {
    if script == [] {
    } else {
      WordsAccompanied(script[1..], space);
    }
  }

  lemma SolidDiff(x: Text, y: Text, layout: Layout)
    requires LaidOut(x, layout) && LaidOut(y, layout) && layout.separators == {}
    ensures NoLoneSpace(Diffed(x, y))
  {
    TokensHaveText(x);
    TokensHaveText(y);
    var a, b, space := Tokenize(x), Tokenize(y), [];
    if x == y {
    } else if WithinCap(x, y) {
      WalkTokensAreTokens(a, b);
      WordsAccompanied(Walk(a, b), space);
      MergedIsSubstantial(Walk(a, b), space);
    } else {
      SolidHasText(x);
      SolidHasText(y);
      ReplacedIsSubstantial(x, y);
    }
  }

  lemma SolidHasText(t: Text)
    requires forall tok :: tok in Tokenize(t) ==> HasText(tok)
    ensures t != [] ==> HasText(t)
  {
    TokenizeShape(t);
    var tokens := Tokenize(t);
    if tokens != [] {
      HasTextOn(tokens[0], Concat(tokens[1..]));
    }
  }

  // ----- other kinds break it -----

  /** The run is there; before the last one, if `closed`. */
  ghost predicate Holds(runs: seq<DiffToken>, run: DiffToken, closed: bool) {
    exists k :: 0 <= k < |runs| && runs[k] == run && (closed <==> k < |runs| - 1)
  }

  lemma RunStays(runs: seq<DiffToken>, run: DiffToken, closed: bool, t: DiffToken)
    requires Holds(runs, run, closed) && (closed || run.kind != t.kind)
    ensures Holds(Merge(runs, t), run, true)
  {
    var k :| 0 <= k < |runs| && runs[k] == run && (closed <==> k < |runs| - 1);
    assert Merge(runs, t)[k] == run;
  }

  lemma RunStarts(runs: seq<DiffToken>, t: DiffToken)
    requires runs != [] ==> runs[|runs| - 1].kind != t.kind
    ensures Holds(Merge(runs, t), t, false)
  {
    assert Merge(runs, t)[|runs|] == t;
  }

  /** A changed token between tokens of other kinds is a run of its own. */
  lemma {:induction false} IsolatedRun(script: seq<DiffToken>, i: nat, n: nat)
    requires i < n <= |script|
    requires 0 < i ==> script[i - 1].kind != script[i].kind
    requires i + 1 < |script| ==> script[i + 1].kind != script[i].kind
    ensures Holds(MergeAll(script[..n]), script[i], i + 1 < n)
    decreases n
  {
    var runs := MergeAll(script[..n - 1]);
    MergeAllOn(script, n);
    if n == i + 1 {
      if 0 < i {
        LastRunEnds(script[..i]);
      }
      RunStarts(runs, script[i]);
    } else {
      IsolatedRun(script, i, n - 1);
      RunStays(runs, script[i], i + 1 < n - 1, script[n - 1]);
    }
  }

  lemma LoneRun(script: seq<DiffToken>, i: nat)
    requires i < |script| && script[i].kind != Unchanged && !HasText(script[i].text)
    requires 0 < i ==> script[i - 1].kind != script[i].kind
    requires i + 1 < |script| ==> script[i + 1].kind != script[i].kind
    ensures !NoLoneSpace(MergeAll(script))
  {
    IsolatedRun(script, i, |script|);
    assert script[..|script|] == script;
    assert !IsSubstantial(script[i]);
  }

  const WORD: Text := ['a' as int]

  const PLACEHOLDER: Text := [OPEN_BRACE, OPEN_BRACE, 'a' as int, CLOSE_BRACE, CLOSE_BRACE]

  lemma {:induction false} SpacesLead(s: Text, rest: Text)
    requires !HasText(s) && (rest == [] || !IsSpace(rest[0]))
    ensures LeadingSpaces(s + rest) == |s|
  {
    if s == [] {
      assert s + rest == rest;
    } else {
      assert IsSpace(s[0]);
      assert (s + rest)[1..] == s[1..] + rest;
      assert !HasText(s[1..]) by {
        assert forall i :: 0 <= i < |s[1..]| ==> s[1..][i] == s[i + 1];
      }
      SpacesLead(s[1..], rest);
    }
  }

  lemma SpaceCuts(s: Text, tokens: seq<Text>)
    requires IsWhite(s) && CutAtSeparators(tokens) && (Concat(tokens) == [] || !IsSpace(Concat(tokens)[0]))
    ensures CutAtSeparators([s] + tokens)
  {
    SpacesLead(s, Concat(tokens));
    CutOn(s, tokens);
  }

  lemma WordCuts(tokens: seq<Text>)
    requires CutAtSeparators(tokens) && (Concat(tokens) == [] || 0 < LeadingSeparator(Concat(tokens)))
    ensures CutAtSeparators([WORD] + tokens)
  {
    var t := WORD + Concat(tokens);
    assert t[0..] == t && t[1..] == Concat(tokens);
    CutOn(WORD, tokens);
  }

  lemma PlaceholderCuts()
    ensures LeadingSeparator(PLACEHOLDER) == |PLACEHOLDER| && CutAtSeparators([PLACEHOLDER])
  {
    var inner := PLACEHOLDER[2..];
    assert inner[0] == 'a' as int && inner[1] == CLOSE_BRACE;
    assert LeadingNonBraces(inner) == 1 by {
      assert inner[1..][0] == CLOSE_BRACE;
    }
    ConcatOne(PLACEHOLDER);
    assert PLACEHOLDER + Concat([]) == PLACEHOLDER;
    CutOn(PLACEHOLDER, []);
    assert [PLACEHOLDER] + [] == [PLACEHOLDER];
  }

  lemma TokensAre(tokens: seq<Text>)
    requires CutAtSeparators(tokens)
    ensures Tokenize(Concat(tokens)) == tokens
  {
    TokenizeExactly(Concat(tokens), tokens);
  }

  /** Inserting white space before a token marks it alone. */
  lemma InsertedAlone(x: Text, s: Text)
    requires x != s
    ensures Walk([x], [s, x]) == [DiffToken(Added, s), DiffToken(Unchanged, x)]
  {
    var none: seq<Text> := [];
    assert [x][1..] == none && [s, x][1..] == [x];
    assert LcsLength(none, [s, x]) == 0 && LcsLength(none, none) == 0;
    assert LcsLength([x], [x]) == 1 + LcsLength([x][1..], [x][1..]);
    assert Walk(none, none) == [];
    assert Walk([x], [x]) == [DiffToken(Unchanged, x)] + Walk(none, none);
  }

  lemma LoneByScript(x: seq<Text>, y: seq<Text>, i: nat)
    requires CutAtSeparators(x) && CutAtSeparators(y) && |x| <= 3 && |y| <= 3
    requires var script := Walk(x, y);
             && i < |script| && script[i].kind != Unchanged && !HasText(script[i].text)
             && (0 < i ==> script[i - 1].kind != script[i].kind)
             && (i + 1 < |script| ==> script[i + 1].kind != script[i].kind)
    ensures !NoLoneSpace(Diffed(Concat(x), Concat(y)))
  {
    TokensAre(x);
    TokensAre(y);
    LoneRun(Walk(x, y), i);
    EqualWalk(x);
    CapAllows(|x| + 1, |y| + 1);
  }

  lemma CapAllows(m: nat, n: nat)
    requires m <= 4 && n <= 4
    ensures m * n <= MAX_CELLS
  {
    assert m * n <= 4 * n;
  }

  /** Equal lists change nothing. */
  lemma {:induction false} EqualWalk(tokens: seq<Text>)
    ensures forall i :: 0 <= i < |Walk(tokens, tokens)| ==> Walk(tokens, tokens)[i].kind == Unchanged
  {
    if tokens == [] {
    } else {
      EqualWalk(tokens[1..]);
    }
  }

  /** White space at the end: "a" against "a ". */
  lemma TrailingAlone(s: Text)
    requires IsWhite(s)
    ensures CutAtSeparators([WORD]) && CutAtSeparators([WORD, s])
    ensures Walk([WORD], [WORD, s]) == [DiffToken(Unchanged, WORD), DiffToken(Added, s)]
    ensures !NoLoneSpace(Diffed(Concat([WORD]), Concat([WORD, s])))
  {
    SpaceCuts(s, []);
    assert [s] + [] == [s];
    ConcatOne(s);
    SpacesLead(s, []);
    assert s + [] == s;
    WordCuts([s]);
    WordCuts([]);
    assert [WORD] + [] == [WORD] && [WORD] + [s] == [WORD, s];
    assert [WORD][1..] == [] && [WORD, s][1..] == [s];
    assert Walk([WORD], [WORD, s]) == [DiffToken(Unchanged, WORD)] + Marked(Added, [s]);
    LoneByScript([WORD], [WORD, s], 1);
  }

  /** White space at the start: "a" against " a". */
  lemma LeadingAlone(s: Text)
    requires IsWhite(s)
    ensures CutAtSeparators([WORD]) && CutAtSeparators([s, WORD])
    ensures !NoLoneSpace(Diffed(Concat([WORD]), Concat([s, WORD])))
  {
    WordCuts([]);
    assert [WORD] + [] == [WORD];
    ConcatOne(WORD);
    SpaceCuts(s, [WORD]);
    assert [s] + [WORD] == [s, WORD];
    InsertedAlone(WORD, s);
    LoneByScript([WORD], [s, WORD], 0);
  }

  /** White space where there was none: "a{{a}}" against "a {{a}}". */
  lemma TouchingAlone(s: Text)
    requires IsWhite(s)
    ensures CutAtSeparators([WORD, PLACEHOLDER]) && CutAtSeparators([WORD, s, PLACEHOLDER])
    ensures !NoLoneSpace(Diffed(Concat([WORD, PLACEHOLDER]), Concat([WORD, s, PLACEHOLDER])))
  {
    PlaceholderCuts();
    ConcatOne(PLACEHOLDER);
    WordCuts([PLACEHOLDER]);
    assert [WORD] + [PLACEHOLDER] == [WORD, PLACEHOLDER];
    SpaceCuts(s, [PLACEHOLDER]);
    assert [s] + [PLACEHOLDER] == [s, PLACEHOLDER];
    SpacesBefore(s, [PLACEHOLDER]);
    WordCuts([s, PLACEHOLDER]);
    assert [WORD] + [s, PLACEHOLDER] == [WORD, s, PLACEHOLDER];
    InsertedAlone(PLACEHOLDER, s);
    KeepWord([PLACEHOLDER], [s, PLACEHOLDER]);
    LoneByScript([WORD, PLACEHOLDER], [WORD, s, PLACEHOLDER], 1);
  }

  lemma SpacesBefore(s: Text, tokens: seq<Text>)
    requires IsWhite(s) && (Concat(tokens) == [] || !IsSpace(Concat(tokens)[0]))
    ensures 0 < LeadingSeparator(Concat([s] + tokens))
  {
    assert ([s] + tokens)[1..] == tokens;
    SpacesLead(s, Concat(tokens));
  }

  lemma KeepWord(x: seq<Text>, y: seq<Text>)
    ensures Walk([WORD] + x, [WORD] + y) == [DiffToken(Unchanged, WORD)] + Walk(x, y)
  {
    assert ([WORD] + x)[1..] == x && ([WORD] + y)[1..] == y;
  }

  /** Another separator: "a a" against "a", a line break, "a". */
  lemma OtherAlone(s: Text, s': Text)
    requires IsWhite(s) && IsWhite(s') && s != s'
    ensures CutAtSeparators([WORD, s, WORD]) && CutAtSeparators([WORD, s', WORD])
    ensures !NoLoneSpace(Diffed(Concat([WORD, s, WORD]), Concat([WORD, s', WORD])))
  {
    WordSpaceWord(s);
    WordSpaceWord(s');
    ReplacedSpace(s, s');
    KeepWord([s, WORD], [s', WORD]);
    assert [WORD] + [s, WORD] == [WORD, s, WORD] && [WORD] + [s', WORD] == [WORD, s', WORD];
    LoneByScript([WORD, s, WORD], [WORD, s', WORD], 1);
  }

  lemma ReplacedSpace(s: Text, s': Text)
    requires s != s' && s != WORD && s' != WORD
    ensures Walk([s, WORD], [s', WORD]) == [DiffToken(Removed, s), DiffToken(Added, s'), DiffToken(Unchanged, WORD)]
  {
    assert [s, WORD][1..] == [WORD] && [s', WORD][1..] == [WORD];
    LcsOfPairs(s, s');
    InsertedAlone(WORD, s');
    assert Walk([s, WORD], [s', WORD]) == [DiffToken(Removed, s)] + Walk([WORD], [s', WORD]);
  }

  lemma LcsOfPairs(s: Text, s': Text)
    requires s != WORD && s' != WORD
    ensures LcsLength([WORD], [s', WORD]) >= LcsLength([s, WORD], [WORD])
  {
    var none: seq<Text> := [];
    assert [WORD][1..] == none && [s', WORD][1..] == [WORD] && [s, WORD][1..] == [WORD];
    assert LcsLength([WORD], [WORD]) == 1 + LcsLength(none, none);
    assert LcsLength(none, [s', WORD]) == 0 && LcsLength([s, WORD], none) == 0;
  }

  lemma WordSpaceWord(s: Text)
    requires IsWhite(s)
    ensures CutAtSeparators([WORD, s, WORD]) && s != WORD
  {
    WordCuts([]);
    assert [WORD] + [] == [WORD];
    ConcatOne(WORD);
    SpaceCuts(s, [WORD]);
    assert [s] + [WORD] == [s, WORD];
    SpacesBefore(s, [WORD]);
    WordCuts([s, WORD]);
    assert [WORD] + [s, WORD] == [WORD, s, WORD];
    assert !HasText(s) && HasText(WORD) by {
      assert !IsSpace(WORD[0]);
    }
  }

  // ----- exactly the plain kinds -----

  /** The promise is broken by the smallest of edits: a space after the last word. */
  lemma LoneSpaceAdded()
    ensures Diffed([97], [97, 32]) == [DiffToken(Unchanged, [97]), DiffToken(Added, [32])]
  {
    var s: Text := [32];
    TrailingAlone(s);
    TokensAre([WORD]);
    TokensAre([WORD, s]);
    assert Concat([WORD]) == [97] by {
      ConcatOne(WORD);
    }
    assert Concat([WORD, s]) == [97, 32] by {
      assert [WORD, s][1..] == [s];
      ConcatOne(s);
    }
    var script := [DiffToken(Unchanged, WORD), DiffToken(Added, s)];
    assert script[..1] == [DiffToken(Unchanged, WORD)] && script[..1][..0] == [];
    assert MergeAll(script[..1]) == [DiffToken(Unchanged, WORD)];
    assert MergeAll(script) == script;
  }

  lemma ExtraBreaks(layout: Layout, s: Text)
    requires s in layout.separators && IsWhite(s) && (layout.leading || layout.trailing || layout.touching)
    ensures !NeverLone(layout)
  {
    WitnessesLaidOut(layout, s);
    if layout.trailing {
      TrailingAlone(s);
      Breaks(layout, [WORD], [WORD, s]);
    } else if layout.leading {
      LeadingAlone(s);
      Breaks(layout, [WORD], [s, WORD]);
    } else {
      TouchingAlone(s);
      Breaks(layout, [WORD, PLACEHOLDER], [WORD, s, PLACEHOLDER]);
    }
  }

  lemma Breaks(layout: Layout, x: seq<Text>, y: seq<Text>)
    requires CutAtSeparators(x) && CutAtSeparators(y) && TokensLaidOut(x, layout) && TokensLaidOut(y, layout)
    requires !NoLoneSpace(Diffed(Concat(x), Concat(y)))
    ensures !NeverLone(layout)
  {
    TokensAre(x);
    TokensAre(y);
    assert LaidOut(Concat(x), layout) && LaidOut(Concat(y), layout);
  }

  lemma StartOfWhite(s: Text)
    requires IsWhite(s)
    ensures StartsWithSpace(s) && !StartsWithSpace(WORD) && !StartsWithSpace(PLACEHOLDER)
  {
  }

  lemma WitnessesLaidOut(layout: Layout, s: Text)
    requires s in layout.separators && IsWhite(s)
    ensures TokensLaidOut([WORD], layout)
    ensures layout.trailing ==> TokensLaidOut([WORD, s], layout)
    ensures layout.leading ==> TokensLaidOut([s, WORD], layout)
    ensures layout.touching ==>
              TokensLaidOut([WORD, PLACEHOLDER], layout) && TokensLaidOut([WORD, s, PLACEHOLDER], layout)
  {
    StartOfWhite(s);
  }

  lemma SeparatedLaidOut(layout: Layout, s: Text)
    requires s in layout.separators && IsWhite(s)
    ensures TokensLaidOut([WORD, s, WORD], layout)
  {
    StartOfWhite(s);
  }

  lemma OtherBreaks(layout: Layout, s: Text, s': Text)
    requires s in layout.separators && s' in layout.separators && IsWhite(s) && IsWhite(s') && s != s'
    ensures !NeverLone(layout)
  {
    SeparatedLaidOut(layout, s);
    SeparatedLaidOut(layout, s');
    OtherAlone(s, s');
    Breaks(layout, [WORD, s, WORD], [WORD, s', WORD]);
  }

  lemma PlainKeeps(layout: Layout)
    requires IsPlain(layout) && forall s :: s in layout.separators ==> IsWhite(s)
    ensures NeverLone(layout)
  {
    forall x, y | LaidOut(x, layout) && LaidOut(y, layout)
      ensures NoLoneSpace(Diffed(x, y))
    {
      if layout.separators == {} {
        SolidDiff(x, y, layout);
      } else {
        var space :| space in layout.separators;
        OnlyOne(layout.separators, space);
        PlainWords(x, layout, space);
        PlainWords(y, layout, space);
        AlternatingDiff(x, y, space);
      }
    }
  }

  lemma OnlyOne(separators: set<Text>, space: Text)
    requires |separators| == 1 && space in separators
    ensures separators == {space}
  {
    assert |separators - {space}| == 0;
    assert separators == {space} + (separators - {space});
  }

  /**
   For which kinds of text no change is ever a lone space: exactly those without white space, and those
   with one and the same white space between any two words or placeholders and at neither end.
   */
  lemma LoneSpaceExactly(layout: Layout)
    requires forall s :: s in layout.separators ==> IsWhite(s)
    ensures NeverLone(layout) <==> IsPlain(layout)
  {
    if IsPlain(layout) {
      PlainKeeps(layout);
    } else {
      var s :| s in layout.separators;
      if |layout.separators| == 1 {
        ExtraBreaks(layout, s);
      } else {
        var others := layout.separators - {s};
        assert |others| == |layout.separators| - 1;
        var s' :| s' in others;
        OtherBreaks(layout, s, s');
      }
    }
  }
}
