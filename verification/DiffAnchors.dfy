/**
 The diff's separators read as a pattern, and its promise that a placeholder anchors the comparison: when
 only the prose next to it changes, the placeholder itself is kept - with one exception, stated exactly.
 */
module DiffAnchors {
  import opened Diff
  import opened DiffSpaces
  import opened JsText

  // ----- what a separator is -----

  ghost predicate NoBraces(t: Text) {
    forall i :: 0 <= i < |t| ==> t[i] != '{' as int && t[i] != '}' as int
  }

  function Braced(inner: Text): Text {
    ['{' as int, '{' as int] + inner + ['}' as int, '}' as int]
  }

  /** Two braces, something without braces, two braces. */
  ghost predicate IsPlaceholder(t: Text) {
    exists inner: Text :: inner != [] && NoBraces(inner) && t == Braced(inner)
  }

  ghost predicate AllSpace(t: Text) {
    forall i :: 0 <= i < |t| ==> IsSpace(t[i])
  }

  lemma LeadingPlaceholderExactly(t: Text, n: nat)
    requires 0 < n <= |t|
    ensures LeadingPlaceholder(t) == n <==> IsPlaceholder(t[..n])
  {
    if LeadingPlaceholder(t) == n {
      var inner := t[2..n - 2];
      assert LeadingNonBraces(t[2..]) == n - 4;
      assert forall i :: 0 <= i < n - 4 ==> inner[i] == t[2..][i];
      assert t[..n] == Braced(inner);
    }
    if IsPlaceholder(t[..n]) {
      var inner: Text :| inner != [] && NoBraces(inner) && t[..n] == Braced(inner);
      BracedEnds(t, n, inner);
    }
  }

  lemma BracedEnds(t: Text, n: nat, inner: Text)
    requires n <= |t| && t[..n] == Braced(inner) && inner != [] && NoBraces(inner)
    ensures LeadingPlaceholder(t) == n
  {
    var k := |inner|;
    assert n == k + 4;
    assert forall i :: 0 <= i < n ==> t[i] == t[..n][i];
    assert forall i :: 0 <= i < k ==> t[2..][i] == inner[i];
    assert t[2..][k] == '}' as int;
    assert LeadingNonBraces(t[2..]) == k;
  }

  lemma LeadingSpacesAre(t: Text, n: nat)
    requires 0 < n <= |t|
    ensures LeadingSpaces(t) == n <==> AllSpace(t[..n]) && (n < |t| ==> !IsSpace(t[n]))
  {
    var k := LeadingSpaces(t);
    if n < k {
      assert IsSpace(t[n]);
    } else if k < n {
      assert !IsSpace(t[..n][k]);
    } else {
      assert forall i :: 0 <= i < n ==> t[..n][i] == t[i];
    }
  }

  /** A separator is a longest run of white space, or a placeholder. */
  lemma SeparatorExactly(t: Text, n: nat)
    requires 0 < n <= |t|
    ensures LeadingSeparator(t) == n <==>
            (AllSpace(t[..n]) && (n < |t| ==> !IsSpace(t[n]))) || IsPlaceholder(t[..n])
  {
    LeadingSpacesAre(t, n);
    LeadingPlaceholderExactly(t, n);
    assert t[..n][0] == t[0];
    if IsSpace(t[0]) {
      assert !IsPlaceholder(t[..n]);
    }
  }

  // ----- which characters are kept where -----

  /** How much of the side without `skip` the runs cover. */
  function SideLength(runs: seq<DiffToken>, skip: Kind): nat {
    |Concat(Without(runs, skip))|
  }

  /** The old text's character `o` is kept as the new text's character `n`. */
  ghost predicate Aligned(runs: seq<DiffToken>, o: int, n: int) {
    runs != [] &&
    (Aligned(runs[..|runs| - 1], o, n) || AlignedIn(runs[..|runs| - 1], runs[|runs| - 1], o, n))
  }

  /** Both are the same character of the unchanged run that follows `before`. */
  ghost predicate AlignedIn(before: seq<DiffToken>, run: DiffToken, o: int, n: int) {
    var at := o - SideLength(before, Added);
    run.kind == Unchanged && 0 <= at < |run.text| && n - SideLength(before, Removed) == at
  }

  /** The old text's character `o` is kept, `shift` further on in the new text. */
  ghost predicate KeptShifted(runs: seq<DiffToken>, o: int, shift: int) {
    Aligned(runs, o, o + shift)
  }

  /** The old text's `length` characters from `o` on are kept, each `shift` further on. */
  ghost predicate KeptAt(runs: seq<DiffToken>, o: nat, shift: int, length: nat) {
    forall at :: o <= at < o + length ==> KeptShifted(runs, at, shift)
  }

  lemma SideLengthAppend(a: seq<DiffToken>, b: seq<DiffToken>, skip: Kind)
    ensures SideLength(a + b, skip) == SideLength(a, skip) + SideLength(b, skip)
  {
    WithoutAppend(a, b, skip);
    ConcatAppend(Without(a, skip), Without(b, skip));
  }

  lemma SideLengthOne(run: DiffToken, skip: Kind)
    ensures SideLength([run], skip) == if run.kind == skip then 0 else |run.text|
  {
    WithoutOne(run, skip);
  }

  lemma AlignedOn(runs: seq<DiffToken>, run: DiffToken, o: int, n: int)
    ensures Aligned(runs + [run], o, n) <==> Aligned(runs, o, n) || AlignedIn(runs, run, o, n)
  {
    assert (runs + [run])[..|runs|] == runs;
  }

  lemma {:induction false} AlignedAppend(a: seq<DiffToken>, b: seq<DiffToken>, o: int, n: int)
    ensures Aligned(a + b, o, n) <==>
            Aligned(a, o, n) || Aligned(b, o - SideLength(a, Added), n - SideLength(a, Removed))
  {
    if b == [] {
      assert a + b == a;
    } else {
      var front, last := b[..|b| - 1], b[|b| - 1];
      AlignedAppend(a, front, o, n);
      AlignedOn(a + front, last, o, n);
      SideLengthAppend(a, front, Added);
      SideLengthAppend(a, front, Removed);
      assert a + b == a + front + [last];
    }
  }

  lemma {:induction false} AlignedInRange(runs: seq<DiffToken>, o: int, n: int)
    requires Aligned(runs, o, n)
    ensures 0 <= o < SideLength(runs, Added) && 0 <= n < SideLength(runs, Removed)
  {
    var front, last := runs[..|runs| - 1], runs[|runs| - 1];
    assert runs == front + [last];
    SideLengthAppend(front, [last], Added);
    SideLengthAppend(front, [last], Removed);
    SideLengthOne(last, Added);
    SideLengthOne(last, Removed);
    if Aligned(front, o, n) {
      AlignedInRange(front, o, n);
    } else {
      assert AlignedIn(front, last, o, n);
    }
  }

  lemma MergeAligned(runs: seq<DiffToken>, run: DiffToken, o: int, n: int)
    ensures Aligned(Merge(runs, run), o, n) <==> Aligned(runs + [run], o, n)
  {
    AlignedOn(runs, run, o, n);
    if runs != [] && runs[|runs| - 1].kind == run.kind {
      var front, last := runs[..|runs| - 1], runs[|runs| - 1];
      AlignedOn(front, DiffToken(run.kind, last.text + run.text), o, n);
      AlignedOn(front, last, o, n);
      assert runs == front + [last];
      SideLengthAppend(front, [last], Added);
      SideLengthAppend(front, [last], Removed);
      SideLengthOne(last, Added);
      SideLengthOne(last, Removed);
    }
  }

  lemma MergedLastAligned(front: seq<DiffToken>, last: DiffToken, o: int, n: int)
    requires Aligned(MergeAll(front), o, n) <==> Aligned(front, o, n)
    ensures Aligned(Merge(MergeAll(front), last), o, n) <==> Aligned(front + [last], o, n)
  {
    MergeAligned(MergeAll(front), last, o, n);
    AlignedOn(MergeAll(front), last, o, n);
    AlignedOn(front, last, o, n);
    SideLengthsMerged(front);
  }

  /** Merging runs moves no character. */
  lemma {:induction false} MergeAllAligned(tokens: seq<DiffToken>, o: int, n: int)
    ensures Aligned(MergeAll(tokens), o, n) <==> Aligned(tokens, o, n)
  {
    if tokens == [] {
    } else {
      var front, last := tokens[..|tokens| - 1], tokens[|tokens| - 1];
      assert tokens == front + [last] && MergeAll(tokens) == Merge(MergeAll(front), last);
      MergeAllAligned(front, o, n);
      MergedLastAligned(front, last, o, n);
    }
  }

  lemma SideLengthsMerged(tokens: seq<DiffToken>)
    ensures SideLength(MergeAll(tokens), Added) == SideLength(tokens, Added)
    ensures SideLength(MergeAll(tokens), Removed) == SideLength(tokens, Removed)
  {
    MergeAllKeepsText(tokens, Added);
    MergeAllKeepsText(tokens, Removed);
  }

  /** A token that the script keeps is kept where it stands. */
  lemma TokenKept(before: seq<DiffToken>, token: Text, after: seq<DiffToken>)
    ensures KeptAt(MergeAll(before + [DiffToken(Unchanged, token)] + after), SideLength(before, Added),
                   SideLength(before, Removed) - SideLength(before, Added), |token|)
  {
    var o, run := SideLength(before, Added), DiffToken(Unchanged, token);
    var shift := SideLength(before, Removed) - o;
    var script := before + [run] + after;
    forall at | o <= at < o + |token|
      ensures KeptShifted(MergeAll(script), at, shift)
    {
      AlignedOn(before, run, at, at + shift);
      AlignedAppend(before + [run], after, at, at + shift);
      MergeAllAligned(script, at, at + shift);
    }
  }

  /** None of these characters of the old text is kept anywhere. */
  ghost predicate NoneKept(runs: seq<DiffToken>, o: nat, length: nat) {
    forall at, n :: o <= at < o + length ==> !Aligned(runs, at, n)
  }

  /** None of a removed token's characters is kept anywhere. */
  lemma TokenNotKept(before: seq<DiffToken>, token: Text, after: seq<DiffToken>, k: nat, n: int)
    requires k < |token|
    ensures !Aligned(MergeAll(before + [DiffToken(Removed, token)] + after), SideLength(before, Added) + k, n)
  {
    var o, run := SideLength(before, Added) + k, DiffToken(Removed, token);
    var script := before + [run] + after;
    MergeAllAligned(script, o, n);
    AlignedAppend(before + [run], after, o, n);
    AlignedOn(before, run, o, n);
    SideLengthAppend(before, [run], Added);
    SideLengthOne(run, Added);
    if Aligned(before, o, n) {
      AlignedInRange(before, o, n);
    }
    var o', n' := o - SideLength(before + [run], Added), n - SideLength(before + [run], Removed);
    if Aligned(after, o', n') {
      AlignedInRange(after, o', n');
    }
  }

  lemma NoneOfToken(before: seq<DiffToken>, token: Text, after: seq<DiffToken>)
    ensures NoneKept(MergeAll(before + [DiffToken(Removed, token)] + after), SideLength(before, Added), |token|)
  {
    var runs, o := MergeAll(before + [DiffToken(Removed, token)] + after), SideLength(before, Added);
    forall at, n | o <= at < o + |token|
      ensures !Aligned(runs, at, n)
    {
      TokenNotKept(before, token, after, at - o, n);
    }
  }

  // ----- common subsequences around an anchor -----

  lemma {:induction false} SubsequenceFits<T>(s: seq<T>, t: seq<T>)
    requires Subsequence(s, t)
    ensures |s| <= |t| && (|s| == |t| ==> s == t)
    decreases |t|
  {
    if s == [] {
    } else if s[0] == t[0] && Subsequence(s[1..], t[1..]) {
      SubsequenceFits(s[1..], t[1..]);
    } else {
      SubsequenceFits(s, t[1..]);
    }
  }

  lemma {:induction false} SubsequenceOfItself<T>(s: seq<T>)
    ensures Subsequence(s, s)
  {
    if s == [] {
    } else {
      SubsequenceOfItself(s[1..]);
    }
  }

  lemma LcsFits(a: seq<Text>, b: seq<Text>)
    ensures LcsLength(a, b) <= |a| && LcsLength(a, b) <= |b|
    ensures LcsLength(a, b) == |a| ==> Subsequence(a, b)
    ensures LcsLength(a, b) == |b| ==> Subsequence(b, a)
  {
    WalkSides(a, b);
    SubsequenceFits(Kept(Walk(a, b)), a);
    SubsequenceFits(Kept(Walk(a, b)), b);
  }

  lemma SkipHead<T>(s: seq<T>, token: T, t: seq<T>)
    requires s != [] && s[0] != token
    ensures Subsequence(s, [token] + t) <==> Subsequence(s, t)
  {
    assert ([token] + t)[1..] == t;
  }

  lemma TakeHead<T>(token: T, s: seq<T>, t: seq<T>)
    requires Subsequence(s, t)
    ensures Subsequence([token] + s, [token] + t)
  {
    assert ([token] + t)[1..] == t && ([token] + s)[1..] == s;
  }

  lemma AfterHead<T>(s: seq<T>, token: T, t: seq<T>)
    requires Subsequence(s, t)
    ensures Subsequence(s, [token] + t)
  {
    assert ([token] + t)[1..] == t;
    Weaken(s, [token] + t);
  }

  /** What follows the anchor: prose that may differ, then the same tokens. */
  function Following(prose: Text, back: seq<Text>): seq<Text> {
    NonEmpty(prose) + back
  }

  /** Common tokens at the end: `back` is always common, and one more only if the prose is the same. */
  lemma LcsAfterAnchor(q: Text, q': Text, back: seq<Text>)
    ensures var a, b := Following(q, back), Following(q', back);
            && |back| <= LcsLength(a, b)
            && (q == q' ==> LcsLength(a, b) == |a|)
            && (q != q' ==> LcsLength(a, b) == |back|)
  {
    var a, b := Following(q, back), Following(q', back);
    BackIsCommon(q, back);
    BackIsCommon(q', back);
    LcsIsLongest(back, a, b);
    LcsFits(a, b);
    if q == q' {
      SubsequenceOfItself(a);
      LcsIsLongest(a, a, b);
    } else if q != [] && Subsequence(a, b) {
      SubsequenceFits(a, b);
    } else if q' != [] && Subsequence(b, a) {
      SubsequenceFits(b, a);
    }
  }

  lemma BackIsCommon(q: Text, back: seq<Text>)
    ensures Subsequence(back, Following(q, back))
  {
    SubsequenceOfItself(back);
    if q == [] {
      assert Following(q, back) == back;
    } else {
      AfterHead(back, q, back);
    }
  }

  /** Keeping the old prose before the anchor never helps. */
  lemma NothingBeforeAnchor(p: Text, anchor: Text, q: Text, q': Text, back: seq<Text>)
    requires p != anchor
    ensures var a, b := Following(q, back), Following(q', back);
            LcsLength([p, anchor] + a, [anchor] + b) <= 1 + LcsLength(a, b)
  {
    var a, b := Following(q, back), Following(q', back);
    LcsAfterAnchor(q, q', back);
    LcsFits([p, anchor] + a, [anchor] + b);
    if q != q' && q' != [] && Subsequence([anchor] + b, [p, anchor] + a) {
      assert [p, anchor] + a == [p] + ([anchor] + a);
      SkipHead([anchor] + b, p, [anchor] + a);
      DropFirst([anchor] + b, [anchor] + a);
      assert ([anchor] + b)[1..] == b && ([anchor] + a)[1..] == a;
      SubsequenceFits(b, a);
      assert b[0] == q';
    }
  }

  /** The new prose before the anchor helps only by being the old prose after it. */
  lemma NewProseBeforeAnchor(p': Text, anchor: Text, q: Text, q': Text, back: seq<Text>)
    requires q != anchor
    ensures var a, b := Following(q, back), Following(q', back);
            LcsLength(a, [p', anchor] + b) <= LcsLength(a, b) <==> q == q' || q == [] || q != p'
  {
    var a, b := Following(q, back), Following(q', back);
    LcsAfterAnchor(q, q', back);
    LcsFits(a, [p', anchor] + b);
    if q != q' && q != [] {
      assert a == [q] + back && [p', anchor] + b == [p'] + ([anchor] + b);
      if q == p' {
        BackIsCommon(q', back);
        AfterHead(back, anchor, b);
        TakeHead(q, back, [anchor] + b);
        SubsequenceOfItself(a);
        LcsIsLongest(a, a, [p', anchor] + b);
      } else if Subsequence(a, [p', anchor] + b) {
        SkipHead(a, p', [anchor] + b);
        SkipHead(a, anchor, b);
        SubsequenceFits(a, b);
      }
    }
  }

  // ----- the walk around an anchor -----

  lemma WalkKeeps(t: Text, a: seq<Text>, b: seq<Text>)
    ensures Walk([t] + a, [t] + b) == [DiffToken(Unchanged, t)] + Walk(a, b)
    ensures LcsLength([t] + a, [t] + b) == 1 + LcsLength(a, b)
  {
    assert ([t] + a)[1..] == a && ([t] + b)[1..] == b;
  }

  lemma {:induction false} WalkCommon(front: seq<Text>, a: seq<Text>, b: seq<Text>)
    ensures Walk(front + a, front + b) == Marked(Unchanged, front) + Walk(a, b)
  {
    if front == [] {
      assert front + a == a && front + b == b;
      assert Marked(Unchanged, front) == [];
    } else {
      var head, rest := front[0], front[1..];
      assert front + a == [head] + (rest + a) && front + b == [head] + (rest + b);
      WalkKeeps(head, rest + a, rest + b);
      MarkedHead(Unchanged, front);
      Associative([DiffToken(Unchanged, head)], Marked(Unchanged, rest), Walk(a, b));
      WalkCommon(rest, a, b);
    }
  }

  lemma MarkedHead(kind: Kind, tokens: seq<Text>)
    requires tokens != []
    ensures Marked(kind, tokens) == [DiffToken(kind, tokens[0])] + Marked(kind, tokens[1..])
  {
  }

  lemma WalkRemoves(t: Text, a: seq<Text>, b: seq<Text>)
    requires b != [] && t != b[0] && LcsLength(a, b) >= LcsLength([t] + a, b[1..])
    ensures Walk([t] + a, b) == [DiffToken(Removed, t)] + Walk(a, b)
  {
    assert ([t] + a)[1..] == a;
  }

  lemma WalkAdds(t: Text, a: seq<Text>, b: seq<Text>)
    requires a != [] && t != a[0] && LcsLength(a[1..], [t] + b) < LcsLength(a, b)
    ensures Walk(a, [t] + b) == [DiffToken(Added, t)] + Walk(a, b)
  {
    assert ([t] + b)[1..] == b;
  }

  /** Prose `p` before the anchor, prose `q` after it, and the same tokens on either side. */
  function Around(front: seq<Text>, p: Text, anchor: Text, q: Text, back: seq<Text>): seq<Text> {
    front + (NonEmpty(p) + ([anchor] + Following(q, back)))
  }

  /**
   The placeholder stays unless the prose changes on both sides and the new prose before it is the old
   prose after it.
   */
  predicate Anchors(p: Text, q: Text, p': Text, q': Text) {
    p == p' || q == q' || q == [] || q != p'
  }

  /** How the walk deals with the prose before an anchor that it keeps. */
  function Replaced(p: Text, p': Text): seq<DiffToken> {
    if p == p' then Marked(Unchanged, NonEmpty(p)) else Marked(Removed, NonEmpty(p)) + Marked(Added, NonEmpty(p'))
  }

  /** Old prose before the anchor is removed first. */
  lemma OldProseGoes(p: Text, anchor: Text, q: Text, p': Text, q': Text, back: seq<Text>)
    requires p != anchor && p' != anchor && p != p'
    ensures var a, b := [anchor] + Following(q, back), NonEmpty(p') + ([anchor] + Following(q', back));
            Walk(NonEmpty(p) + a, b) == Marked(Removed, NonEmpty(p)) + Walk(a, b)
  {
    var a, b := [anchor] + Following(q, back), NonEmpty(p') + ([anchor] + Following(q', back));
    if p == [] {
      assert NonEmpty(p) + a == a && Marked(Removed, NonEmpty(p)) == [];
    } else {
      var y := [anchor] + Following(q', back);
      NothingBeforeAnchor(p, anchor, q, q', back);
      WalkKeeps(anchor, Following(q, back), Following(q', back));
      assert [p] + a == [p, anchor] + Following(q, back);
      if p' == [] {
        assert b == y;
        LcsDrops([p] + a, y);
        WalkRemoves(p, a, b);
      } else {
        assert b == [p'] + y && b[1..] == y;
        LcsDrops(a, b);
        WalkRemoves(p, a, b);
      }
      assert Marked(Removed, NonEmpty(p)) == [DiffToken(Removed, p)];
    }
  }

  /** Then new prose is added before it, or the anchor goes too. */
  lemma NewProseComes(anchor: Text, q: Text, p': Text, q': Text, back: seq<Text>)
    requires p' != [] && p' != anchor && q != anchor
    ensures var a, b := Following(q, back), [p'] + ([anchor] + Following(q', back));
            if q == q' || q == [] || q != p' then
              Walk([anchor] + a, b)
              == [DiffToken(Added, p')] + ([DiffToken(Unchanged, anchor)] + Walk(a, Following(q', back)))
            else Walk([anchor] + a, b) == [DiffToken(Removed, anchor)] + Walk(a, b)
  {
    var a, y := Following(q, back), [anchor] + Following(q', back);
    NewProseBeforeAnchor(p', anchor, q, q', back);
    WalkKeeps(anchor, a, Following(q', back));
    assert [p'] + y == [p', anchor] + Following(q', back);
    assert ([anchor] + a)[1..] == a && ([p'] + y)[1..] == y;
    if q == q' || q == [] || q != p' {
      WalkAdds(p', [anchor] + a, y);
    } else {
      WalkRemoves(anchor, a, [p'] + y);
    }
  }

  /** The whole script, up to and past the anchor. */
  lemma AnchorKept(p: Text, anchor: Text, q: Text, p': Text, q': Text, back: seq<Text>)
    requires anchor !in {p, p', q, q'} && Anchors(p, q, p', q')
    ensures Walk(NonEmpty(p) + ([anchor] + Following(q, back)), NonEmpty(p') + ([anchor] + Following(q', back)))
         == Replaced(p, p') + ([DiffToken(Unchanged, anchor)] + Walk(Following(q, back), Following(q', back)))
  {
    var a, b := Following(q, back), Following(q', back);
    WalkKeeps(anchor, a, b);
    if p == p' {
      WalkCommon(NonEmpty(p), [anchor] + a, [anchor] + b);
    } else {
      OldProseGoes(p, anchor, q, p', q', back);
      var kept := [DiffToken(Unchanged, anchor)] + Walk(a, b);
      if p' == [] {
        assert NonEmpty(p') + ([anchor] + b) == [anchor] + b && Marked(Added, NonEmpty(p')) + kept == kept;
      } else {
        NewProseComes(anchor, q, p', q', back);
        assert Marked(Added, NonEmpty(p')) == [DiffToken(Added, p')];
      }
      Associative(Marked(Removed, NonEmpty(p)), Marked(Added, NonEmpty(p')), kept);
    }
  }

  lemma AnchorGoes(p: Text, anchor: Text, q: Text, p': Text, q': Text, back: seq<Text>)
    requires anchor !in {p, p', q, q'} && !Anchors(p, q, p', q')
    ensures var b := NonEmpty(p') + ([anchor] + Following(q', back));
            Walk(NonEmpty(p) + ([anchor] + Following(q, back)), b)
            == Marked(Removed, NonEmpty(p)) + ([DiffToken(Removed, anchor)] + Walk(Following(q, back), b))
  {
    OldProseGoes(p, anchor, q, p', q', back);
    NewProseComes(anchor, q, p', q', back);
  }

  lemma {:induction false} UnchangedSide(tokens: seq<Text>, skip: Kind)
    requires skip != Unchanged
    ensures Without(Marked(Unchanged, tokens), skip) == tokens
  {
    if tokens == [] {
    } else {
      assert Marked(Unchanged, tokens)[1..] == Marked(Unchanged, tokens[1..]);
      UnchangedSide(tokens[1..], skip);
    }
  }

  lemma ReplacedLengths(p: Text, p': Text)
    ensures SideLength(Replaced(p, p'), Added) == |p| && SideLength(Replaced(p, p'), Removed) == |p'|
  {
    ConcatOne(p);
    ConcatOne(p');
    if p == p' {
      UnchangedSide(NonEmpty(p), Added);
      UnchangedSide(NonEmpty(p), Removed);
    } else {
      RemovedLengths(p);
      MarkedSides(Added, NonEmpty(p'));
      SideLengthAppend(Marked(Removed, NonEmpty(p)), Marked(Added, NonEmpty(p')), Added);
      SideLengthAppend(Marked(Removed, NonEmpty(p)), Marked(Added, NonEmpty(p')), Removed);
    }
  }

  lemma RemovedLengths(p: Text)
    ensures SideLength(Marked(Removed, NonEmpty(p)), Added) == |p|
    ensures SideLength(Marked(Removed, NonEmpty(p)), Removed) == 0
  {
    ConcatOne(p);
    MarkedSides(Removed, NonEmpty(p));
  }

  lemma UnchangedLengths(front: seq<Text>)
    ensures SideLength(Marked(Unchanged, front), Added) == SideLength(Marked(Unchanged, front), Removed)
         == |Concat(front)|
  {
    UnchangedSide(front, Added);
    UnchangedSide(front, Removed);
  }

  lemma KeptScript(front: seq<Text>, p: Text, anchor: Text, q: Text, p': Text, q': Text, back: seq<Text>)
    returns (after: seq<DiffToken>)
    requires anchor !in {p, p', q, q'} && Anchors(p, q, p', q')
    ensures Walk(Around(front, p, anchor, q, back), Around(front, p', anchor, q', back))
         == Marked(Unchanged, front) + Replaced(p, p') + [DiffToken(Unchanged, anchor)] + after
  {
    var run := [DiffToken(Unchanged, anchor)];
    after := Walk(Following(q, back), Following(q', back));
    AnchorKept(p, anchor, q, p', q', back);
    WalkCommon(front, NonEmpty(p) + ([anchor] + Following(q, back)), NonEmpty(p') + ([anchor] + Following(q', back)));
    Associative(Marked(Unchanged, front), Replaced(p, p'), run + after);
    Associative(Marked(Unchanged, front) + Replaced(p, p'), run, after);
  }

  lemma TokenKeptAt(before: seq<DiffToken>, token: Text, after: seq<DiffToken>, o: nat, shift: int)
    requires SideLength(before, Added) == o && SideLength(before, Removed) == o + shift
    ensures KeptAt(MergeAll(before + [DiffToken(Unchanged, token)] + after), o, shift, |token|)
  {
    TokenKept(before, token, after);
  }

  lemma KeptLengths(front: seq<Text>, p: Text, p': Text)
    ensures var before := Marked(Unchanged, front) + Replaced(p, p');
            SideLength(before, Added) == |Concat(front)| + |p| && SideLength(before, Removed) == |Concat(front)| + |p'|
  {
    UnchangedLengths(front);
    ReplacedLengths(p, p');
    SideLengthAppend(Marked(Unchanged, front), Replaced(p, p'), Added);
    SideLengthAppend(Marked(Unchanged, front), Replaced(p, p'), Removed);
  }

  /** The place of a placeholder with `front` and then `p` before it is kept by the script. */
  lemma ScriptKeeps(front: seq<Text>, p: Text, anchor: Text, q: Text, p': Text, q': Text, back: seq<Text>)
    requires anchor !in {p, p', q, q'} && Anchors(p, q, p', q')
    ensures KeptAt(MergeAll(Walk(Around(front, p, anchor, q, back), Around(front, p', anchor, q', back))),
                   |Concat(front)| + |p|, |p'| - |p|, |anchor|)
  {
    var after := KeptScript(front, p, anchor, q, p', q', back);
    KeptLengths(front, p, p');
    TokenKeptAt(Marked(Unchanged, front) + Replaced(p, p'), anchor, after, |Concat(front)| + |p|, |p'| - |p|);
  }

  lemma DroppedLengths(front: seq<Text>, p: Text)
    ensures SideLength(Marked(Unchanged, front) + Marked(Removed, NonEmpty(p)), Added) == |Concat(front)| + |p|
  {
    UnchangedLengths(front);
    RemovedLengths(p);
    SideLengthAppend(Marked(Unchanged, front), Marked(Removed, NonEmpty(p)), Added);
  }

  lemma DroppedScript(front: seq<Text>, p: Text, anchor: Text, q: Text, p': Text, q': Text, back: seq<Text>)
    returns (after: seq<DiffToken>)
    requires anchor !in {p, p', q, q'} && !Anchors(p, q, p', q')
    ensures Walk(Around(front, p, anchor, q, back), Around(front, p', anchor, q', back))
         == Marked(Unchanged, front) + Marked(Removed, NonEmpty(p)) + [DiffToken(Removed, anchor)] + after
  {
    var b := NonEmpty(p') + ([anchor] + Following(q', back));
    var run := [DiffToken(Removed, anchor)];
    after := Walk(Following(q, back), b);
    AnchorGoes(p, anchor, q, p', q', back);
    WalkCommon(front, NonEmpty(p) + ([anchor] + Following(q, back)), b);
    Associative(Marked(Unchanged, front), Marked(Removed, NonEmpty(p)), run + after);
    Associative(Marked(Unchanged, front) + Marked(Removed, NonEmpty(p)), run, after);
  }

  /** Otherwise none of its characters is kept anywhere. */
  lemma ScriptDrops(front: seq<Text>, p: Text, anchor: Text, q: Text, p': Text, q': Text, back: seq<Text>)
    requires anchor !in {p, p', q, q'} && !Anchors(p, q, p', q')
    ensures NoneKept(MergeAll(Walk(Around(front, p, anchor, q, back), Around(front, p', anchor, q', back))),
                     |Concat(front)| + |p|, |anchor|)
  {
    var after := DroppedScript(front, p, anchor, q, p', q', back);
    DroppedLengths(front, p);
    NoneOfToken(Marked(Unchanged, front) + Marked(Removed, NonEmpty(p)), anchor, after);
  }

  // ----- main theorems -----

  lemma {:induction false} NothingUnchanged(runs: seq<DiffToken>, o: int, n: int)
    requires forall i :: 0 <= i < |runs| ==> runs[i].kind != Unchanged
    ensures !Aligned(runs, o, n)
  {
    if runs == [] {
    } else {
      NothingUnchanged(runs[..|runs| - 1], o, n);
    }
  }

  lemma AroundText(front: seq<Text>, p: Text, anchor: Text, q: Text, back: seq<Text>)
    ensures Concat(Around(front, p, anchor, q, back)) == Concat(front) + p + anchor + (q + Concat(back))
  {
    var rest := [anchor] + Following(q, back);
    ConcatAppend(front, NonEmpty(p) + rest);
    ConcatAppend(NonEmpty(p), rest);
    ConcatAppend([anchor], Following(q, back));
    ConcatAppend(NonEmpty(q), back);
    ConcatOne(p);
    ConcatOne(anchor);
    ConcatOne(q);
    Associative(p, anchor, q + Concat(back));
    Associative(Concat(front), p, anchor + (q + Concat(back)));
    Associative(Concat(front) + p, anchor, q + Concat(back));
  }

  ghost predicate IsProseOrNothing(p: Text) {
    p == [] || IsProse(p)
  }

  lemma ProseIsNoPlaceholder(p: Text, anchor: Text)
    requires IsProseOrNothing(p) && IsPlaceholder(anchor)
    ensures p != anchor && anchor != []
  {
    SeparatorExactly(anchor, |anchor|);
    assert anchor[..|anchor|] == anchor && anchor[0..] == anchor;
  }

  /** The tokens of the two texts are the same but for the prose next to `anchor`. */
  ghost predicate DifferAround(oldText: Text, newText: Text, front: seq<Text>, p: Text, anchor: Text, q: Text, p': Text,
                               q': Text, back: seq<Text>)
  {
    && IsPlaceholder(anchor)
    && IsProseOrNothing(p) && IsProseOrNothing(q) && IsProseOrNothing(p') && IsProseOrNothing(q')
    && Tokenize(oldText) == Around(front, p, anchor, q, back)
    && Tokenize(newText) == Around(front, p', anchor, q', back)
  }

  lemma PlaceOfAnchor(t: Text, front: seq<Text>, p: Text, anchor: Text, q: Text, back: seq<Text>)
    requires Tokenize(t) == Around(front, p, anchor, q, back)
    ensures var o := |Concat(front)| + |p|; o + |anchor| <= |t| && t[o..o + |anchor|] == anchor
  {
    TokenizeShape(t);
    AroundText(front, p, anchor, q, back);
    assert t == (Concat(front) + p) + anchor + (q + Concat(back));
  }

  lemma NoneOfReplaced(oldText: Text, newText: Text, o: nat, length: nat)
    requires oldText != newText && !WithinCap(oldText, newText)
    ensures NoneKept(Diffed(oldText, newText), o, length)
  {
    forall at, n | o <= at < o + length
      ensures !Aligned(Diffed(oldText, newText), at, n)
    {
      NothingUnchanged(Diffed(oldText, newText), at, n);
    }
  }

  lemma ScriptExactly(front: seq<Text>, p: Text, anchor: Text, q: Text, p': Text, q': Text, back: seq<Text>)
    requires anchor !in {p, p', q, q'}
    ensures var runs := MergeAll(Walk(Around(front, p, anchor, q, back), Around(front, p', anchor, q', back)));
            var o := |Concat(front)| + |p|;
            if Anchors(p, q, p', q') then KeptAt(runs, o, |p'| - |p|, |anchor|) else NoneKept(runs, o, |anchor|)
  {
    if Anchors(p, q, p', q') {
      ScriptKeeps(front, p, anchor, q, p', q', back);
    } else {
      ScriptDrops(front, p, anchor, q, p', q', back);
    }
  }

  /**
   When only the prose next to a placeholder changes, the placeholder is kept where it stands, if and only
   if the texts are not too long for the table and the prose changes on one side only, or there was none
   after it, or the new prose before it is not the old prose after it. Otherwise nothing of it is kept.
   */
  lemma PlaceholderKeptExactly(oldText: Text, newText: Text, front: seq<Text>, p: Text, anchor: Text, q: Text,
                               p': Text, q': Text, back: seq<Text>)
    requires DifferAround(oldText, newText, front, p, anchor, q, p', q', back) && oldText != newText
    ensures var o := |Concat(front)| + |p|;
            && o + |anchor| <= |oldText| && oldText[o..o + |anchor|] == anchor
            && if (|Tokenize(oldText)| + 1) * (|Tokenize(newText)| + 1) <= 1_000_000 && Anchors(p, q, p', q')
               then KeptAt(Diffed(oldText, newText), o, |p'| - |p|, |anchor|)
               else NoneKept(Diffed(oldText, newText), o, |anchor|)
  {
    PlaceOfAnchor(oldText, front, p, anchor, q, back);
    ProseIsNoPlaceholder(p, anchor);
    ProseIsNoPlaceholder(q, anchor);
    ProseIsNoPlaceholder(p', anchor);
    ProseIsNoPlaceholder(q', anchor);
    if WithinCap(oldText, newText) {
      ScriptExactly(front, p, anchor, q, p', q', back);
    } else {
      NoneOfReplaced(oldText, newText, |Concat(front)| + |p|, |anchor|);
    }
  }

  /** Text without white space and braces. */
  ghost predicate IsPlainWord(t: Text) {
    NoBraces(t) && forall i :: 0 <= i < |t| ==> !IsSpace(t[i])
  }

  lemma PlainWordIsProse(t: Text)
    requires IsPlainWord(t)
    ensures IsProseOrNothing(t)
    ensures forall rest :: PassedOver(t, rest)
  {
    forall k, rest: Text | 0 <= k < |t|
      ensures LeadingSeparator(t[k..] + rest) == 0
    {
      assert (t[k..] + rest)[0] == t[k];
    }
    forall k | 0 <= k < |t|
      ensures LeadingSeparator(t[k..]) == 0
    {
      assert t[k..][0] == t[k];
    }
  }

  /** A placeholder between plain words is a token of its own. */
  lemma TokensAround(p: Text, anchor: Text, q: Text)
    requires IsPlainWord(p) && IsPlainWord(q) && IsPlaceholder(anchor)
    ensures Tokenize(p + anchor + q) == Around([], p, anchor, q, [])
  {
    var rest, back := anchor + q, NonEmpty(q);
    PlainWordIsProse(p);
    PlainWordIsProse(q);
    SeparatorExactly(rest, |anchor|);
    assert rest[..|anchor|] == anchor && rest[|anchor|..] == q;
    ConcatOne(q);
    if q != [] {
      assert q + [] == q;
      PassedOverIsFirst(q, []);
      CutOn(q, []);
    }
    SeparatorFirst(rest, back);
    PendingFirst(p, rest, [anchor] + back);
    assert Following(q, []) == back;
    assert Around([], p, anchor, q, []) == NonEmpty(p) + ([anchor] + back);
    AroundText([], p, anchor, q, []);
    assert [] + p + anchor + (q + []) == p + anchor + q;
    TokenizeExactly(p + anchor + q, Around([], p, anchor, q, []));
  }

  lemma TokensDiffer(oldText: Text, newText: Text, p: Text, q: Text, p': Text, q': Text, anchor: Text, none: seq<Text>)
    requires IsPlaceholder(anchor) && IsPlainWord(p) && IsPlainWord(q) && IsPlainWord(p') && IsPlainWord(q')
    requires oldText == p + anchor + q && newText == p' + anchor + q' && none == []
    ensures DifferAround(oldText, newText, none, p, anchor, q, p', q', none)
  {
    TokensAround(p, anchor, q);
    TokensAround(p', anchor, q');
    PlainWordIsProse(p);
    PlainWordIsProse(q);
    PlainWordIsProse(p');
    PlainWordIsProse(q');
  }

  lemma CellsFit(oldText: Text, newText: Text, p: Text, q: Text, p': Text, q': Text, anchor: Text)
    requires Tokenize(oldText) == Around([], p, anchor, q, [])
    requires Tokenize(newText) == Around([], p', anchor, q', [])
    ensures (|Tokenize(oldText)| + 1) * (|Tokenize(newText)| + 1) <= 1_000_000
  {
    FewTokens(p, anchor, q);
    FewTokens(p', anchor, q');
    FewCells(|Tokenize(oldText)|, |Tokenize(newText)|);
  }

  lemma FewTokens(p: Text, anchor: Text, q: Text)
    ensures |Around([], p, anchor, q, [])| <= 3
  {
  }

  lemma FewCells(m: nat, n: nat)
    requires m <= 3 && n <= 3
    ensures (m + 1) * (n + 1) <= 1_000_000
  {
    assert (m + 1) * (n + 1) <= 4 * (n + 1);
  }

  /** So for texts that are a placeholder with plain words around it, `{{ab}}.` and `{{ab}}!` for one. */
  lemma WordsAroundPlaceholder(oldText: Text, newText: Text, p: Text, q: Text, p': Text, q': Text, anchor: Text)
    requires IsPlaceholder(anchor) && IsPlainWord(p) && IsPlainWord(q) && IsPlainWord(p') && IsPlainWord(q')
    requires oldText == p + anchor + q && newText == p' + anchor + q' && oldText != newText
    ensures if p == p' || q == q' || q == [] || q != p' then
              KeptAt(Diffed(oldText, newText), |p|, |p'| - |p|, |anchor|)
            else NoneKept(Diffed(oldText, newText), |p|, |anchor|)
  {
    var none: seq<Text> := [];
    TokensDiffer(oldText, newText, p, q, p', q', anchor, none);
    CellsFit(oldText, newText, p, q, p', q', anchor);
    assert Concat(none) == [];
    PlaceholderKeptExactly(oldText, newText, none, p, anchor, q, p', q', none);
  }

  /** Swapping prose past a placeholder: from `a{{x}}b` to `b{{x}}c` the placeholder is not kept. */
  lemma AnchorLost()
    ensures var x: Text := ['{' as int, '{' as int, 'x' as int, '}' as int, '}' as int];
            var a: Text, b: Text, c: Text := ['a' as int], ['b' as int], ['c' as int];
            NoneKept(Diffed(a + x + b, b + x + c), 1, 5)
  {
    var inner: Text := ['x' as int];
    var x: Text := ['{' as int, '{' as int, 'x' as int, '}' as int, '}' as int];
    assert NoBraces(inner) && x == Braced(inner);
    var a: Text, b: Text, c: Text := ['a' as int], ['b' as int], ['c' as int];
    assert (a + x + b)[0] != (b + x + c)[0];
    WordsAroundPlaceholder(a + x + b, b + x + c, a, b, b, c, x);
  }
}
