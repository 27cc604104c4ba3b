/**
 The word diff shown beside a refined draft: tokens, a longest-common-subsequence table, a greedy
 walk over it, and merging of neighbouring tokens of one kind.
 */
module Diff {
  import opened JsText

  datatype Kind = Added | Removed | Unchanged

  datatype DiffToken = DiffToken(kind: Kind, text: Text)

  const MAX_CELLS := 1_000_000

  // ----- tokens -----

  function LeadingSpaces(t: Text): (n: nat)
    ensures n <= |t|
    ensures forall i :: 0 <= i < n ==> IsSpace(t[i])
    ensures n < |t| ==> !IsSpace(t[n])
  {
    if t == [] || !IsSpace(t[0]) then 0 else 1 + LeadingSpaces(t[1..])
  }

  function LeadingNonBraces(t: Text): (n: nat)
    ensures n <= |t|
    ensures forall i :: 0 <= i < n ==> t[i] != OPEN_BRACE && t[i] != CLOSE_BRACE
    ensures n < |t| ==> t[n] == OPEN_BRACE || t[n] == CLOSE_BRACE
  {
    if t == [] || t[0] == OPEN_BRACE || t[0] == CLOSE_BRACE then 0 else 1 + LeadingNonBraces(t[1..])
  }

  /** Length of the `{{...}}` that `t` starts with, or 0. */
  function LeadingPlaceholder(t: Text): (n: nat)
    ensures n <= |t|
  {
    if |t| < 2 || t[0] != OPEN_BRACE || t[1] != OPEN_BRACE then 0 else
      var n := LeadingNonBraces(t[2..]);
      if 0 < n && n + 4 <= |t| && t[n + 2] == CLOSE_BRACE && t[n + 3] == CLOSE_BRACE then n + 4 else 0
  }

  /** Length of the separator (white space or a placeholder) that `t` starts with, or 0. */
  function LeadingSeparator(t: Text): (n: nat)
    ensures n <= |t|
  {
    if 0 < LeadingSpaces(t) then LeadingSpaces(t) else LeadingPlaceholder(t)
  }

  function NonEmpty(t: Text): seq<Text> {
    if t == [] then [] else [t]
  }

  /** Scan `rest`, having passed over `pending` since the last separator. */
  function TokenizeAfter(pending: Text, rest: Text): seq<Text>
    decreases |rest|
  {
    if rest == [] then NonEmpty(pending) else
      var n := LeadingSeparator(rest);
      if n == 0 then TokenizeAfter(pending + [rest[0]], rest[1..])
      else NonEmpty(pending) + [rest[..n]] + TokenizeAfter([], rest[n..])
  }

  function Tokenize(t: Text): seq<Text> {
    TokenizeAfter([], t)
  }

  ghost predicate IsSeparator(t: Text) {
    t != [] && LeadingSeparator(t) == |t|
  }

  /** No white space and no placeholder starts anywhere in `t`. */
  ghost predicate IsProse(t: Text) {
    t != [] && forall k {:trigger t[k..]} :: 0 <= k < |t| ==> LeadingSeparator(t[k..]) == 0
  }

  lemma SpacesStay(t: Text, n: nat)
    requires n <= |t|
    ensures n <= LeadingSpaces(t) ==> LeadingSpaces(t[..n]) == n
    ensures LeadingSpaces(t[..n]) <= LeadingSpaces(t)
  {
    if n == 0 {
    } else {
      assert t[..n][1..] == t[1..][..n - 1];
      SpacesStay(t[1..], n - 1);
    }
  }

  /** Cutting text short neither makes a placeholder nor breaks one it keeps whole. */
  lemma PlaceholderStays(t: Text, n: nat)
    requires n <= |t|
    ensures LeadingPlaceholder(t[..n]) == if 0 < LeadingPlaceholder(t) <= n then LeadingPlaceholder(t) else 0
  {
    var cut := t[..n];
    if 2 <= n {
      assert cut[2..] == t[2..][..n - 2];
      NonBracesStay(t[2..], n - 2);
    }
  }

  lemma NonBracesStay(t: Text, n: nat)
    requires n <= |t|
    ensures LeadingNonBraces(t[..n]) == if LeadingNonBraces(t) <= n then LeadingNonBraces(t) else n
  {
    if n == 0 {
    } else {
      assert t[..n][1..] == t[1..][..n - 1];
      NonBracesStay(t[1..], n - 1);
    }
  }

  lemma SeparatorStays(t: Text, n: nat)
    requires n <= |t|
    ensures n == LeadingSeparator(t) ==> LeadingSeparator(t[..n]) == n
    ensures LeadingSeparator(t) == 0 ==> LeadingSeparator(t[..n]) == 0
  {
    SpacesStay(t, n);
    PlaceholderStays(t, n);
  }

  /** No separator starts within `pending`, even reading on into `rest`. */
  ghost predicate PassedOver(pending: Text, rest: Text) {
    forall k {:trigger pending[k..]} :: 0 <= k < |pending| ==> LeadingSeparator(pending[k..] + rest) == 0
  }

  lemma PassOver(pending: Text, rest: Text)
    requires PassedOver(pending, rest) && rest != [] && LeadingSeparator(rest) == 0
    ensures PassedOver(pending + [rest[0]], rest[1..])
  {
    var longer := pending + [rest[0]];
    forall k | 0 <= k < |longer|
      ensures LeadingSeparator(longer[k..] + rest[1..]) == 0
    {
      if k < |pending| {
        assert longer[k..] + rest[1..] == pending[k..] + rest;
      } else {
        assert longer[k..] + rest[1..] == rest;
      }
    }
  }

  lemma Rejoin(before: Text, t: Text, n: nat)
    requires n <= |t|
    ensures before + t[..n] + t[n..] == before + t
    ensures [] + t[n..] == t[n..]
  {
    Associative(before, t[..n], t[n..]);
    assert t[..n] + t[n..] == t;
  }

  lemma {:induction false} TokenizeAfterConcat(pending: Text, rest: Text)
    ensures Concat(TokenizeAfter(pending, rest)) == pending + rest
    decreases |rest|
  {
    if rest == [] {
      ConcatOne(pending);
      assert pending + rest == pending;
    } else {
      var n := LeadingSeparator(rest);
      if n == 0 {
        TokenizeAfterConcat(pending + [rest[0]], rest[1..]);
        Rejoin(pending, rest, 1);
        assert rest[..1] == [rest[0]];
      } else {
        TokenizeOn(pending, rest);
        TokenizeAfterConcat([], rest[n..]);
        ConcatThree(pending, rest[..n], TokenizeAfter([], rest[n..]));
        Rejoin(pending, rest, n);
      }
    }
  }

  lemma TokenizeOn(pending: Text, rest: Text)
    requires LeadingSeparator(rest) > 0
    ensures TokenizeAfter(pending, rest)
         == NonEmpty(pending) + [rest[..LeadingSeparator(rest)]] + TokenizeAfter([], rest[LeadingSeparator(rest)..])
  {
  }

  lemma ConcatThree(pending: Text, separator: Text, back: seq<Text>)
    ensures Concat(NonEmpty(pending) + [separator] + back) == pending + separator + Concat(back)
  {
    ConcatAppend(NonEmpty(pending) + [separator], back);
    ConcatAppend(NonEmpty(pending), [separator]);
    ConcatOne(pending);
    ConcatOne(separator);
  }

  /** The first token is the separator the text starts with, or all there is before the next separator. */
  ghost predicate IsFirstToken(token: Text, t: Text) {
    && token != [] && token <= t
    && (LeadingSeparator(t) == |token| ||
        (NoneBefore(t, |token|) && (|token| < |t| ==> 0 < LeadingSeparator(t[|token|..]))))
  }

  ghost predicate NoneBefore(t: Text, end: nat)
    requires end <= |t|
  {
    forall k {:trigger t[k..]} :: 0 <= k < end ==> LeadingSeparator(t[k..]) == 0
  }

  ghost predicate CutAtSeparators(tokens: seq<Text>) {
    tokens != [] ==> IsFirstToken(tokens[0], Concat(tokens)) && CutAtSeparators(tokens[1..])
  }

  lemma CutOn(token: Text, tokens: seq<Text>)
    requires CutAtSeparators(tokens) && IsFirstToken(token, token + Concat(tokens))
    ensures CutAtSeparators([token] + tokens)
  {
    assert ([token] + tokens)[1..] == tokens;
  }

  lemma PassedOverIsFirst(pending: Text, rest: Text)
    requires PassedOver(pending, rest) && pending != [] && (rest == [] || 0 < LeadingSeparator(rest))
    ensures IsFirstToken(pending, pending + rest)
  {
    var t := pending + rest;
    forall k | 0 <= k < |pending|
      ensures LeadingSeparator(t[k..]) == 0
    {
      assert t[k..] == pending[k..] + rest;
    }
    assert t[|pending|..] == rest;
  }

  lemma {:induction false} TokenizeAfterCuts(pending: Text, rest: Text)
    requires PassedOver(pending, rest)
    ensures CutAtSeparators(TokenizeAfter(pending, rest))
    decreases |rest|
  {
    if rest == [] {
      if pending != [] {
        PassedOverIsFirst(pending, rest);
        CutOn(pending, []);
      }
    } else {
      var n := LeadingSeparator(rest);
      if n == 0 {
        PassOver(pending, rest);
        TokenizeAfterCuts(pending + [rest[0]], rest[1..]);
      } else {
        SeparatorCuts(pending, rest);
      }
    }
  }

  lemma {:induction false} SeparatorCuts(pending: Text, rest: Text)
    requires PassedOver(pending, rest) && 0 < LeadingSeparator(rest)
    ensures CutAtSeparators(TokenizeAfter(pending, rest))
    decreases |rest|, 0
  {
    var n := LeadingSeparator(rest);
    var separator, back := rest[..n], TokenizeAfter([], rest[n..]);
    TokenizeOn(pending, rest);
    TokenizeAfterCuts([], rest[n..]);
    TokenizeAfterConcat([], rest[n..]);
    assert [] + rest[n..] == rest[n..];
    SeparatorFirst(rest, back);
    PendingFirst(pending, rest, [separator] + back);
    Associative(NonEmpty(pending), [separator], back);
  }

  lemma PendingFirst(pending: Text, rest: Text, tokens: seq<Text>)
    requires PassedOver(pending, rest) && 0 < LeadingSeparator(rest)
    requires CutAtSeparators(tokens) && Concat(tokens) == rest
    ensures CutAtSeparators(NonEmpty(pending) + tokens)
  {
    if pending == [] {
      assert NonEmpty(pending) + tokens == tokens;
    } else {
      PassedOverIsFirst(pending, rest);
      CutOn(pending, tokens);
    }
  }

  lemma SeparatorFirst(rest: Text, back: seq<Text>)
    requires var n := LeadingSeparator(rest); 0 < n && CutAtSeparators(back) && Concat(back) == rest[n..]
    ensures var tokens := [rest[..LeadingSeparator(rest)]] + back; CutAtSeparators(tokens) && Concat(tokens) == rest
  {
    var n := LeadingSeparator(rest);
    var separator := rest[..n];
    assert separator + rest[n..] == rest;
    CutOn(separator, back);
    assert ([separator] + back)[0] == separator && ([separator] + back)[1..] == back;
  }

  /** There is one way to cut a text so. */
  lemma {:induction false} CutsAreUnique(a: seq<Text>, b: seq<Text>)
    requires CutAtSeparators(a) && CutAtSeparators(b) && Concat(a) == Concat(b)
    ensures a == b
    decreases |a|
  {
    if a == [] || b == [] {
      assert a == [] && b == [] by {
        assert a != [] ==> Concat(a) != [];
        assert b != [] ==> Concat(b) != [];
      }
    } else {
      var t := Concat(a);
      FirstTokenIsUnique(a[0], b[0], t);
      assert Concat(a[1..]) == t[|a[0]|..] && Concat(b[1..]) == t[|b[0]|..];
      CutsAreUnique(a[1..], b[1..]);
      assert a == [a[0]] + a[1..] && b == [b[0]] + b[1..];
    }
  }

  lemma NoLonger(x: Text, y: Text, t: Text)
    requires IsFirstToken(x, t) && IsFirstToken(y, t) && LeadingSeparator(t) == 0
    ensures |y| <= |x|
  {
  }

  lemma FirstTokenIsUnique(x: Text, y: Text, t: Text)
    requires IsFirstToken(x, t) && IsFirstToken(y, t)
    ensures x == y
  {
    assert t[0..] == t;
    if LeadingSeparator(t) == 0 {
      NoLonger(x, y, t);
      NoLonger(y, x, t);
    }
    assert x == t[..|x|] && y == t[..|y|];
  }

  /** White space, as opposed to a placeholder. */
  predicate StartsWithSpace(t: Text) {
    t != [] && IsSpace(t[0])
  }

  /** Neighbours are never both prose or both white space. */
  ghost predicate Alternating(tokens: seq<Text>) {
    forall i :: 0 < i < |tokens| ==>
      && (IsSeparator(tokens[i - 1]) || IsSeparator(tokens[i]))
      && !(StartsWithSpace(tokens[i - 1]) && StartsWithSpace(tokens[i]))
  }

  lemma FirstTokenShape(token: Text, t: Text)
    requires IsFirstToken(token, t)
    ensures IsSeparator(token) || IsProse(token)
    ensures IsProse(token) && |token| < |t| ==> 0 < LeadingSeparator(t[|token|..])
    ensures StartsWithSpace(token) && |token| < |t| ==> !IsSpace(t[|token|])
  {
    var n := |token|;
    assert token == t[..n] && t[0..] == t && token[0..] == token;
    if LeadingSeparator(t) == n {
      SeparatorStays(t, n);
      assert token[0] == t[0];
      assert StartsWithSpace(token) ==> LeadingSpaces(t) == n;
    } else {
      forall k | 0 <= k < n
        ensures LeadingSeparator(token[k..]) == 0
      {
        assert token[k..] == t[k..][..n - k];
        SeparatorStays(t[k..], n - k);
      }
      assert token[0] == t[0];
    }
  }

  lemma {:induction false} CutsAlternate(tokens: seq<Text>)
    requires CutAtSeparators(tokens)
    ensures Alternating(tokens) && forall tok :: tok in tokens ==> tok != [] && (IsSeparator(tok) || IsProse(tok))
  {
    if tokens == [] {
    } else {
      var token, back := tokens[0], tokens[1..];
      CutsAlternate(back);
      FirstTokenShape(token, Concat(tokens));
      if back != [] {
        NextToken(token, back);
      }
      ShapedOn(token, back);
      assert [token] + back == tokens;
    }
  }

  lemma ShapedOn(token: Text, back: seq<Text>)
    requires Alternating(back) && forall tok :: tok in back ==> tok != [] && (IsSeparator(tok) || IsProse(tok))
    requires token != [] && (IsSeparator(token) || IsProse(token))
    requires back != [] ==> IsSeparator(token) || IsSeparator(back[0])
    requires back != [] ==> !(StartsWithSpace(token) && StartsWithSpace(back[0]))
    ensures var tokens := [token] + back;
            Alternating(tokens) && forall tok :: tok in tokens ==> tok != [] && (IsSeparator(tok) || IsProse(tok))
  {
    var tokens := [token] + back;
    forall i | 0 < i < |tokens|
      ensures IsSeparator(tokens[i - 1]) || IsSeparator(tokens[i])
      ensures !(StartsWithSpace(tokens[i - 1]) && StartsWithSpace(tokens[i]))
    {
      var j := i - 1;
      assert tokens[i] == back[j];
      if 0 < j {
        assert tokens[i - 1] == back[j - 1];
      }
    }
  }

  lemma NextToken(token: Text, back: seq<Text>)
    requires back != [] && CutAtSeparators(back) && IsFirstToken(token, token + Concat(back))
    ensures IsSeparator(token) || IsSeparator(back[0])
    ensures !(StartsWithSpace(token) && StartsWithSpace(back[0]))
  {
    var t := token + Concat(back);
    FirstTokenShape(token, t);
    assert t[|token|..] == Concat(back);
    FirstTokenShape(back[0], Concat(back));
    if 0 < LeadingSeparator(Concat(back)) {
      assert Concat(back)[0..] == Concat(back);
      SeparatorStays(Concat(back), |back[0]|);
    }
  }

  /**
   Tokens give the text back; none is empty, each is one whole separator or free of them, and
   neighbours are never both prose or both white space.
   */
  lemma TokenizeShape(t: Text)
    ensures Concat(Tokenize(t)) == t
    ensures forall tok :: tok in Tokenize(t) ==> tok != [] && (IsSeparator(tok) || IsProse(tok))
    ensures Alternating(Tokenize(t))
  {
    TokenizeAfterConcat([], t);
    TokenizeAfterCuts([], t);
    CutsAlternate(Tokenize(t));
  }

  /** They are the one list that gives the text back and is cut at the text's separators. */
  lemma TokenizeExactly(t: Text, tokens: seq<Text>)
    ensures tokens == Tokenize(t) <==> CutAtSeparators(tokens) && Concat(tokens) == t
  {
    TokenizeAfterConcat([], t);
    TokenizeAfterCuts([], t);
    assert [] + t == t;
    if CutAtSeparators(tokens) && Concat(tokens) == t {
      CutsAreUnique(tokens, Tokenize(t));
    }
  }

  // ----- longest common subsequences -----

  ghost predicate Subsequence<T>(s: seq<T>, t: seq<T>) {
    s == [] || (t != [] && ((s[0] == t[0] && Subsequence(s[1..], t[1..])) || Subsequence(s, t[1..])))
  }

  function LcsLength<T(==)>(a: seq<T>, b: seq<T>): nat
    decreases |a| + |b|
  {
    if a == [] || b == [] then 0
    else if a[0] == b[0] then 1 + LcsLength(a[1..], b[1..])
    else Max(LcsLength(a[1..], b), LcsLength(a, b[1..]))
  }

  function Max(x: nat, y: nat): nat {
    if x < y then y else x
  }

  lemma {:induction false} DropFirst<T>(s: seq<T>, t: seq<T>)
    requires s != [] && Subsequence(s, t)
    ensures t != [] && Subsequence(s[1..], t[1..])
  {
    if s[0] == t[0] && Subsequence(s[1..], t[1..]) {
    } else {
      DropFirst(s, t[1..]);
      Weaken(s[1..], t[1..]);
    }
  }

  lemma Weaken<T>(s: seq<T>, t: seq<T>)
    requires t != [] && Subsequence(s, t[1..])
    ensures Subsequence(s, t)
  {
  }

  /** No common subsequence whatever is longer than `LcsLength`. */
  lemma {:induction false} LcsIsLongest<T>(s: seq<T>, a: seq<T>, b: seq<T>)
    requires Subsequence(s, a) && Subsequence(s, b)
    ensures |s| <= LcsLength(a, b)
    decreases |a| + |b|
  {
    if s == [] {
    } else {
      if a[0] == b[0] {
        if s[0] == a[0] {
          DropFirst(s, a);
          DropFirst(s, b);
          LcsIsLongest(s[1..], a[1..], b[1..]);
        } else {
          LcsIsLongest(s, a[1..], b[1..]);
        }
      } else if s[0] != a[0] {
        LcsIsLongest(s, a[1..], b);
      } else {
        LcsIsLongest(s, a, b[1..]);
      }
    }
  }

  // ----- the walk -----

  function Marked(kind: Kind, tokens: seq<Text>): seq<DiffToken> {
    seq(|tokens|, i requires 0 <= i < |tokens| => DiffToken(kind, tokens[i]))
  }

  function Walk(a: seq<Text>, b: seq<Text>): seq<DiffToken>
    decreases |a| + |b|
  {
    if a == [] then Marked(Added, b)
    else if b == [] then Marked(Removed, a)
    else if a[0] == b[0] then [DiffToken(Unchanged, a[0])] + Walk(a[1..], b[1..])
    else if LcsLength(a[1..], b) >= LcsLength(a, b[1..]) then [DiffToken(Removed, a[0])] + Walk(a[1..], b)
    else [DiffToken(Added, b[0])] + Walk(a, b[1..])
  }

  /** The tokens' texts, those of kind `skip` left out. */
  function Without(tokens: seq<DiffToken>, skip: Kind): seq<Text> {
    if tokens == [] then []
    else (if tokens[0].kind == skip then [] else [tokens[0].text]) + Without(tokens[1..], skip)
  }

  function Kept(tokens: seq<DiffToken>): seq<Text> {
    if tokens == [] then []
    else (if tokens[0].kind == Unchanged then [tokens[0].text] else []) + Kept(tokens[1..])
  }

  /** The script rewrites `a` into `b` and keeps a longest common subsequence of the two. */
  ghost predicate Optimal(script: seq<DiffToken>, a: seq<Text>, b: seq<Text>) {
    && Without(script, Added) == a
    && Without(script, Removed) == b
    && Subsequence(Kept(script), a)
    && Subsequence(Kept(script), b)
    && forall s :: Subsequence(s, a) && Subsequence(s, b) ==> |s| <= |Kept(script)|
  }

  lemma {:induction false} MarkedSides(kind: Kind, tokens: seq<Text>)
    requires kind != Unchanged
    ensures Kept(Marked(kind, tokens)) == [] && Without(Marked(kind, tokens), kind) == []
    ensures forall other :: other != kind ==> Without(Marked(kind, tokens), other) == tokens
  {
    if tokens == [] {
    } else {
      assert Marked(kind, tokens)[1..] == Marked(kind, tokens[1..]);
      MarkedSides(kind, tokens[1..]);
    }
  }

  lemma ConsSides(token: DiffToken, rest: seq<DiffToken>)
    ensures Kept([token] + rest) == if token.kind == Unchanged then [token.text] + Kept(rest) else Kept(rest)
    ensures forall skip :: Without([token] + rest, skip) ==
                           if token.kind == skip then Without(rest, skip) else [token.text] + Without(rest, skip)
  {
    assert ([token] + rest)[1..] == rest;
  }

  lemma {:induction false} WalkSides(a: seq<Text>, b: seq<Text>)
    ensures Without(Walk(a, b), Added) == a && Without(Walk(a, b), Removed) == b
    ensures |Kept(Walk(a, b))| == LcsLength(a, b)
    ensures Subsequence(Kept(Walk(a, b)), a) && Subsequence(Kept(Walk(a, b)), b)
    decreases |a| + |b|
  {
    var w := Walk(a, b);
    if a == [] {
      MarkedSides(Added, b);
    } else if b == [] {
      MarkedSides(Removed, a);
    } else if a[0] == b[0] {
      WalkSides(a[1..], b[1..]);
      assert w == [DiffToken(Unchanged, a[0])] + Walk(a[1..], b[1..]);
      ConsSides(DiffToken(Unchanged, a[0]), Walk(a[1..], b[1..]));
      assert Kept(w)[1..] == Kept(Walk(a[1..], b[1..]));
    } else if LcsLength(a[1..], b) >= LcsLength(a, b[1..]) {
      WalkSides(a[1..], b);
      assert w == [DiffToken(Removed, a[0])] + Walk(a[1..], b);
      ConsSides(DiffToken(Removed, a[0]), Walk(a[1..], b));
      Weaken(Kept(w), a);
    } else {
      WalkSides(a, b[1..]);
      assert w == [DiffToken(Added, b[0])] + Walk(a, b[1..]);
      ConsSides(DiffToken(Added, b[0]), Walk(a, b[1..]));
      Weaken(Kept(w), b);
    }
  }

  lemma WalkIsOptimal(a: seq<Text>, b: seq<Text>)
    ensures Optimal(Walk(a, b), a, b)
  {
    WalkSides(a, b);
    forall s | Subsequence(s, a) && Subsequence(s, b)
      ensures |s| <= |Kept(Walk(a, b))|
    {
      LcsIsLongest(s, a, b);
    }
  }

  // ----- merging runs -----

  function Merge(runs: seq<DiffToken>, token: DiffToken): seq<DiffToken> {
    if runs != [] && runs[|runs| - 1].kind == token.kind
    then runs[..|runs| - 1] + [DiffToken(token.kind, runs[|runs| - 1].text + token.text)]
    else runs + [token]
  }

  function MergeAll(tokens: seq<DiffToken>): seq<DiffToken> {
    if tokens == [] then [] else Merge(MergeAll(tokens[..|tokens| - 1]), tokens[|tokens| - 1])
  }

  /** No run is empty and no two neighbours are of one kind. */
  ghost predicate Separated(runs: seq<DiffToken>) {
    && (forall i :: 0 <= i < |runs| ==> runs[i].text != [])
    && (forall i :: 0 < i < |runs| ==> runs[i - 1].kind != runs[i].kind)
  }

  lemma {:induction false} WithoutAppend(tokens: seq<DiffToken>, more: seq<DiffToken>, skip: Kind)
    ensures Without(tokens + more, skip) == Without(tokens, skip) + Without(more, skip)
  {
    if tokens == [] {
      assert tokens + more == more;
    } else {
      assert (tokens + more)[1..] == tokens[1..] + more;
      WithoutAppend(tokens[1..], more, skip);
    }
  }

  lemma WithoutOne(token: DiffToken, skip: Kind)
    ensures Concat(Without([token], skip)) == if token.kind == skip then [] else token.text
  {
    assert Without([token], skip) == (if token.kind == skip then [] else [token.text]) + Without([], skip);
    ConcatOne(token.text);
  }

  lemma MergeKeepsText(runs: seq<DiffToken>, token: DiffToken, skip: Kind)
    ensures Concat(Without(Merge(runs, token), skip)) == Concat(Without(runs, skip)) + Concat(Without([token], skip))
  {
    if runs != [] && runs[|runs| - 1].kind == token.kind {
      var front, last := runs[..|runs| - 1], runs[|runs| - 1];
      var joined := DiffToken(token.kind, last.text + token.text);
      assert runs == front + [last];
      WithoutAppend(front, [last], skip);
      WithoutAppend(front, [joined], skip);
      ConcatAppend(Without(front, skip), Without([last], skip));
      ConcatAppend(Without(front, skip), Without([joined], skip));
      WithoutOne(last, skip);
      WithoutOne(joined, skip);
    } else {
      WithoutAppend(runs, [token], skip);
      ConcatAppend(Without(runs, skip), Without([token], skip));
    }
    WithoutOne(token, skip);
  }

  lemma {:induction false} MergeAllSeparates(tokens: seq<DiffToken>)
    requires forall i :: 0 <= i < |tokens| ==> tokens[i].text != []
    ensures Separated(MergeAll(tokens))
  {
    if tokens == [] {
    } else {
      MergeAllSeparates(tokens[..|tokens| - 1]);
      MergeSeparates(MergeAll(tokens[..|tokens| - 1]), tokens[|tokens| - 1]);
    }
  }

  lemma MergeSeparates(runs: seq<DiffToken>, token: DiffToken)
    requires Separated(runs) && token.text != []
    ensures Separated(Merge(runs, token))
  {
  }

  lemma WithoutLast(tokens: seq<DiffToken>, skip: Kind)
    requires tokens != []
    ensures var front, last := tokens[..|tokens| - 1], tokens[|tokens| - 1];
            Concat(Without(tokens, skip)) == Concat(Without(front, skip)) + Concat(Without([last], skip))
  {
    var front, last := tokens[..|tokens| - 1], tokens[|tokens| - 1];
    assert tokens == front + [last];
    WithoutAppend(front, [last], skip);
    ConcatAppend(Without(front, skip), Without([last], skip));
  }

  lemma {:induction false} MergeAllKeepsText(tokens: seq<DiffToken>, skip: Kind)
    ensures Concat(Without(MergeAll(tokens), skip)) == Concat(Without(tokens, skip))
  {
    if tokens == [] {
    } else {
      MergeAllKeepsText(tokens[..|tokens| - 1], skip);
      MergeKeepsText(MergeAll(tokens[..|tokens| - 1]), tokens[|tokens| - 1], skip);
      WithoutLast(tokens, skip);
    }
  }

  /** Merging keeps both texts and leaves maximal, non-empty runs. */
  lemma MergeAllShape(tokens: seq<DiffToken>, skip: Kind)
    requires forall i :: 0 <= i < |tokens| ==> tokens[i].text != []
    ensures Separated(MergeAll(tokens))
    ensures Concat(Without(MergeAll(tokens), skip)) == Concat(Without(tokens, skip))
  {
    MergeAllSeparates(tokens);
    MergeAllKeepsText(tokens, skip);
  }

  lemma {:induction false} WalkTokensAreTokens(a: seq<Text>, b: seq<Text>)
    ensures forall i :: 0 <= i < |Walk(a, b)| ==> Walk(a, b)[i].text in a || Walk(a, b)[i].text in b
    decreases |a| + |b|
  {
    if a == [] || b == [] {
    } else if a[0] == b[0] {
      WalkTokensAreTokens(a[1..], b[1..]);
    } else if LcsLength(a[1..], b) >= LcsLength(a, b[1..]) {
      WalkTokensAreTokens(a[1..], b);
    } else {
      WalkTokensAreTokens(a, b[1..]);
    }
  }

  // ----- the algorithm -----

  /** What is left of the walk when the first `i` and `j` tokens have been dealt with. */
  ghost function WalkFrom(a: seq<Text>, b: seq<Text>, i: nat, j: nat): seq<DiffToken>
    requires i <= |a| && j <= |b|
  {
    Walk(a[i..], b[j..])
  }

  ghost function LcsFrom(a: seq<Text>, b: seq<Text>, i: nat, j: nat): nat
    requires i <= |a| && j <= |b|
  {
    LcsLength(a[i..], b[j..])
  }

  lemma WalkOn(a: seq<Text>, b: seq<Text>, i: nat, j: nat, done: seq<DiffToken>)
    requires i < |a| || j < |b|
    requires i <= |a| && j <= |b|
    ensures done + WalkFrom(a, b, i, j) ==
            if j == |b| then done + [DiffToken(Removed, a[i])] + WalkFrom(a, b, i + 1, j)
            else if i == |a| then done + [DiffToken(Added, b[j])] + WalkFrom(a, b, i, j + 1)
            else if a[i] == b[j] then done + [DiffToken(Unchanged, a[i])] + WalkFrom(a, b, i + 1, j + 1)
            else if LcsFrom(a, b, i + 1, j) >= LcsFrom(a, b, i, j + 1)
            then done + [DiffToken(Removed, a[i])] + WalkFrom(a, b, i + 1, j)
            else done + [DiffToken(Added, b[j])] + WalkFrom(a, b, i, j + 1)
  {
    assert i < |a| ==> a[i..][1..] == a[i + 1..];
    assert j < |b| ==> b[j..][1..] == b[j + 1..];
    if j == |b| {
      assert Marked(Removed, a[i..]) == [DiffToken(Removed, a[i])] + Marked(Removed, a[i + 1..]);
      assert i + 1 == |a| ==> Marked(Added, b[j..]) == Marked(Removed, a[i + 1..]);
    } else if i == |a| {
      assert Marked(Added, b[j..]) == [DiffToken(Added, b[j])] + Marked(Added, b[j + 1..]);
    }
  }

  /** What is done and what is left of the walk make up the whole. */
  ghost predicate WalkedTo(a: seq<Text>, b: seq<Text>, i: nat, j: nat, done: seq<DiffToken>) {
    i <= |a| && j <= |b| && done + WalkFrom(a, b, i, j) == WalkFrom(a, b, 0, 0)
  }

  lemma WalkStarts(a: seq<Text>, b: seq<Text>)
    ensures WalkedTo(a, b, 0, 0, [])
  {
  }

  lemma WalkEnds(a: seq<Text>, b: seq<Text>, done: seq<DiffToken>)
    requires WalkedTo(a, b, |a|, |b|, done)
    ensures done == Walk(a, b)
  {
    assert a[0..] == a && b[0..] == b;
    assert WalkFrom(a, b, |a|, |b|) == [];
  }

  /** Entry (i, j) is the length of a longest common subsequence of the tokens from `i` and from `j` on. */
  ghost predicate IsTable(lcs: array2<nat>, a: seq<Text>, b: seq<Text>)
    reads lcs
  {
    && lcs.Length0 == |a| + 1 && lcs.Length1 == |b| + 1
    && forall i, j :: 0 <= i <= |a| && 0 <= j <= |b| ==> lcs[i, j] == LcsFrom(a, b, i, j)
  }

  lemma LcsOn(a: seq<Text>, b: seq<Text>, i: nat, j: nat)
    requires i <= |a| && j <= |b|
    ensures LcsFrom(a, b, i, j) ==
            if i == |a| || j == |b| then 0
            else if a[i] == b[j] then LcsFrom(a, b, i + 1, j + 1) + 1
            else Max(LcsFrom(a, b, i + 1, j), LcsFrom(a, b, i, j + 1))
  {
    assert i < |a| ==> a[i..][1..] == a[i + 1..];
    assert j < |b| ==> b[j..][1..] == b[j + 1..];
  }

  /** Fill the table from its far corner. */
  method FillTable(a: seq<Text>, b: seq<Text>) returns (lcs: array2<nat>)
    ensures fresh(lcs) && IsTable(lcs, a, b)
  {
    var m, n := |a|, |b|;
    lcs := new nat[m + 1, n + 1]((i, j) => 0);
    forall p, q | 0 <= p <= m && 0 <= q <= n && (p == m || q == n)
      ensures lcs[p, q] == LcsFrom(a, b, p, q)
    {
      LcsOn(a, b, p, q);
    }
    var i := m - 1;
    while i >= 0
      invariant -1 <= i <= m - 1
      invariant forall p, q :: 0 <= p <= m && 0 <= q <= n && (i < p || q == n) ==> lcs[p, q] == LcsFrom(a, b, p, q)
    {
      var j := n - 1;
      while j >= 0
        invariant -1 <= j <= n - 1
        invariant forall p, q :: 0 <= p <= m && 0 <= q <= n && (i < p || q == n || (p == i && j < q)) ==>
                    lcs[p, q] == LcsFrom(a, b, p, q)
      {
        LcsOn(a, b, i, j);
        lcs[i, j] := if a[i] == b[j] then lcs[i + 1, j + 1] + 1 else Max(lcs[i + 1, j], lcs[i, j + 1]);
        j := j - 1;
      }
      i := i - 1;
    }
  }

  lemma StepRemoved(a: seq<Text>, b: seq<Text>, i: nat, j: nat, done: seq<DiffToken>)
    requires WalkedTo(a, b, i, j, done) && i < |a|
    requires j == |b| || (a[i] != b[j] && LcsFrom(a, b, i + 1, j) >= LcsFrom(a, b, i, j + 1))
    ensures WalkedTo(a, b, i + 1, j, done + [DiffToken(Removed, a[i])])
  {
    WalkOn(a, b, i, j, done);
  }

  lemma StepAdded(a: seq<Text>, b: seq<Text>, i: nat, j: nat, done: seq<DiffToken>)
    requires WalkedTo(a, b, i, j, done) && j < |b|
    requires i == |a| || (a[i] != b[j] && LcsFrom(a, b, i + 1, j) < LcsFrom(a, b, i, j + 1))
    ensures WalkedTo(a, b, i, j + 1, done + [DiffToken(Added, b[j])])
  {
    WalkOn(a, b, i, j, done);
  }

  lemma StepUnchanged(a: seq<Text>, b: seq<Text>, i: nat, j: nat, done: seq<DiffToken>)
    requires WalkedTo(a, b, i, j, done) && i < |a| && j < |b| && a[i] == b[j]
    ensures WalkedTo(a, b, i + 1, j + 1, done + [DiffToken(Unchanged, a[i])])
  {
    WalkOn(a, b, i, j, done);
  }

  method DiffTokens(a: seq<Text>, b: seq<Text>) returns (result: seq<DiffToken>)
    ensures result == Walk(a, b)
  {
    var lcs := FillTable(a, b);
    result := [];
    WalkStarts(a, b);
    var i, j := 0, 0;
    while i < |a| && j < |b|
      invariant IsTable(lcs, a, b) && WalkedTo(a, b, i, j, result)
      decreases |a| - i + |b| - j
    {
      if a[i] == b[j] {
        StepUnchanged(a, b, i, j, result);
        result := result + [DiffToken(Unchanged, a[i])];
        i, j := i + 1, j + 1;
      } else if lcs[i + 1, j] >= lcs[i, j + 1] {
        StepRemoved(a, b, i, j, result);
        result := result + [DiffToken(Removed, a[i])];
        i := i + 1;
      } else {
        StepAdded(a, b, i, j, result);
        result := result + [DiffToken(Added, b[j])];
        j := j + 1;
      }
    }
    while i < |a|
      invariant WalkedTo(a, b, i, j, result) && (i == |a| || j == |b|)
    {
      StepRemoved(a, b, i, j, result);
      result := result + [DiffToken(Removed, a[i])];
      i := i + 1;
    }
    while j < |b|
      invariant WalkedTo(a, b, i, j, result) && i == |a|
    {
      StepAdded(a, b, i, j, result);
      result := result + [DiffToken(Added, b[j])];
      j := j + 1;
    }
    WalkEnds(a, b, result);
  }

  method MergeRuns(tokens: seq<DiffToken>) returns (runs: seq<DiffToken>)
    ensures runs == MergeAll(tokens)
  {
    runs := [];
    for i := 0 to |tokens|
      invariant runs == MergeAll(tokens[..i])
    {
      assert tokens[..i + 1][..i] == tokens[..i];
      var token := tokens[i];
      if runs != [] && runs[|runs| - 1].kind == token.kind {
        var last := runs[|runs| - 1];
        runs := runs[|runs| - 1 := last.(text := last.text + token.text)];
      } else {
        runs := runs + [token];
      }
    }
    assert tokens[..|tokens|] == tokens;
  }

  /** Both texts can be read off the runs, which are maximal and show a change just when there is one. */
  ghost predicate ReadsBack(runs: seq<DiffToken>, oldText: Text, newText: Text) {
    && Concat(Without(runs, Added)) == oldText
    && Concat(Without(runs, Removed)) == newText
    && Separated(runs)
    && (oldText == newText <==> forall i :: 0 <= i < |runs| ==> runs[i].kind == Unchanged)
  }

  function WholeText(kind: Kind, t: Text): seq<DiffToken> {
    if t == [] then [] else [DiffToken(kind, t)]
  }

  lemma WithoutWhole(kind: Kind, t: Text, skip: Kind)
    ensures Concat(Without(WholeText(kind, t), skip)) == if kind == skip then [] else t
  {
    if t != [] {
      WithoutOne(DiffToken(kind, t), skip);
    }
  }

  lemma ReplacedReadsBack(oldText: Text, newText: Text)
    requires oldText != newText
    ensures ReadsBack(WholeText(Removed, oldText) + WholeText(Added, newText), oldText, newText)
  {
    var removed, added := WholeText(Removed, oldText), WholeText(Added, newText);
    forall skip
      ensures Concat(Without(removed + added, skip))
              == (if skip == Removed then [] else oldText) + (if skip == Added then [] else newText)
    {
      WithoutAppend(removed, added, skip);
      ConcatAppend(Without(removed, skip), Without(added, skip));
      WithoutWhole(Removed, oldText, skip);
      WithoutWhole(Added, newText, skip);
    }
    assert oldText + [] == oldText && [] + newText == newText;
    assert (removed + added)[0].kind != Unchanged;
  }

  lemma ScriptReadsBack(oldText: Text, newText: Text)
    requires oldText != newText
    ensures ReadsBack(MergeAll(Walk(Tokenize(oldText), Tokenize(newText))), oldText, newText)
  {
    var oldTokens, newTokens := Tokenize(oldText), Tokenize(newText);
    var script := Walk(oldTokens, newTokens);
    TokenizeShape(oldText);
    TokenizeShape(newText);
    WalkSides(oldTokens, newTokens);
    WalkTokensAreTokens(oldTokens, newTokens);
    MergeAllShape(script, Added);
    MergeAllShape(script, Removed);
    if forall i :: 0 <= i < |MergeAll(script)| ==> MergeAll(script)[i].kind == Unchanged {
      UnchangedSides(MergeAll(script));
    }
  }

  /** Small enough for the table. */
  predicate WithinCap(oldText: Text, newText: Text) {
    (|Tokenize(oldText)| + 1) * (|Tokenize(newText)| + 1) <= MAX_CELLS
  }

  /** The runs shown for two texts. */
  function Diffed(oldText: Text, newText: Text): seq<DiffToken> {
    if oldText == newText then WholeText(Unchanged, oldText)
    else if WithinCap(oldText, newText) then MergeAll(Walk(Tokenize(oldText), Tokenize(newText)))
    else WholeText(Removed, oldText) + WholeText(Added, newText)
  }

  /**
   Both texts can be read back from the runs, whichever branch made them; below the cap the runs are
   those of a script keeping as many tokens as any common subsequence has.
   */
  method DiffWords(oldText: Text, newText: Text) returns (runs: seq<DiffToken>)
    ensures runs == Diffed(oldText, newText) && ReadsBack(runs, oldText, newText)
    ensures oldText != newText && WithinCap(oldText, newText) ==>
              && runs == MergeAll(Walk(Tokenize(oldText), Tokenize(newText)))
              && Optimal(Walk(Tokenize(oldText), Tokenize(newText)), Tokenize(oldText), Tokenize(newText))
    ensures oldText != newText && !WithinCap(oldText, newText) ==>
              forall i :: 0 <= i < |runs| ==> runs[i].kind != Unchanged
  {
    if oldText == newText {
      runs := if oldText == [] then [] else [DiffToken(Unchanged, oldText)];
      WithoutWhole(Unchanged, oldText, Added);
      WithoutWhole(Unchanged, oldText, Removed);
      return;
    }
    var oldTokens, newTokens := Tokenize(oldText), Tokenize(newText);
    if (|oldTokens| + 1) * (|newTokens| + 1) > MAX_CELLS {
      ReplacedReadsBack(oldText, newText);
      var removed := if oldText == [] then [] else [DiffToken(Removed, oldText)];
      var added := if newText == [] then [] else [DiffToken(Added, newText)];
      return removed + added;
    }
    var script := DiffTokens(oldTokens, newTokens);
    runs := MergeRuns(script);
    WalkIsOptimal(oldTokens, newTokens);
    ScriptReadsBack(oldText, newText);
  }

  lemma {:induction false} UnchangedSides(runs: seq<DiffToken>)
    requires forall i :: 0 <= i < |runs| ==> runs[i].kind == Unchanged
    ensures Without(runs, Added) == Without(runs, Removed)
  {
    if runs == [] {
    } else {
      UnchangedSides(runs[1..]);
    }
  }
}
