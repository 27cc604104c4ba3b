/** JavaScript strings: sequences of 16-bit code units, which need not pair up their surrogates. */
module JsText {

  type CodeUnit = u: int | 0 <= u < 0x1_0000

  type Text = seq<CodeUnit>

  const NEWLINE: CodeUnit := 10
  const RETURN: CodeUnit := 13
  const QUOTE: CodeUnit := 34
  const COMMA: CodeUnit := 44
  const OPEN_BRACE: CodeUnit := 123
  const CLOSE_BRACE: CodeUnit := 125

  /** The characters `\s` matches and `trim` removes. */
  predicate IsSpace(u: CodeUnit) {
    || 9 <= u <= 13 || u == 0x20 || u == 0xA0 || u == 0x1680 || 0x2000 <= u <= 0x200A
    || u == 0x2028 || u == 0x2029 || u == 0x202F || u == 0x205F || u == 0x3000 || u == 0xFEFF
  }

  /** Category Zs of Unicode, and what else ECMAScript calls white space: tab, form feeds and the byte order mark. */
  predicate IsWhiteSpace(u: CodeUnit) {
    || u == 0x20 || u == 0xA0 || u == 0x1680 || (0x2000 <= u && u <= 0x200A) || u == 0x202F || u == 0x205F
    || u == 0x3000 || u == 0x09 || u == 0x0B || u == 0x0C || u == 0xFEFF
  }

  predicate IsLineTerminator(u: CodeUnit) {
    u == 0x0A || u == 0x0D || u == 0x2028 || u == 0x2029
  }

  /** Sections 12.2 and 12.3 of ECMA-262 make up `\s`. */
  lemma SpacesAreWhite(u: CodeUnit)
    ensures IsSpace(u) <==> IsWhiteSpace(u) || IsLineTerminator(u)
  {
  }

  predicate IsHighSurrogate(u: CodeUnit) {
    0xD800 <= u < 0xDC00
  }

  predicate IsLowSurrogate(u: CodeUnit) {
    0xDC00 <= u < 0xE000
  }

  /** The two halves of the surrogate area, 1,024 units each (section 3.8 of the Unicode Standard). */
  lemma SurrogatesExactly(u: CodeUnit)
    ensures IsHighSurrogate(u) <==> u / 0x400 == 0x36
    ensures IsLowSurrogate(u) <==> u / 0x400 == 0x37
  {
  }

  /** Each high surrogate is followed by a low one and each low one preceded by a high one. */
  ghost predicate WellFormed(t: Text) {
    && (forall i :: 0 <= i < |t| && IsHighSurrogate(t[i]) ==> i + 1 < |t| && IsLowSurrogate(t[i + 1]))
    && (forall i :: 0 <= i < |t| && IsLowSurrogate(t[i]) ==> 0 < i && IsHighSurrogate(t[i - 1]))
  }

  /** There is more to it than white space. */
  ghost predicate HasText(t: Text) {
    exists i :: 0 <= i < |t| && !IsSpace(t[i])
  }

  function TrimStart(t: Text): Text {
    if t != [] && IsSpace(t[0]) then TrimStart(t[1..]) else t
  }

  function TrimEnd(t: Text): Text {
    if t != [] && IsSpace(t[|t| - 1]) then TrimEnd(t[..|t| - 1]) else t
  }

  function Trim(t: Text): Text {
    TrimEnd(TrimStart(t))
  }

  lemma {:induction false} TrimStartIsSuffix(t: Text)
    ensures |TrimStart(t)| <= |t| && TrimStart(t) == t[|t| - |TrimStart(t)|..]
    ensures TrimStart(t) != [] ==> !IsSpace(TrimStart(t)[0])
  {
    if t == [] {
    } else {
      TrimStartIsSuffix(t[1..]);
    }
  }

  lemma {:induction false} TrimEndIsPrefix(t: Text)
    ensures TrimEnd(t) <= t
    ensures TrimEnd(t) != [] ==> !IsSpace(TrimEnd(t)[|TrimEnd(t)| - 1])
  {
    if t == [] {
    } else {
      TrimEndIsPrefix(t[..|t| - 1]);
    }
  }

  ghost predicate AllSpaces(t: Text) {
    forall i :: 0 <= i < |t| ==> IsSpace(t[i])
  }

  lemma {:induction false} TrimStartCuts(t: Text)
    ensures |TrimStart(t)| <= |t| && AllSpaces(t[..|t| - |TrimStart(t)|])
  {
    TrimStartIsSuffix(t);
    if t == [] || !IsSpace(t[0]) {
    } else {
      TrimStartIsSuffix(t[1..]);
      TrimStartCuts(t[1..]);
      var n := |t| - |TrimStart(t)|;
      assert forall i :: 0 < i < n ==> t[i] == t[1..][..n - 1][i - 1];
    }
  }

  lemma {:induction false} TrimEndCuts(t: Text)
    ensures |TrimEnd(t)| <= |t| && AllSpaces(t[|TrimEnd(t)|..])
  {
    TrimEndIsPrefix(t);
    if t == [] || !IsSpace(t[|t| - 1]) {
    } else {
      var front, n := t[..|t| - 1], |TrimEnd(t)|;
      TrimEndCuts(front);
      assert forall i :: n <= i < |t| - 1 ==> t[i] == front[n..][i - n];
    }
  }

  /** Trimming cuts white space off at both ends, and all there is. */
  lemma TrimExactly(t: Text)
    ensures exists before, after :: AllSpaces(before) && AllSpaces(after) && t == before + Trim(t) + after
    ensures Trim(t) != [] ==> !IsSpace(Trim(t)[0]) && !IsSpace(Trim(t)[|Trim(t)| - 1])
  {
    var rest := TrimStart(t);
    TrimStartIsSuffix(t);
    TrimStartCuts(t);
    TrimEndIsPrefix(rest);
    TrimEndCuts(rest);
    var before, after := t[..|t| - |rest|], rest[|Trim(t)|..];
    assert t == before + Trim(t) + after;
  }

  lemma TrimKeeps(t: Text)
    requires t == [] || (!IsSpace(t[0]) && !IsSpace(t[|t| - 1]))
    ensures Trim(t) == t
  {
  }

  function Concat(parts: seq<Text>): Text {
    if parts == [] then [] else parts[0] + Concat(parts[1..])
  }

  lemma Associative<T>(a: seq<T>, b: seq<T>, c: seq<T>)
    ensures a + b + c == a + (b + c)
  {
  }

  lemma {:induction false} ConcatAppend(parts: seq<Text>, more: seq<Text>)
    ensures Concat(parts + more) == Concat(parts) + Concat(more)
  {
    if parts == [] {
      assert parts + more == more;
    } else {
      ConcatAppend(parts[1..], more);
      assert (parts + more)[0] == parts[0] && (parts + more)[1..] == parts[1..] + more;
      Associative(parts[0], Concat(parts[1..]), Concat(more));
    }
  }

  lemma ConcatOne(part: Text)
    ensures Concat([part]) == part
  {
    assert Concat([part]) == part + Concat([]);
  }
}
