/** What is left of a heading once list numbering, accents and punctuation are taken out. */
module Headings {
  import opened JsText

  const MAX_WORDS := 90
  const SPACE: CodeUnit := 32

  predicate IsMark(u: CodeUnit) {
    0x300 <= u <= 0x36F || u == 39 || u == 0x2019
  }

  predicate IsDigit(u: CodeUnit) {
    '0' as int <= u <= '9' as int
  }

  predicate IsKept(u: CodeUnit) {
    || IsDigit(u) || 'A' as int <= u <= 'Z' as int || 'a' as int <= u <= 'z' as int
    || u == '_' as int || u == '-' as int || u == SPACE
  }

  /** The classes of units that the clean-up takes runs of. */
  datatype Class = White | Digits | Unkept

  predicate In(u: CodeUnit, c: Class) {
    match c
    case White => IsSpace(u)
    case Digits => IsDigit(u)
    case Unkept => !IsKept(u)
  }

  function WithoutMarks(t: Text): Text {
    if t == [] then [] else (if IsMark(t[0]) then [] else [t[0]]) + WithoutMarks(t[1..])
  }

  /** `t` from its first unit that `skip` does not hold of. */
  function After(t: Text, skip: Class): Text {
    if t != [] && In(t[0], skip) then After(t[1..], skip) else t
  }

  /** A number with a dot or parenthesis at the start goes, and white space around it. */
  function WithoutNumber(t: Text): Text {
    var number := TrimStart(t);
    var rest := After(number, Digits);
    if |rest| < |number| && rest != [] && (rest[0] == '.' as int || rest[0] == ')' as int)
        then TrimStart(rest[1..]) else t
  }

  /** Each run of units that `run` holds of becomes one space. */
  function Squeezed(t: Text, run: Class): Text
    decreases |t|
  {
    if t == [] then [] else
    if In(t[0], run) then AfterShrinks(t[1..], run); [SPACE] + Squeezed(After(t[1..], run), run)
    else [t[0]] + Squeezed(t[1..], run)
  }

  lemma AfterShrinks(t: Text, skip: Class)
    ensures |After(t, skip)| <= |t|
    ensures After(t, skip) == t[|t| - |After(t, skip)|..]
    ensures After(t, skip) != [] ==> !In(After(t, skip)[0], skip)
  {
  }

  function Slice(t: Text, end: nat): Text {
    if end <= |t| then t[..end] else t
  }

  function WordUnits(normalized: Text): Text {
    var plain := Squeezed(WithoutNumber(WithoutMarks(normalized)), Unkept);
    Trim(Slice(Trim(Squeezed(plain, White)), MAX_WORDS))
  }

  // ----- what it looks like -----

  ghost predicate AllKept(t: Text) {
    forall i :: 0 <= i < |t| ==> IsKept(t[i])
  }

  ghost predicate NoDoubleSpace(t: Text) {
    forall i :: 0 < i < |t| ==> t[i - 1] != SPACE || t[i] != SPACE
  }

  lemma {:induction false} SqueezedAreKept(t: Text)
    ensures AllKept(Squeezed(t, Unkept))
    decreases |t|
  {
    if t == [] {
    } else if In(t[0], Unkept) {
      AfterShrinks(t[1..], Unkept);
      SqueezedAreKept(After(t[1..], Unkept));
    } else {
      SqueezedAreKept(t[1..]);
    }
  }

  lemma {:induction false} SqueezedSpaces(t: Text)
    requires AllKept(t)
    ensures var s := Squeezed(t, White);
            && AllKept(s) && NoDoubleSpace(s)
            && (s != [] ==> t != [] && (s[0] == SPACE <==> t[0] == SPACE))
    decreases |t|
  {
    if t == [] {
    } else if IsSpace(t[0]) {
      AfterShrinks(t[1..], White);
      SqueezedSpaces(After(t[1..], White));
    } else {
      SqueezedSpaces(t[1..]);
    }
  }

  lemma TrimIsPart(t: Text)
    requires AllKept(t) && NoDoubleSpace(t)
    ensures AllKept(Trim(t)) && NoDoubleSpace(Trim(t)) && |Trim(t)| <= |t|
    ensures Trim(t) != [] ==> Trim(t)[0] != SPACE && Trim(t)[|Trim(t)| - 1] != SPACE
  {
    var from := TrimStart(t);
    TrimStartIsSuffix(t);
    PartIsClean(t, |t| - |from|, |t|);
    TrimEndIsPrefix(from);
    PartIsClean(from, 0, |Trim(t)|);
  }

  lemma PartIsClean(t: Text, from: nat, to: nat)
    requires from <= to <= |t| && AllKept(t) && NoDoubleSpace(t)
    ensures AllKept(t[from..to]) && NoDoubleSpace(t[from..to])
  {
    forall i | 0 < i < to - from
      ensures t[from..to][i - 1] != SPACE || t[from..to][i] != SPACE
    {
      assert t[from + i - 1] != SPACE || t[from + i] != SPACE;
    }
  }

  /** Only letters, digits, underscores, hyphens and single inner spaces are left, 90 of them at most. */
  lemma WordsAreClean(normalized: Text)
    ensures var words := WordUnits(normalized);
            && AllKept(words) && NoDoubleSpace(words) && |words| <= MAX_WORDS
            && (words != [] ==> words[0] != SPACE && words[|words| - 1] != SPACE)
  {
    var plain := Squeezed(WithoutNumber(WithoutMarks(normalized)), Unkept);
    SqueezedAreKept(WithoutNumber(WithoutMarks(normalized)));
    SqueezedSpaces(plain);
    TrimIsPart(Squeezed(plain, White));
    TrimIsPart(Slice(Trim(Squeezed(plain, White)), MAX_WORDS));
  }

  // ----- headings that are names already -----

  /** Runs of that class are single spaces. */
  ghost predicate SingleSpaces(t: Text, run: Class) {
    && (forall i :: 0 <= i < |t| && In(t[i], run) ==> t[i] == SPACE)
    && (forall i :: 0 < i < |t| ==> !In(t[i - 1], run) || !In(t[i], run))
  }

  lemma {:induction false} NothingToSqueeze(t: Text, run: Class)
    requires SingleSpaces(t, run)
    ensures Squeezed(t, run) == t
    decreases |t|
  {
    if t == [] {
    } else {
      var rest := t[1..];
      assert SingleSpaces(rest, run) by {
        assert forall i :: 0 <= i < |rest| ==> rest[i] == t[i + 1];
        forall i | 0 < i < |rest|
          ensures !In(rest[i - 1], run) || !In(rest[i], run)
        {
          var j := i + 1;
          assert !In(t[j - 1], run) || !In(t[j], run);
        }
      }
      NothingToSqueeze(rest, run);
      assert rest == [] || !In(t[1 - 1], run) || !In(t[1], run);
      assert In(t[0], run) ==> After(rest, run) == rest;
    }
  }

  lemma {:induction false} NoMarks(t: Text)
    requires AllKept(t)
    ensures WithoutMarks(t) == t
  {
    if t == [] {
    } else {
      assert IsKept(t[0]);
      NoMarks(t[1..]);
    }
  }

  lemma SpacesAreSingle(t: Text)
    requires AllKept(t) && NoDoubleSpace(t)
    ensures Squeezed(t, Unkept) == t && Squeezed(t, White) == t
  {
    assert forall i :: 0 <= i < |t| ==> IsKept(t[i]);
    NothingToSqueeze(t, Unkept);
    NothingToSqueeze(t, White);
  }

  /** Digits alone are no numbering, and stay. */
  lemma DigitsStay(t: Text)
    requires t != [] && |t| <= MAX_WORDS && forall i :: 0 <= i < |t| ==> IsDigit(t[i])
    ensures WordUnits(t) == t
  {
    assert AllKept(t) && NoDoubleSpace(t);
    NoMarks(t);
    AllDigits(t);
    SpacesAreSingle(t);
    TrimKeeps(t);
  }

  lemma {:induction false} AllDigits(t: Text)
    requires forall i :: 0 <= i < |t| ==> IsDigit(t[i])
    ensures After(t, Digits) == []
  {
    if t == [] {
    } else {
      AllDigits(t[1..]);
    }
  }

  /** A name of any length is cut after 90 units, and then trimmed. */
  lemma WordsOfLongName(t: Text)
    requires IsName(t) && !IsDigit(t[0])
    ensures WordUnits(t) == Trim(if |t| <= 90 then t else t[..90])
  {
    NoMarks(t);
    NameEnds(t);
    NotNumbered(t, t[0]);
    SpacesAreSingle(t);
    TrimKeeps(t);
    assert WordUnits(t) == Trim(Slice(Trim(Squeezed(t, White)), MAX_WORDS));
  }

  lemma NotNumbered(t: Text, first: CodeUnit)
    requires t != [] && t[0] == first && !IsSpace(first) && !IsDigit(first)
    ensures WithoutNumber(t) == t
  {
  }

  /** Letters, digits, underscores, hyphens and single spaces, none at the ends. */
  ghost predicate IsName(t: Text) {
    t != [] && AllKept(t) && NoDoubleSpace(t) && t[0] != SPACE && t[|t| - 1] != SPACE
  }

  /** A heading that is a name already, and not too long, is left alone. */
  lemma WordsOfName(t: Text)
    requires IsName(t) && |t| <= 90 && !IsDigit(t[0])
    ensures WordUnits(t) == t
  {
    WordsOfLongName(t);
    NameEnds(t);
    TrimKeeps(t);
  }

  lemma NameEnds(t: Text)
    requires IsName(t)
    ensures !IsSpace(t[0]) && !IsSpace(t[|t| - 1])
  {
    assert IsKept(t[0]) && IsKept(t[|t| - 1]);
  }

  // ----- what is taken out -----

  /** The characters of each class, by their codes. */
  lemma ClassesExactly(u: CodeUnit)
    ensures In(u, Digits) <==> 0x30 <= u <= 0x39
    ensures In(u, Unkept) <==> !(0x30 <= u <= 0x39 || 0x41 <= u <= 0x5A || 0x61 <= u <= 0x7A || u in {0x5F, 0x2D, 0x20})
    ensures In(u, White) <==> IsSpace(u)
  {
  }

  /** A combining accent (U+0300 to U+036F), an apostrophe or a right single quotation mark. */
  ghost predicate IsAccent(u: CodeUnit) {
    768 <= u < 880 || u == '\'' as int || u == 0x2019
  }

  lemma {:induction false} MarksOut(a: Text, b: Text)
    ensures WithoutMarks(a + b) == WithoutMarks(a) + WithoutMarks(b)
  {
    if a == [] {
      assert a + b == b;
    } else {
      MarksOut(a[1..], b);
      assert (a + b)[0] == a[0] && (a + b)[1..] == a[1..] + b;
      Associative(if IsMark(a[0]) then [] else [a[0]], WithoutMarks(a[1..]), WithoutMarks(b));
    }
  }

  /** Accents and apostrophes leave no trace, wherever they stand. */
  lemma AccentsVanish(a: Text, mark: CodeUnit, b: Text)
    requires IsAccent(mark)
    ensures WordUnits(a + [mark] + b) == WordUnits(a + b)
  {
    MarksOut(a + [mark], b);
    MarksOut(a, [mark]);
    MarksOut(a, b);
    assert WithoutMarks([mark]) == [] + WithoutMarks([mark][1..]) == [];
    assert WithoutMarks(a) + [] == WithoutMarks(a);
  }

  ghost predicate AllIn(t: Text, c: Class) {
    forall i :: 0 <= i < |t| ==> In(t[i], c)
  }

  lemma {:induction false} AfterRun(a: Text, b: Text, skip: Class)
    requires AllIn(a, skip) && (b == [] || !In(b[0], skip))
    ensures After(a + b, skip) == b
  {
    if a == [] {
      assert a + b == b;
    } else {
      assert (a + b)[0] == a[0] && (a + b)[1..] == a[1..] + b;
      AfterRun(a[1..], b, skip);
    }
  }

  lemma {:induction false} TrimStartRun(a: Text, b: Text)
    requires AllSpaces(a) && (b == [] || !IsSpace(b[0]))
    ensures TrimStart(a + b) == b
  {
    if a == [] {
      assert a + b == b;
    } else {
      assert (a + b)[0] == a[0] && (a + b)[1..] == a[1..] + b;
      TrimStartRun(a[1..], b);
    }
  }

  /** White space, a number, a dot or a closing parenthesis, and white space again. */
  ghost predicate IsNumbering(t: Text) {
    exists before: Text, digits: Text, dot: CodeUnit, after: Text ::
      AllSpaces(before) && digits != [] && AllIn(digits, Digits) && dot in {46, 41} && AllSpaces(after)
      && t == before + digits + [dot] + after
  }

  lemma NumberOut(before: Text, digits: Text, dot: CodeUnit, after: Text, name: Text)
    requires AllSpaces(before) && digits != [] && AllIn(digits, Digits) && dot in {46, 41} && AllSpaces(after)
    requires name != [] && !IsSpace(name[0])
    ensures WithoutNumber(before + (digits + ([dot] + (after + name)))) == name
  {
    var rest := [dot] + (after + name);
    assert IsDigit(digits[0]) && !IsSpace((digits + rest)[0]) by {
      assert (digits + rest)[0] == digits[0] && In(digits[0], Digits);
    }
    TrimStartRun(before, digits + rest);
    AfterRun(digits, rest, Digits);
    TrimStartRun(after, name);
    assert rest[1..] == after + name;
  }

  lemma {:induction false} NoMarksIn(t: Text)
    requires forall i :: 0 <= i < |t| ==> !IsMark(t[i])
    ensures WithoutMarks(t) == t
  {
    if t == [] {
    } else {
      NoMarksIn(t[1..]);
    }
  }

  /** The clean-up step by step. */
  lemma WordUnitsOf(t: Text, unmarked: Text, unnumbered: Text, plain: Text)
    requires WithoutMarks(t) == unmarked && WithoutNumber(unmarked) == unnumbered
    requires Squeezed(unnumbered, Unkept) == plain && IsName(plain) && |plain| <= MAX_WORDS
    ensures WordUnits(t) == plain
  {
    NameEnds(plain);
    SpacesAreSingle(plain);
    TrimKeeps(plain);
  }

  lemma NumberingIsUnmarked(before: Text, digits: Text, dot: CodeUnit, after: Text)
    requires AllSpaces(before) && AllIn(digits, Digits) && dot in {46, 41} && AllSpaces(after)
    ensures var t := before + digits + [dot] + after; WithoutMarks(t) == t
  {
    var t, d, e := before + digits + [dot] + after, |before|, |before| + |digits|;
    forall i | 0 <= i < |t|
      ensures !IsMark(t[i])
    {
      assert i < d ==> t[i] == before[i];
      assert d <= i < e ==> t[i] == digits[i - d] && In(digits[i - d], Digits);
      assert e < i ==> t[i] == after[i - e - 1];
    }
    NoMarksIn(t);
  }

  lemma Regroup(before: Text, digits: Text, dot: Text, after: Text, name: Text)
    ensures before + digits + dot + after + name == before + (digits + (dot + (after + name)))
  {
    Associative(before + digits + dot, after, name);
    Associative(before + digits, dot, after + name);
    Associative(before, digits, dot + (after + name));
  }

  lemma NumberGoes(before: Text, digits: Text, dot: CodeUnit, after: Text, name: Text)
    requires AllSpaces(before) && digits != [] && AllIn(digits, Digits) && dot in {46, 41} && AllSpaces(after)
    requires IsName(name) && |name| <= MAX_WORDS
    ensures WordUnits(before + digits + [dot] + after + name) == name
  {
    var numbering := before + digits + [dot] + after;
    NameEnds(name);
    MarksOut(numbering, name);
    NoMarks(name);
    NumberingIsUnmarked(before, digits, dot, after);
    Regroup(before, digits, [dot], after, name);
    NumberOut(before, digits, dot, after, name);
    SpacesAreSingle(name);
    WordUnitsOf(numbering + name, numbering + name, name, name);
  }

  /** List numbering before a name goes: `1. Role` and ` 2)Role` are `Role`. */
  lemma NumberingGoes(numbering: Text, name: Text)
    requires IsNumbering(numbering) && IsName(name) && |name| <= 90
    ensures WordUnits(numbering + name) == name
  {
    var before: Text, digits: Text, dot: CodeUnit, after: Text :|
      AllSpaces(before) && digits != [] && AllIn(digits, Digits) && dot in {46, 41} && AllSpaces(after)
      && numbering == before + digits + [dot] + after;
    NumberGoes(before, digits, dot, after, name);
  }

  lemma {:induction false} SqueezeKept(a: Text, b: Text, run: Class)
    requires SingleSpaces(a, run) && a != [] && !In(a[|a| - 1], run)
    ensures Squeezed(a + b, run) == a + Squeezed(b, run)
    decreases |a|
  {
    var rest := a[1..];
    assert (a + b)[0] == a[0] && (a + b)[1..] == rest + b;
    if rest == [] {
      assert rest + b == b && a == [a[0]];
    } else {
      assert SingleSpaces(rest, run) by {
        assert forall i :: 0 <= i < |rest| ==> rest[i] == a[i + 1];
        forall i | 0 < i < |rest|
          ensures !In(rest[i - 1], run) || !In(rest[i], run)
        {
          var j := i + 1;
          assert !In(a[j - 1], run) || !In(a[j], run);
        }
      }
      SqueezeKept(rest, b, run);
      if In(a[0], run) {
        assert !In(a[1 - 1], run) || !In(a[1], run);
        assert (rest + b)[0] == a[1];
        assert After(rest + b, run) == rest + b;
      }
      Associative([a[0]], rest, Squeezed(b, run));
    }
  }

  /** A run of other characters between two names is one space. */
  lemma PunctuationIsSpace(a: Text, other: Text, b: Text)
    requires IsName(a) && !IsDigit(a[0]) && IsName(b) && |a| + 1 + |b| <= 90
    requires other != [] && forall i :: 0 <= i < |other| ==> !IsKept(other[i]) && !IsMark(other[i])
    ensures WordUnits(a + other + b) == a + [SPACE] + b
  {
    var t := a + other + b;
    NameEnds(a);
    MarksOut(a + other, b);
    MarksOut(a, other);
    NoMarks(a);
    NoMarks(b);
    NoMarksIn(other);
    NotNumbered(t, a[0]);
    SqueezeOther(a, other, b);
    JoinedIsName(a, b);
    WordUnitsOf(t, t, t, a + [SPACE] + b);
  }

  lemma JoinedIsName(a: Text, b: Text)
    requires IsName(a) && IsName(b)
    ensures IsName(a + [SPACE] + b)
  {
    var joined := a + [SPACE] + b;
    forall i | 0 <= i < |joined|
      ensures IsKept(joined[i]) && (0 < i ==> joined[i - 1] != SPACE || joined[i] != SPACE)
    {
      assert i < |a| ==> joined[i] == a[i];
      assert |a| < i ==> joined[i] == b[i - |a| - 1];
      assert 0 < i < |a| ==> joined[i - 1] == a[i - 1];
      assert |a| + 1 < i ==> joined[i - 1] == b[i - |a| - 2];
    }
  }

  lemma SqueezeOther(a: Text, other: Text, b: Text)
    requires IsName(a) && IsName(b) && other != [] && forall i :: 0 <= i < |other| ==> !IsKept(other[i])
    ensures Squeezed(a + other + b, Unkept) == a + [SPACE] + b
  {
    assert forall i :: 0 <= i < |a| ==> IsKept(a[i]);
    assert forall i :: 0 <= i < |b| ==> IsKept(b[i]);
    Associative(a, other, b);
    SqueezeKept(a, other + b, Unkept);
    assert (other + b)[0] == other[0] && (other + b)[1..] == other[1..] + b;
    AfterRun(other[1..], b, Unkept);
    SpacesAreSingle(b);
    Associative(a, [SPACE], b);
  }

  // ----- as the server's characters -----

  function Chars(t: Text): string
    requires AllKept(t)
  {
    seq(|t|, i requires 0 <= i < |t| => t[i] as char)
  }

  function Words(normalized: Text): string {
    WordsAreClean(normalized);
    Chars(WordUnits(normalized))
  }
}
