/** Naming the sections of an imported prompt, so that every section has its own tag. */
module SectionNames {
  import opened Headings
  import opened JsText
  import opened Numerals
  import opened TextSplitter
  import Sections

  const MAX_NAME := 100

  ghost predicate Cleaned(words: string) {
    && |words| <= MAX_WORDS
    && (forall i :: 0 <= i < |words| ==> Sections.IsTagChar(words[i]) || words[i] == ' ')
    && SingleSpaced(words)
  }

  /** Spaces only between words, one at a time. */
  ghost predicate SingleSpaced(words: string) {
    && (words != "" ==> words[0] != ' ' && words[|words| - 1] != ' ')
    && (forall i :: 0 < i < |words| ==> words[i - 1] != ' ' || words[i] != ' ')
  }

  function TagChar(c: char): char {
    if c == ' ' then '_' else Sections.UpperChar(c)
  }

  function Tag(name: string): string {
    seq(|name|, i requires 0 <= i < |name| => TagChar(name[i]))
  }

  function Base(words: string): string {
    if words == "" then "Section" else if Sections.IsTagStart(words[0]) then words else "Section " + words
  }

  function Candidate(base: string, n: nat): string {
    if n <= 1 then base else base + " " + Decimal(n)
  }

  /** The words with "Section" before them when no letter or underscore starts them, and the number from 2 on. */
  lemma CandidateExactly(words: string, n: nat)
    requires 1 <= n
    ensures exists start, number ::
              && Candidate(Base(words), n) == start + number
              && (if words == "" then start == "Section"
                  else if 'A' <= words[0] <= 'Z' || 'a' <= words[0] <= 'z' || words[0] == '_' then start == words
                  else start == "Section " + words)
              && (if n == 1 then number == ""
                  else number != "" && number[0] == ' '
                       && (forall i :: 1 <= i < |number| ==> Numerals.IsDigit(number[i])) && Value(number[1..]) == n)
  {
    DecimalStandsFor(n);
    var number := if n == 1 then "" else " " + Decimal(n);
    assert n != 1 ==> number[1..] == Decimal(n);
    assert Candidate(Base(words), n) == Base(words) + number;
  }

  /** Upper-casing leaves the number at the end readable. */
  lemma NumberInTag(base: string, n: nat)
    requires 1 < n
    ensures |Tag(Candidate(base, n))| > |base| && Tag(Candidate(base, n))[|base| + 1..] == Decimal(n)
  {
    var d, tag := Decimal(n), Tag(Candidate(base, n));
    forall i | 0 <= i < |d|
      ensures tag[|base| + 1..][i] == d[i]
    {
      assert tag[|base| + 1 + i] == TagChar(d[i]);
    }
  }

  lemma CandidateTags(base: string, m: nat, n: nat)
    requires 1 <= m && 1 <= n && Tag(Candidate(base, m)) == Tag(Candidate(base, n))
    ensures m == n
  {
    assert |Tag(Candidate(base, 1))| == |base|;
    if m != 1 {
      NumberInTag(base, m);
    }
    if n != 1 {
      NumberInTag(base, n);
    }
    if m != 1 && n != 1 {
      DecimalInjective(m, n);
    }
  }

  lemma TakenSoFar(base: string, n: nat, taken: set<string>)
    requires forall k :: 1 <= k <= n ==> Tag(Candidate(base, k)) in taken
    ensures n <= |taken|
  {
    var f := (i: nat) => Tag(Candidate(base, i + 1));
    forall i, j | 0 <= i < j < n
      ensures f(i) != f(j)
    {
      if f(i) == f(j) {
        CandidateTags(base, i + 1, j + 1);
      }
    }
    Pigeonhole(f, n, taken);
  }

  lemma CandidateIsValid(words: string, n: nat)
    requires Cleaned(words)
    ensures Sections.ValidName(Candidate(Base(words), n)) && SingleSpaced(Candidate(Base(words), n))
  {
    var base := Base(words);
    assert Sections.ValidName(base) && SingleSpaced(base);
    if 1 < n {
      var name, d := base + " " + Decimal(n), Decimal(n);
      forall i | 0 <= i < |name|
        ensures Sections.IsTagChar(name[i]) || name[i] == ' '
        ensures 0 < i ==> name[i - 1] != ' ' || name[i] != ' '
      {
        assert |base| < i ==> name[i] == d[i - |base| - 1];
      }
      assert name[|name| - 1] == d[|d| - 1];
    }
  }

  lemma WordsAreCleaned(normalized: Text)
    ensures Cleaned(Words(normalized))
  {
    WordsAreClean(normalized);
    var units := WordUnits(normalized);
    assert forall i :: 0 <= i < |units| ==> IsKept(units[i]);
  }

  /** `n` numbers the first candidate whose tag is not taken. */
  ghost predicate IsFirstFree(base: string, taken: set<string>, n: nat) {
    && 1 <= n && Tag(Candidate(base, n)) !in taken
    && forall k :: 1 <= k < n ==> Tag(Candidate(base, k)) in taken
  }

  lemma FirstFreeInReach(base: string, taken: set<string>, n: nat)
    requires IsFirstFree(base, taken, n)
    ensures n <= |taken| + 1
  {
    TakenSoFar(base, n - 1, taken);
  }

  /** The first candidate whose tag is not taken, whatever the heading; its tag is then taken too. */
  method SectionName(nfkd: Text -> Text, heading: Text, taken: set<string>) returns (name: string, taken': set<string>)
    ensures exists n :: 1 <= n <= |taken| + 1 && IsFirstFree(Base(Words(nfkd(heading))), taken, n)
                        && name == Candidate(Base(Words(nfkd(heading))), n)
    ensures Tag(name) !in taken && taken' == taken + {Tag(name)}
    ensures Sections.ValidName(name) && SingleSpaced(name)
  {
    var words := Words(nfkd(heading));
    var base := Base(words);
    name := base;
    var n := 2;
    while Tag(name) in taken
      invariant 2 <= n <= |taken| + 2 && name == Candidate(base, n - 1)
      invariant forall k :: 1 <= k < n - 1 ==> Tag(Candidate(base, k)) in taken
      decreases |taken| + 2 - n
    {
      TakenSoFar(base, n - 1, taken);
      name := base + " " + Decimal(n);
      n := n + 1;
    }
    WordsAreCleaned(nfkd(heading));
    CandidateIsValid(words, n - 1);
    assert IsFirstFree(base, taken, n - 1);
    taken' := taken + {Tag(name)};
  }

  // ----- the API's limit of 100 characters -----

  /** The number still fits behind the base. */
  predicate HasRoom(base: string, n: nat) {
    n <= 1 || |base| + 1 + |Decimal(n)| <= MAX_NAME
  }

  function FirstTags(base: string, k: nat): set<string> {
    set i | 1 <= i <= k :: Tag(Candidate(base, i))
  }

  lemma {:induction false} FirstTagsBounded(base: string, k: nat)
    ensures |FirstTags(base, k)| <= k
  {
    if k == 0 {
    } else {
      FirstTagsBounded(base, k - 1);
      assert FirstTags(base, k) == FirstTags(base, k - 1) + {Tag(Candidate(base, k))};
    }
  }

  lemma FirstTagsLeaveNext(base: string, k: nat)
    ensures IsFirstFree(base, FirstTags(base, k), k + 1)
  {
    if Tag(Candidate(base, k + 1)) in FirstTags(base, k) {
      var i :| 1 <= i <= k && Tag(Candidate(base, k + 1)) == Tag(Candidate(base, i));
      CandidateTags(base, k + 1, i);
    }
  }

  /**
   With at most `k` tags taken the name is always short enough for the API, if and only if number
   `k + 1` still fits.
   */
  lemma NamesFitExactly(base: string, k: nat)
    requires |base| <= MAX_NAME
    ensures (forall taken, n :: |taken| <= k && IsFirstFree(base, taken, n) ==> |Candidate(base, n)| <= 100)
            <==> HasRoom(base, k + 1)
  {
    if HasRoom(base, k + 1) {
      forall taken, n | |taken| <= k && IsFirstFree(base, taken, n)
        ensures |Candidate(base, n)| <= MAX_NAME
      {
        FitsWithin(base, k, taken, n);
      }
    } else {
      FirstTagsLeaveNext(base, k);
      FirstTagsBounded(base, k);
      assert |Candidate(base, k + 1)| > MAX_NAME;
    }
  }

  lemma FitsWithin(base: string, k: nat, taken: set<string>, n: nat)
    requires |base| <= MAX_NAME && |taken| <= k && IsFirstFree(base, taken, n) && HasRoom(base, k + 1)
    ensures |Candidate(base, n)| <= MAX_NAME
  {
    FirstFreeInReach(base, taken, n);
    DecimalGrows(n, k + 1);
  }

  /** Ten names fit for any heading, and a thousand million for one whose words start with a letter or underscore. */
  lemma RoomForNames(normalized: Text, k: nat)
    ensures var words := Words(normalized);
            && |Base(words)| <= MAX_WORDS + 8
            && (k < 10 ==> HasRoom(Base(words), k))
            && (words != "" && Sections.IsTagStart(words[0]) && k < 1_000_000_000 ==> HasRoom(Base(words), k))
  {
    WordsAreCleaned(normalized);
    if k < 1_000_000_000 {
      assert Pow10(3) == 1_000;
      assert Pow10(6) == 1_000_000;
      assert Pow10(9) == 1_000_000_000;
      DecimalLength(k, 9);
    }
  }

  function Repeated(u: CodeUnit, n: nat): Text {
    seq(n, i => u)
  }

  /** A heading of 90 digits: its tenth section has a name of 101 characters. */
  lemma TenthNameTooLong()
    ensures var base := Base(Words(Repeated('1' as int, MAX_WORDS)));
            && IsFirstFree(base, FirstTags(base, 9), 10)
            && |Candidate(base, 10)| == 101
  {
    var heading := Repeated('1' as int, MAX_WORDS);
    FirstTagsLeaveNext(Base(Words(heading)), 9);
    BaseOfDigits(heading);
    assert |Decimal(10)| == 2;
  }

  lemma BaseOfDigits(heading: Text)
    requires heading != [] && |heading| <= MAX_WORDS && forall i :: 0 <= i < |heading| ==> Headings.IsDigit(heading[i])
    ensures |Base(Words(heading))| == |heading| + 8
  {
    DigitsStay(heading);
    assert Words(heading)[0] == heading[0] as char;
  }

  // ----- the server's tags -----

  function Underscored(s: string): string {
    seq(|s|, i requires 0 <= i < |s| => if s[i] == ' ' then '_' else s[i])
  }

  ghost predicate Spells(s: string) {
    && (forall i :: 0 <= i < |s| ==> Sections.IsTagChar(s[i]) || s[i] == ' ')
    && (s != "" ==> s[|s| - 1] != ' ')
    && (forall i :: 0 < i < |s| ==> s[i - 1] != ' ' || s[i] != ' ')
  }

  lemma {:induction false} JoinedWords(word: string, rest: string)
    requires word != "" && Spells(rest)
    ensures Sections.WordsAfter(word, rest) != []
    ensures Sections.Join(Sections.WordsAfter(word, rest), "_") == word + Underscored(rest)
    decreases |rest|
  {
    if rest == "" {
      assert word + Underscored(rest) == word;
    } else if rest[0] == ' ' {
      var next, more := [rest[1]], rest[2..];
      JoinedWords(next, more);
      assert rest[1..][1..] == more && "" + [rest[1]] == next;
      assert Sections.WordsAfter("", rest[1..]) == Sections.WordsAfter(next, more);
      assert word + "_" + (next + Underscored(more)) == word + Underscored(rest);
    } else {
      JoinedWords(word + [rest[0]], rest[1..]);
      assert word + [rest[0]] + Underscored(rest[1..]) == word + Underscored(rest);
    }
  }

  /** For the names made here, the tag the page computes is the tag the server renders. */
  lemma TagsAgree(name: string)
    requires Sections.ValidName(name) && SingleSpaced(name)
    ensures Sections.Tag(name) == Tag(name)
  {
    JoinedWords("" + [name[0]], name[1..]);
    assert "" + [name[0]] + Underscored(name[1..]) == Underscored(name);
    assert Sections.Upper(Underscored(name)) == Tag(name);
  }

  // ----- splitting a whole prompt -----

  /** A section as imported; its heading is text of any kind. */
  datatype Imported = Imported(heading: Text, content: Text)

  datatype Field = Field(name: string, content: Text)

  datatype Split = Split(parts: seq<Text>, cuts: seq<nat>)

  function TrimmedParts(heading: Text, parts: seq<Text>): seq<Imported> {
    seq(|parts|, i requires 0 <= i < |parts| => Imported(heading, Trim(parts[i])))
  }

  function PiecesOf(section: Imported, split: Split): seq<Imported> {
    if |section.content| <= MAX_SECTION then [section] else TrimmedParts(section.heading, split.parts)
  }

  /** Short sections as they are, long ones as their trimmed parts, all in order. */
  function PiecesFrom(sections: seq<Imported>, splits: seq<Split>): seq<Imported>
    requires |splits| == |sections|
  {
    if sections == [] then [] else
      var last := |sections| - 1;
      PiecesFrom(sections[..last], splits[..last]) + PiecesOf(sections[last], splits[last])
  }

  /** The parts of each long section are those of the text splitter. */
  ghost predicate AllSplit(sections: seq<Imported>, splits: seq<Split>) {
    && |splits| == |sections|
    && forall k :: 0 <= k < |sections| && MAX_SECTION < |sections[k].content| ==>
         IsSplit(sections[k].content, splits[k].parts, splits[k].cuts)
  }

  function TagsOf(named: seq<Field>): set<string> {
    set i | 0 <= i < |named| :: Tag(named[i].name)
  }

  /** Each piece keeps its content and takes the first free name its own heading gives. */
  ghost predicate NamedInOrder(nfkd: Text -> Text, pieces: seq<Imported>, named: seq<Field>) {
    && |named| == |pieces|
    && (forall i :: 0 <= i < |named| ==> named[i].content == pieces[i].content)
    && (forall i :: 0 <= i < |named| ==> TakesFirstFree(nfkd, pieces[i].heading, TagsOf(named[..i]), named[i].name))
  }

  ghost predicate TakesFirstFree(nfkd: Text -> Text, heading: Text, taken: set<string>, name: string) {
    exists n :: IsFirstFree(Base(Words(nfkd(heading))), taken, n) && name == Candidate(Base(Words(nfkd(heading))), n)
  }

  /** Names the API's pattern accepts, each with its own tag. */
  ghost predicate NamedApart(named: seq<Field>) {
    && (forall i :: 0 <= i < |named| ==> Sections.ValidName(named[i].name) && SingleSpaced(named[i].name))
    && (forall i, j :: 0 <= i < j < |named| ==> Sections.Tag(named[i].name) != Sections.Tag(named[j].name))
  }

  lemma TakesOn(nfkd: Text -> Text, pieces: seq<Imported>, named: seq<Field>, k: nat, field: Field, i: nat)
    requires k < |pieces| && NamedInOrder(nfkd, pieces[..k], named) && i <= |named|
    requires TakesFirstFree(nfkd, pieces[k].heading, TagsOf(named), field.name)
    ensures TakesFirstFree(nfkd, pieces[..k + 1][i].heading, TagsOf((named + [field])[..i]), (named + [field])[i].name)
  {
    if i < |named| {
      assert (named + [field])[..i] == named[..i] && pieces[..k + 1][i] == pieces[..k][i];
    } else {
      assert (named + [field])[..i] == named;
    }
  }

  lemma NameOn(nfkd: Text -> Text, pieces: seq<Imported>, named: seq<Field>, k: nat, field: Field)
    requires k < |pieces| && NamedInOrder(nfkd, pieces[..k], named) && NamedApart(named)
    requires field.content == pieces[k].content
    requires TakesFirstFree(nfkd, pieces[k].heading, TagsOf(named), field.name)
    requires Tag(field.name) !in TagsOf(named) && Sections.ValidName(field.name) && SingleSpaced(field.name)
    ensures NamedInOrder(nfkd, pieces[..k + 1], named + [field]) && NamedApart(named + [field])
    ensures TagsOf(named + [field]) == TagsOf(named) + {Tag(field.name)}
  {
    forall i | 0 <= i <= |named|
      ensures TakesFirstFree(nfkd, pieces[..k + 1][i].heading, TagsOf((named + [field])[..i]),
                             (named + [field])[i].name)
    {
      TakesOn(nfkd, pieces, named, k, field, i);
    }
    assert forall i :: 0 <= i < k ==> pieces[..k + 1][i] == pieces[..k][i];
    ApartOn(named, field);
    TagsOn(named, field);
  }

  lemma ApartOn(named: seq<Field>, field: Field)
    requires NamedApart(named)
    requires Tag(field.name) !in TagsOf(named) && Sections.ValidName(field.name) && SingleSpaced(field.name)
    ensures NamedApart(named + [field])
  {
    forall i | 0 <= i < |named|
      ensures Sections.Tag(named[i].name) != Sections.Tag(field.name)
    {
      TagsAgree(named[i].name);
      TagsAgree(field.name);
      assert Tag(named[i].name) in TagsOf(named);
    }
  }

  lemma TagsOn(named: seq<Field>, field: Field)
    ensures TagsOf(named + [field]) == TagsOf(named) + {Tag(field.name)}
  {
    var named' := named + [field];
    forall t | t in TagsOf(named) + {Tag(field.name)}
      ensures t in TagsOf(named')
    {
      if t in TagsOf(named) {
        var i :| 0 <= i < |named| && t == Tag(named[i].name);
        assert named'[i] == named[i];
      } else {
        assert named'[|named|] == field;
      }
    }
  }

  lemma PiecesOn(sections: seq<Imported>, splits: seq<Split>, k: nat, split: Split)
    requires k < |sections| && AllSplit(sections[..k], splits)
    requires MAX_SECTION < |sections[k].content| ==> IsSplit(sections[k].content, split.parts, split.cuts)
    ensures AllSplit(sections[..k + 1], splits + [split])
    ensures PiecesFrom(sections[..k + 1], splits + [split])
            == PiecesFrom(sections[..k], splits) + PiecesOf(sections[k], split)
  {
    assert sections[..k + 1][..k] == sections[..k] && (splits + [split])[..k] == splits;
    assert forall i :: 0 <= i < k ==> sections[..k + 1][i] == sections[..k][i];
  }

  method Pieces(sections: seq<Imported>) returns (pieces: seq<Imported>, ghost splits: seq<Split>)
    ensures AllSplit(sections, splits) && pieces == PiecesFrom(sections, splits)
  {
    pieces, splits := [], [];
    for k := 0 to |sections|
      invariant AllSplit(sections[..k], splits) && pieces == PiecesFrom(sections[..k], splits)
    {
      var section := sections[k];
      ghost var before, split := pieces, Split([], []);
      if |section.content| <= MAX_SECTION {
        pieces := pieces + [section];
      } else {
        var parts, cuts := SplitText(section.content);
        split := Split(parts, cuts);
        pieces := pieces + seq(|parts|, i requires 0 <= i < |parts| => Imported(section.heading, Trim(parts[i])));
      }
      assert pieces == before + PiecesOf(section, split);
      PiecesOn(sections, splits, k, split);
      splits := splits + [split];
    }
    assert sections[..|sections|] == sections;
  }

  /**
   The sections in order, short ones unchanged and long ones as their trimmed parts, each under the
   first free name of its own heading.
   */
  method SplitLongSections(nfkd: Text -> Text, sections: seq<Imported>)
    returns (named: seq<Field>, ghost splits: seq<Split>)
    ensures AllSplit(sections, splits) && NamedInOrder(nfkd, PiecesFrom(sections, splits), named)
    ensures NamedApart(named)
  {
    var pieces;
    pieces, splits := Pieces(sections);
    named := [];
    var taken: set<string> := {};
    for k := 0 to |pieces|
      invariant NamedInOrder(nfkd, pieces[..k], named) && NamedApart(named) && taken == TagsOf(named)
    {
      var name, taken' := SectionName(nfkd, pieces[k].heading, taken);
      NameOn(nfkd, pieces, named, k, Field(name, pieces[k].content));
      named, taken := named + [Field(name, pieces[k].content)], taken';
    }
    assert pieces[..|pieces|] == pieces;
  }

  // ----- what that means -----

  /** What the sections are split into does not depend on how the cuts were found. */
  lemma {:induction false} PiecesAreUnique(sections: seq<Imported>, a: seq<Split>, b: seq<Split>)
    requires AllSplit(sections, a) && AllSplit(sections, b)
    ensures PiecesFrom(sections, a) == PiecesFrom(sections, b)
  {
    if sections == [] {
    } else {
      var last := |sections| - 1;
      PiecesAreUnique(sections[..last], a[..last], b[..last]);
      if MAX_SECTION < |sections[last].content| {
        SplitIsUnique(sections[last].content, a[last].parts, a[last].cuts, b[last].parts, b[last].cuts);
      }
    }
  }

  function Solid(t: Text): Text {
    if t == [] then [] else (if IsSpace(t[0]) then [] else [t[0]]) + Solid(t[1..])
  }

  lemma {:induction false} SolidAppend(a: Text, b: Text)
    ensures Solid(a + b) == Solid(a) + Solid(b)
  {
    if a == [] {
      assert a + b == b;
    } else {
      SolidAppend(a[1..], b);
      assert (a + b)[0] == a[0] && (a + b)[1..] == a[1..] + b;
      Associative(if IsSpace(a[0]) then [] else [a[0]], Solid(a[1..]), Solid(b));
    }
  }

  lemma {:induction false} SolidTrimEnd(t: Text)
    ensures Solid(TrimEnd(t)) == Solid(t)
  {
    if t == [] || !IsSpace(t[|t| - 1]) {
    } else {
      SolidTrimEnd(t[..|t| - 1]);
      assert t == t[..|t| - 1] + [t[|t| - 1]];
      SolidAppend(t[..|t| - 1], [t[|t| - 1]]);
    }
  }

  lemma {:induction false} SolidTrimStart(t: Text)
    ensures Solid(TrimStart(t)) == Solid(t)
  {
    if t == [] || !IsSpace(t[0]) {
    } else {
      SolidTrimStart(t[1..]);
    }
  }

  lemma SolidTrim(t: Text)
    ensures Solid(Trim(t)) == Solid(t)
  {
    SolidTrimStart(t);
    SolidTrimEnd(TrimStart(t));
  }

  /** All the text there is, white space aside. */
  function AllSolid(pieces: seq<Imported>): Text {
    if pieces == [] then [] else AllSolid(pieces[..|pieces| - 1]) + Solid(pieces[|pieces| - 1].content)
  }

  lemma {:induction false} AllSolidAppend(a: seq<Imported>, b: seq<Imported>)
    ensures AllSolid(a + b) == AllSolid(a) + AllSolid(b)
  {
    if b == [] {
      assert a + b == a;
    } else {
      var front, last := b[..|b| - 1], b[|b| - 1];
      AllSolidAppend(a, front);
      assert (a + b)[..|a + b| - 1] == a + front && (a + b)[|a + b| - 1] == last;
      Associative(AllSolid(a), AllSolid(front), Solid(last.content));
    }
  }

  lemma {:induction false} TrimmedPartsKeepText(heading: Text, parts: seq<Text>)
    ensures AllSolid(TrimmedParts(heading, parts)) == Solid(Concat(parts))
  {
    if parts == [] {
    } else {
      var front, last := parts[..|parts| - 1], parts[|parts| - 1];
      TrimmedPartsKeepText(heading, front);
      assert TrimmedParts(heading, parts)[..|parts| - 1] == TrimmedParts(heading, front);
      SolidTrim(last);
      assert parts == front + [last];
      ConcatAppend(front, [last]);
      ConcatOne(last);
      SolidAppend(Concat(front), last);
    }
  }

  /** No text but white space goes, and what goes is at the ends of parts. */
  lemma {:induction false} PiecesKeepText(sections: seq<Imported>, splits: seq<Split>)
    requires AllSplit(sections, splits)
    ensures AllSolid(PiecesFrom(sections, splits)) == AllSolid(sections)
  {
    if sections == [] {
    } else {
      var last := |sections| - 1;
      PiecesKeepText(sections[..last], splits[..last]);
      PieceKeepsText(sections[last], splits[last]);
      AllSolidAppend(PiecesFrom(sections[..last], splits[..last]), PiecesOf(sections[last], splits[last]));
    }
  }

  lemma PieceKeepsText(section: Imported, split: Split)
    requires MAX_SECTION < |section.content| ==> IsSplit(section.content, split.parts, split.cuts)
    ensures AllSolid(PiecesOf(section, split)) == Solid(section.content)
  {
    if MAX_SECTION < |section.content| {
      TrimmedPartsKeepText(section.heading, split.parts);
    } else {
      assert [section][..0] == [];
      assert AllSolid([section]) == AllSolid([]) + Solid(section.content);
    }
  }

  /** A piece of a long section neither starts nor ends with white space. */
  lemma LongPiecesAreTrimmed(section: Imported, split: Split, piece: Imported)
    requires MAX_SECTION < |section.content| && piece in PiecesOf(section, split)
    ensures piece.heading == section.heading
    ensures piece.content != [] ==> !IsSpace(piece.content[0]) && !IsSpace(piece.content[|piece.content| - 1])
  {
    var j :| 0 <= j < |split.parts| && piece == Imported(section.heading, Trim(split.parts[j]));
    TrimExactly(split.parts[j]);
  }

  /** The content fits the API's limit, or is one whole placeholder of the section it comes from. */
  ghost predicate Fits(piece: Imported, section: Imported) {
    && piece.heading == section.heading
    && (|piece.content| <= MAX_SECTION ||
        exists s :: s in Spans(section.content, 0) && s.0 <= s.1 <= |section.content|
                    && piece.content == section.content[s.0..s.1])
  }

  /** Such a placeholder is an occurrence of the pattern. */
  lemma OverlongIsVariable(piece: Imported, section: Imported)
    requires Fits(piece, section)
    ensures |piece.content| <= 10_000 || IsVariable(piece.content)
  {
    if MAX_SECTION < |piece.content| {
      var s :| s in Spans(section.content, 0) && s.0 <= s.1 <= |section.content|
               && piece.content == section.content[s.0..s.1];
      assert s == (s.0, s.1);
      SpansExactly(section.content, s.0, s.1);
    }
  }

  lemma PlaceholderIsTrim(t: Text, spans: seq<Span>, s: Span)
    requires AreSpans(t, spans) && s in spans
    ensures s.0 < s.1 <= |t| && Trim(t[s.0..s.1]) == t[s.0..s.1]
  {
    var i :| 0 <= i < |spans| && spans[i] == s;
    assert PlaceholderEnd(t, spans[i].0).Some?;
    var placeholder := t[s.0..s.1];
    assert placeholder[0] == t[s.0] && placeholder[|placeholder| - 1] == t[s.1 - 1];
    BracesStay(placeholder);
  }

  lemma BracesStay(t: Text)
    requires t != [] && t[0] == OPEN_BRACE && t[|t| - 1] == CLOSE_BRACE
    ensures Trim(t) == t
  {
    TrimKeeps(t);
  }

  lemma PartFits(section: Imported, split: Split, j: nat)
    requires IsSplit(section.content, split.parts, split.cuts) && WellFormed(section.content) && j < |split.parts|
    ensures Fits(Imported(section.heading, Trim(split.parts[j])), section)
  {
    var t, from, to := section.content, split.cuts[j], split.cuts[j + 1];
    assert IsPiece(t, split.parts[j], from, to);
    assert FitsOrPlaceholder(Spans(t, 0), from, to);
    TrimStartIsSuffix(split.parts[j]);
    TrimEndIsPrefix(TrimStart(split.parts[j]));
    if (from, to) in Spans(t, 0) {
      PlaceholderIsTrim(t, Spans(t, 0), (from, to));
    }
  }

  ghost predicate FitsOneOf(piece: Imported, sections: seq<Imported>) {
    exists k :: 0 <= k < |sections| && Fits(piece, sections[k])
  }

  lemma PieceFits(section: Imported, split: Split, piece: Imported)
    requires MAX_SECTION < |section.content| ==> IsSplit(section.content, split.parts, split.cuts)
    requires WellFormed(section.content) && piece in PiecesOf(section, split)
    ensures Fits(piece, section)
  {
    if MAX_SECTION < |section.content| {
      var j :| 0 <= j < |split.parts| && piece == Imported(section.heading, Trim(split.parts[j]));
      PartFits(section, split, j);
    }
  }

  /** In well-formed text every piece fits, or is one placeholder that is longer than the limit. */
  lemma {:induction false} PiecesFit(sections: seq<Imported>, splits: seq<Split>, piece: Imported)
    requires AllSplit(sections, splits) && forall k :: 0 <= k < |sections| ==> WellFormed(sections[k].content)
    requires piece in PiecesFrom(sections, splits)
    ensures FitsOneOf(piece, sections)
  {
    var last := |sections| - 1;
    if piece in PiecesOf(sections[last], splits[last]) {
      PieceFits(sections[last], splits[last], piece);
    } else {
      PiecesFit(sections[..last], splits[..last], piece);
      var k :| 0 <= k < last && Fits(piece, sections[..last][k]);
      assert sections[..last][k] == sections[k];
    }
  }

  /** The name of piece `i` is short enough for the API when number `i + 1` would still fit its base. */
  lemma NamesFit(nfkd: Text -> Text, pieces: seq<Imported>, named: seq<Field>, i: nat)
    requires NamedInOrder(nfkd, pieces, named) && i < |named| && HasRoom(Base(Words(nfkd(pieces[i].heading))), i + 1)
    ensures |named[i].name| <= 100
  {
    var base := Base(Words(nfkd(pieces[i].heading)));
    TagsBounded(named[..i]);
    RoomForNames(nfkd(pieces[i].heading), 1);
    NamesFitExactly(base, i);
  }

  lemma {:induction false} TagsBounded(named: seq<Field>)
    ensures |TagsOf(named)| <= |named|
  {
    if named == [] {
    } else {
      var front := named[..|named| - 1];
      TagsBounded(front);
      TagsOn(front, named[|named| - 1]);
      assert named == front + [named[|named| - 1]];
    }
  }
}
