/**
 A prompt's sections and its text: the renderer, the parser that undoes it, and the recovery of
 sections from stored text.
 */
module Sections {
  import opened Wrappers

  datatype Section = Section(name: string, content: string)

  /** What the parser reads of one block. */
  datatype Block = Block(tag: string, content: string)

  const WHOLE_TEXT_SECTION := "prompt"

  // ----- names and tags -----

  /** The characters `str.split()` splits on. */
  predicate IsSpace(c: char) {
    || 9 as char <= c <= 13 as char || 0x1C as char <= c <= ' ' || c == 0x85 as char || c == 0xA0 as char
    || c == 0x1680 as char || 0x2000 as char <= c <= 0x200A as char || c == 0x2028 as char || c == 0x2029 as char
    || c == 0x202F as char || c == 0x205F as char || c == 0x3000 as char
  }

  /** Category Zs of Unicode. */
  predicate IsSpaceSeparator(c: int) {
    c == 0x20 || c == 0xA0 || c == 0x1680 || (0x2000 <= c && c <= 0x200A) || c == 0x202F || c == 0x205F || c == 0x3000
  }

  /** Bidirectional types WS, B and S of Unicode. */
  predicate IsSeparatorType(c: int) {
    || c == 0x0C || c == 0x20 || c == 0x1680 || (0x2000 <= c && c <= 0x200A) || c == 0x2028 || c == 0x205F
    || c == 0x3000
    || c == 0x0A || c == 0x0D || c == 0x1C || c == 0x1D || c == 0x1E || c == 0x85 || c == 0x2029
    || c == 0x09 || c == 0x0B || c == 0x1F
  }

  /** Python's white space is one or the other. */
  lemma SpacesAreUnicode(c: char)
    ensures IsSpace(c) <==> IsSpaceSeparator(c as int) || IsSeparatorType(c as int)
  {
  }

  function StripStart(s: string): string {
    if s != "" && IsSpace(s[0]) then StripStart(s[1..]) else s
  }

  function StripEnd(s: string): string {
    if s != "" && IsSpace(s[|s| - 1]) then StripEnd(s[..|s| - 1]) else s
  }

  function Strip(s: string): string {
    StripEnd(StripStart(s))
  }

  lemma {:induction false} StripStartLeaves(s: string)
    ensures StripStart(s) == "" || !IsSpace(StripStart(s)[0])
  {
    if s == "" {
    } else {
      StripStartLeaves(s[1..]);
    }
  }

  lemma {:induction false} StripEndLeaves(s: string)
    ensures StripEnd(s) <= s
    ensures StripEnd(s) == "" || !IsSpace(StripEnd(s)[|StripEnd(s)| - 1])
  {
    if s == "" {
    } else {
      StripEndLeaves(s[..|s| - 1]);
    }
  }

  ghost predicate AllSpaces(s: string) {
    forall i :: 0 <= i < |s| ==> IsSpace(s[i])
  }

  lemma {:induction false} StripStartCuts(s: string)
    ensures exists before :: AllSpaces(before) && s == before + StripStart(s)
  {
    if s == "" || !IsSpace(s[0]) {
      assert s == "" + StripStart(s);
    } else {
      StripStartCuts(s[1..]);
      var before :| AllSpaces(before) && s[1..] == before + StripStart(s);
      assert s == [s[0]] + before + StripStart(s);
      assert AllSpaces([s[0]] + before);
    }
  }

  lemma {:induction false} StripEndCuts(s: string)
    ensures exists after :: AllSpaces(after) && s == StripEnd(s) + after
  {
    if s == "" || !IsSpace(s[|s| - 1]) {
      assert s == StripEnd(s) + "";
    } else {
      var front, last := s[..|s| - 1], s[|s| - 1];
      StripEndCuts(front);
      var after :| AllSpaces(after) && front == StripEnd(s) + after;
      assert s == StripEnd(s) + (after + [last]);
      assert AllSpaces(after + [last]);
    }
  }

  /** Stripping cuts white space off at both ends, and all there is. */
  lemma StripExactly(s: string)
    ensures exists before, after :: AllSpaces(before) && AllSpaces(after) && s == before + Strip(s) + after
    ensures Strip(s) != "" ==> !IsSpace(Strip(s)[0]) && !IsSpace(Strip(s)[|Strip(s)| - 1])
  {
    StripStartCuts(s);
    StripEndCuts(StripStart(s));
    StripStartLeaves(s);
    StripEndLeaves(StripStart(s));
    var before :| AllSpaces(before) && s == before + StripStart(s);
    var after :| AllSpaces(after) && StripStart(s) == Strip(s) + after;
    assert s == before + Strip(s) + after;
  }

  lemma StripTwice(s: string)
    ensures Strip(Strip(s)) == Strip(s)
  {
    StripStartLeaves(s);
    StripEndLeaves(StripStart(s));
  }

  predicate IsLower(c: char) {
    'a' <= c <= 'z'
  }

  predicate IsTagStart(c: char) {
    IsLower(c) || 'A' <= c <= 'Z' || c == '_'
  }

  predicate IsTagChar(c: char) {
    IsTagStart(c) || '0' <= c <= '9' || c == '-'
  }

  /** The names the API accepts. */
  predicate ValidName(name: string) {
    name != "" && IsTagStart(name[0]) && forall i :: 0 <= i < |name| ==> IsTagChar(name[i]) || name[i] == ' '
  }

  predicate IsTag(tag: string) {
    tag != "" && IsTagStart(tag[0]) && forall i :: 0 <= i < |tag| ==> IsTagChar(tag[i])
  }

  function NonEmpty(word: string): seq<string> {
    if word == "" then [] else [word]
  }

  /** Split on white space, `word` being read so far. */
  function WordsAfter(word: string, rest: string): seq<string>
    decreases |rest|
  {
    if rest == "" then NonEmpty(word)
    else if IsSpace(rest[0]) then NonEmpty(word) + WordsAfter("", rest[1..])
    else WordsAfter(word + [rest[0]], rest[1..])
  }

  function Join(parts: seq<string>, separator: string): string {
    if parts == [] then "" else if |parts| == 1 then parts[0] else parts[0] + separator + Join(parts[1..], separator)
  }

  function UpperChar(c: char): char {
    if IsLower(c) then (c as int - 32) as char else c
  }

  function LowerChar(c: char): char {
    if 'A' <= c <= 'Z' then (c as int + 32) as char else c
  }

  function Upper(s: string): string {
    seq(|s|, i requires 0 <= i < |s| => UpperChar(s[i]))
  }

  function Lower(s: string): string {
    seq(|s|, i requires 0 <= i < |s| => LowerChar(s[i]))
  }

  function Tag(name: string): string {
    Upper(Join(WordsAfter("", name), "_"))
  }

  /** An upper-case tag: what valid names render as. */
  predicate IsUpperTag(tag: string) {
    IsTag(tag) && forall i :: 0 <= i < |tag| ==> !IsLower(tag[i])
  }

  ghost predicate AllTagChars(words: seq<string>) {
    forall i :: 0 <= i < |words| ==> words[i] != "" && forall j :: 0 <= j < |words[i]| ==> IsTagChar(words[i][j])
  }

  lemma {:induction false} WordsOfName(word: string, rest: string)
    requires forall i :: 0 <= i < |word| ==> IsTagChar(word[i])
    requires forall i :: 0 <= i < |rest| ==> IsTagChar(rest[i]) || rest[i] == ' '
    ensures AllTagChars(WordsAfter(word, rest))
    ensures word != "" ==> WordsAfter(word, rest) != [] && WordsAfter(word, rest)[0][0] == word[0]
    decreases |rest|
  {
    if rest == "" {
    } else {
      if IsSpace(rest[0]) {
        WordsOfName("", rest[1..]);
      } else {
        WordsOfName(word + [rest[0]], rest[1..]);
      }
    }
  }

  lemma {:induction false} JoinedWords(words: seq<string>)
    requires AllTagChars(words) && words != []
    ensures Join(words, "_") != "" && Join(words, "_")[0] == words[0][0]
    ensures forall i :: 0 <= i < |Join(words, "_")| ==> IsTagChar(Join(words, "_")[i])
  {
    if |words| == 1 {
    } else {
      JoinedWords(words[1..]);
    }
  }

  lemma TagOfValidName(name: string)
    requires ValidName(name)
    ensures IsUpperTag(Tag(name))
  {
    WordsOfName("" + [name[0]], name[1..]);
    JoinedWords(WordsAfter("", name));
  }

  lemma {:induction false} OneWord(word: string, rest: string)
    requires forall i :: 0 <= i < |rest| ==> !IsSpace(rest[i])
    requires word + rest != ""
    ensures WordsAfter(word, rest) == [word + rest]
    decreases |rest|
  {
    if rest != "" {
      OneWord(word + [rest[0]], rest[1..]);
      assert word + [rest[0]] + rest[1..] == word + rest;
    } else {
      assert word + rest == word;
    }
  }

  /** A tag read back in lower case is a name that renders as the tag. */
  lemma TagOfLowered(tag: string)
    requires IsUpperTag(tag)
    ensures Tag(Lower(tag)) == tag
  {
    OneWord("", Lower(tag));
    assert "" + Lower(tag) == Lower(tag);
    assert Upper(Lower(tag)) == tag;
  }

  // ----- rendering -----

  function Opening(tag: string): string {
    "<" + tag + ">\n"
  }

  function Closing(tag: string): string {
    "\n</" + tag + ">"
  }

  function RenderBlock(b: Block): string {
    Opening(b.tag) + b.content + Closing(b.tag)
  }

  function RenderBlocks(blocks: seq<Block>): string {
    if blocks == [] then "" else if |blocks| == 1 then RenderBlock(blocks[0])
    else RenderBlock(blocks[0]) + "\n\n" + RenderBlocks(blocks[1..])
  }

  function BlocksOf(sections: seq<Section>): seq<Block> {
    seq(|sections|, i requires 0 <= i < |sections| => Block(Tag(sections[i].name), sections[i].content))
  }

  function Render(sections: seq<Section>): string {
    RenderBlocks(BlocksOf(sections))
  }

  // ----- parsing -----

  predicate OccursAt(text: string, pattern: string, k: nat) {
    k + |pattern| <= |text| && text[k..k + |pattern|] == pattern
  }

  lemma SliceOfTail(text: string, i: nat, j: nat)
    requires i <= j < |text|
    ensures text[1..][i..j] == text[i + 1..j + 1]
  {
    assert forall k :: 0 <= k < j - i ==> text[1..][i..j][k] == text[i + 1..j + 1][k];
  }

  /** Where `pattern` first occurs in `text`. */
  function Find(text: string, pattern: string): (r: Option<nat>)
    ensures r.Some? ==> OccursAt(text, pattern, r.value)
  {
    if |text| < |pattern| then None
    else if text[..|pattern|] == pattern then Some(0)
    else
      match Find(text[1..], pattern)
      case None => None
      case Some(k) =>
        SliceOfTail(text, k, k + |pattern|);
        Some(k + 1)
  }

  lemma {:induction false} FindIsFirst(text: string, pattern: string, k: nat)
    requires OccursAt(text, pattern, k)
    ensures Find(text, pattern).Some? && Find(text, pattern).value <= k
  {
    if text[..|pattern|] == pattern {
    } else {
      assert text[0..|pattern|] == text[..|pattern|];
      SliceOfTail(text, k - 1, k - 1 + |pattern|);
      FindIsFirst(text[1..], pattern, k - 1);
    }
  }

  function TagRun(text: string): (n: nat)
    ensures n <= |text|
    ensures forall i :: 0 <= i < n ==> IsTagChar(text[i])
    ensures n < |text| ==> !IsTagChar(text[n])
  {
    if text == "" || !IsTagChar(text[0]) then 0 else 1 + TagRun(text[1..])
  }

  /** The content of a block, up to the nearest closing tag, and what follows it. */
  function ReadBody(tag: string, body: string): Option<(Block, string)> {
    match Find(body, Closing(tag))
    case None => None
    case Some(k) => Some((Block(tag, body[..k]), body[k + |Closing(tag)|..]))
  }

  /** A `<TAG>` block at the start of `text`, up to its nearest closing tag, and what follows it. */
  function MatchBlock(text: string): Option<(Block, string)> {
    if text == "" || text[0] != '<' then None else
      var n := TagRun(text[1..]);
      var tag := text[1..n + 1];
      if n == 0 || !IsTagStart(tag[0]) || |text| < n + 3 || text[n + 1] != '>' || text[n + 2] != '\n' then None else
        ReadBody(tag, text[n + 3..])
  }

  predicate StartsWith(text: string, prefix: string) {
    |prefix| <= |text| && text[..|prefix|] == prefix
  }

  /** The blocks of `rest`, separated by blank lines; the first one needs no separator before it. */
  function ParseBlocks(rest: string, first: bool): Option<seq<Block>>
    decreases |rest|
  {
    if rest == "" then Some([])
    else if !first && !StartsWith(rest, "\n\n") then None
    else
      match MatchBlock(if first then rest else rest[2..])
      case None => None
      case Some((block, more)) =>
        match ParseBlocks(more, false)
        case None => None
        case Some(blocks) => Some([block] + blocks)
  }

  /** The spelling last used for each tag. */
  function NamesByTag(previous: seq<Section>): map<string, string> {
    if previous == [] then map[] else
      var last := previous[|previous| - 1];
      NamesByTag(previous[..|previous| - 1])[Tag(last.name) := last.name]
  }

  function NameFor(tag: string, names: map<string, string>): string {
    if tag in names then names[tag] else Lower(tag)
  }

  function Named(blocks: seq<Block>, names: map<string, string>): seq<Section> {
    seq(|blocks|, i requires 0 <= i < |blocks| => Section(NameFor(blocks[i].tag, names), blocks[i].content))
  }

  /** Sections whose rendering is exactly `text`, or none. */
  function Parsed(text: string, previous: seq<Section>): Option<seq<Section>> {
    match ParseBlocks(text, true)
    case None => None
    case Some(blocks) =>
      var sections := Named(blocks, NamesByTag(previous));
      if sections == [] || Render(sections) != text then None else Some(sections)
  }

  function SectionsForText(text: string, previous: seq<Section>): seq<Section> {
    if Render(previous) == text then previous else
      match Parsed(text, previous)
      case Some(sections) => sections
      case None => [Section(WHOLE_TEXT_SECTION, text)]
  }

  method IndexNames(previous: seq<Section>) returns (namesByTag: map<string, string>)
    ensures namesByTag == NamesByTag(previous)
  {
    namesByTag := map[];
    for i := 0 to |previous|
      invariant namesByTag == NamesByTag(previous[..i])
    {
      assert previous[..i + 1][..i] == previous[..i];
      namesByTag := namesByTag[Tag(previous[i].name) := previous[i].name];
    }
    assert previous[..|previous|] == previous;
  }

  method ParseRenderedSections(text: string, previous: seq<Section>) returns (r: Option<seq<Section>>)
    ensures r == Parsed(text, previous)
  {
    var namesByTag := IndexNames(previous);
    ghost var blocks: seq<Block> := [];
    var sections: seq<Section> := [];
    var position := 0;
    PrependNothing(text);
    while position < |text|
      invariant 0 <= position <= |text|
      invariant sections == Named(blocks, namesByTag)
      invariant ParseBlocks(text, true) == Prepended(blocks, ParseBlocks(text[position..], blocks == []))
    {
      var start := position;
      if sections != [] {
        if !StartsWith(text[position..], "\n\n") {
          ParseNext(blocks, text[position..], false);
          return None;
        }
        start := position + 2;
      }
      var found := MatchAt(text, start);
      ParseStep(blocks, text, position, found);
      if found == None {
        return None;
      }
      var (block, end) := found.value;
      NamedOn(blocks, block, namesByTag);
      blocks := blocks + [block];
      var name := if block.tag in namesByTag then namesByTag[block.tag] else Lower(block.tag);
      sections := sections + [Section(name, block.content)];
      position := end;
    }
    assert blocks + [] == blocks;
    if sections == [] || Render(sections) != text {
      return None;
    }
    return Some(sections);
  }

  function Prepended(done: seq<Block>, more: Option<seq<Block>>): Option<seq<Block>> {
    if more.None? then None else Some(done + more.value)
  }

  lemma PrependNothing(text: string)
    ensures ParseBlocks(text, true) == Prepended([], ParseBlocks(text[0..], true))
  {
    assert text[0..] == text;
    assert ParseBlocks(text, true).Some? ==> [] + ParseBlocks(text, true).value == ParseBlocks(text, true).value;
  }

  /** One turn of the loop, read on the text that is left. */
  lemma ParseNext(done: seq<Block>, rest: string, first: bool)
    requires rest != ""
    ensures Prepended(done, ParseBlocks(rest, first)) ==
            if !first && !StartsWith(rest, "\n\n") then None else
              match MatchBlock(if first then rest else rest[2..])
              case None => None
              case Some((block, more)) => Prepended(done + [block], ParseBlocks(more, false))
  {
    var at := if first then rest else if StartsWith(rest, "\n\n") then rest[2..] else "";
    match MatchBlock(at)
    case None =>
    case Some((block, more)) =>
      if ParseBlocks(more, false).Some? {
        assert done + ([block] + ParseBlocks(more, false).value) == done + [block] + ParseBlocks(more, false).value;
      }
  }

  lemma NamedOn(blocks: seq<Block>, block: Block, names: map<string, string>)
    ensures Named(blocks + [block], names) == Named(blocks, names) + [Section(NameFor(block.tag, names), block.content)]
  {
  }

  /** The block that starts at `at`, and where it ends. */
  function MatchAt(text: string, at: nat): (r: Option<(Block, nat)>)
    requires at <= |text|
    ensures r.Some? ==> at < r.value.1 <= |text|
  {
    match MatchBlock(text[at..])
    case None => None
    case Some((block, more)) =>
      MatchLeavesSuffix(text[at..]);
      Some((block, |text| - |more|))
  }

  lemma ParseStep(done: seq<Block>, text: string, position: nat, found: Option<(Block, nat)>)
    requires position < |text|
    requires done != [] ==> StartsWith(text[position..], "\n\n")
    requires found == MatchAt(text, if done == [] then position else position + 2)
    ensures var all := Prepended(done, ParseBlocks(text[position..], done == []));
            if found == None then all == None
            else all == Prepended(done + [found.value.0], ParseBlocks(text[found.value.1..], false))
  {
    var rest, at := text[position..], if done == [] then position else position + 2;
    ParseNext(done, rest, done == []);
    assert (if done == [] then rest else rest[2..]) == text[at..];
    MatchAtReads(text, at);
  }

  lemma MatchAtReads(text: string, at: nat)
    requires at <= |text|
    ensures MatchBlock(text[at..]) ==
            match MatchAt(text, at)
            case None => None
            case Some((block, end)) => Some((block, text[end..]))
  {
    var rest := text[at..];
    MatchLeavesSuffix(rest);
    if MatchBlock(rest).Some? {
      var more := MatchBlock(rest).value.1;
      assert rest[|rest| - |more|..] == text[|text| - |more|..];
    }
  }

  lemma MatchLeavesSuffix(text: string)
    ensures MatchBlock(text).Some? ==>
              var more := MatchBlock(text).value.1;
              |more| < |text| && text[|text| - |more|..] == more
  {
  }

  // ----- the parser undoes the printer -----

  /** The content does not itself contain the block's closing tag on a new line. */
  ghost predicate Clean(b: Block) {
    forall k :: !OccursAt(b.content, Closing(b.tag), k)
  }

  ghost predicate AllClean(blocks: seq<Block>) {
    forall i :: 0 <= i < |blocks| ==> Clean(blocks[i])
  }

  ghost predicate Tagged(blocks: seq<Block>) {
    forall i :: 0 <= i < |blocks| ==> IsTag(blocks[i].tag)
  }

  lemma {:induction false} TagRunStops(tag: string, more: string)
    requires forall i :: 0 <= i < |tag| ==> IsTagChar(tag[i])
    requires more != "" && !IsTagChar(more[0])
    ensures TagRun(tag + more) == |tag|
  {
    if tag != "" {
      assert (tag + more)[1..] == tag[1..] + more;
      TagRunStops(tag[1..], more);
    } else {
      assert tag + more == more;
    }
  }

  /** A closing tag has one newline, its first character, so it cannot overlap another one. */
  lemma ClosingsDoNotOverlap(tag: string, content: string, rest: string, k: nat)
    requires IsTag(tag) && k < |content| && OccursAt(content + Closing(tag) + rest, Closing(tag), k)
    ensures OccursAt(content, Closing(tag), k)
  {
    var closing := Closing(tag);
    var body := content + closing + rest;
    assert forall j :: 0 < j < |closing| ==> closing[j] != '\n';
    assert forall j :: 0 <= j < |closing| ==> body[k + j] == body[k..k + |closing|][j] == closing[j];
    assert body[k + (|content| - k)] == '\n';
    assert body[k..k + |closing|] == content[k..k + |closing|];
  }

  lemma BodyEnds(b: Block, rest: string)
    requires IsTag(b.tag)
    ensures var found := Find(b.content + Closing(b.tag) + rest, Closing(b.tag));
            found.Some? && found.value <= |b.content| && (found.value == |b.content| <==> Clean(b))
  {
    var closing := Closing(b.tag);
    var body := b.content + closing + rest;
    Cut3(b.content, closing, rest);
    FindIsFirst(body, closing, |b.content|);
    var k := Find(body, closing).value;
    if k < |b.content| {
      ClosingsDoNotOverlap(b.tag, b.content, rest, k);
    }
    if !Clean(b) {
      var j: nat :| OccursAt(b.content, closing, j);
      Cut3Front(b.content, closing, rest, j, j + |closing|);
      FindIsFirst(body, closing, j);
    }
  }

  lemma Cut3(a: string, b: string, c: string)
    ensures (a + b + c)[..|a|] == a
    ensures (a + b + c)[|a|..|a| + |b|] == b
    ensures (a + b + c)[|a| + |b|..] == c
  {
  }

  lemma Cut3Front(a: string, b: string, c: string, i: nat, j: nat)
    requires i <= j <= |a|
    ensures (a + b + c)[i..j] == a[i..j]
  {
  }

  lemma MatchReadsBody(tag: string, body: string)
    requires IsTag(tag)
    ensures MatchBlock(Opening(tag) + body) == ReadBody(tag, body)
  {
    var opening, n := Opening(tag), |tag|;
    var text := opening + body;
    OpeningShape(tag);
    OpeningTag(tag, body);
    assert text[1..n + 1] == opening[1..n + 1];
    assert text[n + 3..] == body;
    assert text[0] == opening[0] && text[n + 1] == opening[n + 1] && text[n + 2] == opening[n + 2];
    MatchReads(text, tag, body);
  }

  lemma MatchReads(text: string, tag: string, body: string)
    requires IsTag(tag) && |text| >= |tag| + 3 && TagRun(text[1..]) == |tag| && text[1..|tag| + 1] == tag
    requires text[0] == '<' && text[|tag| + 1] == '>' && text[|tag| + 2] == '\n' && text[|tag| + 3..] == body
    ensures MatchBlock(text) == ReadBody(tag, body)
  {
    var n := TagRun(text[1..]);
    assert n == |tag| && text != "" && n != 0 && IsTagStart(tag[0]);
    assert text[1..n + 1] == tag && text[n + 3..] == body;
  }

  lemma OpeningShape(tag: string)
    ensures var opening, n := Opening(tag), |tag|;
            |opening| == n + 3 && opening[0] == '<' && opening[1..n + 1] == tag && opening[n + 1] == '>'
                && opening[n + 2] == '\n'
  {
  }

  lemma OpeningTag(tag: string, body: string)
    requires IsTag(tag)
    ensures TagRun((Opening(tag) + body)[1..]) == |tag|
  {
    assert (Opening(tag) + body)[1..] == tag + (">\n" + body);
    TagRunStops(tag, ">\n" + body);
  }

  lemma Regroup(a: string, b: string, c: string, d: string)
    ensures a + b + c + d == a + (b + c + d)
  {
  }

  lemma MatchRendered(b: Block, rest: string)
    requires IsTag(b.tag)
    ensures MatchBlock(RenderBlock(b) + rest).Some?
    ensures Clean(b) ==> MatchBlock(RenderBlock(b) + rest) == Some((b, rest))
    ensures !Clean(b) ==> |MatchBlock(RenderBlock(b) + rest).value.0.content| < |b.content|
  {
    var body := b.content + Closing(b.tag) + rest;
    Regroup(Opening(b.tag), b.content, Closing(b.tag), rest);
    MatchReadsBody(b.tag, body);
    BodyEnds(b, rest);
    Cut3(b.content, Closing(b.tag), rest);
  }

  /** The text of `blocks`, with the blank line before it when other blocks precede. */
  function Trailing(blocks: seq<Block>, first: bool): string {
    if blocks == [] then "" else
      (if first then "" else "\n\n") + (RenderBlock(blocks[0]) + Trailing(blocks[1..], false))
  }

  lemma {:induction false} RenderIsTrailing(blocks: seq<Block>)
    ensures RenderBlocks(blocks) == Trailing(blocks, true)
  {
    if |blocks| <= 1 {
    } else {
      RenderIsTrailing(blocks[1..]);
      assert Trailing(blocks[1..], false) == "\n\n" + Trailing(blocks[1..], true);
    }
  }

  ghost predicate SameContents(a: seq<Block>, b: seq<Block>) {
    |a| == |b| && forall i :: 0 <= i < |a| ==> a[i].content == b[i].content
  }

  lemma ParseHead(text: string, first: bool, head: Block, more: string)
    requires IsTag(head.tag) && text != "" && (first || StartsWith(text, "\n\n"))
    requires (if first then text else text[2..]) == RenderBlock(head) + more
    ensures var parsed := ParseBlocks(text, first);
            if Clean(head) then parsed == Prepended([head], ParseBlocks(more, false))
            else parsed.Some? ==> parsed.value != [] && parsed.value[0].content != head.content
  {
    MatchRendered(head, more);
    var (block, rest) := MatchBlock(RenderBlock(head) + more).value;
    ParseStart(text, first, block, rest);
  }

  lemma ParseStart(text: string, first: bool, block: Block, more: string)
    requires text != "" && (first || StartsWith(text, "\n\n"))
    requires MatchBlock(if first then text else text[2..]) == Some((block, more))
    ensures ParseBlocks(text, first) == Prepended([block], ParseBlocks(more, false))
  {
  }

  lemma TrailingHead(blocks: seq<Block>, first: bool)
    requires blocks != []
    ensures var text := Trailing(blocks, first);
            && text != ""
            && (first ==> text == RenderBlock(blocks[0]) + Trailing(blocks[1..], false))
            && (!first ==>
                  StartsWith(text, "\n\n") && text[2..] == RenderBlock(blocks[0]) + Trailing(blocks[1..], false))
  {
    var block := RenderBlock(blocks[0]) + Trailing(blocks[1..], false);
    assert "" + block == block;
    assert ("\n\n" + block)[2..] == block && ("\n\n" + block)[..2] == "\n\n";
  }

  /** Clean blocks are read back as they are; otherwise some content is not. */
  ghost predicate Reads(blocks: seq<Block>, parsed: Option<seq<Block>>) {
    if AllClean(blocks) then parsed == Some(blocks) else parsed.Some? ==> !SameContents(parsed.value, blocks)
  }

  lemma ReadsOn(blocks: seq<Block>, parsed: Option<seq<Block>>, more: Option<seq<Block>>)
    requires blocks != [] && Reads(blocks[1..], more)
    requires if Clean(blocks[0]) then parsed == Prepended([blocks[0]], more)
             else parsed.Some? ==> parsed.value != [] && parsed.value[0].content != blocks[0].content
    ensures Reads(blocks, parsed)
  {
    assert [blocks[0]] + blocks[1..] == blocks;
    if Clean(blocks[0]) {
      assert AllClean(blocks) == AllClean(blocks[1..]) by {
        assert forall i :: 0 <= i < |blocks[1..]| ==> blocks[1..][i] == blocks[i + 1];
        assert forall i :: 0 < i < |blocks| ==> blocks[i] == blocks[1..][i - 1];
      }
      if !AllClean(blocks) && more.Some? {
        LongerDiffer(blocks, more.value);
      }
    }
  }

  lemma {:induction false} ParseTrailing(blocks: seq<Block>, first: bool)
    requires Tagged(blocks)
    ensures Reads(blocks, ParseBlocks(Trailing(blocks, first), first))
    decreases |blocks|
  {
    if blocks == [] {
    } else {
      TrailingHead(blocks, first);
      ParseHead(Trailing(blocks, first), first, blocks[0], Trailing(blocks[1..], false));
      ParseTrailing(blocks[1..], false);
      ReadsOn(blocks, ParseBlocks(Trailing(blocks, first), first), ParseBlocks(Trailing(blocks[1..], false), false));
    }
  }

  lemma LongerDiffer(blocks: seq<Block>, parsed: seq<Block>)
    requires blocks != [] && !SameContents(parsed, blocks[1..])
    ensures !SameContents([blocks[0]] + parsed, blocks)
  {
    if |parsed| == |blocks| - 1 {
      var i :| 0 <= i < |parsed| && parsed[i].content != blocks[1..][i].content;
      assert ([blocks[0]] + parsed)[i + 1].content != blocks[i + 1].content;
    }
  }

  lemma {:induction false} NamesKeepTags(previous: seq<Section>)
    ensures forall t :: t in NamesByTag(previous) ==> Tag(NamesByTag(previous)[t]) == t
  {
    if previous == [] {
    } else {
      NamesKeepTags(previous[..|previous| - 1]);
    }
  }

  ghost predicate DistinctTags(sections: seq<Section>) {
    forall i, j :: 0 <= i < j < |sections| ==> Tag(sections[i].name) != Tag(sections[j].name)
  }

  lemma {:induction false} NamesOfDistinct(sections: seq<Section>, i: nat)
    requires DistinctTags(sections) && i < |sections|
    ensures Tag(sections[i].name) in NamesByTag(sections)
            && NamesByTag(sections)[Tag(sections[i].name)] == sections[i].name
  {
    if i == |sections| - 1 {
    } else {
      NamesOfDistinct(sections[..|sections| - 1], i);
    }
  }

  /** What a request to save sections must satisfy. */
  ghost predicate ValidNames(sections: seq<Section>) {
    forall i :: 0 <= i < |sections| ==> ValidName(sections[i].name)
  }

  lemma BlocksAreTagged(sections: seq<Section>)
    requires ValidNames(sections)
    ensures Tagged(BlocksOf(sections))
    ensures forall i :: 0 <= i < |sections| ==> IsUpperTag(Tag(sections[i].name))
  {
    forall i | 0 <= i < |sections|
      ensures IsUpperTag(Tag(sections[i].name))
    {
      TagOfValidName(sections[i].name);
    }
  }

  /** Whatever the previous sections were, rendered clean sections come back with their tags and contents. */
  lemma AnyPreviousParses(sections: seq<Section>, previous: seq<Section>)
    requires sections != [] && ValidNames(sections) && AllClean(BlocksOf(sections))
    ensures Parsed(Render(sections), previous).Some?
    ensures BlocksOf(Parsed(Render(sections), previous).value) == BlocksOf(sections)
    ensures Parsed(Render(sections), previous).value == Named(BlocksOf(sections), NamesByTag(previous))
  {
    var blocks, names := BlocksOf(sections), NamesByTag(previous);
    BlocksAreTagged(sections);
    RenderIsTrailing(blocks);
    ParseTrailing(blocks, true);
    NamesKeepTags(previous);
    forall i | 0 <= i < |blocks|
      ensures Tag(NameFor(blocks[i].tag, names)) == blocks[i].tag
    {
      TagOfLowered(blocks[i].tag);
    }
    assert BlocksOf(Named(blocks, names)) == blocks;
  }

  /**
   Parsing a rendering with the rendered sections as `previous` gives exactly those sections back if
   and only if no content contains its own closing tag on a new line.
   */
  lemma RoundTrip(sections: seq<Section>)
    requires sections != [] && ValidNames(sections) && DistinctTags(sections)
    ensures Parsed(Render(sections), sections) == Some(sections) <==> AllClean(BlocksOf(sections))
  {
    var blocks, names := BlocksOf(sections), NamesByTag(sections);
    if AllClean(blocks) {
      AnyPreviousParses(sections, sections);
      forall i | 0 <= i < |sections|
        ensures NameFor(blocks[i].tag, names) == sections[i].name
      {
        NamesOfDistinct(sections, i);
      }
      assert Named(blocks, names) == sections;
    } else {
      BlocksAreTagged(sections);
      RenderIsTrailing(blocks);
      ParseTrailing(blocks, true);
      if ParseBlocks(Render(sections), true).Some? {
        var parsed := ParseBlocks(Render(sections), true).value;
        assert forall i :: 0 <= i < |parsed| ==> parsed[i].content == Named(parsed, names)[i].content;
        assert Named(parsed, names) == sections ==> SameContents(parsed, blocks);
      }
    }
  }

  /** A section that holds its own closing tag on a new line is not read back. */
  lemma UncleanNotReadBack()
    ensures var sections := [Section("A", "\n</A>")];
            ValidNames(sections) && DistinctTags(sections) && Parsed(Render(sections), sections) != Some(sections)
  {
    var sections := [Section("A", "\n</A>")];
    OneWord("", "A");
    assert Tag("A") == "A";
    assert Closing("A") == "\n</A>";
    assert OccursAt(BlocksOf(sections)[0].content, Closing("A"), 0);
    RoundTrip(sections);
  }

  /** Two clean lists with one rendering have the same tags and contents. */
  lemma RenderIsInjective(a: seq<Section>, b: seq<Section>)
    requires ValidNames(a) && AllClean(BlocksOf(a)) && ValidNames(b) && AllClean(BlocksOf(b))
    requires Render(a) == Render(b)
    ensures BlocksOf(a) == BlocksOf(b)
  {
    BlocksAreTagged(a);
    BlocksAreTagged(b);
    RenderIsTrailing(BlocksOf(a));
    RenderIsTrailing(BlocksOf(b));
    ParseTrailing(BlocksOf(a), true);
    ParseTrailing(BlocksOf(b), true);
  }

  /** Recovered sections reproduce the text exactly when it could be read as sections at all. */
  lemma RecoveryRenders(text: string, previous: seq<Section>)
    ensures Render(SectionsForText(text, previous)) == text <==>
            Render(previous) == text || Parsed(text, previous).Some?
    ensures Render(previous) == text ==> SectionsForText(text, previous) == previous
  {
    if Render(previous) != text && Parsed(text, previous).None? {
      assert |Render([Section(WHOLE_TEXT_SECTION, text)])| > |text|;
    }
  }

  /** Whatever is parsed renders to the text it was parsed from. */
  lemma ParsedRenders(text: string, previous: seq<Section>)
    requires Parsed(text, previous).Some?
    ensures Parsed(text, previous).value != [] && Render(Parsed(text, previous).value) == text
  {
  }

  /** One section that holds the whole text, and the text it renders to. */
  ghost predicate IsWhole(sections: seq<Section>, text: string) {
    && sections == [Section("prompt", text)]
    && Render(sections) == "<PROMPT>\n" + text + "\n</PROMPT>"
  }

  lemma WholeTextTag()
    ensures Tag("prompt") == "PROMPT"
  {
    OneWord("", "prompt");
    assert "" + "prompt" == "prompt";
    assert Upper("prompt") == "PROMPT";
  }

  /**
   Recovery never loses text: the old sections are kept when they render to it, else sections that do are
   read from it, and else it all becomes the content of one section.
   */
  lemma RecoveryKeepsText(text: string, previous: seq<Section>)
    ensures var sections := SectionsForText(text, previous);
            if Render(previous) == text then sections == previous
            else if Parsed(text, previous).Some? then
              sections == Parsed(text, previous).value && Render(sections) == text
            else IsWhole(sections, text)
  {
    if Render(previous) != text && Parsed(text, previous).None? {
      var whole := [Section(WHOLE_TEXT_SECTION, text)];
      WholeTextTag();
      assert BlocksOf(whole) == [Block("PROMPT", text)];
      assert Opening("PROMPT") == "<PROMPT>\n" && Closing("PROMPT") == "\n</PROMPT>";
    }
  }

  /** `lowered` is `tag` with its letters A to Z replaced by a to z. */
  ghost predicate IsLowered(lowered: string, tag: string) {
    && |lowered| == |tag|
    && forall i :: 0 <= i < |tag| ==>
         if 'A' <= tag[i] <= 'Z' then lowered[i] as int - 'a' as int == tag[i] as int - 'A' as int
         else lowered[i] == tag[i]
  }

  /** The last of the previous sections with this tag is spelled `name`. */
  ghost predicate LastSpelled(name: string, tag: string, previous: seq<Section>, j: nat) {
    && j < |previous| && previous[j].name == name && Tag(name) == tag
    && forall k :: j < k < |previous| ==> Tag(previous[k].name) != tag
  }

  ghost predicate IsNew(tag: string, previous: seq<Section>) {
    forall k :: 0 <= k < |previous| ==> Tag(previous[k].name) != tag
  }

  /** The name of a tag: the last spelling of it among the previous sections, or else the tag in lower case. */
  ghost predicate IsNameFor(name: string, tag: string, previous: seq<Section>) {
    (exists j: nat :: LastSpelled(name, tag, previous, j)) || (IsNew(tag, previous) && IsLowered(name, tag))
  }

  lemma LastSpelledOn(name: string, tag: string, previous: seq<Section>, last: Section, j: nat)
    requires LastSpelled(name, tag, previous, j) && Tag(last.name) != tag
    ensures LastSpelled(name, tag, previous + [last], j)
  {
  }

  lemma {:induction false} NamesByTagMeans(previous: seq<Section>, tag: string)
    ensures tag in NamesByTag(previous) ==> exists j: nat :: LastSpelled(NamesByTag(previous)[tag], tag, previous, j)
    ensures tag !in NamesByTag(previous) ==> IsNew(tag, previous)
  {
    if previous == [] {
    } else {
      var front, last := previous[..|previous| - 1], previous[|previous| - 1];
      NamesByTagMeans(front, tag);
      assert previous == front + [last];
      if Tag(last.name) == tag {
        assert LastSpelled(last.name, tag, previous, |front|);
      } else if tag in NamesByTag(front) {
        var j: nat :| LastSpelled(NamesByTag(front)[tag], tag, front, j);
        LastSpelledOn(NamesByTag(front)[tag], tag, front, last, j);
      }
    }
  }

  /** Sections read from a rendering have its contents, and names spelled as before where the tag is known. */
  lemma ParsedNames(sections: seq<Section>, previous: seq<Section>)
    requires sections != [] && ValidNames(sections) && AllClean(BlocksOf(sections))
    ensures var parsed := Parsed(Render(sections), previous);
            && parsed.Some? && |parsed.value| == |sections|
            && forall i :: 0 <= i < |sections| ==>
                 && parsed.value[i].content == sections[i].content
                 && IsNameFor(parsed.value[i].name, Tag(sections[i].name), previous)
  {
    AnyPreviousParses(sections, previous);
    var blocks, names := BlocksOf(sections), NamesByTag(previous);
    forall i | 0 <= i < |sections|
      ensures IsNameFor(NameFor(blocks[i].tag, names), Tag(sections[i].name), previous)
    {
      NamesByTagMeans(previous, blocks[i].tag);
      assert IsLowered(Lower(blocks[i].tag), blocks[i].tag);
    }
  }

  /** A section as it is rendered, and the blank line between two. */
  lemma RenderedText(section: Section, more: seq<Section>)
    ensures var tag := Tag(section.name);
            Render([section]) == "<" + tag + ">\n" + section.content + "\n</" + tag + ">"
    ensures more != [] ==> Render([section] + more) == Render([section]) + "\n\n" + Render(more)
  {
    assert BlocksOf([section]) == [Block(Tag(section.name), section.content)];
    assert BlocksOf([section] + more) == BlocksOf([section]) + BlocksOf(more);
    assert (BlocksOf([section]) + BlocksOf(more))[1..] == BlocksOf(more);
  }

  /** Words as they are typed: not empty and without white space. */
  ghost predicate AreWords(words: seq<string>) {
    forall i :: 0 <= i < |words| ==> words[i] != "" && forall j :: 0 <= j < |words[i]| ==> !IsSpace(words[i][j])
  }

  lemma {:induction false} ReadWord(word: string, letters: string, rest: string)
    requires forall i :: 0 <= i < |letters| ==> !IsSpace(letters[i])
    ensures WordsAfter(word, letters + rest) == WordsAfter(word + letters, rest)
    decreases |letters|
  {
    if letters == "" {
      assert letters + rest == rest && word + letters == word;
    } else {
      assert (letters + rest)[1..] == letters[1..] + rest;
      ReadWord(word + [letters[0]], letters[1..], rest);
      assert word + [letters[0]] + letters[1..] == word + letters;
    }
  }

  lemma {:induction false} ReadWords(words: seq<string>)
    requires AreWords(words)
    ensures WordsAfter("", Join(words, " ")) == words
  {
    if words == [] {
    } else if |words| == 1 {
      OneWord("", words[0]);
      assert "" + words[0] == words[0];
    } else {
      var rest := " " + Join(words[1..], " ");
      ReadWords(words[1..]);
      ReadWord("", words[0], rest);
      assert Join(words, " ") == words[0] + rest && "" + words[0] == words[0] && rest[1..] == Join(words[1..], " ");
      assert WordsAfter(words[0], rest) == NonEmpty(words[0]) + WordsAfter("", rest[1..]);
      assert [words[0]] + words[1..] == words;
    }
  }

  /** `raised` is `s` with the letters a to z replaced by A to Z. */
  ghost predicate IsRaised(raised: string, s: string) {
    && |raised| == |s|
    && forall i :: 0 <= i < |s| ==>
         if 'a' <= s[i] <= 'z' then raised[i] as int - 'A' as int == s[i] as int - 'a' as int
         else raised[i] == s[i]
  }

  /** The tag of a name is its words in upper case with underscores between them. */
  lemma TagOfWords(words: seq<string>)
    requires AreWords(words)
    ensures IsRaised(Tag(Join(words, " ")), Join(words, "_"))
  {
    ReadWords(words);
  }
}
