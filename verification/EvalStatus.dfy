/** Which version of a prompt an evaluation run tested, and the library's one-pass status of every prompt. */
module EvalStatus {
  import opened Wrappers
  import opened Sections
  import opened History

  type PromptId = int

  /** A stored run; runs from before tested text was kept have none. */
  datatype Run = Run(promptId: PromptId, testedText: Option<string>, versionNumber: nat, score: Option<real>)

  datatype Description = Description(testedVersion: Option<nat>, matchesCurrent: bool)

  datatype Status = Untested | Stale | Current(score: Option<real>)

  // ----- what a run tested -----

  /** The text to test and its version number; 0 marks a draft that is not the saved prompt. */
  function TestedText(p: PromptState, draft: Option<seq<Section>>): (string, nat) {
    var text := match draft case None => p.text case Some(fields) => Render(fields);
    (text, if text != p.text then 0 else LiveNumber(p))
  }

  /** Version numbers with their texts, the live prompt last. */
  function SavedTexts(p: PromptState): seq<(nat, string)> {
    seq(|p.versions|, i requires 0 <= i < |p.versions| => (p.versions[i].number, p.versions[i].text))
        + [(LiveNumber(p), p.text)]
  }

  function FirstWith(texts: seq<(nat, string)>, text: string): Option<nat> {
    if texts == [] then None else if texts[0].1 == text then Some(texts[0].0) else FirstWith(texts[1..], text)
  }

  function Describe(p: PromptState, run: Run): Description {
    match run.testedText
    case None => Description(Some(run.versionNumber), run.versionNumber == LiveNumber(p))
    case Some(text) =>
      Description(if run.versionNumber != 0 then Some(run.versionNumber)
          else FirstWith(SavedTexts(p), text), text == p.text)
  }

  method DescribeRuns(p: PromptState, runs: seq<Run>) returns (described: seq<Description>)
    ensures |described| == |runs| && forall i :: 0 <= i < |runs| ==> described[i] == Describe(p, runs[i])
  {
    var live := LiveNumber(p);
    var savedTexts: Option<seq<(nat, string)>> := None;
    described := [];
    for i := 0 to |runs|
      invariant |described| == i && forall k :: 0 <= k < i ==> described[k] == Describe(p, runs[k])
      invariant savedTexts.Some? ==> savedTexts.value == SavedTexts(p)
    {
      var run := runs[i];
      if run.testedText.None? {
        described := described + [Description(Some(run.versionNumber), run.versionNumber == live)];
        continue;
      }
      var version := if run.versionNumber != 0 then Some(run.versionNumber) else None;
      if version.None? {
        if savedTexts.None? {
          savedTexts := Some(SavedTexts(p));
        }
        version := FirstWith(savedTexts.value, run.testedText.value);
      }
      described := described + [Description(version, run.testedText.value == p.text)];
    }
  }

  ghost predicate HasText(p: PromptState, n: nat, text: string) {
    1 <= n <= |p.versions| + 1 && ContentAt(p, n).text == text
  }

  lemma {:induction false} FirstIsLeast(texts: seq<(nat, string)>, from: nat, text: string)
    requires forall i :: 0 <= i < |texts| ==> texts[i].0 == from + i
    ensures match FirstWith(texts, text)
            case None => forall i :: 0 <= i < |texts| ==> texts[i].1 != text
            case Some(n) => from <= n < from + |texts| && texts[n - from].1 == text
                            && forall i :: 0 <= i < n - from ==> texts[i].1 != text
  {
    if texts == [] {
    } else {
      FirstIsLeast(texts[1..], from + 1, text);
    }
  }

  /** A draft's version is the least one holding its text, if any does. */
  lemma DraftVersionIsLeast(p: PromptState, text: string)
    requires Numbered(p.versions)
    ensures match FirstWith(SavedTexts(p), text)
            case None => forall n :: !HasText(p, n, text)
            case Some(n) => HasText(p, n, text) && forall m :: HasText(p, m, text) ==> n <= m
  {
    NewestOfNumbered(p.versions);
    var texts := SavedTexts(p);
    FirstIsLeast(texts, 1, text);
    forall n | HasText(p, n, text)
      ensures texts[n - 1].1 == text
    {
    }
  }

  /**
   A run recorded with a version number keeps testing that version's text: whatever is written later,
   the number still names the text that was tested. Only a draft is recorded without one.
   */
  lemma RunsStayTied(p: PromptState, draft: Option<seq<Section>>, run: seq<Write>)
    requires Inv(p)
    ensures var (text, n) := TestedText(p, draft);
            if n == 0 then text != p.text else HasText(After(p, run), n, text)
  {
    HistoryIsKept(p, run);
    NewestOfNumbered(p.versions);
    assert ContentAt(After(p, run), |p.versions| + 1) == ContentAt(p, |p.versions| + 1);
  }

  /** Once some version holds a draft's text, the version reported for it never changes. */
  lemma DraftVersionIsStable(p: PromptState, text: string, run: seq<Write>)
    requires Inv(p) && FirstWith(SavedTexts(p), text).Some?
    ensures FirstWith(SavedTexts(After(p, run)), text) == FirstWith(SavedTexts(p), text)
  {
    var q := After(p, run);
    TextsStay(p, text, run);
    DraftVersionIsLeast(p, text);
    DraftVersionIsLeast(q, text);
    var n, m := FirstWith(SavedTexts(p), text).value, FirstWith(SavedTexts(q), text);
    assert HasText(q, n, text);
    assert m.Some? && m.value <= n;
    assert HasText(p, m.value, text);
  }

  lemma TextsStay(p: PromptState, text: string, run: seq<Write>)
    requires Inv(p)
    ensures Numbered(After(p, run).versions)
    ensures forall n :: HasText(p, n, text) ==> HasText(After(p, run), n, text)
    ensures forall n :: 1 <= n <= |p.versions| + 1 && HasText(After(p, run), n, text) ==> HasText(p, n, text)
  {
    HistoryIsKept(p, run);
    assert forall n :: 1 <= n <= |p.versions| + 1 ==> ContentAt(After(p, run), n) == ContentAt(p, n);
  }

  // ----- the library's status -----

  /** The one-pass test: the text matches, or the run kept only a number and it is the live one. */
  predicate IsCurrent(p: PromptState, run: Run) {
    run.testedText == Some(p.text) || (run.testedText.None? && run.versionNumber == NewestNumber(p.versions) + 1)
  }

  function StatusOf(status: map<PromptId, Status>, id: PromptId): Status {
    if id in status then status[id] else Untested
  }

  /** The status a prompt has from its runs, newest first. */
  ghost predicate StatusFits(p: PromptState, id: PromptId, runs: seq<Run>, status: Status) {
    match status
    case Untested => forall i :: 0 <= i < |runs| ==> runs[i].promptId != id
    case Stale =>
      && (exists i :: 0 <= i < |runs| && runs[i].promptId == id)
      && (forall i :: 0 <= i < |runs| && runs[i].promptId == id ==> !Describe(p, runs[i]).matchesCurrent)
    case Current(score) =>
      exists i :: 0 <= i < |runs| && runs[i].promptId == id && Describe(p, runs[i]).matchesCurrent
          && score == runs[i].score
                  && forall k :: 0 <= k < i && runs[k].promptId == id ==> !Describe(p, runs[k]).matchesCurrent
  }

  lemma FitsOn(p: PromptState, id: PromptId, runs: seq<Run>, run: Run, before: Status)
    requires StatusFits(p, id, runs, before)
    ensures var after := if run.promptId != id then before
                         else if before.Current? then before
                         else if Describe(p, run).matchesCurrent then Current(run.score) else Stale;
            StatusFits(p, id, runs + [run], after)
  {
    var runs' := runs + [run];
    assert forall i :: 0 <= i < |runs| ==> runs'[i] == runs[i];
    assert runs'[|runs|] == run;
    if before.Current? {
      var i :| 0 <= i < |runs| && runs[i].promptId == id && Describe(p, runs[i]).matchesCurrent
          && before.score == runs[i].score
               && forall k :: 0 <= k < i && runs[k].promptId == id ==> !Describe(p, runs[k]).matchesCurrent;
      assert runs'[i] == runs[i];
    } else if before.Stale? {
      var i :| 0 <= i < |runs| && runs[i].promptId == id;
      assert runs'[i].promptId == id;
    }
  }

  /**
   One pass over all the runs of a library, newest first, gives each prompt the status its described
   runs give it: current with the newest matching run's score, stale with other runs only, else untested.
   */
  method AnnotateEvalStatus(prompts: map<PromptId, PromptState>, runs: seq<Run>) returns (status: map<PromptId, Status>)
    requires forall i :: 0 <= i < |runs| ==> runs[i].promptId in prompts
    ensures forall id :: id in prompts ==> StatusFits(prompts[id], id, runs, StatusOf(status, id))
  {
    status := map[];
    for i := 0 to |runs|
      invariant forall id :: id in status ==> status[id] != Untested
      invariant forall id :: id in prompts ==> StatusFits(prompts[id], id, runs[..i], StatusOf(status, id))
    {
      var run := runs[i];
      var id := run.promptId;
      ghost var before := status;
      if IsCurrent(prompts[id], run) && (id !in status || status[id] == Stale) {
        status := status[id := Current(run.score)];
      }
      if id !in status {
        status := status[id := Stale];
      }
      assert IsCurrent(prompts[id], run) == Describe(prompts[id], run).matchesCurrent;
      forall other | other in prompts
        ensures StatusFits(prompts[other], other, runs[..i + 1], StatusOf(status, other))
      {
        FitsOn(prompts[other], other, runs[..i], run, StatusOf(before, other));
        assert runs[..i + 1] == runs[..i] + [run];
      }
    }
    assert runs[..|runs|] == runs;
  }

  // ----- what a recorded run is described as later -----

  /**
   A run recorded now and described after any writes: its version is the recorded one, or for a draft the
   least that has its text by then; it matches exactly while the live text is the one it tested.
   */
  lemma DescribedLater(p: PromptState, id: PromptId, draft: Option<seq<Section>>, score: Option<real>,
                       writes: seq<Write>)
    requires Inv(p)
    ensures var (text, n) := TestedText(p, draft);
            var q := After(p, writes);
            var d := Describe(q, Run(id, Some(text), n, score));
            && text == (match draft case None => p.text case Some(fields) => Render(fields))
            && (text == p.text <==> n != 0)
            && (d.matchesCurrent <==> text == q.text)
            && (n != 0 ==> d.testedVersion == Some(n) && HasText(q, n, text))
            && (n == 0 ==> if d.testedVersion.None? then forall m :: !HasText(q, m, text)
                           else HasText(q, d.testedVersion.value, text)
                                && forall m :: HasText(q, m, text) ==> d.testedVersion.value <= m)
  {
    RunsStayTied(p, draft, writes);
    TextsStay(p, p.text, writes);
    DraftVersionIsLeast(After(p, writes), TestedText(p, draft).0);
  }

  /** A run from before texts were kept has its number, and matches while that is the live one. */
  lemma LegacyDescribed(p: PromptState, id: PromptId, n: nat, score: Option<real>)
    requires Numbered(p.versions)
    ensures Describe(p, Run(id, None, n, score)) == Description(Some(n), n == |p.versions| + 1)
  {
    NewestOfNumbered(p.versions);
  }
}
