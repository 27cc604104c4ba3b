/**
 The section-recovery and version-note migrations, and the runner that applies migrations across
 crashes.

 The rows of `prompt_versions` are kept with their prompt, in version order.
 */
module Migrations {
  import opened Wrappers
  import opened Sections
  import History

  datatype VersionRow = VersionRow(number: nat, note: Option<string>, legacyNote: Option<string>,
                                   fields: seq<Section>, text: string)

  datatype PromptRow = PromptRow(id: int, fields: seq<Section>, text: string, currentNote: Option<string>,
                                 versions: seq<VersionRow>)

  /** `hasLegacyNote`: the column that the note migration adds is there. */
  datatype Db = Db(prompts: seq<PromptRow>, hasLegacyNote: bool)

  const RECOVERY_NOTE := "Before section recovery"

  ghost predicate UniqueIds(prompts: seq<PromptRow>) {
    forall i, j :: 0 <= i < j < |prompts| ==> prompts[i].id != prompts[j].id
  }

  // ----- 023: sections become the source of the text -----

  /** The rows as the version history sees them; neither column the note migration adds is there yet. */
  function AsVersions(versions: seq<VersionRow>): seq<History.Version> {
    seq(|versions|, i requires 0 <= i < |versions| =>
      History.Version(versions[i].number, versions[i].note, None, versions[i].fields, versions[i].text))
  }

  predicate Drifted(p: PromptRow) {
    Render(p.fields) != p.text
  }

  function RecoverySnapshot(p: PromptRow): VersionRow {
    VersionRow(History.NewestNumber(AsVersions(p.versions)) + 1, Some(RECOVERY_NOTE), None, p.fields, p.text)
  }

  /** A drifted prompt is kept as it was in a new version row and rebuilt from its text. */
  function Recovered(p: PromptRow): PromptRow {
    if !Drifted(p) then p else
      var fields := SectionsForText(p.text, p.fields);
      p.(fields := fields, text := Render(fields),
         versions := p.versions + [RecoverySnapshot(p)])
  }

  function RecoveredRows(rows: seq<PromptRow>): seq<PromptRow> {
    seq(|rows|, i requires 0 <= i < |rows| => Recovered(rows[i]))
  }

  function RecoverSections(db: Db): Db {
    db.(prompts := RecoveredRows(db.prompts))
  }

  /**
   Every text is a rendering afterwards, nothing is lost, the text only changes where it could not be
   read as sections, and a second run does nothing.
   */
  lemma RecoveryIsComplete(db: Db)
    ensures var after := RecoverSections(db);
            && |after.prompts| == |db.prompts|
            && (forall i :: 0 <= i < |db.prompts| ==> !Drifted(after.prompts[i]))
            && (forall i :: 0 <= i < |db.prompts| ==>
                  var p, q := db.prompts[i], after.prompts[i];
                  && (q.text == p.text <==> !Drifted(p) || Parsed(p.text, p.fields).Some?)
                  && p.versions <= q.versions
                  && (Drifted(p) ==> |q.versions| == |p.versions| + 1 && q.versions[|p.versions|].fields == p.fields
                                     && q.versions[|p.versions|].text == p.text))
            && RecoverSections(after) == after
  {
    forall i | 0 <= i < |db.prompts|
      ensures Recovered(db.prompts[i]).text == db.prompts[i].text <==>
              !Drifted(db.prompts[i]) || Parsed(db.prompts[i].text, db.prompts[i].fields).Some?
    {
      RecoveryRenders(db.prompts[i].text, db.prompts[i].fields);
    }
    var after := RecoverSections(db);
    assert forall i :: 0 <= i < |db.prompts| ==> Recovered(after.prompts[i]) == after.prompts[i];
  }

  /** No text is lost: one that could not be read as sections becomes the content of a single one. */
  lemma RecoveryLosesNoText(db: Db, i: nat)
    requires i < |db.prompts|
    ensures var p, q := db.prompts[i], RecoverSections(db).prompts[i];
            if Render(p.fields) == p.text then q == p
            else && q.id == p.id && q.currentNote == p.currentNote && q.text == Render(q.fields)
                 && if Parsed(p.text, p.fields).Some? then q.text == p.text else IsWhole(q.fields, p.text)
  {
    RecoveryKeepsText(db.prompts[i].text, db.prompts[i].fields);
  }

  /** What a drifted prompt was is kept under the next number, labelled as the state before its recovery. */
  lemma RecoveryIsLabelled(db: Db, i: nat)
    requires i < |db.prompts| && Render(db.prompts[i].fields) != db.prompts[i].text
    ensures var p, q := db.prompts[i], RecoverSections(db).prompts[i];
            && |q.versions| == |p.versions| + 1 && q.versions[..|p.versions|] == p.versions
            && var row := q.versions[|p.versions|];
               && row.note == Some("Before section recovery") && row.fields == p.fields && row.text == p.text
               && (forall k :: 0 <= k < |p.versions| ==> p.versions[k].number < row.number)
               && (p.versions == [] ==> row.number == 1)
               && (p.versions != [] ==> exists k :: 0 <= k < |p.versions| && row.number <= p.versions[k].number + 1)
  {
    var versions := AsVersions(db.prompts[i].versions);
    History.NewestIsGreatest(versions);
    if k :| 0 <= k < |versions| && versions[k].number == History.NewestNumber(versions) {
      assert db.prompts[i].versions[k].number == versions[k].number;
    }
    forall k | 0 <= k < |versions|
      ensures db.prompts[i].versions[k].number <= History.NewestNumber(versions)
    {
      assert versions[k].number == db.prompts[i].versions[k].number;
    }
  }

  // ----- 025: a note moves to the version it describes -----

  predicate IsRecovery(note: Option<string>) {
    note == Some(RECOVERY_NOTE)
  }

  predicate Truthy(note: Option<string>) {
    note.Some? && note.value != ""
  }

  function CarriedNote(note: Option<string>): Option<string> {
    if IsRecovery(note) then None else note
  }

  function MovedNote(previous: Option<string>, note: Option<string>): Option<string> {
    if Truthy(previous) then previous else if IsRecovery(note) then note else None
  }

  function Moved(v: VersionRow, previous: Option<string>): VersionRow {
    v.(legacyNote := v.note, note := MovedNote(previous, v.note))
  }

  function PreviousNote(versions: seq<VersionRow>, i: nat): Option<string>
    requires i < |versions|
  {
    if i == 0 then None else CarriedNote(versions[i - 1].note)
  }

  /** Each row takes the note its predecessor carried. */
  function MovedRows(versions: seq<VersionRow>): seq<VersionRow> {
    seq(|versions|, i requires 0 <= i < |versions| => Moved(versions[i], PreviousNote(versions, i)))
  }

  function NotesMoved(p: PromptRow): PromptRow {
    if p.versions == [] then p else
      p.(versions := MovedRows(p.versions), currentNote := CarriedNote(p.versions[|p.versions| - 1].note))
  }

  function NotesMovedIn(rows: seq<PromptRow>): seq<PromptRow> {
    seq(|rows|, i requires 0 <= i < |rows| => NotesMoved(rows[i]))
  }

  function MoveNotes(db: Db): Db {
    if db.hasLegacyNote then db else Db(NotesMovedIn(db.prompts), true)
  }

  /** Sections and text as before, every old note still readable. */
  ghost predicate KeepsRow(before: PromptRow, after: PromptRow) {
    && after.fields == before.fields && after.text == before.text && |after.versions| == |before.versions|
    && forall k :: 0 <= k < |before.versions| ==> after.versions[k].legacyNote == before.versions[k].note
  }

  lemma MovingKeepsRow(p: PromptRow)
    ensures KeepsRow(p, NotesMoved(p))
  {
    forall k | 0 <= k < |p.versions|
      ensures MovedRows(p.versions)[k].legacyNote == p.versions[k].note
    {
      assert MovedRows(p.versions)[k] == Moved(p.versions[k], PreviousNote(p.versions, k));
    }
  }

  /** The added column guards reruns, and the one run that moves the notes loses nothing. */
  lemma MovingIsGuarded(db: Db)
    ensures MoveNotes(MoveNotes(db)) == MoveNotes(db)
    ensures |MoveNotes(db).prompts| == |db.prompts|
    ensures !db.hasLegacyNote ==> forall i :: 0 <= i < |db.prompts| ==>
            KeepsRow(db.prompts[i], MoveNotes(db).prompts[i])
  {
    forall i | 0 <= i < |db.prompts|
      ensures KeepsRow(db.prompts[i], NotesMovedIn(db.prompts)[i])
    {
      MovingKeepsRow(db.prompts[i]);
    }
  }

  function NotesOf(versions: seq<VersionRow>): seq<Option<string>> {
    seq(|versions|, i requires 0 <= i < |versions| => versions[i].note)
  }

  /**
   One event under the present rule: an edit supersedes the live prompt with its note. The code has no
   recovery any more, so this rule is the model's: it keeps a snapshot under its own label, unless the
   live note belongs there, and leaves no live note.
   */
  function Recorded(p: History.PromptState, note: Option<string>): History.PromptState {
    if IsRecovery(note) then
      History.Snapshotted(p.(note := if Truthy(p.note) then p.note else note), None)
    else History.Snapshotted(p, note)
  }

  function Replayed(p: History.PromptState, notes: seq<Option<string>>): History.PromptState {
    if notes == [] then p else Recorded(Replayed(p, notes[..|notes| - 1]), notes[|notes| - 1])
  }

  function HistoryNotes(versions: seq<History.Version>): seq<Option<string>> {
    seq(|versions|, i requires 0 <= i < |versions| => versions[i].note)
  }

  function ReplayedNote(previous: Option<string>, note: Option<string>): Option<string> {
    if IsRecovery(note) && !Truthy(previous) then note else previous
  }

  function CarriedBefore(notes: seq<Option<string>>, i: nat): Option<string>
    requires i < |notes|
  {
    if i == 0 then None else CarriedNote(notes[i - 1])
  }

  lemma RecordedOne(p: History.PromptState, note: Option<string>)
    ensures var q := Recorded(p, note);
            && HistoryNotes(q.versions) == HistoryNotes(p.versions) + [ReplayedNote(p.note, note)]
            && q.note == CarriedNote(note)
  {
  }

  /** The notes of the versions that a replay stores. */
  function ReplayedNotes(notes: seq<Option<string>>): seq<Option<string>> {
    seq(|notes|, i requires 0 <= i < |notes| => ReplayedNote(CarriedBefore(notes, i), notes[i]))
  }

  function LiveNote(notes: seq<Option<string>>): Option<string> {
    if notes == [] then None else CarriedNote(notes[|notes| - 1])
  }

  lemma {:induction false} ReplayShifts(p: History.PromptState, notes: seq<Option<string>>)
    requires p.versions == [] && p.note == None
    ensures HistoryNotes(Replayed(p, notes).versions) == ReplayedNotes(notes)
    ensures Replayed(p, notes).note == LiveNote(notes)
  {
    if notes == [] {
    } else {
      var front, last := notes[..|notes| - 1], notes[|notes| - 1];
      ReplayShifts(p, front);
      RecordedOne(Replayed(p, front), last);
      ReplayedNotesOn(front, last);
      assert notes == front + [last];
    }
  }

  lemma ReplayedNotesOn(notes: seq<Option<string>>, note: Option<string>)
    ensures ReplayedNotes(notes + [note]) == ReplayedNotes(notes) + [ReplayedNote(LiveNote(notes), note)]
  {
    var longer := notes + [note];
    assert forall i :: 0 <= i < |notes| ==> CarriedBefore(longer, i) == CarriedBefore(notes, i);
    assert CarriedBefore(longer, |notes|) == LiveNote(notes);
  }

  function MovedNotes(notes: seq<Option<string>>): seq<Option<string>> {
    seq(|notes|, i requires 0 <= i < |notes| => MovedNote(CarriedBefore(notes, i), notes[i]))
  }

  lemma MovedNoteAt(versions: seq<VersionRow>, i: nat)
    requires i < |versions|
    ensures NotesOf(MovedRows(versions))[i] == MovedNote(PreviousNote(versions, i), versions[i].note)
  {
  }

  lemma MovedNotesEntry(versions: seq<VersionRow>, i: nat)
    requires i < |versions|
    ensures NotesOf(MovedRows(versions))[i] == MovedNotes(NotesOf(versions))[i]
  {
    MovedNoteAt(versions, i);
    assert PreviousNote(versions, i) == CarriedBefore(NotesOf(versions), i);
  }

  lemma MovedNotesAt(versions: seq<VersionRow>)
    ensures NotesOf(MovedRows(versions)) == MovedNotes(NotesOf(versions))
  {
    var notes := NotesOf(versions);
    forall i | 0 <= i < |versions|
      ensures NotesOf(MovedRows(versions))[i] == MovedNotes(notes)[i]
    {
      MovedNotesEntry(versions, i);
    }
  }

  lemma VersionsMoved(row: PromptRow)
    ensures NotesMoved(row).versions == MovedRows(row.versions)
  {
    assert row.versions == [] ==> MovedRows(row.versions) == [];
  }

  lemma LiveNoteMoved(row: PromptRow)
    requires row.currentNote == None
    ensures NotesMoved(row).currentNote == LiveNote(NotesOf(row.versions))
  {
    if row.versions == [] {
      assert NotesOf(row.versions) == [];
    } else {
      var last := |row.versions| - 1;
      assert NotesOf(row.versions)[last] == row.versions[last].note;
    }
  }

  /** An empty note on an edit that another edit follows: it is read as no note. */
  ghost predicate EmptyNoteInside(notes: seq<Option<string>>) {
    exists i :: 0 < i < |notes| && IsEmptyBeforeEdit(notes[i - 1], notes[i])
  }

  predicate IsEmptyBeforeEdit(previous: Option<string>, note: Option<string>) {
    previous == Some("") && !IsRecovery(note)
  }

  lemma MovedIsReplayed(previous: Option<string>, note: Option<string>)
    ensures MovedNote(CarriedNote(previous), note) == ReplayedNote(CarriedNote(previous), note)
            <==> !IsEmptyBeforeEdit(previous, note)
  {
    EmptyIsNoLabel();
  }

  lemma EmptyIsNoLabel()
    ensures !IsRecovery(Some(""))
  {
    assert |RECOVERY_NOTE| > 0;
  }

  lemma MovedAgainstReplayed(notes: seq<Option<string>>)
    ensures MovedNotes(notes) == ReplayedNotes(notes) <==> !EmptyNoteInside(notes)
  {
    forall i | 0 < i < |notes|
      ensures MovedNotes(notes)[i] == ReplayedNotes(notes)[i] <==> !IsEmptyBeforeEdit(notes[i - 1], notes[i])
    {
      MovedIsReplayed(notes[i - 1], notes[i]);
    }
  }

  /**
   The moved notes are those the present rule would have recorded for the same edits and recoveries,
   if and only if no edit with an empty note is followed by another edit.
   */
  lemma MovedMatchesReplay(row: PromptRow, p: History.PromptState)
    requires row.currentNote == None && p.versions == [] && p.note == None
    ensures var q := Replayed(p, NotesOf(row.versions));
            (NotesOf(NotesMoved(row).versions) == HistoryNotes(q.versions) && NotesMoved(row).currentNote == q.note)
            <==> !EmptyNoteInside(NotesOf(row.versions))
  {
    ReplayShifts(p, NotesOf(row.versions));
    VersionsMoved(row);
    MovedNotesAt(row.versions);
    LiveNoteMoved(row);
    MovedAgainstReplayed(NotesOf(row.versions));
  }

  /** Edits only, under the present rule: each supersedes the live prompt and leaves its note live. */
  function Edited(p: History.PromptState, notes: seq<Option<string>>): History.PromptState {
    if notes == [] then p else History.Snapshotted(Edited(p, notes[..|notes| - 1]), notes[|notes| - 1])
  }

  lemma {:induction false} EditsAreReplayed(p: History.PromptState, notes: seq<Option<string>>)
    requires Some(RECOVERY_NOTE) !in notes
    ensures Replayed(p, notes) == Edited(p, notes)
  {
    if notes == [] {
    } else {
      EditsAreReplayed(p, notes[..|notes| - 1]);
      assert notes[|notes| - 1] in notes;
    }
  }

  lemma EmptyAmongEdits(notes: seq<Option<string>>)
    requires Some(RECOVERY_NOTE) !in notes
    ensures EmptyNoteInside(notes) <==> exists i :: 0 <= i < |notes| - 1 && notes[i] == Some("")
  {
    if EmptyNoteInside(notes) {
      var i :| 0 < i < |notes| && IsEmptyBeforeEdit(notes[i - 1], notes[i]);
      assert notes[i - 1] == Some("");
    }
    if i :| 0 <= i < |notes| - 1 && notes[i] == Some("") {
      assert notes[i + 1] in notes;
      assert IsEmptyBeforeEdit(notes[i + 1 - 1], notes[i + 1]);
    }
  }

  /** Without recoveries the present snapshot rule alone decides: only the last edit's note may be empty. */
  lemma MovedMatchesEdits(row: PromptRow, p: History.PromptState)
    requires row.currentNote == None && p.versions == [] && p.note == None
    requires Some(RECOVERY_NOTE) !in NotesOf(row.versions)
    ensures var notes, q := NotesOf(row.versions), Edited(p, NotesOf(row.versions));
            (NotesOf(NotesMoved(row).versions) == HistoryNotes(q.versions) && NotesMoved(row).currentNote == q.note)
            <==> !exists i :: 0 <= i < |notes| - 1 && notes[i] == Some("")
  {
    MovedMatchesReplay(row, p);
    EditsAreReplayed(p, NotesOf(row.versions));
    EmptyAmongEdits(NotesOf(row.versions));
  }

  /** Two edits, the first with an empty note: the second version loses it, where the present rule keeps it. */
  lemma EmptyNoteLost(row: PromptRow, p: History.PromptState)
    requires row.currentNote == None && p.versions == [] && p.note == None
    requires NotesOf(row.versions) == [Some(""), None]
    ensures EmptyNoteInside(NotesOf(row.versions))
    ensures NotesOf(NotesMoved(row).versions) == [None, None]
    ensures HistoryNotes(Replayed(p, NotesOf(row.versions)).versions) == [None, Some("")]
  {
    var notes := NotesOf(row.versions);
    assert IsEmptyBeforeEdit(notes[1 - 1], notes[1]);
    EmptyIsNoLabel();
    ReplayShifts(p, notes);
    VersionsMoved(row);
    MovedNotesAt(row.versions);
    LiveNoteMoved(row);
  }

  /** With recoveries too: a note moves on by one row, a recovery label moves nowhere, and the last note goes live. */
  lemma NotesMoveByOne(row: PromptRow, i: nat)
    requires i < |row.versions| && Truthy(row.versions[i].note)
    ensures var notes := NotesOf(NotesMoved(row).versions);
            var note := row.versions[i].note;
            if IsRecovery(note) then
              && (notes[i] == note <==> i == 0 || !Truthy(CarriedNote(row.versions[i - 1].note)))
              && (i + 1 == |notes| ==> NotesMoved(row).currentNote == None)
              && (i + 1 < |notes| ==> (notes[i + 1] == note <==> IsRecovery(row.versions[i + 1].note)))
            else if i + 1 < |notes| then notes[i + 1] == note
            else NotesMoved(row).currentNote == note
  {
    MovedNoteAt(row.versions, i);
    if i + 1 < |row.versions| {
      MovedNoteAt(row.versions, i + 1);
    }
    if 0 < i {
      assert !IsRecovery(CarriedNote(row.versions[i - 1].note));
    }
  }

  class Database {
    var prompts: seq<PromptRow>
    var hasLegacyNote: bool

    function Contents(): Db
      reads this
    {
      Db(prompts, hasLegacyNote)
    }

    method Migration023()
      modifies this
      ensures Contents() == RecoverSections(old(Contents()))
    {
      prompts := RecoverRows(prompts);
    }

    method Migration025()
      requires UniqueIds(prompts)
      modifies this
      ensures Contents() == MoveNotes(old(Contents()))
    {
      if hasLegacyNote {
        return;
      }
      hasLegacyNote := true;
      prompts := MoveNotesIn(prompts);
    }
  }

  /** What the loop over the version rows remembers: the last carried note of each prompt it has been through. */
  ghost predicate Remembers(rows: seq<PromptRow>, i: nat, previous: map<int, Option<string>>)
    requires i <= |rows|
  {
    && (forall k :: 0 <= k < |rows| ==> (rows[k].id in previous <==> k < i && rows[k].versions != []))
    && (forall k :: 0 <= k < i && rows[k].versions != [] ==> previous[rows[k].id] == LastCarried(rows[k].versions))
  }

  function LastCarried(versions: seq<VersionRow>): Option<string>
    requires versions != []
  {
    CarriedNote(versions[|versions| - 1].note)
  }

  lemma RemembersOn(rows: seq<PromptRow>, i: nat, before: map<int, Option<string>>)
    requires i < |rows| && UniqueIds(rows) && Remembers(rows, i, before)
    ensures var row := rows[i];
            Remembers(rows, i + 1, if row.versions == [] then before else before[row.id := LastCarried(row.versions)])
  {
  }

  method MoveNotesIn(rows: seq<PromptRow>) returns (prompts: seq<PromptRow>)
    requires UniqueIds(rows)
    ensures prompts == NotesMovedIn(rows)
  {
    prompts := [];
    var previous: map<int, Option<string>> := map[];
    for i := 0 to |rows|
      invariant |prompts| == i && Remembers(rows, i, previous)
      invariant forall k :: 0 <= k < i ==> prompts[k] == rows[k].(versions := MovedRows(rows[k].versions))
    {
      var moved;
      RemembersOn(rows, i, previous);
      moved, previous := MoveRows(rows[i].id, rows[i].versions, previous);
      prompts := prompts + [rows[i].(versions := moved)];
    }
    for i := 0 to |rows|
      invariant |prompts| == |rows|
      invariant forall k :: 0 <= k < i ==> prompts[k] == NotesMoved(rows[k])
      invariant forall k :: i <= k < |rows| ==> prompts[k] == rows[k].(versions := MovedRows(rows[k].versions))
    {
      VersionsMoved(rows[i]);
      if prompts[i].id in previous {
        prompts := prompts[i := prompts[i].(currentNote := previous[prompts[i].id])];
      }
    }
  }

  /** A drifted prompt gets a version row first, then new sections and text. */
  method RecoverRow(row: PromptRow) returns (after: PromptRow)
    ensures after == Recovered(row)
  {
    if Render(row.fields) == row.text {
      return row;
    }
    var recovered := SectionsForText(row.text, row.fields);
    after := PromptRow(row.id, recovered, Render(recovered), row.currentNote, row.versions + [RecoverySnapshot(row)]);
  }

  method RecoverRows(rows: seq<PromptRow>) returns (prompts: seq<PromptRow>)
    ensures prompts == RecoveredRows(rows)
  {
    prompts := [];
    for i := 0 to |rows|
      invariant |prompts| == i
      invariant prompts == RecoveredRows(rows)[..i]
    {
      var after := RecoverRow(rows[i]);
      ghost var all := RecoveredRows(rows);
      assert all[..i + 1] == all[..i] + [all[i]];
      prompts := prompts + [after];
    }
  }

  lemma MovedRowsGrow(versions: seq<VersionRow>, j: nat)
    requires j < |versions|
    ensures MovedRows(versions)[..j + 1]
         == MovedRows(versions)[..j] + [Moved(versions[j], PreviousNote(versions, j))]
  {
    var all := MovedRows(versions);
    assert all[j] == Moved(versions[j], PreviousNote(versions, j));
    assert all[..j + 1] == all[..j] + [all[j]];
  }

  /** One prompt's turn of the loop over all version rows. */
  method MoveRows(id: int, versions: seq<VersionRow>, before: map<int, Option<string>>)
    returns (moved: seq<VersionRow>, previous: map<int, Option<string>>)
    requires id !in before
    ensures moved == MovedRows(versions)
    ensures previous == if versions == [] then before else before[id := LastCarried(versions)]
  {
    moved, previous := [], before;
    for j := 0 to |versions|
      invariant moved == MovedRows(versions)[..j]
      invariant previous == if j == 0 then before else before[id := CarriedNote(versions[j - 1].note)]
    {
      var row := versions[j];
      var recovery := IsRecovery(row.note);
      var last := if id in previous then previous[id] else None;
      var note := if Truthy(last) then last else if recovery then row.note else None;
      MovedRowsGrow(versions, j);
      moved := moved + [row.(legacyNote := row.note, note := note)];
      previous := previous[id := if recovery then None else row.note];
    }
  }

  // ----- the runner -----

  datatype Migration<!D> = Migration(version: string, apply: D -> D)

  datatype Progress<D> = Progress(db: D, applied: set<string>)

  /** A run that is cut off after `budget` transactions: a migration is one, recording it another. */
  function CutShort<D>(migrations: seq<Migration<D>>, p: Progress<D>, budget: nat): Progress<D>
    decreases |migrations|
  {
    if migrations == [] then p
    else if migrations[0].version in p.applied then CutShort(migrations[1..], p, budget)
    else if budget == 0 then p
    else
      var migrated := p.(db := migrations[0].apply(p.db));
      if budget == 1 then migrated
      else CutShort(migrations[1..], migrated.(applied := p.applied + {migrations[0].version}), budget - 2)
  }

  function Complete<D>(migrations: seq<Migration<D>>, p: Progress<D>): Progress<D>
    decreases |migrations|
  {
    if migrations == [] then p
    else if migrations[0].version in p.applied then Complete(migrations[1..], p)
    else Complete(migrations[1..], Progress(migrations[0].apply(p.db), p.applied + {migrations[0].version}))
  }

  ghost function AfterCrashes<D>(migrations: seq<Migration<D>>, p: Progress<D>, budgets: seq<nat>): Progress<D>
    decreases |budgets|
  {
    if budgets == [] then p else AfterCrashes(migrations, CutShort(migrations, p, budgets[0]), budgets[1..])
  }

  /** Applying a migration that was applied but not recorded changes nothing. */
  ghost predicate Rerunnable<D(!new)>(migrations: seq<Migration<D>>) {
    forall i, db :: 0 <= i < |migrations| ==> migrations[i].apply(migrations[i].apply(db)) == migrations[i].apply(db)
  }

  lemma {:induction false} CutShortKeepsApplied<D>(migrations: seq<Migration<D>>, p: Progress<D>, budget: nat)
    ensures p.applied <= CutShort(migrations, p, budget).applied
    decreases |migrations|
  {
    if migrations == [] {
    } else {
      if migrations[0].version in p.applied {
        CutShortKeepsApplied(migrations[1..], p, budget);
      } else if 2 <= budget {
        var recorded := Progress(migrations[0].apply(p.db), p.applied + {migrations[0].version});
        CutShortKeepsApplied(migrations[1..], recorded, budget - 2);
      }
    }
  }

  lemma {:induction false} OneCrash<D(!new)>(migrations: seq<Migration<D>>, p: Progress<D>, budget: nat)
    requires Rerunnable(migrations)
    ensures Complete(migrations, CutShort(migrations, p, budget)) == Complete(migrations, p)
    decreases |migrations|
  {
    if migrations == [] {
    } else {
      assert Rerunnable(migrations[1..]) by {
        assert forall i :: 0 <= i < |migrations| - 1 ==> migrations[1..][i] == migrations[i + 1];
      }
      CutShortKeepsApplied(migrations, p, budget);
      if migrations[0].version in p.applied {
        OneCrash(migrations[1..], p, budget);
      } else if 2 <= budget {
        var recorded := Progress(migrations[0].apply(p.db), p.applied + {migrations[0].version});
        CutShortKeepsApplied(migrations[1..], recorded, budget - 2);
        OneCrash(migrations[1..], recorded, budget - 2);
      }
    }
  }

  /** However often and wherever runs are cut off, the next complete run ends where a clean one would have. */
  lemma {:induction false} CrashesDoNotMatter<D(!new)>(migrations: seq<Migration<D>>, p: Progress<D>, budgets: seq<nat>)
    requires Rerunnable(migrations)
    ensures Complete(migrations, AfterCrashes(migrations, p, budgets)) == Complete(migrations, p)
    decreases |budgets|
  {
    if budgets == [] {
    } else {
      OneCrash(migrations, p, budgets[0]);
      CrashesDoNotMatter(migrations, CutShort(migrations, p, budgets[0]), budgets[1..]);
    }
  }

  function Registry(): seq<Migration<Db>> {
    [Migration("023_recover_drifted_prompt_sections", db => RecoverSections(db)),
     Migration("025_version_notes", db => MoveNotes(db))]
  }

  /** For the two migrations: crashes leave no trace, and in the end every text is a rendering. */
  lemma MigrationsSurviveCrashes(db: Db, budgets: seq<nat>)
    ensures var end := Complete(Registry(), AfterCrashes(Registry(), Progress(db, {}), budgets));
            && end.db == MoveNotes(RecoverSections(db))
            && end.applied == {"023_recover_drifted_prompt_sections", "025_version_notes"}
            && forall i :: 0 <= i < |end.db.prompts| ==> !Drifted(end.db.prompts[i])
  {
    var ms := Registry();
    forall i, d: Db | 0 <= i < |ms|
      ensures ms[i].apply(ms[i].apply(d)) == ms[i].apply(d)
    {
      RecoveryIsComplete(d);
      MovingIsGuarded(d);
    }
    CrashesDoNotMatter(ms, Progress(db, {}), budgets);
    RecoveryIsComplete(db);
    MovingIsGuarded(RecoverSections(db));
    var first, second := "023_recover_drifted_prompt_sections", "025_version_notes";
    assert first != second by {
      assert first[1] != second[1] || first[2] != second[2];
    }
    assert ms[1..] == [ms[1]] && ms[1..][1..] == [];
    assert Complete(ms, Progress(db, {})) == Complete([ms[1]], Progress(RecoverSections(db), {first}));
  }

  class Runner<!D> {
    var db: D
    var applied: set<string>

    constructor (db: D, applied: set<string>)
      ensures this.db == db && this.applied == applied
    {
      this.db, this.applied := db, applied;
    }

    /** Apply and record what is pending, in order, until `budget` transactions have been committed. */
    method RunMigrations(migrations: seq<Migration<D>>, budget: nat)
      modifies this
      ensures Progress(db, applied) == CutShort(migrations, Progress(old(db), old(applied)), budget)
    {
      var left := budget;
      for i := 0 to |migrations|
        invariant CutShort(migrations[i..], Progress(db, applied), left) ==
                  CutShort(migrations, Progress(old(db), old(applied)), budget)
      {
        var rest := migrations[i..];
        assert rest[0] == migrations[i] && rest[1..] == migrations[i + 1..];
        if migrations[i].version in applied {
          continue;
        }
        if left == 0 {
          return;
        }
        db := migrations[i].apply(db);
        if left == 1 {
          return;
        }
        applied := applied + {migrations[i].version};
        left := left - 2;
      }
    }
  }
}
