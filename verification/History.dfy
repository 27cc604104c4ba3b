/**
 A saved prompt, its version history and its optimistic concurrency stamps.

 A version row captures the prompt before a write, so the live prompt is one version newer than the
 newest row. Times are whole microseconds, and the clock may read anything.
 */
module History {
  import opened Wrappers
  import opened Sections
  import opened Numerals

  /** What an input is for; stored items may lack any of these. */
  datatype VariableItem = VariableItem(
    kind: Option<string>,
    description: Option<string>,
    required: Option<bool>,
    example: Option<string>,
    options: Option<seq<string>>)

  type Metadata = map<string, VariableItem>

  datatype Version = Version(number: nat, note: Option<string>, metadata: Option<Metadata>, fields: seq<Section>,
                             text: string)

  datatype PromptState = PromptState(
    name: Option<string>,
    folder: Option<string>,
    favorite: bool,
    fields: seq<Section>,
    text: string,
    metadata: Option<Metadata>,
    note: Option<string>,
    knownGood: Option<nat>,
    createdAt: int,
    updatedAt: Option<int>,
    contentUpdatedAt: Option<int>,
    versions: seq<Version>)

  /** A PATCH request: what is not given is not touched. */
  datatype Update = Update(
    name: Option<string>,
    fields: Option<seq<Section>>,
    folder: Option<string>,
    favorite: Option<bool>,
    knownGood: Option<nat>,
    metadata: Option<Metadata>,
    note: Option<string>,
    lastUpdatedAt: Option<int>)

  datatype WriteError = Conflict | VersionNotFound

  // ----- stamps -----

  const RESOLUTION := 1000
  const COMPARISON_EPSILON := 500

  function NextWriteStamp(now: int, previous: Option<int>): int {
    var stamp := now - now % RESOLUTION;
    if previous.None? || previous.value + RESOLUTION <= stamp then stamp else previous.value + RESOLUTION
  }

  predicate IsStale(stored: int, supplied: int) {
    stored - supplied > COMPARISON_EPSILON || supplied - stored > COMPARISON_EPSILON
  }

  /** The stamp a client last saw. */
  function Stamp(p: PromptState): int {
    if p.updatedAt.Some? then p.updatedAt.value else p.createdAt
  }

  // ----- versions -----

  function NewestNumber(versions: seq<Version>): nat {
    if versions == [] then 0 else
      var others := NewestNumber(versions[..|versions| - 1]);
      var last := versions[|versions| - 1].number;
      if last < others then others else last
  }

  function LiveNumber(p: PromptState): nat {
    NewestNumber(p.versions) + 1
  }

  function OrEmpty(metadata: Option<Metadata>): Metadata {
    if metadata.Some? then metadata.value else map[]
  }

  // ----- items as the request schema reads them -----

  /** Stripped options, blank ones and repeats left out. */
  function KeptOptions(options: seq<string>): seq<string> {
    if options == [] then [] else
      var kept, option := KeptOptions(options[..|options| - 1]), Strip(options[|options| - 1]);
      if option == "" || option in kept then kept else kept + [option]
  }

  /** Defaults filled in and choices tidied; no choices left means free text. */
  function Validated(item: VariableItem): VariableItem {
    item.(kind := if item.kind.Some? then item.kind else Some("text"),
          required := if item.required.Some? then item.required else Some(false),
          options := if item.options.None? || KeptOptions(item.options.value) == [] then None
                     else Some(KeptOptions(item.options.value)))
  }

  function ValidatedAll(metadata: Metadata): Metadata {
    map name | name in metadata :: Validated(metadata[name])
  }

  ghost predicate AreTidy(options: seq<string>) {
    && (forall i :: 0 <= i < |options| ==> options[i] != "" && Strip(options[i]) == options[i])
    && (forall i, j :: 0 <= i < j < |options| ==> options[i] != options[j])
  }

  lemma {:induction false} KeptAreTidy(options: seq<string>)
    ensures AreTidy(KeptOptions(options))
  {
    if options == [] {
    } else {
      KeptAreTidy(options[..|options| - 1]);
      StripTwice(options[|options| - 1]);
    }
  }

  lemma {:induction false} TidyAreKept(options: seq<string>)
    requires AreTidy(options)
    ensures KeptOptions(options) == options
  {
    if options == [] {
    } else {
      var front := options[..|options| - 1];
      TidyAreKept(front);
      assert options == front + [options[|options| - 1]];
    }
  }

  /** Validating what was validated changes nothing, so stored items compare as they were sent. */
  lemma ValidatedTwice(metadata: Metadata)
    ensures ValidatedAll(ValidatedAll(metadata)) == ValidatedAll(metadata)
  {
    forall name | name in metadata
      ensures Validated(Validated(metadata[name])) == Validated(metadata[name])
    {
      if metadata[name].options.Some? {
        KeptAreTidy(metadata[name].options.value);
        TidyAreKept(KeptOptions(metadata[name].options.value));
      }
    }
  }

  function Sent(metadata: Option<Metadata>): Option<Metadata> {
    if metadata.Some? then Some(ValidatedAll(metadata.value)) else None
  }

  function Shown(metadata: Option<Metadata>): Metadata {
    ValidatedAll(OrEmpty(metadata))
  }

  function Snapshotted(p: PromptState, note: Option<string>): PromptState {
    p.(versions := p.versions + [Version(LiveNumber(p), p.note, Some(OrEmpty(p.metadata)), p.fields, p.text)],
       note := note)
  }

  function RestoreNote(number: nat): string {
    "Restore to v" + Decimal(number)
  }

  function RestoredTo(p: PromptState, v: Version): PromptState {
    var fields := SectionsForText(v.text, v.fields);
    Snapshotted(p, Some(RestoreNote(v.number))).(
    fields := fields,
    text := Render(fields),
    metadata := if v.metadata.Some? then v.metadata else p.metadata)
  }

  // ----- writes -----

  function Created(name: string, fields: seq<Section>, folder: Option<string>, metadata: Option<Metadata>,
                   now: int): PromptState
  {
    PromptState(Some(name), folder, false, fields, Render(fields),
                if OrEmpty(metadata) == map[] then None else Sent(metadata), None, None, now, None, None, [])
  }

  predicate ContentChanged(p: PromptState, u: Update) {
    || (u.fields.Some? && u.fields.value != p.fields)
    || (u.metadata.Some? && ValidatedAll(u.metadata.value) != Shown(p.metadata))
  }

  predicate Overtaken(p: PromptState, u: Update) {
    u.lastUpdatedAt.Some? && IsStale(Stamp(p), u.lastUpdatedAt.value)
  }

  predicate NamesMissingVersion(p: PromptState, u: Update) {
    u.knownGood.Some? && LiveNumber(p) + (if ContentChanged(p, u) then 1 else 0) < u.knownGood.value
  }

  function Refusal(p: PromptState, u: Update): Option<WriteError> {
    if Overtaken(p, u) then Some(Conflict) else if NamesMissingVersion(p, u) then Some(VersionNotFound) else None
  }

  function Filed(p: PromptState, u: Update): PromptState {
    p.(name := if u.name.Some? then u.name else p.name,
       folder := if u.folder.Some? then u.folder else p.folder,
       favorite := if u.favorite.Some? then u.favorite.value else p.favorite,
       knownGood := if u.knownGood == Some(0) then None else if u.knownGood.Some? then u.knownGood else p.knownGood)
  }

  function Written(p: PromptState, u: Update): PromptState {
    p.(fields := if u.fields.Some? then u.fields.value else p.fields,
       text := if u.fields.Some? then Render(u.fields.value) else p.text,
       metadata := if u.metadata.Some? then Sent(u.metadata) else p.metadata)
  }

  function Updated(p: PromptState, u: Update, now: int): PromptState {
    if Refusal(p, u).Some? then p else
      var changed := ContentChanged(p, u);
      var kept := if changed then Snapshotted(p, u.note) else p;
      var stamp := NextWriteStamp(now, Some(Stamp(p)));
      Written(Filed(kept, u), u).(
      updatedAt := Some(stamp),
      contentUpdatedAt := if changed then Some(stamp) else p.contentUpdatedAt)
  }

  /** Restore the version in row `row` of the prompt's history, if there is one. */
  function Restored(p: PromptState, row: nat, now: int): PromptState {
    if |p.versions| <= row then p else
      var stamp := NextWriteStamp(now, Some(Stamp(p)));
      RestoredTo(p, p.versions[row]).(updatedAt := Some(stamp), contentUpdatedAt := Some(stamp))
  }

  // ----- the prompt row -----

  class Prompt {
    var name: Option<string>
    var folder: Option<string>
    var favorite: bool
    var fields: seq<Section>
    var text: string
    var metadata: Option<Metadata>
    var note: Option<string>
    var knownGood: Option<nat>
    var createdAt: int
    var updatedAt: Option<int>
    var contentUpdatedAt: Option<int>
    var versions: seq<Version>

    function State(): PromptState
      reads this
    {
      PromptState(name, folder, favorite, fields, text, metadata, note, knownGood, createdAt, updatedAt,
                  contentUpdatedAt, versions)
    }

    constructor Create(name: string, fields: seq<Section>, folder: Option<string>, metadata: Option<Metadata>, now: int)
      ensures State() == Created(name, fields, folder, metadata, now)
    {
      this.name, this.folder, this.favorite := Some(name), folder, false;
      this.fields, this.text := fields, Render(fields);
      this.metadata := if OrEmpty(metadata) == map[] then None else Sent(metadata);
      note, knownGood, createdAt, updatedAt, contentUpdatedAt, versions := None, None, now, None, None, [];
    }

    method CurrentVersionNumber() returns (n: nat)
      ensures n == NewestNumber(versions)
    {
      n := 0;
      for i := 0 to |versions|
        invariant n == NewestNumber(versions[..i])
      {
        assert versions[..i + 1][..i] == versions[..i];
        if n < versions[i].number {
          n := versions[i].number;
        }
      }
      assert versions[..|versions|] == versions;
    }

    method Snapshot(note: Option<string>)
      modifies this
      ensures State() == Snapshotted(old(State()), note)
    {
      var number := CurrentVersionNumber();
      var version := Version(number + 1, this.note, Some(if metadata.Some? then metadata.value else map[]),
                             fields, text);
      this.note := note;
      versions := versions + [version];
    }

    method RestoreFrom(version: Version)
      modifies this
      ensures State() == RestoredTo(old(State()), version)
    {
      Snapshot(Some("Restore to v" + Decimal(version.number)));
      fields := SectionsForText(version.text, version.fields);
      text := Render(fields);
      if version.metadata.Some? {
        metadata := version.metadata;
      }
    }

    method Restore(row: nat, now: int) returns (r: Result<(), WriteError>)
      modifies this
      ensures State() == Restored(old(State()), row, now)
      ensures r == if row < |old(versions)| then Success(()) else Failure(VersionNotFound)
    {
      if |versions| <= row {
        return Failure(VersionNotFound);
      }
      RestoreFrom(versions[row]);
      updatedAt := Some(NextWriteStamp(now, Some(if updatedAt.Some? then updatedAt.value else createdAt)));
      contentUpdatedAt := updatedAt;
      return Success(());
    }

    method File(body: Update)
      modifies `name, `folder, `favorite, `knownGood
      ensures State() == Filed(old(State()), body)
    {
      if body.name.Some? {
        name := body.name;
      }
      if body.folder.Some? {
        folder := body.folder;
      }
      if body.favorite.Some? {
        favorite := body.favorite.value;
      }
      if body.knownGood.Some? {
        knownGood := if body.knownGood.value == 0 then None else body.knownGood;
      }
    }

    method Write(body: Update)
      modifies `fields, `text, `metadata
      ensures State() == Written(old(State()), body)
    {
      if body.fields.Some? {
        fields := body.fields.value;
        text := Render(fields);
      }
      if body.metadata.Some? {
        metadata := Some(ValidatedAll(body.metadata.value));
      }
    }

    /** Everything that can refuse the request, before anything is written. */
    method Admit(body: Update) returns (refusal: Option<WriteError>, contentChanged: bool)
      ensures refusal == Refusal(State(), body)
      ensures refusal.None? ==> contentChanged == ContentChanged(State(), body)
    {
      contentChanged := false;
      var stored := if updatedAt.Some? then updatedAt.value else createdAt;
      if body.lastUpdatedAt.Some? && IsStale(stored, body.lastUpdatedAt.value) {
        return Some(Conflict), contentChanged;
      }
      contentChanged := || (body.fields.Some? && body.fields.value != fields)
                        || (body.metadata.Some?
                            && ValidatedAll(body.metadata.value) != ValidatedAll(OrEmpty(metadata)));
      if body.knownGood.Some? {
        var newest := CurrentVersionNumber();
        newest := newest + 1 + if contentChanged then 1 else 0;
        if body.knownGood.value > newest {
          return Some(VersionNotFound), contentChanged;
        }
      }
      return None, contentChanged;
    }

    method Patch(body: Update, now: int) returns (r: Result<(), WriteError>)
      modifies this
      ensures State() == Updated(old(State()), body, now)
      ensures r == match Refusal(old(State()), body) case None => Success(()) case Some(e) => Failure(e)
    {
      var refusal, contentChanged := Admit(body);
      if refusal.Some? {
        return Failure(refusal.value);
      }
      if contentChanged {
        Snapshot(body.note);
      }
      File(body);
      Write(body);
      updatedAt := Some(NextWriteStamp(now, Some(if updatedAt.Some? then updatedAt.value else createdAt)));
      if contentChanged {
        contentUpdatedAt := updatedAt;
      }
      return Success(());
    }
  }

  // ----- what every write keeps -----

  ghost predicate Numbered(versions: seq<Version>) {
    forall i :: 0 <= i < |versions| ==> versions[i].number == i + 1
  }

  ghost predicate Inv(p: PromptState) {
    && p.text == Render(p.fields)
    && Numbered(p.versions)
    && (p.knownGood.Some? ==> 1 <= p.knownGood.value <= LiveNumber(p))
  }

  lemma {:induction false} NewestOfNumbered(versions: seq<Version>)
    requires Numbered(versions)
    ensures NewestNumber(versions) == |versions|
  {
    if versions == [] {
    } else {
      NewestOfNumbered(versions[..|versions| - 1]);
    }
  }

  /** The newest number is the greatest one stored, and 0 when there is none. */
  lemma {:induction false} NewestIsGreatest(versions: seq<Version>)
    ensures forall i :: 0 <= i < |versions| ==> versions[i].number <= NewestNumber(versions)
    ensures NewestNumber(versions) == 0 ||
            exists i :: 0 <= i < |versions| && versions[i].number == NewestNumber(versions)
  {
    if versions == [] {
    } else {
      var front := versions[..|versions| - 1];
      NewestIsGreatest(front);
      assert forall i :: 0 <= i < |front| ==> front[i] == versions[i];
    }
  }

  datatype Write =
    | Patch(body: Update, now: int)
    | Restore(row: nat, now: int)

  predicate Succeeds(p: PromptState, w: Write) {
    match w
    case Patch(body, _) => Refusal(p, body).None?
    case Restore(row, _) => row < |p.versions|
  }

  function Next(p: PromptState, w: Write): PromptState {
    match w
    case Patch(body, now) => Updated(p, body, now)
    case Restore(row, now) => Restored(p, row, now)
  }

  function After(p: PromptState, run: seq<Write>): PromptState
    decreases |run|
  {
    if run == [] then p else After(Next(p, run[0]), run[1..])
  }

  /** What version `n` of a prompt says: a stored row, or the live prompt. */
  datatype Content = Content(fields: seq<Section>, text: string, metadata: Metadata, note: Option<string>)

  ghost function ContentAt(p: PromptState, n: nat): Content
    requires 1 <= n <= |p.versions| + 1
  {
    if n <= |p.versions| then
      var v := p.versions[n - 1];
      Content(v.fields, v.text, Shown(v.metadata), v.note)
    else Content(p.fields, p.text, Shown(p.metadata), p.note)
  }

  /** `q` is a later state of `p`: nothing stored is altered, and every number still names what it named. */
  ghost predicate Extends(p: PromptState, q: PromptState) {
    && p.versions <= q.versions
    && forall n {:trigger ContentAt(q, n)} :: 1 <= n <= |p.versions| + 1 ==> ContentAt(q, n) == ContentAt(p, n)
  }

  lemma SnapshotKeeps(p: PromptState, note: Option<string>)
    requires Numbered(p.versions)
    ensures var q := Snapshotted(p, note);
            Numbered(q.versions) && LiveNumber(q) == LiveNumber(p) + 1 == |q.versions| + 1
    ensures forall n :: 1 <= n <= |p.versions| + 1 ==>
              n <= |Snapshotted(p, note).versions| && ContentAt(Snapshotted(p, note), n) == ContentAt(p, n)
  {
    NewestOfNumbered(p.versions);
    NewestOfNumbered(Snapshotted(p, note).versions);
  }

  lemma PatchKeeps(p: PromptState, body: Update, now: int)
    requires Inv(p)
    ensures Inv(Updated(p, body, now)) && Extends(p, Updated(p, body, now))
  {
    if Refusal(p, body).Some? {
    } else if ContentChanged(p, body) {
      VersionedKeeps(p, body, now);
    } else {
      UnversionedKeeps(p, body, now);
    }
  }

  lemma VersionedKeeps(p: PromptState, body: Update, now: int)
    requires Inv(p) && Refusal(p, body).None? && ContentChanged(p, body)
    ensures Inv(Updated(p, body, now)) && Extends(p, Updated(p, body, now))
  {
    var kept, q := Snapshotted(p, body.note), Updated(p, body, now);
    SnapshotKeeps(p, body.note);
    assert q.versions == kept.versions;
    forall n | 1 <= n <= |p.versions| + 1
      ensures ContentAt(q, n) == ContentAt(p, n)
    {
      StoredContent(kept, q, n);
    }
  }

  /** What a stored number names depends on the stored rows only. */
  lemma StoredContent(p: PromptState, q: PromptState, n: nat)
    requires p.versions == q.versions && 1 <= n <= |p.versions|
    ensures ContentAt(q, n) == ContentAt(p, n)
  {
  }

  lemma UnversionedKeeps(p: PromptState, body: Update, now: int)
    requires Inv(p) && Refusal(p, body).None? && !ContentChanged(p, body)
    ensures Inv(Updated(p, body, now)) && Extends(p, Updated(p, body, now))
  {
    var q := Updated(p, body, now);
    if body.metadata.Some? {
      ValidatedTwice(body.metadata.value);
    }
    assert q.versions == p.versions && q.fields == p.fields && q.note == p.note
            && Shown(q.metadata) == Shown(p.metadata);
  }

  lemma RestoreKeeps(p: PromptState, row: nat, now: int)
    requires Inv(p)
    ensures Inv(Restored(p, row, now)) && Extends(p, Restored(p, row, now))
  {
    if row < |p.versions| {
      SnapshotKeeps(p, Some(RestoreNote(p.versions[row].number)));
    }
  }

  lemma ExtendsOn(p: PromptState, q: PromptState, r: PromptState)
    requires Extends(p, q) && Extends(q, r)
    ensures Extends(p, r)
  {
    forall n | 1 <= n <= |p.versions| + 1
      ensures ContentAt(r, n) == ContentAt(p, n)
    {
      assert ContentAt(q, n) == ContentAt(p, n);
    }
  }

  /**
   Over every run of updates and restores the text is the rendering of the sections, versions are
   numbered 1..n and never altered, the known-good mark names a version there is, and whatever was
   live is still live or stored under the number it had.
   */
  lemma {:induction false} HistoryIsKept(p: PromptState, run: seq<Write>)
    requires Inv(p)
    ensures Inv(After(p, run)) && Extends(p, After(p, run))
    decreases |run|
  {
    if run == [] {
    } else {
      var q := Next(p, run[0]);
      if run[0].Patch? {
        PatchKeeps(p, run[0].body, run[0].now);
      } else {
        RestoreKeeps(p, run[0].row, run[0].now);
      }
      HistoryIsKept(q, run[1..]);
      ExtendsOn(p, q, After(q, run[1..]));
    }
  }

  lemma CreatedIsGood(name: string, fields: seq<Section>, folder: Option<string>, metadata: Option<Metadata>, now: int)
    ensures Inv(Created(name, fields, folder, metadata, now))
  {
  }

  ghost predicate SameContent(p: PromptState, q: PromptState) {
    q.fields == p.fields && Shown(q.metadata) == Shown(p.metadata)
  }

  /** An accepted update stores a version, takes the note and dates the content exactly when it changes the content. */
  lemma VersionedExactlyWhenChanged(p: PromptState, body: Update, now: int)
    requires Inv(p) && Refusal(p, body).None?
    ensures var q := Updated(p, body, now);
            if SameContent(p, q) then
              q.versions == p.versions && q.text == p.text && q.note == p.note
                  && q.contentUpdatedAt == p.contentUpdatedAt
            else
              |q.versions| == |p.versions| + 1 && q.note == body.note && q.contentUpdatedAt == q.updatedAt
  {
    if body.metadata.Some? {
      ValidatedTwice(body.metadata.value);
    }
    assert ContentChanged(p, body) <==> !SameContent(p, Updated(p, body, now));
  }

  /** Sending an accepted update again, with the new stamp, is accepted and changes nothing but that stamp. */
  lemma RepeatedUpdate(p: PromptState, body: Update, now: int, later: int)
    requires Inv(p) && Refusal(p, body).None?
    ensures var q := Updated(p, body, now);
            var again := body.(lastUpdatedAt := Some(Stamp(q)));
            && Refusal(q, again).None?
            && Updated(q, again, later) == q.(updatedAt := Some(Stamp(Updated(q, again, later))))
  {
    var q := Updated(p, body, now);
    PatchKeeps(p, body, now);
    NewestOfNumbered(p.versions);
    NewestOfNumbered(q.versions);
    if body.metadata.Some? {
      ValidatedTwice(body.metadata.value);
    }
    assert !ContentChanged(q, body.(lastUpdatedAt := Some(Stamp(q))));
  }

  /** A mark can be set exactly on the versions there are, the one being saved included; 0 clears it. */
  lemma KnownGoodMark(p: PromptState, body: Update, now: int)
    requires Inv(p) && body.knownGood.Some? && !Overtaken(p, body)
    ensures Refusal(p, body).None? <==> body.knownGood.value <= LiveNumber(Updated(p, body.(knownGood := None), now))
    ensures Refusal(p, body).None? ==>
              Updated(p, body, now).knownGood == if body.knownGood.value == 0 then None else body.knownGood
  {
    SnapshotKeeps(p, body.note);
  }

  /** Restoring a version, then the snapshot that took, gives back what was live; metadata "none" comes back empty. */
  lemma RestoringTwiceUndoes(p: PromptState, row: nat, now: int, later: int)
    requires Inv(p) && row < |p.versions|
    ensures var q := Restored(p, row, now);
            var r := Restored(q, |p.versions|, later);
            && |q.versions| == |p.versions| + 1 && |r.versions| == |p.versions| + 2
            && r.fields == p.fields && r.text == p.text && r.metadata == Some(OrEmpty(p.metadata))
  {
    RecoveryRenders(p.text, p.fields);
  }

  /** A restore reproduces the stored text exactly when that text can be read as sections. */
  lemma RestoreReproduces(p: PromptState, row: nat, now: int)
    requires row < |p.versions|
    ensures var v := p.versions[row];
            Restored(p, row, now).text == v.text <==> Render(v.fields) == v.text || Parsed(v.text, v.fields).Some?
  {
    RecoveryRenders(p.versions[row].text, p.versions[row].fields);
  }

  /** No row predates the rule that text is rendered from sections. */
  ghost predicate NoLegacyRows(p: PromptState) {
    forall i :: 0 <= i < |p.versions| ==>
      p.versions[i].text == Render(p.versions[i].fields) && p.versions[i].metadata.Some?
  }

  lemma {:induction false} RowsStayRendered(p: PromptState, run: seq<Write>)
    requires Inv(p) && NoLegacyRows(p)
    ensures NoLegacyRows(After(p, run))
    decreases |run|
  {
    if run == [] {
    } else {
      HistoryIsKept(p, [run[0]]);
      assert After(p, [run[0]]) == After(Next(p, run[0]), []);
      RowsStayRendered(Next(p, run[0]), run[1..]);
    }
  }

  lemma RunStaysGood(p: PromptState, run: seq<Write>)
    requires Inv(p) && NoLegacyRows(p)
    ensures Inv(After(p, run)) && NoLegacyRows(After(p, run))
  {
    HistoryIsKept(p, run);
    RowsStayRendered(p, run);
  }

  lemma RestoreOfGood(p: PromptState, row: nat, now: int)
    requires Inv(p) && NoLegacyRows(p) && row < |p.versions|
    ensures var q := Restored(p, row, now);
            ContentAt(q, |q.versions| + 1) == ContentAt(p, row + 1).(note := Some(RestoreNote(row + 1)))
  {
    var v := p.versions[row];
    RecoveryRenders(v.text, v.fields);
  }

  /** For a prompt created here, restoring version `row + 1` makes exactly that version live, after any run. */
  lemma RestoreIsExact(name: string, fields: seq<Section>, folder: Option<string>, metadata: Option<Metadata>,
                       created: int, run: seq<Write>, row: nat, now: int)
    requires row < |After(Created(name, fields, folder, metadata, created), run).versions|
    ensures var p := After(Created(name, fields, folder, metadata, created), run);
            var q := Restored(p, row, now);
            ContentAt(q, |q.versions| + 1) == ContentAt(p, row + 1).(note := Some(RestoreNote(row + 1)))
  {
    var p0 := Created(name, fields, folder, metadata, created);
    CreatedIsGood(name, fields, folder, metadata, created);
    RunStaysGood(p0, run);
    RestoreOfGood(After(p0, run), row, now);
  }

  // ----- no lost update -----

  function Writes(p: PromptState, run: seq<Write>): nat
    decreases |run|
  {
    if run == [] then 0 else (if Succeeds(p, run[0]) then 1 else 0) + Writes(Next(p, run[0]), run[1..])
  }

  /** Whatever the clock reads, every write moves the stamp on by at least a millisecond. */
  lemma {:induction false} StampsGrow(p: PromptState, run: seq<Write>)
    ensures Stamp(p) + RESOLUTION * Writes(p, run) <= Stamp(After(p, run))
    ensures Writes(p, run) == 0 ==> After(p, run) == p
    decreases |run|
  {
    if run == [] {
    } else {
      StampsGrow(Next(p, run[0]), run[1..]);
    }
  }

  /** An update that echoes a stamp read earlier is refused exactly when some write came in between. */
  lemma NoLostUpdate(p: PromptState, run: seq<Write>, body: Update)
    requires body.lastUpdatedAt == Some(Stamp(p))
    ensures Refusal(After(p, run), body) == Some(Conflict) <==> Writes(p, run) > 0
  {
    StampsGrow(p, run);
  }

  /**
   However the difference in seconds is computed, with an error below a microsecond it decides as the
   whole microseconds do, except at exactly half a millisecond.
   */
  lemma ComputedDifference(stored: int, supplied: int, difference: real)
    requires -0.000001 < difference - Apart(stored, supplied) as real / 1_000_000.0 < 0.000001
    requires Apart(stored, supplied) != COMPARISON_EPSILON
    ensures 0.0005 < difference <==> IsStale(stored, supplied)
  {
    if IsStale(stored, supplied) {
      assert COMPARISON_EPSILON + 1 <= Apart(stored, supplied);
    } else {
      assert Apart(stored, supplied) <= COMPARISON_EPSILON - 1;
    }
  }

  function Apart(stored: int, supplied: int): nat {
    if stored < supplied then supplied - stored else stored - supplied
  }

  /** A stamp ahead of the stored one is stale just as one behind it. */
  lemma StaleEitherWay(stored: int, supplied: int)
    ensures IsStale(stored, supplied) <==> IsStale(supplied, stored)
    ensures IsStale(stored, supplied) <==> 500 < Apart(stored, supplied)
  {
  }

  function WithoutSubMillisecond(stamp: int): int {
    stamp - stamp % RESOLUTION
  }

  /**
   The half-millisecond tolerance does not absorb every echo that lost its sub-millisecond digits:
   it does exactly when at most half a millisecond was lost.
   */
  lemma TruncatedEcho(stored: int)
    ensures IsStale(stored, WithoutSubMillisecond(stored)) <==> COMPARISON_EPSILON < stored % RESOLUTION
  {
  }

  /** Such a stamp arises: a prompt created 900 microseconds into a millisecond. */
  lemma TruncatedEchoRefused(name: string, fields: seq<Section>, folder: Option<string>,
                             metadata: Option<Metadata>, body: Update)
    requires body.lastUpdatedAt == Some(0)
    ensures Refusal(Created(name, fields, folder, metadata, 900), body) == Some(Conflict)
  {
  }

  /** And it outlives updates, when the clock steps back or the save falls into the millisecond of the last stamp. */
  lemma UpdatedEchoRefused(name: string, fields: seq<Section>, folder: Option<string>,
                           metadata: Option<Metadata>, update: Update, now: int, body: Update)
    requires update.lastUpdatedAt.None? && update.knownGood.None? && (now == 0 || now == 1500)
    requires body.lastUpdatedAt == Some(1000)
    ensures var q := Updated(Created(name, fields, folder, metadata, 900), update, now);
            q.updatedAt == Some(1900) && Refusal(q, body) == Some(Conflict)
  {
  }

  lemma StampPhaseKept(p: PromptState, w: Write)
    ensures var q := Next(p, w);
            Stamp(q) % RESOLUTION == 0 || Stamp(q) % RESOLUTION == Stamp(p) % RESOLUTION
  {
    var now := match w case Patch(_, now) => now case Restore(_, now) => now;
    PhaseOfStamp(now, Stamp(p));
  }

  lemma PhaseOfStamp(now: int, previous: int)
    ensures var stamp := NextWriteStamp(now, Some(previous));
            stamp % RESOLUTION == 0 || stamp % RESOLUTION == previous % RESOLUTION
  {
  }

  /** However many writes there are, the sub-millisecond digits are the first stamp's or none. */
  lemma {:induction false} StampPhase(p: PromptState, run: seq<Write>)
    ensures var stamp := Stamp(After(p, run));
            stamp % RESOLUTION == 0 || stamp % RESOLUTION == Stamp(p) % RESOLUTION
    decreases |run|
  {
    if run == [] {
    } else {
      StampPhaseKept(p, run[0]);
      StampPhase(Next(p, run[0]), run[1..]);
    }
  }

  predicate AbsorbsTruncation(p: PromptState) {
    !IsStale(Stamp(p), WithoutSubMillisecond(Stamp(p)))
  }

  ghost predicate EveryLaterStampAbsorbs(p: PromptState) {
    forall run: seq<Write> :: AbsorbsTruncation(After(p, run))
  }

  /**
   For a prompt created at `created`: every later stamp is recognized without its sub-millisecond
   digits, if and only if the creation time was at most 500 microseconds into its millisecond.
   */
  lemma EchoesAbsorbedExactly(name: string, fields: seq<Section>, folder: Option<string>,
                              metadata: Option<Metadata>, created: int)
    ensures var p := Created(name, fields, folder, metadata, created);
            EveryLaterStampAbsorbs(p) <==> created % RESOLUTION <= COMPARISON_EPSILON
  {
    var p := Created(name, fields, folder, metadata, created);
    if created % RESOLUTION <= COMPARISON_EPSILON {
      forall run
        ensures AbsorbsTruncation(After(p, run))
      {
        StampPhase(p, run);
        TruncatedEcho(Stamp(After(p, run)));
      }
    } else {
      TruncatedEcho(created);
      var none: seq<Write> := [];
      assert !AbsorbsTruncation(After(p, none));
    }
  }

  // ----- what a write leaves, field by field -----

  /** The later of the clock's millisecond and a millisecond after the stamp before. */
  ghost predicate IsNextStamp(stamp: int, now: int, previous: int) {
    var tick := now / 1000 * 1000;
    tick <= stamp && previous + 1000 <= stamp && (stamp == tick || stamp == previous + 1000)
  }

  lemma NextStampExactly(now: int, previous: int, stamp: int)
    ensures stamp == NextWriteStamp(now, Some(previous)) <==> IsNextStamp(stamp, now, previous)
  {
  }

  /** The option kept as number `i` stands first at `k` among those given. */
  ghost predicate FirstAt(options: seq<string>, kept: seq<string>, i: nat, k: nat) {
    && i < |kept| && k < |options| && Strip(options[k]) == kept[i]
    && forall m :: 0 <= m < k ==> Strip(options[m]) != kept[i]
  }

  ghost predicate HasFirst(options: seq<string>, kept: seq<string>, i: nat) {
    exists k :: FirstAt(options, kept, i, k)
  }

  /** The options that are not blank, each once, in the order in which they first appear. */
  ghost predicate KeepsOptions(options: seq<string>, kept: seq<string>) {
    && (forall k :: 0 <= k < |options| ==> Strip(options[k]) == "" || Strip(options[k]) in kept)
    && (forall i :: 0 <= i < |kept| ==> kept[i] != "" && HasFirst(options, kept, i))
    && (forall i, j, k, m :: FirstAt(options, kept, i, k) && FirstAt(options, kept, j, m) ==> (i < j <==> k < m))
  }

  lemma {:induction false} KeptOptionsAre(options: seq<string>)
    ensures KeepsOptions(options, KeptOptions(options))
  {
    if options == [] {
      NoOptions(options);
    } else {
      var front, option := options[..|options| - 1], options[|options| - 1];
      var kept, kept' := KeptOptions(front), KeptOptions(options);
      assert options == front + [option];
      assert kept' == if Strip(option) == "" || Strip(option) in kept then kept else kept + [Strip(option)];
      KeptOptionsAre(front);
      KeepOption(front, kept, option, options, kept');
    }
  }

  lemma NoOptions(options: seq<string>)
    requires options == []
    ensures KeepsOptions(options, KeptOptions(options))
  {
  }

  /** Reading one more option leaves the first places of those kept before. */
  lemma FirstStays(options: seq<string>, kept: seq<string>, option: string, more: seq<string>, i: nat, k: nat)
    requires i < |kept|
    ensures FirstAt(options, kept, i, k) ==> FirstAt(options + [option], kept + more, i, k)
    ensures FirstAt(options + [option], kept + more, i, k) && k < |options| ==> FirstAt(options, kept, i, k)
  {
    if k < |options| {
      assert forall m :: 0 <= m <= k ==> (options + [option])[m] == options[m];
    }
  }

  lemma FirstIsUnique(options: seq<string>, kept: seq<string>, i: nat, k: nat, m: nat)
    requires FirstAt(options, kept, i, k) && FirstAt(options, kept, i, m)
    ensures k == m
  {
  }

  /** In what was kept before, first places are those of before. */
  lemma FirstWas(options: seq<string>, kept: seq<string>, option: string, more: seq<string>, i: nat, k: nat)
    requires i < |kept| && HasFirst(options, kept, i) && FirstAt(options + [option], kept + more, i, k)
    ensures FirstAt(options, kept, i, k)
  {
    var m :| FirstAt(options, kept, i, m);
    FirstStays(options, kept, option, more, i, m);
    FirstIsUnique(options + [option], kept + more, i, k, m);
  }

  lemma KeepOption(options: seq<string>, kept: seq<string>, option: string, options': seq<string>, kept': seq<string>)
    requires KeepsOptions(options, kept) && options' == options + [option]
    requires kept' == if Strip(option) == "" || Strip(option) in kept then kept else kept + [Strip(option)]
    ensures KeepsOptions(options', kept')
  {
    var more := if Strip(option) == "" || Strip(option) in kept then [] else [Strip(option)];
    if more == [] {
      assert kept + more == kept;
    } else {
      NewIsFirst(options, kept, option);
    }
    KeepMore(options, kept, option, more);
  }

  lemma NewIsFirst(options: seq<string>, kept: seq<string>, option: string)
    requires KeepsOptions(options, kept) && Strip(option) != "" && Strip(option) !in kept
    ensures FirstAt(options + [option], kept + [Strip(option)], |kept|, |options|)
  {
    forall m | 0 <= m < |options|
      ensures Strip((options + [option])[m]) != Strip(option)
    {
      assert (options + [option])[m] == options[m];
    }
  }

  lemma KeepMore(options: seq<string>, kept: seq<string>, option: string, more: seq<string>)
    requires KeepsOptions(options, kept)
    requires more == if Strip(option) == "" || Strip(option) in kept then [] else [Strip(option)]
    requires more != [] ==> FirstAt(options + [option], kept + more, |kept|, |options|)
    ensures KeepsOptions(options + [option], kept + more)
  {
    var options', kept' := options + [option], kept + more;
    forall i: nat | i < |kept'|
      ensures HasFirst(options', kept', i)
    {
      if i < |kept| {
        assert HasFirst(options, kept, i);
        var k :| FirstAt(options, kept, i, k);
        FirstStays(options, kept, option, more, i, k);
      }
    }
    forall i, j, k, m | FirstAt(options', kept', i, k) && FirstAt(options', kept', j, m)
      ensures i < j <==> k < m
    {
      PlaceOf(options, kept, option, more, i, k);
      PlaceOf(options, kept, option, more, j, m);
    }
  }

  lemma PlaceOf(options: seq<string>, kept: seq<string>, option: string, more: seq<string>, i: nat, k: nat)
    requires KeepsOptions(options, kept) && |more| <= 1 && FirstAt(options + [option], kept + more, i, k)
    requires more != [] ==> FirstAt(options + [option], kept + more, |kept|, |options|)
    ensures if i < |kept| then FirstAt(options, kept, i, k) && k < |options| else i == |kept| && k == |options|
  {
    if i < |kept| {
      FirstWas(options, kept, option, more, i, k);
    } else {
      FirstIsUnique(options + [option], kept + more, i, k, |options|);
    }
  }

  /** What is stored for an item that was sent. */
  ghost predicate IsStored(stored: VariableItem, sent: VariableItem) {
    && stored.kind == (match sent.kind case Some(k) => Some(k) case None => Some("text"))
    && stored.description == sent.description && stored.example == sent.example
    && stored.required == (match sent.required case Some(r) => Some(r) case None => Some(false))
    && (stored.options.None? <==>
          sent.options.None? || forall k :: 0 <= k < |sent.options.value| ==> Strip(sent.options.value[k]) == "")
    && (stored.options.Some? ==> KeepsOptions(sent.options.value, stored.options.value))
  }

  lemma ValidatedIsStored(item: VariableItem)
    ensures IsStored(Validated(item), item)
  {
    if item.options.Some? {
      var options := item.options.value;
      KeptOptionsAre(options);
      if KeptOptions(options) != [] {
        assert HasFirst(options, KeptOptions(options), 0);
        var k: nat :| FirstAt(options, KeptOptions(options), 0, k);
        assert Strip(options[k]) != "";
      } else {
        assert forall k :: 0 <= k < |options| ==> Strip(options[k]) == "" || Strip(options[k]) in KeptOptions(options);
      }
    }
  }

  ghost predicate AreStored(stored: Metadata, sent: Metadata) {
    stored.Keys == sent.Keys && forall name :: name in sent ==> IsStored(stored[name], sent[name])
  }

  lemma ValidatedAreStored(metadata: Metadata)
    ensures AreStored(ValidatedAll(metadata), metadata)
  {
    forall name | name in metadata
      ensures IsStored(ValidatedAll(metadata)[name], metadata[name])
    {
      ValidatedIsStored(metadata[name]);
    }
  }

  /**
   After an accepted update each field that was given has the value sent, and each that was not is as it
   was; the text is rendered from the sections, and the stamp is the next one.
   */
  lemma PatchLeaves(p: PromptState, u: Update, now: int)
    requires Refusal(p, u).None?
    ensures var q := Updated(p, u, now);
            && q.name == (match u.name case Some(name) => Some(name) case None => p.name)
            && q.folder == (match u.folder case Some(folder) => Some(folder) case None => p.folder)
            && q.favorite == (match u.favorite case Some(favorite) => favorite case None => p.favorite)
            && q.knownGood == (match u.knownGood
                               case Some(n) => if n == 0 then None else Some(n)
                               case None => p.knownGood)
            && (match u.fields
                case Some(fields) => q.fields == fields && q.text == Render(fields)
                case None => q.fields == p.fields && q.text == p.text)
            && (match u.metadata
                case Some(sent) => q.metadata.Some? && AreStored(q.metadata.value, sent)
                case None => q.metadata == p.metadata)
            && q.createdAt == p.createdAt
            && q.updatedAt.Some?
            && IsNextStamp(q.updatedAt.value, now, if p.updatedAt.Some? then p.updatedAt.value else p.createdAt)
  {
    if u.metadata.Some? {
      ValidatedAreStored(u.metadata.value);
    }
    NextStampExactly(now, Stamp(p), NextWriteStamp(now, Some(Stamp(p))));
  }

  /** An update that is refused leaves the prompt as it was. */
  lemma RefusedPatchLeaves(p: PromptState, u: Update, now: int)
    requires Refusal(p, u).Some?
    ensures Updated(p, u, now) == p
  {
  }

  /**
   A restore leaves name, folder, favorite and mark alone. It makes the version's text live, through its own
   sections or those read from it, or keeps it whole in one section: no text is lost.
   */
  lemma RestoreLeaves(p: PromptState, row: nat, now: int)
    requires row < |p.versions|
    ensures var q, v := Restored(p, row, now), p.versions[row];
            && q.name == p.name && q.folder == p.folder && q.favorite == p.favorite && q.knownGood == p.knownGood
            && q.createdAt == p.createdAt
            && q.metadata == (match v.metadata case Some(_) => v.metadata case None => p.metadata)
            && q.note == Some("Restore to v" + Decimal(v.number))
            && q.updatedAt.Some? && q.contentUpdatedAt == q.updatedAt
            && IsNextStamp(q.updatedAt.value, now, if p.updatedAt.Some? then p.updatedAt.value else p.createdAt)
            && q.text == Render(q.fields)
            && if Render(v.fields) == v.text then q.fields == v.fields
               else if Parsed(v.text, v.fields).Some? then q.text == v.text
               else IsWhole(q.fields, v.text)
  {
    RecoveryKeepsText(p.versions[row].text, p.versions[row].fields);
    NextStampExactly(now, Stamp(p), NextWriteStamp(now, Some(Stamp(p))));
  }

  /** A new prompt has what was sent, and no history. */
  lemma CreatedLeaves(name: string, fields: seq<Section>, folder: Option<string>, metadata: Option<Metadata>, now: int)
    ensures var p := Created(name, fields, folder, metadata, now);
            && p.name == Some(name) && p.folder == folder && !p.favorite
            && p.fields == fields && p.text == Render(fields)
            && (p.metadata.Some? <==> metadata.Some? && metadata.value != map[])
            && (p.metadata.Some? ==> AreStored(p.metadata.value, metadata.value))
            && p.note == None && p.knownGood == None && p.createdAt == now && p.updatedAt == p.contentUpdatedAt == None
            && p.versions == []
  {
    if metadata.Some? {
      ValidatedAreStored(metadata.value);
    }
  }
}
