# A verified model of the prompt library's server and import code

This project models six parts of the application in Dafny and proves what they promise, each over
all inputs or all runs. `dafny verify dfyconfig.toml` checks everything.

| file | what it models |
|---|---|
| `OAuthStore.dfy`, `OAuthRuns.dfy`, `OAuthLifetimes.dfy` | the OAuth grant and token store: approvals, one-time codes, rotating refresh tokens, access tokens, revocation, and any interleaving of these with account changes. The grants are those of sections 4.1.2 and 6 of RFC 6749, revocation that of section 2 of RFC 7009 |
| `Diff.dfy`, `DiffSpaces.dfy`, `DiffAnchors.dfy` | the word diff: tokenizer, table of longest common subsequences, greedy walk, merging of runs; when a change can be a lone space, and when a placeholder is kept |
| `Sections.dfy`, `History.dfy` | sections and their rendered text, the parser that undoes the renderer, version history, restoring, and optimistic concurrency under a clock that may step backwards |
| `TextSplitter.dfy`, `Headings.dfy`, `SectionNames.dfy`, `Csv.dfy`, `CopyNames.dfy` | importing notes: lossless splitting of over-long sections, clean and unique section names, the CSV reader, and copy names in the library |
| `LlmClient.dfy`, `Pricing.dfy`, `PublicSpend.dfy`, `PublicLimits.dfy` | JSON completions and their token usage, what calls cost, the free refiner's ledger of reservations and settlements, and its limits under any interleaving |
| `Criteria.dfy`, `Scores.dfy`, `EvalCases.dfy`, `Evaluation.dfy`, `EvalStatus.dfy` | evaluation runs: criteria, scores, cases and what they are billed, run totals, later ratings, and the tie between runs and versions |
| `Migrations.dfy` | the section-recovery and version-note migrations, and the runner across crashes |
| `JsText.dfy`, `Numerals.dfy`, `Wrappers.dfy` | JavaScript strings as 16-bit code units, decimal numerals and the pigeonhole principle, and options and results |

Where the program updates something in place, the model is a class with those fields whose methods are
proved against a function on the state's value; the promises are lemmas about that function, over
single steps and over whole runs. Functions that only compute are functions here.

Each database transaction is one atomic step. Random secrets and auth subjects are fresh values, a
digest is the secret it stands for, and a signed access token is a record. The clock is a parameter
that may read anything. Costs, scores and rates are real numbers. Provider answers, the calendar, what
accounts have spent, and the functions the program takes from libraries (Unicode normalization,
lower-casing, JSON parsing, the time-bounded pattern search) are inputs: what is proved holds whatever
they compute.

## What came out false

- `diff.ts` says at lines 71-72 that no change is a lone space, and a test of that name checks it on
  three pairs (`diff.test.ts`, lines 69-80). Appending one space is such a change (`LoneSpaceAdded`). For
  a kind of text, given by the white space it may have between words, at its ends, and whether words and
  placeholders may touch, the promise holds for all pairs if and only if there is no white space at all,
  or any two words and placeholders have one and the same white space between them and none stands at
  either end (`LoneSpaceExactly`).
- `diff.ts` says at lines 13-15 that placeholders anchor the comparison instead of being deleted and
  inserted again when adjacent prose changes. From `a{{x}}b` to `b{{x}}c` the placeholder is removed and
  inserted again (`AnchorLost`). When only the prose next to a placeholder changes, it is kept where it
  stands if and only if the texts fit the table and one of these holds: the prose changes on one side only,
  there was none after it, or the new prose before it is not the old prose after it; otherwise none of its
  characters is kept (`PlaceholderKeptExactly`).
- `optimistic_concurrency.py` says at lines 36-38 that the half-millisecond tolerance absorbs a stamp
  that lost its digits below the millisecond. In whole microseconds it does so if and only if at most 500
  of them were lost (`TruncatedEcho`); the code subtracts floating-point seconds, which decides alike
  except at exactly 500, where its difference can fall on either side (`ComputedDifference`). A prompt created 900 microseconds into a millisecond is a counterexample
  (`TruncatedEchoRefused`), and still is after an update when the clock steps back or the save falls
  into the millisecond of the stamp before it (`UpdatedEchoRefused`), since the next stamp is then the
  old one plus a millisecond. Over any run the digits are those of the creation time or none
  (`StampPhase`), so every later stamp is absorbed if and only if the creation time was at most 500
  microseconds into its millisecond (`EchoesAbsorbedExactly`).
- The note migration does not always leave the notes the present snapshot rule would have recorded: it
  reads an empty note as none. The two agree if and only if no edit with an empty note is followed by
  another edit (`MovedMatchesReplay`); two edits, the first with an empty note, differ (`EmptyNoteLost`).
  For histories of edits only, the present snapshot rule alone decides this (`MovedMatchesEdits`); the
  present code has no recovery any more, and replaying one as a snapshot under its own label, unless the
  live note belongs there, that leaves no live note, is a rule of this model.
- The daily limit of the free refiner holds only while no row is stamped with a day before the one its
  calls were counted for. The code reads the wall clock separately for the count and the stamp: with a
  clock that steps back over midnight, a full day takes one call more (`DailyCapNeedsOrder`, an exact
  condition). The same goes for the months of the public ceiling (`CeilingNeedsOrder`).
- Settling a public call can raise a row above its reservation when responses come back without token
  counts, since assumed tokens are then charged. It never does if and only if the assumed tokens fit the
  reservation (`SettlingFits`). At 2 and 10 dollars a million tokens and an output cap of 1 they fit if and only if
  the request has more than 8,982 characters (`TerseFits`, `ReservationExceeded`). An output cap of 1,000 tokens ensures that they fit, because a JSON
  completion receives two responses at most; 2,000 would do even for four (`CapsThatFit`).
- The name of an imported section can be longer than the 100 characters the API accepts: a heading that
  starts with digits gets "Section " before up to 90 characters, and its tenth section a number of two
  digits (`TenthNameTooLong`, 101 characters). With so many tags taken all names fit if and only if the
  next number does (`NamesFitExactly`): the first nine do for any heading, and every number below 10^9
  for one whose words start with a letter or an underscore (`RoomForNames`).
- A run's counted cost and the cost of its ledger rows do not always agree up to rounding: with a spend
  ceiling, a case that reports no tokens is counted at nothing, while its ledger row is priced for assumed
  tokens (`UnreportedRun`). They agree for every run, within half a millionth of a dollar for each
  successful call, if and only if no ceiling is set, or the rates are known and the assumed tokens cost at
  most that much at them (`RunCostExactly`).
- A rendered list of sections is read back exactly if and only if no content contains its own closing
  tag on a new line (`RoundTrip`, `UncleanNotReadBack`).

## Model

| member | source | states |
|---|---|---|
| OAuthRuns.RevocationIsFinal | backend/app/services/oauth_provider.py:119-521 | after any run, once a pair is disconnected or revoked, the token version bumped, or the account deleted, no access token, code or refresh token that descends from an earlier approval is accepted after any later run (numeric ids reused, approvals repeated) at any clock reading, and trying one changes no table |
| OAuthRuns.ForceAfterRun | backend/app/services/oauth_provider.py:160-521 | over a whole run an approval stays in force exactly when it was and none of the ending steps hit it: nothing else ends it and nothing revives it |
| OAuthRuns.ForceAfterStep | backend/app/services/oauth_provider.py:160-521 | the same for one step of any kind, registrations that reuse a numeric id included |
| OAuthRuns.WorthExactly | backend/app/services/oauth_provider.py:119-143 | in every good state a stored code or refresh token can be spent, and a signed access token opens the endpoint, exactly while unexpired (and the client's own) and its approval is in force |
| OAuthRuns.CredentialsAreConserved | backend/app/services/oauth_provider.py:357-455 | over any run from the empty store each secret is redeemed successfully at most once, and no approval ever has two credentials that could still be spent |
| OAuthRuns.RedemptionsCounted | backend/app/services/oauth_provider.py:357-455 | from any good state a secret already redeemed is never redeemed again and any other at most once |
| OAuthLifetimes.RedeemsExactly | backend/app/services/oauth_provider.py:357-412 | a redemption is counted exactly for a successful exchange or rotation of that secret |
| OAuthRuns.RedemptionSpends | backend/app/services/oauth_provider.py:357-455 | a failed exchange or rotation leaves the whole store as it was; a successful one removes the secret and stores one successor of the same approval |
| OAuthRuns.RunKeepsInv | backend/app/services/oauth_provider.py:160-521 | every run keeps the invariant: descendants carry their approval's token and grant versions, live accounts' versions have only grown since, and each approval has at most one live credential |
| OAuthRuns.StepKeepsInv | backend/app/services/oauth_provider.py:160-521 | each step, one transaction or clock reading, keeps that invariant |
| OAuthRuns.DelayedRefreshRevoke | backend/app/services/oauth_provider.py:472-521 | a refresh token validated earlier and revoked after any run leaves every table alone if and only if the account, its token version or its grant version changed, or the token was spent |
| OAuthRuns.DelayedAccessRevoke | backend/app/services/oauth_provider.py:457-521 | an access token accepted earlier, resolved again after any run and revoked after another one, leaves every table alone if and only if it had expired when resolved, or the account, its token version or its grant version changed in all that time |
| OAuthRuns.ConnectedExactly | backend/app/services/oauth_provider.py:198-221 | after any run an app is listed as connected exactly when some refresh token descended from an approval of that account would still rotate |
| OAuthLifetimes.ApprovalIsUsable | backend/app/services/oauth_provider.py:160-195 | an approved code, after any later run, is exchanged exactly by its client, within five minutes of the approval, once, while the approval is in force, and grants the approved scopes |
| OAuthLifetimes.RefreshIsUsable | backend/app/services/oauth_provider.py:395-455 | the refresh token of a successful redemption, after any later run, rotates exactly for the same client, within thirty days of that redemption, once, while the approval is in force, which it still is right after; it grants the scopes asked for or else those it was issued with |
| OAuthLifetimes.AccessIsUsable | backend/app/services/oauth_provider.py:105-143 | its access token, after any later run, opens the endpoint exactly as the approving account, from the redemption for an hour, with five seconds of skew at both ends, while the approval is in force |
| OAuthLifetimes.GrantedScopes | backend/app/services/oauth_provider.py:412-433 | a redemption grants the scopes asked for, or else those of the credential it spends |
| OAuthLifetimes.RefusalNamesCause | backend/app/services/oauth_provider.py:357-430 | a refusal is "invalid" exactly when the secret is not stored for that client or has expired, else "revoked" |
| OAuthLifetimes.EndingRemovesRows | backend/app/services/oauth_provider.py:224-521 | disconnecting, revoking and deleting remove exactly the codes and refresh tokens of the approvals they end; a version bump removes none |
| OAuthLifetimes.EndingMovesGrants | backend/app/services/oauth_provider.py:224-521 | they move exactly their grant's version on by one, and deleting an account takes its grants |
| OAuthLifetimes.EndingMovesAccounts | backend/app/services/accounts/profile.py:26-105 | a bump moves its account's version on by one; deleting takes only that account |
| OAuthStore.OAuthStore.Approve | backend/app/services/oauth_provider.py:160-195 | a code is stored with the session's token version and the grant's version, or nothing changes when the version moved |
| OAuthStore.OAuthStore.ExchangeCode | backend/app/services/oauth_provider.py:357-374 | deleting before checking and rolling back amounts to: spend the code exactly when it is unexpired, the client's own and current, else change nothing, with the error each case gives |
| OAuthStore.OAuthStore.RotateRefresh | backend/app/services/oauth_provider.py:395-412 | the same for a refresh token, which keeps its scopes when none are asked for |
| OAuthStore.OAuthStore.IssueTokens | backend/app/services/oauth_provider.py:414-455 | tokens are issued and the next refresh token stored when the credential is current, else the transaction is undone |
| OAuthStore.OAuthStore.ResolveAccess | backend/app/services/oauth_provider.py:119-143 | finds an account exactly when some account accepts the token, and then that one |
| OAuthStore.OAuthStore.RevokeIfUnchanged | backend/app/services/oauth_provider.py:500-521 | the conditional update hits exactly the pair's grant, and only with the remembered subject and versions; otherwise the transaction is undone |
| OAuthStore.OAuthStore.RevokeRefresh | backend/app/services/oauth_provider.py:472-521 | revokes the whole pair when the token's row is current, else changes nothing |
| OAuthStore.OAuthStore.RevokeAccess | backend/app/services/oauth_provider.py:493-521 | the same for an access token resolved earlier |
| OAuthStore.OAuthStore.Disconnect | backend/app/services/oauth_provider.py:224-233 | the grant's version moves on and all codes and refresh tokens of the pair go; without a grant nothing changes |
| OAuthStore.OAuthStore.BumpTokenVersion | backend/app/services/accounts/profile.py:96-105 | the step of a password change, a reset and signing out everywhere: the version grows by one |
| OAuthStore.OAuthStore.DeleteAccount | backend/app/services/accounts/profile.py:26-33 | the account goes with its grants and credentials |
| Diff.DiffWords | frontend/src/lib/diff.ts:19-79 | in every branch the non-added text is the old text, the non-removed text the new one, no run is empty, no neighbours share a type, and the diff shows no change exactly for equal texts; below the cap the runs are those of an optimal script, above it nothing is unchanged |
| DiffAnchors.SeparatorExactly | frontend/src/lib/diff.ts:12-17 | a text starts with a separator of length n if and only if those n units are all the white space there, or two braces, something without braces, and two braces |
| DiffAnchors.PlaceholderKeptExactly | frontend/src/lib/diff.ts:12-79 | when two texts differ only in the prose next to a placeholder, every character of it is kept at its place if and only if they fit the table and the prose changes on one side, or there was none after it, or the new prose before it is not the old prose after it; otherwise none is |
| DiffAnchors.WordsAroundPlaceholder | frontend/src/lib/diff.ts:12-79 | the same for texts that are a placeholder between plain words, such as `{{ab}}.` and `{{ab}}!` |
| DiffAnchors.AnchorLost | frontend/src/lib/diff.ts:12-17 | the failing input: from `a{{x}}b` to `b{{x}}c` the placeholder is not kept |
| DiffSpaces.LoneSpaceExactly | frontend/src/lib/diff.ts:71-78 | for every kind of text: no pair of its texts has a change that is white space only, above the cap included, if and only if the kind has no white space, or one and the same between any two words or placeholders and none at either end |
| DiffSpaces.AlternatingDiff | frontend/src/lib/diff.ts:19-79 | the half that holds: two texts whose tokens alternate words and one separator never differ by a lone space |
| DiffSpaces.LoneSpaceAdded | frontend/src/lib/diff.ts:71-78 | the failing input: appending one space to a word |
| Diff.WalkIsOptimal | frontend/src/lib/diff.ts:46-69 | the walk rewrites one token list into the other and the tokens it keeps are a common subsequence at least as long as every other |
| Diff.LcsIsLongest | frontend/src/lib/diff.ts:34-44 | no common subsequence whatever is longer than the length the recurrence computes |
| Diff.WalkSides | frontend/src/lib/diff.ts:46-69 | the walk gives back both token lists and keeps as many tokens as the recurrence says |
| Diff.FillTable | frontend/src/lib/diff.ts:34-44 | after the nested loops entry (i, j) is that length for the tokens from i and from j on |
| Diff.DiffTokens | frontend/src/lib/diff.ts:46-69 | the loops over the table compute the walk |
| Diff.MergeRuns | frontend/src/lib/diff.ts:71-78 | lengthening the last run in place merges all neighbours of one type |
| Diff.MergeAllShape | frontend/src/lib/diff.ts:71-78 | merging keeps both texts and leaves non-empty runs of alternating types |
| Diff.TokenizeShape | frontend/src/lib/diff.ts:12-17 | tokens give the text back, none is empty, each is one whole separator (white space or a placeholder) or contains the start of none, and neighbours are never both prose or both white space |
| Diff.TokenizeExactly | frontend/src/lib/diff.ts:12-17 | they are the one list that concatenates to the text and whose tokens are each the separator at that place or all there is before the next separator |
| Sections.RoundTrip | backend/app/services/prompt_sections.py:15-60 | for non-empty sections with valid names and distinct tags, parsing the rendering with them as `previous` returns exactly them if and only if no content holds its own closing tag on a new line |
| Sections.UncleanNotReadBack | backend/app/services/prompt_sections.py:15-60 | the failing input: a section that holds its own closing tag is not read back |
| Sections.AnyPreviousParses | backend/app/services/prompt_sections.py:36-60 | with any other `previous` such a rendering still parses, keeping every tag and content, names taken from `previous` where the tag is known |
| Sections.RenderIsInjective | backend/app/services/prompt_sections.py:18-33 | two such lists with one rendering have the same tags and contents |
| Sections.RecoveryRenders | backend/app/services/prompt_sections.py:63-69 | recovered sections render to the stored text exactly when the previous ones did or the text parses |
| Sections.RecoveryKeepsText | backend/app/services/prompt_sections.py:63-69 | recovery keeps the old sections when they render to the text, else sections read from it that do, and else puts the whole text into one section named "prompt", rendered with the text verbatim between its tags: no text is lost |
| Sections.ParsedNames | backend/app/services/prompt_sections.py:43-56 | sections read from a rendering have its contents, and as names the last previous spelling of their tag, or the tag in lower case |
| Sections.RenderedText | backend/app/services/prompt_sections.py:23-33 | a section renders as its tag in angle brackets, its content verbatim and the closing tag on lines of their own; a blank line separates two |
| Sections.TagOfWords | backend/app/services/prompt_sections.py:18-20 | a name's tag is its words in upper case with underscores between them |
| Sections.ParsedRenders | backend/app/services/prompt_sections.py:58-60 | whatever is parsed renders to the text it was parsed from |
| Sections.SpacesAreUnicode | backend/app/services/prompt_sections.py:20-20 | the white space that splits names is Unicode's category Zs with bidirectional types WS, B and S |
| Sections.StripExactly | backend/app/services/eval_service.py:233-233 | stripping cuts such white space off at both ends, all there is and nothing else |
| Sections.ParseRenderedSections | backend/app/services/prompt_sections.py:36-60 | the position loop computes the recursive parse of the text into blocks, re-rendering checked |
| Sections.ParseTrailing | backend/app/services/prompt_sections.py:15-57 | the parser reads clean blocks back as they are; with an unclean one it fails or some content differs |
| Sections.MatchRendered | backend/app/services/prompt_sections.py:15-15 | the pattern matches every rendered block at its nearest closing tag: the whole block when its content is clean, a shorter one otherwise |
| Sections.TagOfValidName | backend/app/services/prompt_sections.py:18-20 | a valid name renders as a non-empty upper-case tag the parser accepts |
| Sections.TagOfLowered | backend/app/services/prompt_sections.py:56-56 | a tag read back in lower case is a name that renders as that tag |
| History.PatchLeaves | backend/app/services/prompts/library.py:101-120 | after an accepted update every field given has the value sent (metadata as validated, a mark of 0 as none), every other field is as it was, creation time included, the text is rendered from the sections sent, and the stamp is the later of the clock's millisecond and a millisecond after the last one |
| History.RefusedPatchLeaves | backend/app/services/prompts/library.py:66-100 | a refused update leaves the prompt as it was |
| History.RestoreLeaves | backend/app/services/prompt_version_service.py:70-87 | a restore leaves name, folder, favorite, mark and creation time alone, takes the version's metadata if it has any, and makes its text live, whole in one section if nothing reproduces it |
| History.CreatedLeaves | backend/app/services/prompts/library.py:21-39 | a new prompt has the name, sections, folder and metadata sent, their rendering, and no history, note or mark |
| History.ValidatedIsStored | backend/app/schemas/prompts.py:11-32 | a stored item has its defaults filled in, and as choices the non-blank ones stripped, each once, in the order in which they first appear |
| History.NewestIsGreatest | backend/app/services/prompt_version_service.py:17-26 | the newest number is the greatest one stored, in whatever order the rows are |
| History.HistoryIsKept | backend/app/services/prompt_version_service.py:17-87 | over every run of updates and restores the text is the rendering of the sections, versions are numbered 1..n without gaps and never altered, a known-good mark is between 1 and the live number, and every number ever live still names the same content |
| History.PatchKeeps | backend/app/services/prompts/library.py:61-123 | one update, accepted or refused, keeps all of this |
| History.RestoreKeeps | backend/app/services/prompts/versions.py:39-57 | one restore keeps all of this |
| History.VersionedExactlyWhenChanged | backend/app/services/prompts/library.py:75-120 | an accepted update stores a version, takes the note and dates the content exactly when sections or metadata end up different; otherwise history, text, note and content date stay |
| History.RepeatedUpdate | backend/app/services/prompts/library.py:62-120 | sending an accepted update again with the new stamp is accepted and changes nothing but the stamp |
| History.ValidatedTwice | backend/app/schemas/prompts.py:11-32 | validating metadata items, which fills in defaults and tidies choices, changes nothing the second time, so stored items compare as they were sent |
| History.KnownGoodMark | backend/app/services/prompts/library.py:95-115 | a mark is accepted exactly when that version exists once the request is saved, and 0 clears it |
| History.RestoringTwiceUndoes | backend/app/services/prompt_version_service.py:70-87 | restoring a version and then the snapshot that took gives back the same sections, text and metadata, none read as empty |
| History.RestoreReproduces | backend/app/services/prompt_version_service.py:83-85 | a restore reproduces the stored text if and only if that version's sections render to it or it parses |
| History.RestoreIsExact | backend/app/services/prompt_version_service.py:70-87 | for a prompt created by this code, after any run, a restore makes exactly the chosen version live under a restore note |
| History.NoLostUpdate | backend/app/services/prompts/library.py:66-73 | an update echoing the stamp read in an earlier state is refused as a conflict exactly when some update or restore happened since, whatever the clock read |
| History.StampsGrow | backend/app/services/optimistic_concurrency.py:51-68 | every write moves the stamp on by at least a millisecond, under any clock |
| History.TruncatedEcho | backend/app/services/optimistic_concurrency.py:36-79 | in whole microseconds, an echo that lost its sub-millisecond digits is refused exactly when more than 500 of them were lost |
| History.ComputedDifference | backend/app/services/optimistic_concurrency.py:71-79 | a difference in seconds computed with any error below a microsecond decides as the whole microseconds do, except when the stamps are exactly half a millisecond apart |
| History.StaleEitherWay | backend/app/services/optimistic_concurrency.py:71-79 | a stamp ahead of the stored one is stale as one behind it is |
| History.TruncatedEchoRefused | backend/app/services/optimistic_concurrency.py:36-79 | the counterexample to the claim that such an echo is always absorbed, for a prompt of any name and content |
| History.UpdatedEchoRefused | backend/app/services/optimistic_concurrency.py:51-79 | the same for a prompt updated since, at a clock that stepped back or in the same millisecond |
| History.StampPhase | backend/app/services/optimistic_concurrency.py:51-68 | over any run of writes the sub-millisecond digits of the stamp are those of the first stamp or none |
| History.EchoesAbsorbedExactly | backend/app/services/optimistic_concurrency.py:34-79 | in whole microseconds, every later stamp of a created prompt is recognized without those digits if and only if the creation time was at most 500 microseconds into its millisecond |
| History.Prompt.Patch | backend/app/services/prompts/library.py:62-123 | the request is refused before anything is written, or snapshots when content changed, then files, writes and stamps |
| History.Prompt.Snapshot | backend/app/services/prompt_version_service.py:40-68 | the live content with the note it was saved under becomes the next version and the new note goes live |
| History.Prompt.RestoreFrom | backend/app/services/prompt_version_service.py:70-87 | a snapshot, then sections recovered from the version's text |
| History.Prompt.Restore | backend/app/services/prompts/versions.py:40-57 | the same with its stamps, or nothing when there is no such version |
| History.Prompt.CurrentVersionNumber | backend/app/services/prompt_version_service.py:17-26 | the newest stored number, 0 without rows |
| TextSplitter.SplitText | frontend/src/lib/promptImport.ts:272-300 | terminates and loses nothing: the parts concatenate to the text and meet where the cutting rules say; for well-formed UTF-16 no cut falls within any occurrence of the placeholder pattern or a surrogate pair, and a part is over 10,000 units only as one whole such occurrence |
| TextSplitter.PlaceholderEndExactly | frontend/src/lib/sections.ts:9-9 | a placeholder is found from one place to another if and only if the text there is two braces, white space, a letter or underscore followed by letters, digits, underscores and hyphens, white space, and two braces |
| TextSplitter.SpansExactly | frontend/src/lib/sections.ts:107-117 | the placeholders found are all the occurrences of that pattern, none overlapping another |
| TextSplitter.CutExactly | frontend/src/lib/promptImport.ts:283-294 | each cut, on the text alone: after the last pair of newlines in reach that no occurrence of the pattern lies across; failing that after 10,000 units, or where an occurrence across that place begins, or ends if it begins the part; one unit earlier before a low surrogate |
| JsText.SpacesAreWhite | frontend/src/lib/diff.ts:16-16 | `\s` and `trim` take the white space and line terminators of sections 12.2 and 12.3 of ECMA-262 |
| JsText.SurrogatesExactly | frontend/src/lib/promptImport.ts:294-294 | a unit is half of a pair by the 1,024-unit block it is in |
| JsText.TrimExactly | frontend/src/lib/promptImport.ts:267-267 | trimming cuts white space off at both ends, all there is and nothing else |
| TextSplitter.SplitIsUnique | frontend/src/lib/promptImport.ts:272-300 | the cutting rules leave one way to split a text |
| TextSplitter.NextCut | frontend/src/lib/promptImport.ts:284-294 | the backward search stops, although a negative position searches from 0, at the last paragraph break in reach that is outside every placeholder; failing that the cut is at 10,000 units or at the placeholder's edge |
| TextSplitter.NoPlaceholderAroundFirstBreak | frontend/src/lib/promptImport.ts:287-287 | no placeholder spans the cut after a break at position 0, so the clamped search cannot repeat itself |
| TextSplitter.CutIsClean | frontend/src/lib/promptImport.ts:289-294 | from a clean start the next cut is later, outside placeholders and pairs, and the part fits or is one placeholder |
| TextSplitter.SplitVariables | frontend/src/lib/sections.ts:107-117 | the parts give the text back, its variables are exactly the occurrences of the placeholder pattern in their places, and no part is empty or split without need |
| SectionNames.SplitLongSections | frontend/src/lib/promptImport.ts:263-270 | in order, short sections keep their content and long ones become the trimmed parts of the text splitter; each takes the first free name that its own heading gives; all names are valid, with distinct tags as the server computes them |
| SectionNames.LongPiecesAreTrimmed | frontend/src/lib/promptImport.ts:267-267 | pieces of a long section keep its heading and neither start nor end with white space |
| SectionNames.OverlongIsVariable | frontend/src/lib/promptImport.ts:263-268 | a piece over 10,000 units is one occurrence of the placeholder pattern |
| SectionNames.CandidateExactly | frontend/src/lib/promptImport.ts:309-312 | the names tried are the words, with "Section" before them unless they start with a letter or an underscore, and then the same with 2, 3 and so on in decimal |
| SectionNames.PiecesAreUnique | frontend/src/lib/promptImport.ts:263-268 | this determines the contents: any two splits by the rules give the same pieces |
| SectionNames.PiecesKeepText | frontend/src/lib/promptImport.ts:263-268 | no character but white space is lost |
| SectionNames.PiecesFit | frontend/src/lib/promptImport.ts:263-268 | in well-formed text every piece has at most 10,000 units or is exactly one placeholder longer than that, under its own section's heading |
| SectionNames.NamesFit | frontend/src/lib/promptImport.ts:269-269 | the name of a piece is within 100 characters when the number of its place would fit its base |
| SectionNames.SectionName | frontend/src/lib/promptImport.ts:306-315 | for any heading and any normalization, stops at the first candidate whose tag is not taken, within one more than there are tags taken, with a name the API's pattern accepts |
| SectionNames.NamesFitExactly | frontend/src/lib/promptImport.ts:306-315 | with at most k tags taken every name fits 100 characters if and only if number k + 1 still fits |
| SectionNames.RoomForNames | frontend/src/lib/promptImport.ts:307-309 | numbers below 10 always fit, and below 10^9 when the words start with a letter or underscore |
| SectionNames.TenthNameTooLong | frontend/src/lib/promptImport.ts:306-315 | the failing input: a heading of 90 digits, whose tenth section has a name of 101 characters |
| Headings.WordsAreClean | frontend/src/lib/promptImport.ts:307-308 | what is left of a heading are letters, digits, underscores, hyphens and single inner spaces, 90 at most |
| Headings.ClassesExactly | frontend/src/lib/promptImport.ts:307-308 | the characters kept and those of a number, by their codes |
| Headings.NumberingGoes | frontend/src/lib/promptImport.ts:307-308 | white space, a number, a dot or closing parenthesis and white space before a name are taken out |
| Headings.AccentsVanish | frontend/src/lib/promptImport.ts:307-307 | combining accents and apostrophes leave no trace, wherever they stand |
| Headings.PunctuationIsSpace | frontend/src/lib/promptImport.ts:308-308 | any run of other characters between two names becomes one space |
| Headings.WordsOfLongName | frontend/src/lib/promptImport.ts:308-308 | a longer name is cut after 90 units and trimmed |
| Headings.WordsOfName | frontend/src/lib/promptImport.ts:307-308 | a heading that is an acceptable name already, and not too long, is left alone |
| SectionNames.CandidateTags | frontend/src/lib/promptImport.ts:310-312 | differently numbered candidates have different tags |
| SectionNames.TagsAgree | frontend/src/lib/sections.ts:18-21 | for the names made here the page's tag is the server's |
| Csv.ReaderUndoesPrinter | frontend/src/lib/promptImport.ts:396-416 | printing any rows with the quoting of section 2 of RFC 4180 and any line ends, then reading them, gives the rows back, blank rows only dropped; a lone carriage return before a line of nothing included |
| Csv.CsvRows | frontend/src/lib/promptImport.ts:397-416 | the character loop computes the recursive reader, then drops rows of white space only |
| CopyNames.FreshCopyName | backend/app/services/prompts/library.py:143-157 | stops within one more candidate than there are names, at the first unused one, which has at most 100 characters |
| CopyNames.CopyNameExactly | backend/app/services/prompts/library.py:150-153 | a copy's name is the whole base if there is room in 100 characters, else as much of it as fits, and then " (copy)" or " (copy n)" in decimal |
| Numerals.DecimalStandsFor | backend/app/services/prompts/library.py:150-153 | numbers in names and notes are in decimal, without leading zeros |
| CopyNames.CopyNameInjective | backend/app/services/prompts/library.py:150-153 | however much of the base is cut away, different numbers give different names |
| LlmClient.JsonCompletion | backend/app/services/llm_client.py:437-543 | at most two attempts; every response's usage is captured, the usage returned is the total over all of them, and success and errors arise exactly as stated |
| LlmClient.ExchangeExactly | backend/app/services/llm_client.py:437-543 | in closed form: a second attempt is made exactly after an answer that is not JSON, or a 400 while a format was asked for; usage, success and errors are those of the attempts made |
| Pricing.PublishedCostExactly | backend/app/services/spend_ledger.py:73-100 | with published rates the tokens reported are charged, or 2,000 each way when none were and a ceiling is set; local providers cost nothing |
| Pricing.UnpublishedCostExactly | backend/app/services/spend_ledger.py:73-100 | without published rates 15 and 75 dollars a million tokens are charged while a ceiling is set, and else nothing |
| LlmClient.FormatLadder | backend/app/services/llm_client.py:437-450 | the first attempt asks for what the provider can do, the second for one rung less |
| Pricing.CostIsDollars | backend/app/services/spend_ledger.py:94-100 | tokens cost their number times the rate, by the million |
| Pricing.CeilingExactly | backend/app/services/budget_service.py:101-115 | a limit is set when any of the three ceilings is |
| PublicSpend.EstimateExactly | backend/app/services/public_refine.py:77-90 | a reservation is four times the cost of the whole input, at three characters a token and 3,000 more, and the capped output |
| PublicSpend.AdmittedExactly | backend/app/services/budget_service.py:135-175 | when its row is stamped no earlier than it counted and summed, a call is admitted exactly if the ledger with its reservation is within the daily limit and strictly below the shared and the public ceiling; a refusal names the first that it would break |
| PublicSpend.ReservedRow | backend/app/services/public_refine.py:107-131 | an admitted call's row is the last one, at the estimate, without tokens |
| PublicSpend.DayExactly | backend/app/services/public_refine.py:64-66 | a day is 24 hours from midnight UTC, and its month is the calendar's for that day |
| PublicSpend.CallsByDay | backend/app/services/public_refine.py:64-66 | the calls counted since a day are its own and those since the next |
| PublicSpend.SpendByMonth | backend/app/services/budget_service.py:84-98 | the spend summed since a month is its own and that since the next |
| PublicSpend.NegativeEstimate | backend/app/services/budget_service.py:135-175 | an estimate below zero counts as nothing |
| PublicSpend.CallsAreRows | backend/app/services/public_refine.py:64-66 | the calls of a day are the rows stamped within its 24 hours |
| PublicSpend.FinishedExactly | backend/app/services/public_refine.py:134-183 | a finished call has the tokens and costs of every response captured, or of the one returned when none was, the last one's provider, and the reservation as a floor if a response had no counts; nothing else of its row changes |
| PublicLimits.LimitsAlwaysHold | backend/app/services/public_refine.py:107-147 | under any interleaving of reservations and settlements from an empty ledger: with days stamped in order no day has more calls than the limit; with months in order, an output cap of at least 1,000 (or assumed tokens that fit each call) and responses within the estimate, each month with a call stays strictly below the public ceiling |
| PublicLimits.DailyCap | backend/app/services/public_refine.py:64-131 | the daily half, from any ledger within the limit, for runs whose rows are never stamped with a day before the counted one; the clock is free otherwise |
| PublicLimits.DailyCapNeedsOrder | backend/app/services/public_refine.py:64-131 | without ceilings, a reservation keeps every ledger within the limit if and only if its row's day is not before the counted one |
| PublicLimits.MonthlyCeiling | backend/app/services/budget_service.py:84-168 | the monthly half, from any ledger below the ceiling whose rows stand at or below their reservations, for runs whose rows are never stamped with a month before the summed one |
| PublicLimits.CeilingNeedsOrder | backend/app/services/budget_service.py:84-168 | without a shared ceiling, a reservation priced below the public one that counts and sums on one day keeps every ledger below it if and only if its row's month is not before that day's |
| PublicLimits.SettlingFits | backend/app/services/public_refine.py:77-147 | calls within the per-attempt estimate settle at no more than their reservation, for all of them, if and only if charging the assumed tokens for every response fits it |
| PublicLimits.ReservationExceeded | backend/app/services/public_refine.py:77-147 | the failing input: an output cap of one token, hosted rates of 2 and 10 dollars, two responses without counts, for any request of 1 to 8,982 characters |
| PublicLimits.TerseFits | backend/app/services/public_refine.py:77-90 | with that cap and those rates the assumed tokens fit exactly the longer requests |
| PublicLimits.CapsThatFit | backend/app/services/public_refine.py:33-90 | an output cap of 1,000 tokens makes them fit for two responses, 2,000 for four |
| PublicSpend.PublicLedger.ReserveCall | backend/app/services/public_refine.py:107-131 | a row at the estimated cost, or the refusal the limits give in their order, with the ledger unchanged |
| PublicSpend.PublicLedger.SettleCall | backend/app/services/public_refine.py:134-147 | the row takes the last response's provider and model, the total tokens and the priced sum, the reservation being the floor when a response had no counts |
| PublicSpend.PublicLedger.FinishCall | backend/app/services/public_refine.py:150-183 | both ways a provider call can end settle its row |
| Evaluation.EvalRun.RunEvaluation | backend/app/services/eval_service.py:366-573 | one result a case in case order; the stored tokens equal the sums over the ledger rows and over all responses received, for every mix of success, retry, judge failure and run failure; latency and cost are those of the calls made; the run's score is right |
| Evaluation.RunCases | backend/app/services/eval_service.py:462-570 | the loop's running sums are those totals and scores |
| Evaluation.RunCostExactly | backend/app/services/eval_service.py:127-146 | the counted cost of every run differs from that of its ledger rows by at most half a millionth of a dollar for each successful call, if and only if no ceiling is set, or rates are known and assumed tokens cost at most that much |
| Evaluation.RunCostMatchesLedger | backend/app/services/eval_service.py:127-146 | the half that holds, for any run with its outcomes, results, ledger and totals |
| Evaluation.UnreportedRun | backend/app/services/eval_service.py:127-146 | the failing run: one case without token counts is counted at nothing and billed at 2.4 cents |
| Pricing.AsPublishedExactly | backend/app/services/spend_ledger.py:73-100 | the ledger records the published cost unless a ceiling is set and usage or rates are unknown, at rates that are not zero |
| EvalCases.ExecuteCase | backend/app/services/eval_service.py:316-349 | a case is graded exactly when its judge returned JSON with a score, and what it will be billed for adds up to the responses it received, each billed as what it was for |
| EvalCases.PurposesExactly | backend/app/services/eval_service.py:316-349 | the tokens billed for running a case are its run's, those billed for grading it are all that the judge's attempts received |
| Evaluation.ResultExactly | backend/app/services/eval_service.py:462-570 | what is recorded for a case, from its trial alone: nothing when the run failed, a pending result for a person, the judge's score held to 0..100 if it returned JSON with one, or the rule's score |
| Evaluation.SuccessesCounted | backend/app/services/eval_service.py:316-349 | the successful calls that the slack of a run's cost counts are the runs that succeeded and the gradings that gave a grade |
| Evaluation.RunLatency | backend/app/services/eval_service.py:127-146 | a run's latency is that of its successful runs and gradings |
| EvalCases.RoundsToMillionth | backend/app/services/eval_service.py:142-146 | shown costs are rounded to the nearest millionth of a dollar |
| EvalCases.TokensOn | backend/app/services/eval_service.py:466-512 | billing one more case adds exactly the tokens of its responses to the ledger |
| Scores.RuleScoreExactly | backend/app/services/eval_service.py:228-255 | there is a score exactly when there are terms and none is unsafe, and it is the share of terms that pass, rounded |
| Scores.RoundsToTenth | backend/app/services/eval_service.py:244-244 | rounded to the nearest tenth, ties to the even one |
| Criteria.RequiredAreTerms | backend/app/services/eval_service.py:233-233 | the terms checked are the non-blank ones, stripped, in order |
| Criteria.SpecialTerms | backend/app/services/eval_service.py:210-223 | a pattern passes when it is found and is unsafe when its search was cut short; "{json}" asks for JSON |
| Criteria.PassesExactly | backend/app/services/eval_service.py:210-226 | a plain term passes exactly when it stands somewhere in the output once both are lower-cased, a term after "!" exactly when the rest stands nowhere, and neither is ever unsafe |
| Scores.ScoreRule | backend/app/services/eval_service.py:228-255 | the rounded share of passed terms in 0..100, none without terms or when one cannot be evaluated |
| Criteria.SplitExactly | backend/app/services/eval_service.py:90-117 | the terms are the one list that joins to the criteria with commas, that no unnested and unescaped comma splits further, and whose terms but the last close their brackets |
| Criteria.PlainSplit | backend/app/services/eval_service.py:90-117 | without brackets and backslashes every comma separates, as in an ordinary split |
| Criteria.SplitCriteria | backend/app/services/eval_service.py:90-117 | the character loop with its depth and escape flag computes that list |
| Criteria.BlankHasNoTerms | backend/app/services/eval_service.py:230-235 | criteria of white space only have no terms, so both early returns give the same |
| Evaluation.RatingsKeepInv | backend/app/services/evaluation/results.py:60-89 | after any sequence of ratings the run's score is absent while a result is pending and otherwise the rounded mean of the scores there are, all in 0..100 |
| Evaluation.RatedExactly | backend/app/services/evaluation/results.py:60-89 | a rating records 20 points a star in one result and changes no other: beside a judge's score not yet rated, or as the score of a pending one; anything else is refused and changes nothing |
| Evaluation.FinalizedByLastRating | backend/app/services/eval_service.py:575-601 | a rating gives the run its score exactly when it rates the only pending result; a score once there never changes, and rating a judge result never touches it |
| Scores.MeanInRange | backend/app/services/eval_service.py:565-567 | the aggregate is itself in 0..100 |
| Evaluation.EvalRun.Rate | backend/app/services/evaluation/results.py:60-89 | the route's rule: judge results take one human score, pending results one rating, everything else is refused |
| Evaluation.EvalRun.SubmitManualRating | backend/app/services/eval_service.py:575-601 | the rated result, and the run's score when nothing is pending any more |
| EvalStatus.RunsStayTied | backend/app/services/eval_service.py:351-364 | a run recorded with version n tested the text that version n has in every later state of the history; only text other than the saved prompt's is recorded as a draft |
| EvalStatus.DraftVersionIsLeast | backend/app/services/evaluation/results.py:18-42 | a draft's reported version is the least one holding its text, and absent exactly when none does |
| EvalStatus.DraftVersionIsStable | backend/app/services/evaluation/results.py:18-42 | once reported it never changes, over any run of writes |
| EvalStatus.DescribedLater | backend/app/services/evaluation/results.py:18-42 | a run recorded now and described after any writes has the version it tested, or for a draft the least that has its text by then, and matches exactly while the live text is the one it tested |
| EvalStatus.LegacyDescribed | backend/app/services/evaluation/results.py:18-30 | a run without its text has the version recorded, and matches while that is the live one |
| EvalStatus.DescribeRuns | backend/app/services/evaluation/results.py:18-42 | the loop with its lazily loaded texts describes each run by itself |
| EvalStatus.AnnotateEvalStatus | backend/app/services/evaluation/results.py:127-161 | one pass over all runs agrees with the descriptions: current with the newest matching run's score, stale when only others exist, untested without runs, legacy runs without text included |
| Migrations.CrashesDoNotMatter | backend/app/database/migrations/runner.py:18-49 | for rerunnable migrations, however often and wherever runs are cut off, the next complete run ends where a clean one would have |
| Migrations.MigrationsSurviveCrashes | backend/app/database/migrations/runner.py:18-49 | so for the two migrations below; in the end every prompt's text is the rendering of its sections and the notes are moved once |
| Migrations.Runner.RunMigrations | backend/app/database/migrations/runner.py:26-49 | the loop, cut off after any number of committed transactions |
| Migrations.RecoveryIsComplete | backend/app/database/migrations/v023_recover_drifted_prompt_sections.py:16-77 | afterwards every text is a rendering, drifted prompts keep their old fields and text as a version, the text changes only where it could not be read as sections, and a second run does nothing |
| Migrations.RecoveryLosesNoText | backend/app/database/migrations/v023_recover_drifted_prompt_sections.py:16-77 | a drifted text is live afterwards, read as sections or whole in one; a prompt that had not drifted is untouched |
| Migrations.RecoveryIsLabelled | backend/app/database/migrations/v023_recover_drifted_prompt_sections.py:16-77 | the old state is kept last, under a number one above the greatest stored, labelled as the state before the recovery |
| Migrations.Database.Migration023 | backend/app/database/migrations/v023_recover_drifted_prompt_sections.py:16-77 | the loop over the prompts does that |
| Migrations.NotesMoveByOne | backend/app/database/migrations/v025_version_notes.py:32-49 | each non-recovery note moves to the next version, the last to the live prompt; a recovery label moves nowhere and stays unless a note moves onto it |
| Migrations.MovedMatchesReplay | backend/app/database/migrations/v025_version_notes.py:32-49 | the moved notes are those that edits under the present snapshot rule, and recoveries under this model's, would have recorded, if and only if no edit with an empty note is followed by another edit |
| Migrations.MovedMatchesEdits | backend/app/database/migrations/v025_version_notes.py:32-49 | for histories of edits only, the moved notes are those the present snapshot rule records, if and only if no note but the last is empty |
| Migrations.EmptyNoteLost | backend/app/database/migrations/v025_version_notes.py:32-49 | the failing input: two edits, the first with an empty note |
| Migrations.MovingIsGuarded | backend/app/database/migrations/v025_version_notes.py:16-22 | a rerun does nothing, and the one run keeps sections, texts and every old note |
| Migrations.Database.Migration025 | backend/app/database/migrations/v025_version_notes.py:8-49 | the loop with its dictionary of previous notes computes the shift for all prompts |

## Left out

- OAuth: redirect URIs, PKCE, scope and resource checks made by the SDK, client registration and the table of clients, JWT signing and hashing. `disconnect_app` is one atomic step.
- OAuthStore.OAuthStore.BumpTokenVersion: the same step is made in accounts/passwords.py and api/session_routes.py; what those routes check first is not modelled.
- Sections: upper and lower case are mapped for ASCII only. Names the API accepts are ASCII, but migrated rows could hold others.
- History: the limits on the length of names, notes and metadata are not part of the model, nor are version authors and legacy notes, and the folder of a new prompt is taken after trimming.
- History.TruncatedEcho: compares whole microseconds; the code compares floating-point seconds, which at exactly 500 microseconds can decide either way.
- History.EchoesAbsorbedExactly: the same.
- TextSplitter.SplitVariables: a variable part also carries its name, which is not modelled.
- Csv.CsvRows: how columns become prompts is not modelled.
- CopyNames.FreshCopyName: the 100 characters hold while a number has fewer than 92 digits, which the code needs too.
- PublicLimits: months are a function of the day that never goes down; prices do not change during a run, and the price index and its refresh are not modelled. The shared and per-account ceilings are checked but, as the code says of them, are no reservation, so no bound is claimed.
- Evaluation: labels, rationales, the thread pool and the time limit on pattern searches are not modelled. Rounding is half to even on real numbers, where the code rounds binary floating-point values.
- Filling variables and compiling prompts are not part of this model.
- Migrations.CrashesDoNotMatter: is about any list of rerunnable migrations; only 023 and 025 are modelled and shown to be rerunnable. The table rebuild with foreign keys off and the missing-table checks are left out.
- HTTP routes, the browser client, rate limiting, email, metrics, import heuristics for Notion and Obsidian, placeholder detection and prompt lint.
