# Weekly notes: the note-handling rules of a note-taking app, in Dafny

The application keeps free-form notes and structured weekly reports. A
weekly note's content has two sections of work items, `keyFocus` and
`regularWork`. Each item has a text, a `completed` flag, free-form notes and
optional tags. This project models the rules that decide what these notes
contain, and proves what those rules guarantee:

- **Main view** (`main_view.dfy`, module `MainView`).
  - When a note is selected, its stored content is normalised. Objects pass
    through. The corrupt string `[object Object]` is reset. A weekly note's
    string is parsed, and a failed parse becomes two empty sections.
  - A carry-over collects the unfinished items of the active weekly note.
    They become the key-focus section of a new weekly note titled
    `週記 (<start> ~ <end>)`.
  - After the new note is created, every item whose text was carried is
    removed from the note it came from.
  - The component state is the class `MainViewState`.
- **Note editor** (`note_editor.dfy`, module `NoteEditor`).
  - `WeeklyWorkList` is the list of one section. Its handlers add a trimmed
    item, remove by position, toggle `completed`, and edit the text or notes
    of one row in place.
  - Two setters write an edited list back into one section of the note.
- **Submitted notes view** (`submitted_notes_view.dfy`, module
  `SubmittedNotesView`).
  - The badge list of a note shows its distinct tags, built through an
    insertion-ordered `Map` keyed by tag name.
  - Each column header shows a sort icon.
- **Week ranges** (`date_helpers.dfy`, module `DateHelpers`): the server's
  Monday-to-Sunday week of a date, and the week after a given one.
- **Authentication middleware** (`auth_middleware.dfy`, module
  `AuthMiddleware`): the `Authorization: Bearer <token>` check in front of
  the API.

`notes.dfy` holds the records the client components share (module `Notes`)
and the `Option` type (module `Wrappers`). It also holds `Array.prototype.filter`
as `Filter`, with its lemmas.

Calls into libraries are parameters:

- `JSON.parse` is `parse: string -> Option<Content>`. `None` stands for a thrown
  parse error.
- `jwt.verify(token, secret)` is `verify: string -> Option<Decoded>`, with the
  secret bound in. `None` stands for an invalid or expired token.

Dates are day numbers: days since 1970-01-01, which was a Thursday.

The code has no server-side aggregation of reports, and a tag is a
`{ id, name }` object.

## Model

| member | source | states |
|---|---|---|
| Notes.KeyFocus | client/src/components/NoteEditor.js:156 | the key-focus list of an object content that has one, and the empty list for a missing section or non-object content |
| Notes.RegularWork | client/src/components/NoteEditor.js:157 | the regular-work list of an object content that has one, and the empty list for a missing section or non-object content |
| Notes.AllItems | client/src/components/MainView.js:250-253 | the items of a weekly note are the key-focus items followed by the regular-work items; a missing section or non-object content contributes none |
| Notes.Filter | client/src/components/MainView.js:253 | `filter` never yields more elements than it is given |
| Notes.FilterMultiset | client/src/components/MainView.js:148-149 | `filter` keeps exactly the occurrences of the elements its predicate accepts, each as many times as it occurs, and drops all others |
| Notes.FilterSatisfies | client/src/components/MainView.js:253 | every element `filter` keeps satisfies its predicate |
| Notes.FilterStep | client/src/components/SubmittedNotesView.js:33-37 | walking one more element with `filter` appends it exactly when it satisfies the predicate |
| Notes.FilterIsSubsequence | client/src/components/MainView.js:148-149 | `filter` keeps the surviving elements in their original order |
| Notes.FilterConcat | client/src/components/MainView.js:250-253 | filtering the concatenated sections is filtering each section and concatenating the results |
| MainView.DefaultContent | client/src/components/MainView.js:67 | the reset content is two empty sections for a weekly note and the empty string otherwise |
| MainView.NormalizeContent | client/src/components/MainView.js:59-83 | object content is kept; the `[object Object]` marker and non-string, non-object content are reset to the default; a weekly note's string becomes its parse, or two empty sections if the parse fails; another note's string is kept verbatim |
| MainView.NormalizeIdempotent | client/src/components/MainView.js:59-83 | selecting an already selected note changes nothing when the first selection gave an object or the note is not weekly; a non-weekly note's content always ends up a string or an object |
| MainView.NormalizeWeeklyFallsBackToEmpty | client/src/components/MainView.js:65-80 | a weekly note with corrupt, unparsable or non-string, non-object content opens with two empty sections |
| MainView.CarriedItems | client/src/components/MainView.js:250-260 | the carried items are the unfinished items of both sections, in order, and every one is marked not completed |
| MainView.CarriedItemsSpec | client/src/components/MainView.js:250-260 | the unfinished key-focus items come before the unfinished regular-work items; each unfinished item is carried as often as it occurs and completed ones never are; the carried list is a subsequence of the note's items |
| MainView.Texts | client/src/components/MainView.js:146 | a text is in the set exactly when some carried item has it |
| MainView.PruneSection | client/src/components/MainView.js:148-149 | one pruned section keeps exactly its items whose text is not carried, with their multiplicity and in their order, and nothing else |
| MainView.RemoveCarried | client/src/components/MainView.js:145-157 | both sections of the pruned source are present, and an item is in a pruned section exactly when it was in that section of the source and its text was not carried |
| MainView.RemoveCarriedSpec | client/src/components/MainView.js:145-156 | each section of the pruned source keeps exactly its items whose text was not carried, with their multiplicity and in their order, and both sections are present |
| MainView.RemoveCarriedMembers | client/src/components/MainView.js:145-156 | an item is left in the pruned source exactly when it was in the source and its text was not carried |
| MainView.NewNotePayload | client/src/components/MainView.js:124-136 | a weekly note is titled with its two dates and holds the carried items as key focus with no regular work; any other note is `新筆記` with content `...`; the inbox files a note under no folder, any other selection under that folder |
| MainView.CarryOverPartition | client/src/components/MainView.js:247-263 | after a carry-over no text is in both the new note and the pruned source; every unfinished item is in the new note; every item whose text was not carried stays in the source; a completed item sharing its text with an unfinished one is dropped from both |
| MainView.MainViewState.constructor | client/src/components/MainView.js:13-22 | the view starts with no active note, the modal closed, the inbox selected and nothing to carry over |
| MainView.MainViewState.NoteSelect | client/src/components/MainView.js:59-83 | the selected note becomes active with its content normalised; no other state changes |
| MainView.MainViewState.CarryOver | client/src/components/MainView.js:247-263 | without an active weekly note or without unfinished items nothing changes; otherwise the carried items and the source note are remembered and the modal opens |
| MainView.MainViewState.NewNoteRequest | client/src/components/MainView.js:116-138 | a weekly note lacking a date clears the carry-over, opens the modal and sends nothing; otherwise the payload built from the current carried items and folder is sent and the state is unchanged |
| MainView.MainViewState.NoteCreated | client/src/components/MainView.js:139-176 | the modal closes, the carried items are cleared and the created note is selected; only when items were carried from a source note is that note's pruned content sent as an update, and only then is the source forgotten |
| NoteEditor.SkipLeading | client/src/components/NoteEditor.js:10-11 | the forward scan passes only white space and stops at the first character that is not white space, or at the end |
| NoteEditor.SkipTrailing | client/src/components/NoteEditor.js:10-11 | the backward scan passes only white space and stops just after the last character that is not white space, or at its lower bound |
| NoteEditor.Trim | client/src/components/NoteEditor.js:10-11 | the result is the slice of the text that begins where its leading white space ends, and everything cut off at either end is white space; it is empty exactly when the text is all white space, and otherwise starts and ends with a character that is not white space |
| NoteEditor.TrimIdempotent | client/src/components/NoteEditor.js:10-11 | trimming twice is trimming once |
| NoteEditor.NewItem | client/src/components/NoteEditor.js:11 | the appended item holds the trimmed text, which has no white space at either end, is not completed, and has empty notes and no tags |
| NoteEditor.RemoveAt | client/src/components/NoteEditor.js:16-19 | exactly the item at the index is removed; an index outside the list removes nothing |
| NoteEditor.ToggleAt | client/src/components/NoteEditor.js:21-26 | only the item at the index changes, and only its `completed` flag, which is negated |
| NoteEditor.ToggleTwice | client/src/components/NoteEditor.js:21-26 | toggling the same index twice restores the list |
| NoteEditor.EditAt | client/src/components/NoteEditor.js:38-47 | only the edited field of the edited row changes, and it takes the new value |
| NoteEditor.EditUnchangedValue | client/src/components/NoteEditor.js:38-47 | saving an edit with the field's current value leaves the list as it was |
| NoteEditor.SetKeyFocus | client/src/components/NoteEditor.js:151 | the key-focus section becomes the given list and the regular-work section is what it was |
| NoteEditor.SetRegularWork | client/src/components/NoteEditor.js:152 | the regular-work section becomes the given list and the key-focus section is what it was |
| NoteEditor.SettersCommute | client/src/components/NoteEditor.js:151-152 | writing one section and then the other gives the same content in either order, and both lists land where they were written |
| NoteEditor.WeeklyWorkList.constructor | client/src/components/NoteEditor.js:3-7 | a list opens with the items it is given (the editor gives it a section's list, or the empty list for a missing section), an empty input and nothing being edited |
| NoteEditor.WeeklyWorkList.NewItemTextChange | client/src/components/NoteEditor.js:121 | the input holds the typed value |
| NoteEditor.WeeklyWorkList.AddItem | client/src/components/NoteEditor.js:9-14 | blank input changes nothing; otherwise the trimmed text is appended as an unfinished item with empty notes and the input is cleared |
| NoteEditor.WeeklyWorkList.RemoveItem | client/src/components/NoteEditor.js:16-19 | the list becomes the list without the item at the index |
| NoteEditor.WeeklyWorkList.ToggleCompleted | client/src/components/NoteEditor.js:21-26 | the list becomes the list with the item at the index toggled |
| NoteEditor.WeeklyWorkList.EditStart | client/src/components/NoteEditor.js:28-32 | the edited row, field and initial text are remembered |
| NoteEditor.WeeklyWorkList.EditChange | client/src/components/NoteEditor.js:34-36 | the edit text holds the typed value |
| NoteEditor.WeeklyWorkList.EditSave | client/src/components/NoteEditor.js:38-51 | with no row being edited nothing changes; otherwise the edited field of the edited row takes the edit text and the editing state is reset |
| SubmittedNotesView.ItemTags | client/src/components/SubmittedNotesView.js:32-34 | an item without tags contributes none, and every tag an item contributes has a non-empty name |
| SubmittedNotesView.ItemTagsMembers | client/src/components/SubmittedNotesView.js:32-34 | an item contributes exactly those of its tags that have a non-empty name |
| SubmittedNotesView.Names | client/src/components/SubmittedNotesView.js:35 | the keys used are the tags' names, position by position |
| SubmittedNotesView.Dedup | client/src/components/SubmittedNotesView.js:30-40 | a name is a key of the map exactly when some tag set under it had that name |
| SubmittedNotesView.FirstIndex | client/src/components/SubmittedNotesView.js:35 | the position of a name's first occurrence |
| SubmittedNotesView.LastIndex | client/src/components/SubmittedNotesView.js:35 | the position of a name's last occurrence |
| SubmittedNotesView.DedupDistinct | client/src/components/SubmittedNotesView.js:30-40 | the map's keys are distinct |
| SubmittedNotesView.DedupFirstOrder | client/src/components/SubmittedNotesView.js:30-40 | the map's keys are in the order of their first insertion |
| SubmittedNotesView.FirstIndexOfPrefix | client/src/components/SubmittedNotesView.js:31-39 | setting more keys does not move the first occurrence of a name already set |
| SubmittedNotesView.TagStreamConcat | client/src/components/SubmittedNotesView.js:29-31 | the tags of the key-focus items are set before those of the regular-work items |
| SubmittedNotesView.TagStreamContains | client/src/components/SubmittedNotesView.js:31-39 | every named tag of every item is set in the map |
| SubmittedNotesView.TagStreamNamed | client/src/components/SubmittedNotesView.js:34 | only tags with a non-empty name are set |
| SubmittedNotesView.UniqueTagsOf | client/src/components/SubmittedNotesView.js:25-41 | content that is not an object shows no tags |
| SubmittedNotesView.UniqueTagNamesDistinct | client/src/components/SubmittedNotesView.js:25-41 | no two tags shown share a name |
| SubmittedNotesView.UniqueTagsSound | client/src/components/SubmittedNotesView.js:29-40 | every tag shown is a named tag of one of the note's items |
| SubmittedNotesView.UniqueTagsComplete | client/src/components/SubmittedNotesView.js:29-40 | every named tag of every key-focus or regular-work item has its name shown |
| SubmittedNotesView.UniqueTagsCover | client/src/components/SubmittedNotesView.js:25-41 | every tag shown is a named tag of one of the note's items, and every named tag of every item has its name shown |
| SubmittedNotesView.UniqueTagsOrderAndLastWins | client/src/components/SubmittedNotesView.js:25-41 | names are shown in the order they first occur; the tag shown for a name is its last occurrence, and none with that name comes after it |
| SubmittedNotesView.DedupSnoc | client/src/components/SubmittedNotesView.js:35 | setting a key appends it when new and leaves the key order unchanged when known |
| SubmittedNotesView.LastIndexSnoc | client/src/components/SubmittedNotesView.js:35 | the last occurrence of the key just set is the newest position; other names keep theirs |
| SubmittedNotesView.MapSetStep | client/src/components/SubmittedNotesView.js:35 | one `set` keeps the map's keys and values in step with the tags set so far |
| SubmittedNotesView.MapSetOrder | client/src/components/SubmittedNotesView.js:35 | after one `set`, the key order is the distinct names set so far in first-occurrence order: the new name is appended only when it is not yet a key |
| SubmittedNotesView.MapSetKeys | client/src/components/SubmittedNotesView.js:35 | after one `set`, the keys are exactly the names set so far |
| SubmittedNotesView.MapSetValues | client/src/components/SubmittedNotesView.js:35 | after one `set`, each key holds the last tag set under it |
| SubmittedNotesView.SetTag | client/src/components/SubmittedNotesView.js:34-36 | a named tag is set in the map under its name, its key appended only when new, so the key order only grows; an unnamed one leaves the map and key order alone; either way the map stays in step with the tags set so far |
| SubmittedNotesView.SetNamedTags | client/src/components/SubmittedNotesView.js:33-37 | setting one item's tags only appends keys, never reorders them, and leaves the map in step with the tags set so far plus that item's named tags |
| SubmittedNotesView.TagStreamStep | client/src/components/SubmittedNotesView.js:31-39 | walking one more item sets exactly that item's named tags after those set so far |
| SubmittedNotesView.MapValues | client/src/components/SubmittedNotesView.js:40 | `Array.from(tagMap.values())` lists one value per key, in key-insertion order: position k holds the value stored under the k-th key |
| SubmittedNotesView.MapValuesAreUniqueTags | client/src/components/SubmittedNotesView.js:40 | once every item is walked, listing the map's values in key order gives the tags of `UniqueTagsOf` |
| SubmittedNotesView.UniqueTags | client/src/components/SubmittedNotesView.js:25-41 | the loops over items and tags produce exactly the tags of `UniqueTagsOf` |
| SubmittedNotesView.GetSortIcon | client/src/components/SubmittedNotesView.js:6-14 | the icon is neutral exactly on columns other than the sorted one; on the sorted column it points up exactly when ascending, and down for any other direction |
| SubmittedNotesView.AtMostOneSortedHeader | client/src/components/SubmittedNotesView.js:6-14 | among headers with distinct names at most one shows a direction |
| DateHelpers.Weekday | server/utils/dateHelpers.js:3 | the weekday is in 0..6 |
| DateHelpers.GetWeekRange | server/utils/dateHelpers.js:1-13 | the week starts on a Monday, `(weekday + 6) mod 7` days before the date; it contains the date and ends six days after it starts |
| DateHelpers.WeekdayShift | server/utils/dateHelpers.js:3-4 | the day the source computes as the start of the week is a Monday |
| DateHelpers.SameWeekdayWholeWeeks | server/utils/dateHelpers.js:3-4 | two days less than a week apart with the same weekday are the same day |
| DateHelpers.WeekStartIsLatestMonday | server/utils/dateHelpers.js:1-13 | the week starts on the latest Monday on or before the date; a Sunday belongs to the week that began six days earlier |
| DateHelpers.SameWeekSameRange | server/utils/dateHelpers.js:1-13 | every day of a week has that same week as its range |
| DateHelpers.GetNextWeekRange | server/utils/dateHelpers.js:15-25 | the next week starts the day after the current end and lasts seven days |
| DateHelpers.NextWeekIgnoresStart | server/utils/dateHelpers.js:15-17 | the next week depends only on the current end date |
| DateHelpers.NextWeekFollows | server/utils/dateHelpers.js:15-25 | after the week of a date comes the week of the date seven days later |
| AuthMiddleware.Split | server/middleware/authMiddleware.js:14 | `split(' ')` gives at least one piece, no piece contains a space, and joining the pieces with spaces gives the header back |
| AuthMiddleware.SplitAfterPiece | server/middleware/authMiddleware.js:14 | a leading piece without a space is split off as the first piece |
| AuthMiddleware.SplitJoin | server/middleware/authMiddleware.js:14 | splitting the join of space-free pieces gives the pieces back |
| AuthMiddleware.BearerFormat | server/middleware/authMiddleware.js:14-19 | the format check passes exactly for `Bearer ` followed by a token with no space, and the token is what follows the prefix |
| AuthMiddleware.Authorize | server/middleware/authMiddleware.js:4-31 | a missing or empty header is rejected as "No token"; a header not of the form `Bearer <token>` as "not in the correct format"; a header of that form whose token does not verify as "Token is not valid."; the request proceeds exactly when the header has that form and its token verifies, and then as the token's user; every rejection is a 401 |
| AuthMiddleware.Exchange.constructor | server/middleware/authMiddleware.js:6 | a request starts with its header, no user, no reply and no call to `next` |
| AuthMiddleware.RunAuthMiddleware | server/middleware/authMiddleware.js:4-31 | exactly one thing happens: the rejection's reply is sent, or the user is attached and `next` is called once |

## Left out

- Rendering, toasts, effects, routing and the window-size check of the React components are not modelled. Only the state the handlers compute is.
- The API calls are asynchronous and can fail. The model takes the successful result of `createNote` as the argument of `NoteCreated`. A failed create only shows a toast and changes no state.
  - The `updateNote` request for the source note is returned as a payload rather than sent.
  - Whether that request succeeds does not matter, because the `finally` block does the same cleanup either way.
  - `loadNotes` is not modelled.
- MainView.MainViewState.NoteCreated reads the carried items and source note from the current state. The source's callback reads the values captured when `handleNewNote` ran. The two agree unless the state changes while the request is in flight.
- MainView.NormalizeContent treats a weekly note whose content is `null` or not an object as having empty sections downstream. In the source, `activeNote.content.keyFocus` on a `null` content would throw instead.
- A section that is present but is not an array cannot be represented: a section is either missing or a list of items, so the model's parse never yields content such as `{"keyFocus": 5}` or `{"keyFocus": "x"}`. On such content the source fails where the model succeeds. The spreads at client/src/components/MainView.js:251-252 and client/src/components/SubmittedNotesView.js:29 throw on a non-iterable value and split a string into characters. The `filter` calls at client/src/components/MainView.js:148-149 throw on a string. `items.map` at client/src/components/NoteEditor.js:63 breaks the render.
- Items are total records: `completed` is a boolean and `text`/`notes` are strings. Extra fields an item may carry are not modelled. `NoteEditor.WeeklyWorkList.EditSave` with no field recorded adds a field named `null` in the source; here it leaves the items unchanged.
- `JSON.parse` and `jwt.verify` are parameters, so the model proves nothing about the JSON grammar or the token signature. The hard-coded JWT secret is part of `verify`.
- DateHelpers.GetWeekRange works on day numbers and computes the week of the date as written, which is what the source does on a server whose local time zone is UTC. Parsing the date string and the ISO formatting by `toISOString` are not modelled, and neither is the local time zone.
  - `new Date("2024-01-08")` parses a date-only string as UTC midnight (server/utils/dateHelpers.js:2), while `getDay` and `setDate` work in local time (lines 3-7).
  - West of UTC, every date-only input therefore takes the weekday of the day before.
  - For example, at UTC-5 Monday 2024-01-08 is read as Sunday 2024-01-07, and the source returns 2024-01-02 to 2024-01-08 instead of 2024-01-08 to 2024-01-14.
- AuthMiddleware.Authorize takes the header value as Express reports it. How Node joins or trims repeated header lines is not modelled.
- The other components, the controllers, the database layer and the admin views are not part of this model.
