# anki-tools, modelled in Dafny

anki-tools lets you browse an Anki collection in a web browser. It has two parts:

- An Anki add-on runs a small HTTP server (`addon/server.py`). One POST
  endpoint, `/api`, takes an AnkiConnect-style request `{action, params}`.
  It runs one of five actions against the collection: `getModels`,
  `browseNotes`, `browseCards`, `setCardFlag` and `updateNoteFields`. The
  answer is an envelope `{result, error}`.
- A React front end:
  - It keeps its browsing state in the page URL: note type, page, page size,
    search, flag filter and view.
  - It builds the Anki search it sends, and shows notes or cards in
    server-paged tables.
  - It also offers a detail panel with field and tag editors, dialogs to
    create or bulk-import notes, a SQL console that exports CSV, a settings
    dialog, a bulk-edit toolbar, and an alert/confirm service.
  - A second provider talks to AnkiConnect directly.

The project models the dispatcher and the front end's logic, one Dafny module
per source file:

| module | models |
|---|---|
| `Server` | `addon/server.py` |
| `Api` | `src/api.ts` |
| `AnkiConnect` | `src/providers/anki-connect.ts` |
| `Root` | `src/root.tsx` |
| `BrowseTable` | `src/components/browse-table.tsx` |
| `CardsTable` | `src/components/cards-table.tsx` |
| `NoteDetail` | `src/components/note-detail.tsx` |
| `BulkImportDialog` | `src/components/bulk-import-dialog.tsx` |
| `CreateNoteDialog` | `src/components/create-note-dialog.tsx` |
| `SqlConsole` | `src/components/sql-console.tsx` |
| `SearchInput` | `src/components/search-input.tsx` |
| `SettingsDialog` | `src/components/settings-dialog.tsx` |
| `BulkActions` | `src/components/bulk-actions.tsx` |
| `AlertContext` | `src/lib/alert-context.tsx` |
| `Constants` | `src/lib/constants.ts` |
| `Utils` | `src/lib/utils.ts` |

Four shared modules support them:

- `Cells`: the cell, interval and paging arithmetic shared by the two tables
  and the detail panel.
- `JsText`: JavaScript's `split`, `join`, `trim`, `toLowerCase`, `String(n)`
  and `parseInt`, written out over `seq<char>`.
- `Dicts`: dictionaries filled one key at a time.
- `Wrappers`: `Option` and `Result`.

What changes state in place is modelled as a class with `modifies` clauses:

- `Server.Collection`, the part of Anki's collection the actions touch;
- `Server.BrowseServer`;
- `Root.UrlParams`, the URL query parameters;
- `NoteDetail.NoteEditor`;
- `SearchInput.SearchBox`;
- `AlertContext.AlertProvider`.

Loops in the source are methods with loop invariants. Pure helpers are
functions. The server's collection search (`find_notes`, `find_cards`) and
AnkiConnect's answers are parameters: they stay uninterpreted.

## Model

| member | source | states |
|---|---|---|
| Server.UnknownActionNamed | addon/server.py:203 | The text of the unknown-action error is "Unknown action: " followed by the action's name, so the envelope's error names the action. |
| Server.ModelsMap | addon/server.py:137-141 | The `getModels` dict; `ModelsMapEntries` states its keys and values. |
| Server.ModelsMapEntries | addon/server.py:137-141 | `getModels` has one key per note-type name, and each name holds the field names of its last note type of that name, in field order. |
| Server.FirstIndex | addon/server.py:198 | `field_names.index(name)` is the first position holding the name. |
| Server.ApplyFieldUpdates | addon/server.py:196-199 | Applying the supplied updates never changes the number of fields. |
| Server.LastValue | addon/server.py:196-199 | There is no supplied value for a name exactly when no update carries that name. |
| Server.ApplyFieldUpdatesAt | addon/server.py:196-199 | Position by position: the field at the first occurrence of a name holds the last value supplied for that name; every other position keeps its value. |
| Server.ApplyFieldUpdatesDistinct | addon/server.py:196-199 | With distinct field names, each field holds the last value supplied for its name, or its old value. |
| Server.KnownUpdates | addon/server.py:197 | The filtered updates only name fields of the note type. |
| Server.UnknownNamesIgnored | addon/server.py:197 | Dropping every update whose name is not a field name gives the same fields: unknown names are ignored. |
| Server.NoKnownNameNoChange | addon/server.py:196-199 | When no supplied name is a field name, the fields are untouched. |
| Server.Collection.constructor | addon/server.py:135 | A collection holds the note types, notes and cards given, with their search and deck-name functions. |
| Server.Collection.FieldNamesOf | addon/server.py:195 | A note's type has as many field names as the note has fields. |
| Server.Collection.NoteViewOf | addon/server.py:147-158 | The `browseNotes` dict of one note; `NoteViewFields` states each of its entries. |
| Server.Collection.NoteViewFields | addon/server.py:147-158 | A `browseNotes` entry has the note id and its type's name. Each field name is paired with the value at its position. The tags are the note's tags. The deck is the first card's deck, or "" for a note without cards. |
| Server.Collection.CardViewOf | addon/server.py:165-181 | The `browseCards` dict of one card; `CardViewFields` states each of its entries. |
| Server.Collection.CardViewFields | addon/server.py:165-181 | A `browseCards` entry has the card id and the card's own note id, deck, flag, queue, due and interval. Its fields and tags are its note's. |
| Server.Collection.SetUserFlagForCards | addon/server.py:187 | The listed cards that exist get the flag. Every other card, every note and every note type is unchanged, and the collection stays consistent. |
| Server.Collection.UpdateNote | addon/server.py:200 | Saving a note replaces only that note. |
| Server.BrowseNotes | addon/server.py:143-159 | One entry per id the search returns, in search order, each the note's view. |
| Server.BrowseCards | addon/server.py:161-182 | One entry per id the search returns, in search order, each the card's view. |
| Server.UpdateNoteFields | addon/server.py:190-201 | A missing note is an error and changes nothing. Otherwise the note's fields become the fold of the supplied updates: same length, unknown names ignored. Its type, tags and cards are kept, and the result is `True`. |
| Server.ActionSpec | addon/server.py:135-203 | The specification of the dispatcher, as a predicate over the collection before and after and the outcome. It carries no `ensures` of its own; `HandleAction`, `HandleApi` and `DoPost` promise it. |
| Server.HandleAction | addon/server.py:135-203 | Promises `ActionSpec`, action by action: <br>- `getModels` returns the name-to-fields map and changes nothing; <br>- any other action, including a missing one, is the unknown-action error and changes nothing; <br>- the other four actions index `params` first, so `null` params raise "'NoneType' object is not subscriptable"; <br>- `browseNotes` and `browseCards` change nothing, fail with the key's error when `query` is missing, and otherwise return one view per search id, in order; <br>- `setCardFlag` needs `cardId` and then `flag`, flags only that card and returns `True`; <br>- `updateNoteFields` needs `noteId` and then `fields`, then behaves as `UpdateNoteFields`. <br>The collection stays consistent and keeps its note types. |
| Server.CompleteRequestSucceeds | addon/server.py:135-201 | A known action whose parameters are all present (and, for `updateNoteFields`, whose note exists) succeeds, so its envelope holds a result and no error. |
| Server.EnvelopeOf | addon/server.py:93-100 | Exactly one of `result` and `error` is set. It is the action's value on success, and the exception's text on failure. |
| Server.ParamsOf | addon/server.py:90-91 | `request.get("params", {})`: a missing entry reads as `{}`, an explicit `null` as `None`. It carries no `ensures`; `HandleAction`'s `null` case states what follows from it. |
| Server.HandleApi | addon/server.py:85-116 | An exception from fetching the collection becomes the error with its text. Otherwise the envelope is `EnvelopeOf` of the action's outcome, and that outcome and the collection's new state are those `ActionSpec` gives for the request's action and params. |
| Server.DoPost | addon/server.py:79-83 | `/api` answers with JSON of exactly the envelope `HandleApi` builds: the action's outcome as `ActionSpec` gives it, or the collection error. Every other path is 404 and leaves the collection untouched. |
| Server.StartWhenRunning | addon/server.py:55-56 | Starting a running server changes nothing and raises nothing. |
| Server.StartIdempotent | addon/server.py:53-61 | After a successful start the server listens on the host and port given, and a second start is a no-op. |
| Server.BrowseServer.constructor | addon/server.py:50 | A new server is stopped. |
| Server.BrowseServer.Start | addon/server.py:53-61 | A running server is kept. A stopped one either binds the given host and port, or stays stopped and raises the bind error. |
| Server.BrowseServer.StartDefault | addon/server.py:53-61 | `start(port)` without a host behaves as a start on "127.0.0.1": a stopped server that binds listens on the loopback address and the given port. |
| Server.BrowseServer.Stop | addon/server.py:63-68 | Afterwards the server is stopped, whether it was running or not. |
| Api.ToNote | src/api.ts:54-63 | `toNote` gives a note item whose note id is the raw record's id. |
| Api.ToCard | src/api.ts:65-79 | `toCard` gives a card item whose card id is the raw id and whose note id is the raw note id. |
| Api.ItemsKeepRecords | src/api.ts:54-79 | No part of a raw note or card record is lost: the record can be read back from its item. |
| Api.FetchQuery | src/api.ts:98 | The browse query starts with `note:"<model>" `, space included, and the rest is the search, or nothing. |
| Api.FetchItems | src/api.ts:99-105 | The notes view maps each raw note to `toNote`. Any other view maps each raw card to `toCard`. Order and length are kept. |
| Api.FetchItemsRecords | src/api.ts:99-105 | Each item is of the view's kind, and its record is the raw record at the same position. |
| Api.Invoke | src/api.ts:135-137 | A present, non-empty `error` fails with that text. Any other envelope, including one whose error is "", succeeds with its `result`. |
| Api.InvokeReadsEnvelope | src/api.ts:135-137 | Read through the server's envelope, an action's value arrives as it was sent, and its exception as its text. An exception whose text is empty arrives as a success with no result. |
| Api.QueryKey | src/api.ts:165-166 | The query key is the helper's name followed by the arguments. |
| Api.DeriveQueryHelpers | src/api.ts:157-174 | There is one helper per implementation name, and each remembers its own name. |
| Api.QueryKeysDistinct | src/api.ts:161-167 | Helpers of different implementations never share a query key, whatever their arguments. |
| AnkiConnect.FetchAllModelsWithFields | src/providers/anki-connect.ts:17-24 | One key per note-type name, holding the field names AnkiConnect gives for it. |
| AnkiConnect.NoteFilter | src/providers/anki-connect.ts:59-60 | The note-type filter is the name with `note:"` before it and `"` after it. |
| AnkiConnect.Query | src/providers/anki-connect.ts:58-60 | The query starts with the filter. It is the filter alone exactly when the search is absent or empty; otherwise one space and the search follow. |
| AnkiConnect.QueryMatchesClient | src/providers/anki-connect.ts:58-60 | The query agrees with the add-on client's when there is a search. Without one, the client's query has a trailing space this one lacks. |
| AnkiConnect.NormalizeNote | src/providers/anki-connect.ts:42-52 | Same id, note type, tags and field names; each field holds only its value; the deck is the one given. |
| AnkiConnect.NormalizeIgnoresOrder | src/providers/anki-connect.ts:46-48 | Notes that differ only in field positions flatten to the same note. |
| AnkiConnect.PrimaryDeck | src/providers/anki-connect.ts:79-86 | The loop returns the first deck holding the most cards, with that count. It returns "" and 0 when no deck holds a card. |
| AnkiConnect.PrimaryDeckUnique | src/providers/anki-connect.ts:79-86 | That description fixes the deck and the count. |
| AnkiConnect.FetchNotes | src/providers/anki-connect.ts:61-88 | No matching note gives no notes. Otherwise every note's information is flattened, in order, and all notes carry the same primary deck of the decks consulted. |
| AnkiConnect.NoCardsNoDeck | src/providers/anki-connect.ts:72-74 | With no cards found, `getDecks` is not consulted and every note gets the empty deck name. |
| Root.TextPairs | src/root.tsx:93-95 | A state change writes each reported key with `String(value)`, in order. |
| Root.UrlParams.constructor | src/root.tsx:53 | The parameters start as the URL's. |
| Root.UrlParams.SetUrlModel | src/root.tsx:80-89 | The note type is set, and page, page size and search are deleted. |
| Root.UrlParams.SetUrlState | src/root.tsx:91-98 | The loop sets each reported key, in order, to its text. |
| Root.UrlParams.SetView | src/root.tsx:169-189 | The view buttons set `view` and nothing else. |
| Root.AfterModelChange | src/root.tsx:80-89 | The parameters after a note-type change; `ModelChangeKeepsOthers` and `ModelChangeDecodes` state what is set, removed and kept. |
| Root.ModelChangeKeepsOthers | src/root.tsx:80-89 | After a change of note type, `model` is the new type, `page`, `pageSize` and `search` are gone, and every other key is as it was. |
| Root.AfterStateChange | src/root.tsx:91-98 | The parameters after a reported state change; `StateChangeSets` and `StateChangeKeeps` state what is written and kept. |
| Root.StateChangeSets | src/root.tsx:91-98 | A reported key holds the text of its last reported value. |
| Root.StateChangeKeeps | src/root.tsx:91-98 | A key the change does not report is kept, or stays absent. |
| Root.PageIndexOf | src/root.tsx:57 | The 0-based page index is never negative, and for a page of 1 or more it is the page minus 1. |
| Root.ReadsBack | src/root.tsx:56-58 | A number written into the URL is read back as that number. |
| Root.ReadNumberParses | src/root.tsx:56-58 | Reading a number with a fallback is exactly `parseInt` of the parameter, or of the fallback written out when the parameter is missing. |
| Root.FallbackTexts | src/root.tsx:56-58 | The fallbacks 1 and 20 are written "1" and "20", the texts the page passes to `parseInt`. |
| Root.Decode | src/root.tsx:54-61 | The state read from the URL; `DecodeDefaults`, `ReadsBack` and the `...Decodes` lemmas state what it reads. |
| Root.DecodeDefaults | src/root.tsx:54-61 | Without parameters the page reads no note type, page index 0, page size 20, no search, no flag and the notes view. |
| Root.ModelChangeDecodes | src/root.tsx:54-61 | After a change of note type, the page reads that type on the first page with 20 per page and no search. The flag and the view are kept. |
| Root.PaginationChangeDecodes | src/components/cards-table.tsx:145-151 | A table's pagination change is read back from the URL as the same page index and page size. |
| Root.ButtonChangeDecodes | src/components/browse-table.tsx:420-467 | An enabled page button moves the page index read from the URL: to 0 for first, one back for previous, one forward for next, the last page for last. The page size read from the URL is unchanged. |
| Root.PageSizeChangeDecodes | src/components/browse-table.tsx:420-424 | Choosing a page size is read back as that size on page index 0. |
| Root.MainContent | src/root.tsx:101-144 | "Connecting" shows exactly while the schema loads, and a failed load shows its error message. The main area browses exactly when the URL's note type is non-empty and in the schema, with that type's fields. "No note types" shows exactly for an empty schema. "Select a note type" shows exactly for a non-empty schema and no chosen type. "Not found" shows exactly when a chosen non-empty type is missing from a non-empty schema, and names it. |
| Root.SelectedModel | src/root.tsx:156 | The select shows a note type exactly when the URL's note type is valid. |
| Root.PickModelBrowses | src/root.tsx:80-144 | Picking a listed note type from the select browses it on the first page, and the select then shows it. |
| Root.FullSearch | src/root.tsx:225-230 | The search and a `flag:<f>` term for an active flag, joined by one space. The result is undefined exactly when there is neither. |
| Root.SubmitSearch | src/root.tsx:266-270 | An unchanged search reports nothing. A changed one reports the search and page 1. |
| Root.SubmitSearchDecodes | src/root.tsx:266-270 | A submitted search is read back from the URL on page index 0, and the flag and view are kept. |
| Root.FlagSelectChange | src/root.tsx:292-294 | Choosing a filter reports the flag, with "none" stored as "", and page 1. |
| Root.FindFilter | src/root.tsx:277-278 | `find` returns an entry with the value asked for, or nothing when no entry has it. |
| Root.FilterEntryFound | src/root.tsx:29-38 | Each filter entry is found by its own value. Only the first is "none"; entry `i` is the flag `i`, which is an active flag. |
| Root.FlagSelectRoundTrip | src/root.tsx:277-294 | After choosing a filter entry, the select shows that entry again and the page is back to index 0. |
| Root.OnFlagChange | src/root.tsx:363-375 | A successful flag change updates the selected card's flag only when its id is the changed card's id. Nothing else changes, and a failed call changes nothing. |
| Root.OnFlagChangeIdempotent | src/root.tsx:367-369 | Applying the same change twice is applying it once, and a change to another card leaves the selection as it was. |
| BrowseTable.BuildColumns | src/components/browse-table.tsx:92-233 | The columns, in order: the checkbox in bulk-edit mode, one per field, deck and tags. In the cards view, flag, status and interval follow. |
| BrowseTable.VisibilityPairs | src/components/browse-table.tsx:240 | Field `i` is written visible exactly when `i < 3`. |
| BrowseTable.DefaultVisibility | src/components/browse-table.tsx:238-243 | There is one entry per field plus deck. The first three fields are visible and later ones hidden (a repeated name takes its last position). Deck is visible. |
| BrowseTable.VisibilityPairsLast | src/components/browse-table.tsx:240 | Each field holds the visibility of its last position. |
| BrowseTable.FieldCell | src/components/browse-table.tsx:133-137 | An empty value shows a dash. Any other value shows its text without markup: unchanged when at most 80 characters long, else the first 80 characters followed by "...". |
| BrowseTable.TagsCell | src/components/browse-table.tsx:160-172 | No tags shows a dash. Otherwise at most the first three tags are shown, with a "+n" badge exactly when there are more. |
| BrowseTable.TagsCellCountsAll | src/components/browse-table.tsx:164-172 | With more than three tags, three are shown and the badge's number is the count of the rest. |
| BrowseTable.RowId | src/components/browse-table.tsx:283-284 | A row's id: the card id for a card row, else the note id; `SelectedIffSameRowId` relates it to selection. |
| BrowseTable.IsSelected | src/components/browse-table.tsx:374-378 | Whether a row is drawn selected; `SelectionReflexiveSymmetric` and `SelectedIffSameRowId` state when. |
| BrowseTable.SelectionReflexiveSymmetric | src/components/browse-table.tsx:374-378 | A row is drawn selected when it is the selection, and the selection test is symmetric. |
| BrowseTable.SelectedIffSameRowId | src/components/browse-table.tsx:283-284 | Among rows of one kind, a row is drawn selected exactly when it has the selection's row id. |
| BrowseTable.ShowingExamples | tests/e2e/browse.spec.ts:21-30 | The "Showing" lines the browsing tests read: 1-10 and 11-20 of 20 on pages of 10, and 0-0 of 0. |
| Cells.CloseIndexFirst | src/components/browse-table.tsx:135 | The position `StripTags` skips to is that of the first `>`: a `>` is there and none comes before it, and -1 means the text has no `>` (the `[^>]*>` part of the pattern). |
| Cells.StripTags | src/components/browse-table.tsx:135 | Removing `<...>` spans never lengthens the text. |
| Cells.NoCloseUnchanged | src/components/browse-table.tsx:135 | Text without a `>` has nothing to strip. |
| Cells.TagRemoved | src/components/browse-table.tsx:135 | Text before the first `<` is kept, the span from that `<` to the first `>` after it is removed, and the rest is stripped on its own. |
| Cells.NoCloseSuffixKept | src/components/browse-table.tsx:135 | A tail without `>` closes no tag: it is kept whole, after the stripped text before it. |
| Cells.UnclosedKept | src/components/browse-table.tsx:135 | A `<` with no `>` after it is kept, together with everything after it. |
| Cells.StripTagsTagFree | src/components/browse-table.tsx:135 | After stripping, no tag is left. |
| Cells.TagFreeUnchanged | src/components/browse-table.tsx:135 | Tag-free text is left as it is. |
| Cells.StripTagsIdempotent | src/components/browse-table.tsx:135 | Stripping twice is stripping once. |
| Cells.TextCell | src/components/cards-table.tsx:73-77 | A dash appears exactly for an empty value. Otherwise the cell shows the value without markup: unchanged when it fits in the limit, else its first `limit` characters followed by "...". Shown text never holds a tag. |
| Cells.TruncateTagFree | src/components/cards-table.tsx:76 | Cutting tag-free text and adding the ellipsis leaves it tag-free. |
| Cells.MonthsOf | src/components/note-detail.tsx:266-272 | `Math.round(ivl / 30)` is the nearest whole number of months, halves rounding up. |
| Cells.YearsOf | src/components/note-detail.tsx:266-272 | `Math.round(ivl / 365)` is the nearest whole number of years, halves rounding up. |
| Cells.FormatInterval | src/components/cards-table.tsx:129-134 | The interval label; `IntervalUnits` states its unit and range. |
| Cells.IntervalUnits | src/components/cards-table.tsx:129-134 | A non-positive interval shows "-". From 365 days it shows at least one year; from 30 it shows 1-12 months; below 30 it shows days. |
| Cells.RoundingMonotone | src/components/note-detail.tsx:266-272 | A longer interval never shows fewer months or years. |
| Cells.PageCount | src/components/browse-table.tsx:259 | `ceil(total / pageSize)`: the least page count whose pages hold every item. |
| Cells.ShowingRange | src/components/browse-table.tsx:411-412 | The first and last item numbers shown; `ShowingRangeOnPage`, `ShowingRangePastEnd` and `ShowingRangeEmpty` state them. |
| Cells.ShowingRangeOnPage | src/components/browse-table.tsx:411-412 | On an existing page the range counts exactly that page's items, and the next page starts right after it. |
| Cells.ShowingRangePastEnd | src/components/cards-table.tsx:217-229 | Past the last page the start exceeds the end. |
| Cells.ShowingRangeEmpty | src/components/browse-table.tsx:411-412 | With no items the range is 0-0 on every page. |
| Cells.ButtonTarget | src/components/browse-table.tsx:420-467 | An enabled button asks for a different, existing 1-based page: previous and next move exactly one page, and next and last never pass the page count. |
| CardsTable.FlagCell | src/components/cards-table.tsx:86-99 | Flag 0 shows a dash. Flags 1-7 use the table's own colours, which are the flag menu's. Any other code gets no colour. |
| CardsTable.FlagColorsDifferFromShared | src/components/cards-table.tsx:37-45 | The table's colours have the same codes as the shared `FLAG_COLORS`, and differ from it exactly at 4 and 6. |
| CardsTable.StatusLabel | src/components/cards-table.tsx:106-121 | "Suspended" exactly for queue -1. Queues 0, 1, 2 and 3 show "New", "Learning", "Review" and "Relearning". Any queue outside -1..3 shows its number. |
| CardsTable.StatusLabelInjective | src/components/cards-table.tsx:106-121 | Different queues never show the same status. |
| CardsTable.SortFieldCell | src/components/cards-table.tsx:73-77 | An empty value shows a dash. Any other value shows its text without markup: unchanged when at most 50 characters long, else the first 50 characters followed by "...". |
| NoteDetail.WordPrefix | src/components/note-detail.tsx:158 | The longest whitespace-free prefix. |
| NoteDetail.SplitWhitespace | src/components/note-detail.tsx:158 | `split(/\s+/)` gives at least one piece, and no piece holds whitespace. |
| NoteDetail.ParsedTagsWellFormed | src/components/note-detail.tsx:157-160 | Every saved tag is non-empty and has no whitespace. |
| NoteDetail.SplitJoinedTags | src/components/note-detail.tsx:137-158 | Well-formed tags joined by single spaces split back into the same tags. |
| NoteDetail.ParseTagsEmpty | src/components/note-detail.tsx:157-160 | An empty input saves no tags. |
| NoteDetail.ParseTags | src/components/note-detail.tsx:157-160 | The tags saved from the tag editor; `ParsedTagsWellFormed`, `ParseTagsOfPieces` and `TagsRoundTrip` state them. |
| NoteDetail.ParseTagsOfPieces | src/components/note-detail.tsx:157-160 | When the input splits into well-formed tags, those are saved, in input order. |
| NoteDetail.TagsRoundTrip | src/components/note-detail.tsx:137-160 | Saving the prefilled tag text unchanged returns the same tags. |
| NoteDetail.SuspendRequest | src/components/note-detail.tsx:245 | The button asks to suspend exactly when the card is not shown as suspended. |
| NoteDetail.SuspendButtonCaption | src/components/note-detail.tsx:247-257 | The caption is "Unsuspend" exactly when the button unsuspends, and "Suspend" exactly when it suspends. |
| NoteDetail.NoteEditor.constructor | src/components/note-detail.tsx:38-42 | No field and no tags are in edit, and both drafts are empty. |
| NoteDetail.NoteEditor.StartFieldEdit | src/components/note-detail.tsx:73-76 | The field becomes the one in edit, prefilled with its value or "". The tag editor is untouched. |
| NoteDetail.NoteEditor.EditValue | src/components/note-detail.tsx:87 | Typing changes only the draft value. |
| NoteDetail.NoteEditor.SaveFieldEdit | src/components/note-detail.tsx:93-96 | Saving emits the single entry from the edited field to the draft, and edit mode ends. |
| NoteDetail.NoteEditor.CancelFieldEdit | src/components/note-detail.tsx:103 | Cancel ends edit mode and emits nothing. |
| NoteDetail.NoteEditor.StartTagEdit | src/components/note-detail.tsx:135-137 | The tag draft is the tags joined by single spaces, and tag edit starts. |
| NoteDetail.NoteEditor.EditTags | src/components/note-detail.tsx:148 | Typing changes only the tag draft. |
| NoteDetail.NoteEditor.SaveTags | src/components/note-detail.tsx:156-163 | The tags emitted are the parsed draft, each non-empty and without whitespace, and tag edit ends. |
| NoteDetail.NoteEditor.CancelTagEdit | src/components/note-detail.tsx:170 | Tag edit ends and nothing is emitted. |
| NoteDetail.EditTagsUnchanged | src/components/note-detail.tsx:135-163 | Opening the tag editor on well-formed tags and saving at once emits the same tags. |
| BulkImportDialog.CellsFor | src/components/bulk-import-dialog.tsx:46-48 | There is one cell per header. |
| BulkImportDialog.ParseTSV | src/components/bulk-import-dialog.tsx:37-51 | The notes parsed from the pasted text; `ParsedNoteCount` and `ParsedNoteFields` state how many and what they hold. |
| BulkImportDialog.ParsedNoteCount | src/components/bulk-import-dialog.tsx:37-51 | There is one note per line break of the trimmed input: none for fewer than two lines, else one per line after the header line. |
| BulkImportDialog.ParsedNoteFields | src/components/bulk-import-dialog.tsx:41-48 | Each note's keys are exactly the trimmed headers. The header in column `i` (unless repeated further right) holds the trimmed `i`-th cell of its line, or "" past the line's end. Extra cells are dropped. |
| BulkImportDialog.FilterByMembership | src/components/bulk-import-dialog.tsx:84-86 | The filter keeps exactly the entries whose membership is the one asked for. |
| BulkImportDialog.FilterPartition | src/components/bulk-import-dialog.tsx:84-85 | Kept and dropped entries split the list, with every entry counted as often as it occurs. |
| BulkImportDialog.Categorise | src/components/bulk-import-dialog.tsx:73-86 | Matched, header-only and model-only names; `CategoriesPartition` states how they split the headers and fields. |
| BulkImportDialog.CategoriesPartition | src/components/bulk-import-dialog.tsx:73-86 | Matched and header-only names partition the headers. The model-only names are exactly the fields that no header names. |
| BulkImportDialog.CommaTags | src/components/bulk-import-dialog.tsx:100-103 | The tags typed for the import; `CommaTagsWellFormed`, `CommaTagsOfEmpty` and `CommaTagsRoundTrip` state them. |
| BulkImportDialog.CommaTagsWellFormed | src/components/bulk-import-dialog.tsx:100-103 | Every tag is non-empty, trimmed and comma-free. |
| BulkImportDialog.CommaTagsOfEmpty | src/components/bulk-import-dialog.tsx:100-103 | An empty input gives no tags. |
| BulkImportDialog.CommaTagsRoundTrip | src/components/bulk-import-dialog.tsx:100-103 | Well-formed tags written with commas split back into the same list. |
| BulkImportDialog.ImportNotes | src/components/bulk-import-dialog.tsx:105-108 | One import note per parsed note, in order, with its fields and the same tag list. |
| BulkImportDialog.ImportNeedsARow | src/components/bulk-import-dialog.tsx:117 | Import is enabled exactly when a note type and a deck are chosen and the trimmed input has a line break. |
| BulkImportDialog.InitialDeck | src/components/bulk-import-dialog.tsx:61 | The initial deck is the one named, else the schema's first deck, else none. |
| CreateNoteDialog.InitialModel | src/components/create-note-dialog.tsx:40 | The initial note type is the default, or "". |
| CreateNoteDialog.TextareaAnyCase | src/components/create-note-dialog.tsx:155-156 | A field whose name holds "example" or "notes", in any letter case, gets a text area. |
| CreateNoteDialog.ExtractFields | src/components/create-note-dialog.tsx:63-69 | The fields submitted are exactly the note type's fields whose form value is text, each with that text. |
| CreateNoteDialog.FormTags | src/components/create-note-dialog.tsx:72-79 | The tags are the comma tags of a text `_tags` entry, and none when it is missing or a file. |
| CreateNoteDialog.FormTagsRoundTrip | src/components/create-note-dialog.tsx:72-79 | Submitted tags are non-empty, trimmed and comma-free, and well-formed tags typed with commas are submitted as they are. |
| CreateNoteDialog.HandleSubmit | src/components/create-note-dialog.tsx:58-87 | The note has the chosen deck and type, the typed fields and the tags. A type the schema does not list submits nothing. |
| CreateNoteDialog.SubmitEnabled | src/components/create-note-dialog.tsx:89-196 | Submit is enabled exactly when a note type and a deck are chosen and no request is pending. |
| CreateNoteDialog.OpensDisabled | src/components/create-note-dialog.tsx:40-41 | Opened without a default note type, the dialog starts disabled. |
| SqlConsole.CellTexts | src/components/sql-console.tsx:104 | There is one text per cell, and each is `CellText` of its cell; a null cell gives the empty string. |
| SqlConsole.DoubleQuotes | src/components/sql-console.tsx:106 | Doubling quotes never shortens the text. |
| SqlConsole.EscapeCsvField | src/components/sql-console.tsx:103-109 | A field with a comma, quote or line feed is enclosed in quotes. Any other field is returned unchanged. |
| SqlConsole.EscapeAll | src/components/sql-console.tsx:111-113 | There is one escaped field per field. |
| SqlConsole.ReadQuotedDoubled | src/components/sql-console.tsx:106 | The inside of a quoted field, with its doubled quotes halved, reads back as the original text. |
| SqlConsole.ReadPlainVerbatim | src/components/sql-console.tsx:108 | An unquoted field reads back verbatim. |
| SqlConsole.ReadEscapedField | src/components/sql-console.tsx:103-109 | An escaped field reads back as its text and stops at the next comma, line feed or end. |
| SqlConsole.EscapeRoundTrip | src/components/sql-console.tsx:103-109 | Every string survives escaping and reading back. |
| SqlConsole.ReadEscapedRow | src/components/sql-console.tsx:111-113 | A line of escaped fields reads back as those fields. |
| SqlConsole.ReadEscapedRows | src/components/sql-console.tsx:112-114 | Escaped rows joined by line feeds read back as the rows, provided the last row is not a single empty field. |
| SqlConsole.EscapeRowEmpty | src/components/sql-console.tsx:113 | A line is empty only for the row made of one empty field. |
| SqlConsole.RowTexts | src/components/sql-console.tsx:112-113 | Each row's cells become their texts. |
| SqlConsole.GenerateCsv | src/components/sql-console.tsx:100-116 | The CSV is empty exactly when there is no result; otherwise it starts with the escaped header line and a line feed. `ReadGeneratedCsv` reads it back. |
| SqlConsole.ReadGeneratedCsv | src/components/sql-console.tsx:100-116 | The exported document reads back as the header followed by the rows' cell texts. |
| SqlConsole.ReadHeaderAndRows | src/components/sql-console.tsx:111-115 | A header line, a line feed and the escaped rows read back as the header followed by the rows, when every row has a field and the last is not one empty field. |
| SqlConsole.EmptyRowsIndistinguishable | src/components/sql-console.tsx:111-115 | A result without rows is the header line and a line feed. It exports the same as a result whose only row is one null cell. |
| SearchInput.CurrentWord | src/components/search-input.tsx:42-43 | The current word is the text after the last space, lowercased. |
| SearchInput.Matching | src/components/search-input.tsx:52-54 | The matches are exactly the entries whose lowercased value starts with the word. |
| SearchInput.MatchingAppend | src/components/search-input.tsx:52-54 | Filtering keeps table order. |
| SearchInput.Filtered | src/components/search-input.tsx:34-58 | The suggestions listed for the current text; `FilteredEntries` and `FlListsFlags` state which. |
| SearchInput.FilteredEntries | src/components/search-input.tsx:34-58 | Nothing is listed for a current word under two characters. Otherwise exactly the table entries the word prefixes are listed. |
| SearchInput.FlListsFlags | src/lib/search-suggestions.ts:165-205 | Typing `fl` lists exactly the eight flag entries, in table order. |
| SearchInput.ApplySuggestion | src/components/search-input.tsx:61-64 | The new value keeps everything up to the last space and ends with the suggestion. |
| SearchInput.ApplySuggestionWords | src/components/search-input.tsx:61-64 | Read as words, the new value has the earlier words unchanged and the suggestion last. |
| SearchInput.SearchBox.constructor | src/components/search-input.tsx:25-29 | Hidden, index 0, nothing listed. |
| SearchInput.SearchBox.OnValueChanged | src/components/search-input.tsx:34-59 | The list is the filtered entries and is shown exactly when non-empty, with the first entry selected. An empty value or a short word hides it and leaves the index alone. The index stays in range. |
| SearchInput.SearchBox.HandleKeyDown | src/components/search-input.tsx:70-102 | With the list hidden or empty, only Enter does anything, and it submits. With the list shown: <br>- the arrows move the index within the list; <br>- Enter and Tab apply the selected entry without submitting and hide the list; <br>- Escape hides the list; <br>- other keys do nothing. |
| SettingsDialog.AddFlag | src/components/settings-dialog.tsx:27-36 | A blank key changes nothing. Otherwise the trimmed key is set to the value, replacing any entry; other flags and settings are kept, and both inputs are cleared. |
| SettingsDialog.RemoveFlag | src/components/settings-dialog.tsx:38-41 | Exactly the given key is removed; every other flag and setting is kept. |
| SettingsDialog.UpdateFlag | src/components/settings-dialog.tsx:43-48 | The key holds the new value; every other flag and setting is kept. |
| SettingsDialog.EditsKeepKeysTrimmed | src/components/settings-dialog.tsx:27-48 | Adding, removing and updating a listed key keep every stored key trimmed. |
| SettingsDialog.AddThenRemove | src/components/settings-dialog.tsx:27-48 | Removing a key just added restores the flags without it, and updating a key to its own value changes nothing. |
| SettingsDialog.AddIsUpdate | src/components/settings-dialog.tsx:27-48 | Adding is updating the trimmed key, then clearing the inputs. |
| BulkActions.FlagMenu | src/components/bulk-actions.tsx:87-91 | One menu entry per `FLAG_OPTIONS` entry, in order, setting its value. |
| BulkActions.FlagMenuCodes | src/components/bulk-actions.tsx:87-91 | The menu sets exactly the flags 0-7, each once, in order. |
| BulkActions.BulkToolbar | src/components/bulk-actions.tsx:36-127 | Nothing selected shows "Select cards to edit" and only Exit. Otherwise it shows the selection label, the select-all banner exactly when it applies, clearing, the flag menu, suspend and unsuspend. While a request is pending no action is available. |
| BulkActions.SelectionLabel | src/components/bulk-actions.tsx:51-53 | The toolbar label; `LabelCountsSelection` states what it counts. |
| BulkActions.LabelCountsSelection | src/components/bulk-actions.tsx:51-53 | A partial selection's label starts with the count selected, and an all-selected label starts with "All ". |
| AlertContext.TitleOf | src/lib/alert-context.tsx:98 | The title given, else "Confirm" exactly for a confirm, and "Alert" otherwise. |
| AlertContext.Buttons | src/lib/alert-context.tsx:103-120 | A confirm has Cancel and Confirm; anything else has OK. |
| AlertContext.AlertProvider.constructor | src/lib/alert-context.tsx:45 | Nothing shown, no promises. |
| AlertContext.AlertProvider.ResolvePending | src/lib/alert-context.tsx:59-60 | The confirm shown, if any, is resolved once with the answer. |
| AlertContext.AlertProvider.ShowAlert | src/lib/alert-context.tsx:47-54 | The alert replaces what is shown, and resolves nothing. A confirm it replaces is left unresolved for good. |
| AlertContext.AlertProvider.ShowConfirm | src/lib/alert-context.tsx:56-73 | A confirm already shown is resolved with false. Then the new confirm is shown with a new promise. |
| AlertContext.AlertProvider.HandleClose | src/lib/alert-context.tsx:75-80 | A confirm shown is resolved with false, and nothing is shown any more. |
| AlertContext.AlertProvider.HandleConfirm | src/lib/alert-context.tsx:82-87 | A confirm shown is resolved with true, and nothing is shown any more. |
| AlertContext.ConfirmAndAnswer | src/lib/alert-context.tsx:56-87 | A confirm answered at once resolves the caller's promise with the answer, and closes the dialog. |
| Constants.FlagOptionsCodes | src/lib/constants.ts:13-22 | `FLAG_OPTIONS` lists the codes 0-7 in order. Only 0 ("None") has no colour. |
| Constants.FilterOptionsFollowMenu | src/lib/constants.ts:25-34 | The filter is "none" (All) followed by "1".."7", with the menu's labels and colours. |
| Constants.FlagColorsCodes | src/lib/constants.ts:2-10 | `FLAG_COLORS` has the codes 1-7 only: flag 0 has no colour. |
| Constants.FlagColorsDisagreeAt4And6 | src/lib/constants.ts:2-22 | `FLAG_COLORS` agrees with the menu at 1, 2, 3, 5 and 7, but paints 4 ("Blue") turquoise and 6 ("Turquoise") blue. |
| Utils.NormalizeSearchQuery | src/lib/utils.ts:12-18 | The search normalisation; `NormalizeIdempotent`, `NoMatchUnchanged`, `OccurrenceReplaced` and the `Utils` lemmas after it state what it rewrites. |
| Utils.NormalizeIdempotent | src/lib/utils.ts:12-18 | Normalising twice is normalising once. |
| Utils.ScanIdempotent | src/lib/utils.ts:17 | The replace scan is idempotent from either boundary state. |
| Utils.NoMatchUnchanged | src/lib/utils.ts:13-17 | A query in which the pattern matches nowhere, the empty query included, is returned unchanged. |
| Utils.OccurrenceReplaced | src/lib/utils.ts:17 | Every whole-word occurrence of `is:suspend` is rewritten to `is:suspended`. |
| Utils.TypoRewritten | tests/e2e/search-is-suspend.spec.ts:18 | `is:suspend` becomes `is:suspended`. |
| Utils.CorrectFormKept | src/lib/utils.ts:16-17 | `is:suspended` is left unchanged. |
| Utils.WordBeforeKept | src/lib/utils.ts:17 | `is:suspend` right after a word character (as in `this:suspend`) is not rewritten. |
| Utils.NoOverlap | src/lib/utils.ts:17 | Matches of the pattern never overlap. |
| Dicts.MapOfPairsLastWins | addon/server.py:138-140 | A dict filled in order holds, for each key, the value of its last pair. |
| Dicts.ZipMapPairs | addon/server.py:155 | Zipping names with values gives exactly the names as keys, each with the value at its position. |

## Left out

- **Concurrency.** The server hands each request to Anki's main thread
  (`run_on_main` and an event) and serves from a background thread. Only the
  synchronous path is modelled.
- **HTTP and JSON.** Socket reads, JSON decoding and encoding, headers and
  the broken-pipe handler are left out. A request arrives already decoded.
  Its `params` entry is absent, `null` or an object. Each parameter in the
  object is present or absent, with its decoded type.
- SqlConsole.CellText: JavaScript's formatting of fractional numbers
  (`String(2.5)`, exponents, `NaN`) is not modelled. A `Real` cell carries
  the text `String` gives it. JSON results hold no binary values, so
  SQLite blobs do not arise.
- **Anki internals.** The search semantics of `find_notes`/`find_cards`,
  deck names and Anki's exception texts are parameters or placeholders.
  `Collection.Valid` assumes Anki's own referential integrity: every note
  has its type's number of fields, and every card's note exists.
- **Network clients.** `fetch` in the two clients, React Query caching,
  invalidation and retries are left out. Only what `invoke` makes of an
  envelope is kept. AnkiConnect's answers (`modelNames`, `notesInfo`,
  `findCards`, `getDecks`) are parameters of the methods that use them.
- **Rendering.** Icons, class names, focus, click-outside handling, the
  column-visibility menu and the bulk-import preview are left out.
- **Local storage.** The stored column visibility and the stored audio
  settings are left out. `DefaultVisibility` and the settings edits model
  only the values written.
- **Definitions the modelled files do not contain.** These are not part of
  this model:
  - `QUEUE_LABELS`, `formatInterval`, `NOTE_COLUMNS` and `CARD_COLUMNS`,
    which note-detail and browse-table import from the constants file;
  - `Schema`, `addNote`, `bulkAddNotes` and `executeQuery`, which the
    dialogs and the SQL console import from the API file.

  The interval rule used is the one the cards table writes out.
- **Mismatched names in root.tsx.** It imports `fetchNotes`, `fetchCards` and
  a card with an `id`, but the API file has `fetchItems` and `cardId`.
  `Root.SelectedCard` models the card as root.tsx reads it.
- **Flag callback in the detail panel.** The panel calls `onFlagChange` with
  one argument; the flag-change path is modelled from root.tsx's handler.
- **The "none" filter.** Root.tsx has its own "none"/"1".."7" filter table,
  identical to `FLAG_FILTER_OPTIONS`. The model uses `Constants.FlagFilterOptions`
  for both.
- **String encoding.** Strings are sequences of characters. UTF-16
  surrogate pairs and Unicode case mapping beyond ASCII letters are not
  modelled. The whitespace that `\s`, `trim` and `parseInt` skip is
  modelled in full: JavaScript's WhiteSpace and LineTerminator characters.
- **Object key order.** JavaScript orders integer-like keys first; the
  model keeps insertion order (sequences of pairs, then maps). Duplicate
  URL parameters and duplicate form entries are not modelled: a key
  holds one value, the first `get` would return.
- **Object prototype keys.** A note-type name such as `constructor` would
  read an inherited value from `models[name]`; the model treats
  objects as plain maps.
- Cells.PageCount: requires a positive page size; a page size of 0 read
  from the URL (`NaN`/`Infinity` page counts) is not modelled.
- Root.PageIndexOf: `parseInt` of a malformed page gives `NaN`, which
  `Math.max` turns into `NaN`; the model returns `None` there and states
  nothing further about it.
- **Stale state in the alert provider.** React's stale closures and
  batched state updates are not modelled: each call sees the state the
  previous one left.
- **Thin wrappers.** `cn`, the add-on's lifecycle and menus,
  `useMinLoadingTime`, `useResize` and the theme hook are left out.
- **Bulk-edit toolbar.** With nothing selected, the toolbar still offers
  Exit, as the code draws it, not "no actions".
