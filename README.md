# AI snippet handler: the snippet library and its forms

This project models the in-memory logic of a small single-page application. The application saves text snippets captured from AI-chat conversations, and lets the user search, filter and edit them. The model covers four parts:

- **The library (`App.tsx`).**
  - The `filteredItems` memo turns the stored list into the visible one. It applies three stages in turn: favourites only, the active tag, and a lowercased substring search over the summary, the text and the tags.
  - The updaters handed to `setItems` are toggle favourite, delete, update, and add. Add puts the new record in front of the list, then sorts the list newest first.
  - The state handlers set the tag filter, the search query, the favourites switch and the dialogs.
  - The mount effect picks up a snippet that a capturing page left in `localStorage` under `snippet-to-add`.
- **The edit dialog (`components/EditItemModal.tsx`).**
  - Its three fields and how they are initialised from the item.
  - `handleSubmit`: validation, comma-separated tag parsing, the `'none'` folder sentinel, and the updated record.
- **The new-folder dialog (`components/AddFolderModal.tsx`).** `handleSubmit` rejects a blank name and passes on the trimmed one.
- **The add dialog (`components/AddItemModal.tsx`).**
  - The check on the pasted text.
  - The `isLoading`/`error` hooks around the annotation call.
  - The record built from the annotation result.

The modules follow the program:

- `Types` holds the records of `types.ts`.
- `Seqs` holds `Array.prototype.filter` and `map`.
- `Text` holds `trim`, `toLowerCase`, `includes`, `split` and `join`.
- `Sorting` holds the stable sort that `Array.prototype.sort` performs. Section 22.1.3.27 of ECMA-262 (2019) requires the sort to be stable.
- `Library` holds the pure list logic of `App.tsx`.
- `App` holds the component state as a class whose methods are the handlers.
- `EditItemModal`, `AddFolderModal` and `AddItemModal` hold the three dialogs. The add dialog's hooks are a class.

The model follows these JavaScript semantics:

- **trim.** `trim` strips ECMAScript's WhiteSpace and LineTerminator characters.
- **Falsy values.**
  - `if (activeTag)` leaves the tag filter off for an empty tag.
  - `if (lowercasedQuery)` has no trim, so a query of spaces is a real filter.
  - `item.folderId || 'none'` also maps an empty folder id to `'none'`.
  - `field || ''` maps a missing field to `''`.
  - `if (pendingSnippetJSON)` leaves an empty stored value in place.

Behaviour of the code worth noting:

- **Search.** The code does not trim the query before its empty check. It lowercases the summary as well as the text and the tags.
- **Sorting.** The visible list is not sorted. Only `handleAddItem` sorts, and only newest first.
- **Folders.** There is no folder scoping of the visible list. A new record gets no folder.
- **Not in the code at all.** There is no sorted folder insertion and no folder-delete cascade.

## Model

| member | source | states |
|---|---|---|
| Library.FilteredItems | App.tsx:57-81 | the `filteredItems` memo: never longer than the stored list, and every visible item is stored and passes every active filter; its exact meaning is stated by `FilteredItemsIsOneFilter`, `FilteredItemsMembership` and `FilteredItemsSubsequence` |
| Library.MatchesQuery | App.tsx:73-77 | the search predicate: the lowercased query occurs in the lowercased summary, text or some tag; `FilteredItemsMembership` states it is exactly the query stage, `UpperCaseQueryMatches` and `SpaceQueryFilters` show it at work |
| Library.UpperCaseQueryMatches | App.tsx:71-77 | the search ignores case: the query "BUG" keeps an item whose summary is "Fixing a bug" |
| Library.FilteredItemsStaged | App.tsx:57-81 | the memo is its three stages (favourites, tag, query) applied in the source's order |
| Library.AnyStageOrder | App.tsx:61-78 | the three stages applied in any order give the same list, one filter by "passes every active filter" |
| Library.StagesCommute | App.tsx:61-78 | any two filter stages commute |
| Library.FilteredItemsIsOneFilter | App.tsx:57-81 | the visible list is the stored list filtered once by the conjunction of the active filters |
| Library.FilteredItemsSubsequence | App.tsx:57-81 | the visible list is an order-preserving subsequence of the stored list, made of exactly the positions whose item passes every active filter |
| Library.FilteredItemsMembership | App.tsx:61-78 | soundness and completeness: an item is visible iff it is stored, is a favourite when the favourites switch is on, has the exact active tag when one is set, and matches the lowercased query in summary, text or some tag when the query is non-empty |
| Library.FilteredItemsCount | App.tsx:57-81 | filtering never duplicates: a visible item occurs as often as it is stored, a hidden one not at all |
| Library.NoFilterShowsAll | App.tsx:58-80 | with no favourites filter, no (or an empty) tag and an empty query, the visible list is the stored list |
| Library.SpaceQueryFilters | App.tsx:71-72 | a query of one space is not treated as empty: it hides an item that contains no space |
| Library.ToggleFavoriteStatus | App.tsx:96-102 | same length; each entry's favourite flag flips exactly when its id matches; every other field of every entry is unchanged |
| Library.ToggleTwice | App.tsx:96-102 | toggling the same id twice restores the list |
| Library.DeleteItem | App.tsx:105-107 | no remaining entry has the id, and every entry with another id remains |
| Library.DeleteKeepsOrder | App.tsx:105-107 | the survivors are exactly the positions with another id, in their original order, each once |
| Library.DeleteAbsent | App.tsx:105-107 | deleting an id that no entry has changes nothing |
| Library.DeleteTwice | App.tsx:105-107 | deleting twice is deleting once |
| Library.UpdateItem | App.tsx:109-112 | same length and ids; each entry with the updated record's id becomes that record; every other entry is unchanged |
| Library.UpdateTwice | App.tsx:109-112 | updating twice with the same record is updating once |
| Library.NewRecord | App.tsx:128-132 | the new record carries the draft's fields, the given id, no favourite flag and no folder |
| Library.AddItem | App.tsx:127-134 | the list gains one entry; the result is a permutation of the new record plus the old list, sorted newest first |
| Library.AddItemStable | App.tsx:133 | among equal timestamps, the new record comes first and the old entries keep their order |
| Library.AddItemIsTheStableSort | App.tsx:133 | any list sorted newest first that keeps the prepended order on equal timestamps equals `AddItem`'s result, so the engine's stable sort cannot differ |
| Library.AddedItemPosition | App.tsx:133 | the new record lands after exactly the entries with a strictly newer timestamp |
| Sorting.SortDescending | App.tsx:133 | same length, same elements with multiplicity, keys non-increasing |
| Sorting.SortStable | App.tsx:133 | the elements with any one key keep their relative order |
| Sorting.StableSortUnique | App.tsx:133 | two sorted sequences that agree, key by key, on the order of their elements are equal |
| Sorting.InsertKeepsOrder | App.tsx:133 | inserting into a sorted sequence keeps it sorted |
| Sorting.InsertPosition | App.tsx:133 | an inserted element lands after exactly the elements with a larger key |
| App.AppState.constructor | App.tsx:16-27 | the initial hook values: the loaded items, an empty query, no tag, favourites off, no dialogs, the empty add-dialog seed |
| App.AppState.ConsumePendingSnippet | App.tsx:33-55 | a missing or empty slot changes nothing; a non-empty slot is removed whether or not it parses; on a parse the add dialog opens seeded with text, url and title, each defaulting to '' |
| App.AppState.Visible | App.tsx:57-81 | the list the page shows: every visible item is stored and passes the current filters; `HandleTagClick`, `ClearFilter`, `ToggleFavorites` and `HandleDeleteItem` state how each handler changes it |
| App.OrEmpty | App.tsx:41-44 | a missing `text`, `url` or `title` field becomes the empty string; `ConsumePendingSnippet` states the seed it builds from it |
| App.AppState.SetSearchQuery | App.tsx:141 | the search bar sets the query |
| App.AppState.HandleTagClick | App.tsx:83-86 | the tag becomes active and the query is cleared; the visible items are then exactly the stored ones that have the tag (when non-empty) and are favourites (when the switch is on) |
| App.AppState.ClearFilter | App.tsx:88-90 | the tag filter is dropped, and every item visible before stays visible |
| App.AppState.ToggleFavorites | App.tsx:92-94 | the switch flips; when on, every visible item is a favourite |
| App.AppState.ToggleFavoriteStatus | App.tsx:96-102 | the stored list becomes the toggled list |
| App.AppState.HandleDeleteItem | App.tsx:105-107 | the stored list becomes the filtered list, and no visible item has the deleted id |
| App.AppState.HandleUpdateItem | App.tsx:109-112 | the stored list becomes the updated list and the edit dialog closes |
| App.AppState.HandleStartEdit | App.tsx:114-117 | the detail view closes and the edit dialog opens on the item |
| App.AppState.HandleSelectItem | App.tsx:119-121 | the detail view opens on the item |
| App.AppState.HandleCloseModal | App.tsx:123-125 | the detail view closes |
| App.AppState.CloseEditDialog | App.tsx:166 | the edit dialog's close hook clears the edited item |
| App.AppState.HandleAddItem | App.tsx:127-134 | the stored list becomes `AddItem` of the old list, the draft and the id |
| App.AppState.OpenAddDialog | App.tsx:167 | the add dialog opens with an empty text and context |
| App.AppState.CloseAddDialog | App.tsx:168 | the add dialog closes |
| EditItemModal.InitialForm | components/EditItemModal.tsx:14-16 | the fields start with the untrimmed summary; clean tags parse back from the joined field and a folder id other than '' and 'none' reads back from the selector; `SaveUntouched` and `TagsRoundTrip` build on it |
| EditItemModal.InitialFolder | components/EditItemModal.tsx:16 | a non-empty folder id selects itself; no folder or the empty id selects 'none' |
| EditItemModal.SelectedFolder | components/EditItemModal.tsx:30 | 'none' maps to no folder, and any other selection is stored verbatim |
| EditItemModal.FolderRoundTrip | components/EditItemModal.tsx:16-30 | saving the folder field unchanged stores the folder the item had, for every id other than '' and 'none' |
| EditItemModal.ParseTags | components/EditItemModal.tsx:29 | every parsed tag is non-empty, has no surrounding whitespace and contains no comma |
| EditItemModal.ParsedTagsInOrder | components/EditItemModal.tsx:29 | the parsed tags are exactly the trimmed comma segments that are non-empty, in left-to-right order |
| EditItemModal.TagsRoundTrip | components/EditItemModal.tsx:15-29 | a list of non-empty, trimmed, comma-free tags shown as `join(', ')` parses back to itself |
| EditItemModal.CommasOnlyClearTags | components/EditItemModal.tsx:21-29 | ", ," passes the non-empty check yet yields no tags |
| EditItemModal.HandleSubmit | components/EditItemModal.tsx:19-35 | rejected with the fixed message iff the summary or the tags field is blank; otherwise the record equals the item except the untrimmed summary, the parsed tags and the selected folder |
| EditItemModal.SaveUntouched | components/EditItemModal.tsx:14-35 | saving the dialog as it opened returns the item unchanged, whenever its summary is not blank, it has tags, the tags are clean and its folder id is neither '' nor 'none' |
| EditItemModal.UntaggedItemRejected | components/EditItemModal.tsx:15-24 | an item without tags cannot be saved as it opened |
| AddFolderModal.HandleSubmit | components/AddFolderModal.tsx:14-22 | rejected with the fixed message iff the name is blank; an accepted name is non-empty with no surrounding whitespace |
| AddFolderModal.AcceptedNameIsCore | components/AddFolderModal.tsx:20 | the accepted name is a piece of the typed name with only whitespace cut from each end |
| AddFolderModal.SurroundingWhitespaceIgnored | components/AddFolderModal.tsx:16-20 | names that differ only in surrounding whitespace give the same outcome |
| AddFolderModal.AcceptedNameStable | components/AddFolderModal.tsx:20 | submitting an accepted name again accepts it unchanged |
| AddItemModal.NewItem | components/AddItemModal.tsx:31-43 | text and markdown are the raw text; summary and tags come from the annotation; no code blocks or images; the fixed model; url and title from the context; the submission instant; platform Other |
| AddItemModal.FailureMessage | components/AddItemModal.tsx:47 | the thrown `Error`'s message, or the fixed fallback for any other thrown value; `FinishSubmit` and `HandleSubmit` state the error it sets |
| AddItemModal.AddItemForm.constructor | components/AddItemModal.tsx:17-19 | the text starts as the initial text, not loading, no error |
| AddItemModal.AddItemForm.SetRawText | components/AddItemModal.tsx:17 | the text area sets the raw text |
| AddItemModal.AddItemForm.BeginSubmit | components/AddItemModal.tsx:23-28 | a blank text sets the fixed error and requests nothing; otherwise loading starts, the error is cleared and the raw text is sent |
| AddItemModal.AddItemForm.FinishSubmit | components/AddItemModal.tsx:29-50 | success yields the new record; failure yields none and sets the error to the thrown message or the fixed fallback; loading ends either way |
| AddItemModal.AddItemForm.HandleSubmit | components/AddItemModal.tsx:21-51 | a record is created iff the text is not blank and the annotation succeeds; it holds the raw text and the annotation; loading has ended whenever the call was made |
| AddItemModal.SubmittedRecordStored | components/AddItemModal.tsx:44 | a submitted record handed to `handleAddItem` is stored once more in the list, with the raw text and the annotation, not a favourite, in no folder |
| Text.Trim | components/AddFolderModal.tsx:16 | `trim` leaves no whitespace at either end, and is empty exactly when its input is all whitespace |
| Text.TrimSlice | components/AddFolderModal.tsx:20 | the trimmed string is a contiguous piece of the input with only whitespace around it |
| Text.TrimOf | components/EditItemModal.tsx:29 | whatever sits between whitespace and has no whitespace at its ends is what `trim` returns |
| Text.TrimIgnoresSurroundings | components/AddFolderModal.tsx:20 | surrounding whitespace never changes what `trim` returns |
| Text.TrimIdempotent | components/AddFolderModal.tsx:20 | trimming twice is trimming once |
| Text.ToLower | App.tsx:71 | lowercasing keeps the length and maps each character on its own |
| Text.Split | components/EditItemModal.tsx:29 | `split(',')` gives at least one piece, none containing a comma, and joining them with ',' gives back the input |
| Text.SplitJoin | components/EditItemModal.tsx:15-29 | splitting a join of comma-free pieces gives back the pieces |
| Seqs.Filter | App.tsx:106 | `filter` keeps only elements of the input, each passing the predicate, and every passing element |
| Seqs.Map | App.tsx:98 | `map` keeps the length and applies the function position by position |
| Seqs.FilterEmbeds | App.tsx:106 | `filter` keeps exactly the passing positions, in order |
| Seqs.FilterCommute | App.tsx:61-78 | two filters commute |
| Seqs.FilterIdempotent | App.tsx:106 | filtering twice by the same predicate is filtering once |

## Left out

- Persistence: `loadItems`, `saveItems` and the save effect (App.tsx:29-31) go through `JSON.stringify`/`parse`, and `localStorage` is a plain key-value map. services/storageService.ts is not part of this model.
- ConsumePendingSnippet: `JSON.parse` and the reads of `text`, `url` and `title` are one parameter function. A thrown `TypeError` (e.g. for `null`) counts as `Malformed`. Non-string field values are not modelled.
- AddItemModal.AddItemForm.HandleSubmit: the annotation service (services/geminiService.ts and api/gemini-proxy.ts) is a parameter function, because it is a network call. The component's `onAddItem` and `onClose` callbacks are left to the caller. Nothing else is assumed to happen while the call is pending.
- Dates: timestamps are integers, and `new Date(...).getTime()` is the identity on them. An unparsable timestamp (`NaN`, which makes the comparator inconsistent) is not modelled. The id that `new Date().toISOString()` produces is an input, with no uniqueness claim.
- Text.ToLower: lowercases ASCII letters only, not the full Unicode case mapping of `toLowerCase`.
- Rendering and the UI-only components are not modelled: Sidebar, ItemCard, CodeBlockDisplay, ItemDetailModal, ItemList, SearchBar, Header, Tag and AddItemFab. Nor is the dialogs' own `error` display.
- EditItemModal.HandleSubmit: App.tsx:166 renders the edit dialog without its `folders` prop. EditItemModal.tsx:73 then calls `folders.map` on `undefined`. Read from the source and not executed, that throws a `TypeError` while rendering, so the dialog never appears and neither its `handleSubmit` nor `handleUpdateItem` can be reached from the page. The model states what `handleSubmit` does once the dialog renders.
- AddItemModal.AddItemForm.HandleSubmit: a click on the backdrop (AddItemModal.tsx:54) closes the dialog even while the annotation call is pending. Read from the source and not executed, the call still reaches `onAddItem` (AddItemModal.tsx:44) when it resolves, and the record is stored after the dialog has closed. The model runs the call to completion with nothing in between, so it does not capture this interleaving.
- The development server and the style configuration (vite.config.ts, tailwind.config.js) are not modelled.
- The code has no folder scoping of the visible list, no selectable sort order, no sorted folder storage and no folder-delete cascade, so none is modelled.
