# marXiv core, modelled in Dafny

marXiv is a reading front-end for arXiv. This project models the parts of it that hold logic rather than layout:

- the local settings database (`src/lib/storage.ts`);
- the two React hooks that keep settings and per-paper notes in step across the page (`src/hooks/use-storage.ts`, `src/hooks/use-notes.ts`);
- the query formatter and feed-entry normaliser (`src/lib/arxiv.ts`);
- the filtering logic of the category browser, the provider-selection rule of the model picker, and the pagination state of the infinite paper list;
- the LaTeX pre-processor that runs before Markdown rendering.

Each asynchronous handler is one atomic step. Calls into code the model does not contain are parameters: the note repository, `JSON.parse`/`JSON.stringify`, the HTTP replies, `Date.now()`, and the provider and model tables.

Files and modules:

| file | module | models |
|---|---|---|
| `common.dfy` | `Common` | `Option`/`Result`/`Outcome`, `Array.prototype.filter` and its laws |
| `text.dfy` | `Text` | JavaScript `\s`, ASCII case mapping, `includes`, `trim`, `replace(/\s+/g, ' ')`, `join` |
| `storage.dfy` | `Storage` | `initDB` and its upgrade, `getSetting`, `setSetting`, export and import, as the class `SettingsDb` |
| `use_storage.dfy` | `StorageSync` | `useStorage`, as the class `StorageHook` over a shared `Page` (cache, event log, root element) |
| `use_notes.dfy` | `Notes` | `useNotes`, as the class `NotesHook`, with the pure list transforms as functions |
| `arxiv.dfy` | `Arxiv` | the tokenizer, `formatQuery` (a method with a loop) and `parseEntry` |
| `category_browser.dfy` | `CategoryBrowser` | `allCategories`, `suggestions`, `filteredSections` and the input handlers (class `Browser`) |
| `model_picker.dfy` | `ModelPicker` | available providers, zero state, the selection effect, the model list, `handleModelSelect` (class `Picker`) |
| `infinite_paper_list.dfy` | `PaperList` | `papers`/`offset`/`hasMore`/`loading` and `loadMorePapers` (class `InfiniteList`) |
| `markdown_renderer.dfy` | `MarkdownRenderer` | `preprocessLaTeX`, with the global regular expression replaced by a left-to-right scanner |

## Model

| member | source | states |
|---|---|---|
| Storage.UpgradedStores | src/lib/storage.ts:36-46 | Below version 2, `notes`, `read_next` and `api_keys` are gone and `settings` exists. Every other store name is kept or absent as before. From version 2 on, nothing changes. |
| Storage.SettingsDb.Upgrade | src/lib/storage.ts:36-46 | The `upgrade` callback leaves the store names at `UpgradedStores` of the old ones. It keeps `Valid()`: no settings without a `settings` store. |
| Storage.SettingsDb.OpenDb | src/lib/storage.ts:30-48 | Opening succeeds exactly when the disk version is at most 2. It then records version 2, upgrading an older database. A newer database is rejected and nothing changes. |
| Storage.SettingsDb.InitDB | src/lib/storage.ts:28-51 | `openDB` runs on the first call only (`opens == 1`). Every later call returns the first outcome and changes nothing. The first call opens a database at version 2 or below, upgrading an older one to version 2 with `UpgradedStores` of its old store names, and rejects a newer one without touching it. |
| Storage.SettingsDb.GetSetting | src/lib/storage.ts:54-57 | Succeeds exactly when the database opened with a `settings` store. The value comes back verbatim, or None for a key never set; there is no default. A failure is `OpenFailed` after a rejected open and `NoSettingsStore` otherwise. On a first call it leaves the database as the one `openDB` leaves it (`OpenedFrom` of the old promise, version and store names). |
| Storage.SettingsDb.SetSetting | src/lib/storage.ts:60-63 | Succeeds exactly when the database opened with a `settings` store. On success the store is the old store with that one key overwritten. On failure it is unchanged and the error names the cause. On a first call it leaves the database as the one `openDB` leaves it (`OpenedFrom` of the old promise, version and store names). |
| Storage.FirstOpen | src/lib/storage.ts:30-48 | The one `openDB` call succeeds exactly when the disk version is at most 2. |
| Storage.FirstOpenReady | src/lib/storage.ts:28-63 | After the first open, settings can be read and written exactly when the disk held a version below 2, or version 2 with a `settings` store. |
| Storage.FirstReadUpgradesVersion1 | src/lib/storage.ts:28-57 | The first read on a version-1 database upgrades it to a lone `settings` store and finds the key unset. |
| Storage.FirstReadOfNewerVersion | src/lib/storage.ts:28-57 | The first read on a database at a newer version fails with the rejected open. |
| Storage.SetThenGet | src/lib/storage.ts:54-63 | After `setSetting(k, v)`, `getSetting(k)` returns `v`. Another key reads back the value it held before the write. |
| Storage.ObjectEntries | src/lib/storage.ts:93 | `Object.entries`: `null` throws. An object yields its members; a number or boolean yields nothing. |
| Storage.SettingsDb.ExportStorageData | src/lib/storage.ts:66-77 | The document is the stringified object with exactly the stored keys, each mapped to its stored value. The store is not changed. On a first call it leaves the database as the one `openDB` leaves it (`OpenedFrom` of the old promise, version and store names). |
| Storage.SettingsDb.ImportStorageData | src/lib/storage.ts:80-101 | Text that is not JSON fails before the store is touched. Success means the store equals the document's entries, so keys missing from the document are gone. Every failure carries the one rethrown message. Once the text parses, the database is left as `initDB`'s first call leaves it (`OpenedFrom`). |
| Storage.ImportOfExport | src/lib/storage.ts:66-101 | Importing an export restores the exported store key for key, for any codec whose `parse` inverts `stringify`. |
| StorageSync.CachedOrDefault | src/hooks/use-storage.ts:27-28 | The cached theme or font when it is a non-empty string, and `research` otherwise. |
| StorageSync.StorageHook.constructor | src/hooks/use-storage.ts:24-39 | In the browser, theme and font are seeded from the cache with `research` as the default, and loading is off. Elsewhere both are `research` and loading is on. Credentials start empty. |
| StorageSync.StorageHook.ApplyThemeToDOM | src/hooks/use-storage.ts:84-91 | `data-theme` is the theme. The `dark` class is present exactly when the theme is not `swiss`. |
| StorageSync.StorageHook.ApplyFontToDOM | src/hooks/use-storage.ts:93-95 | `data-font` is the font. |
| StorageSync.StorageHook.AdoptTheme | src/hooks/use-storage.ts:50-59 | A durable theme that differs from the state replaces it in the state and the cache and is applied. Otherwise the theme, cache and page stay as they were. |
| StorageSync.StorageHook.AdoptFont | src/hooks/use-storage.ts:60-69 | The same rule for the font. |
| StorageSync.StorageHook.ReadStored | src/hooks/use-storage.ts:46-48 | The three reads return the stored theme, font and credentials when the store is readable, and nothing otherwise. They never change the store. The database is left as `initDB` leaves it (`OpenedFrom`), so on a page's first call success follows from the disk version and store names. |
| StorageSync.StorageHook.LoadSettings | src/hooks/use-storage.ts:43-81 | Reconciliation: a durable theme or font wins over the state and cache. Durable credentials replace the list and never reach the cache. A failed read changes nothing. Loading ends in every case. The database is left as `initDB` leaves it (`OpenedFrom`), so on a page's first call success follows from the disk version and store names. |
| StorageSync.ReconcileAgrees | src/hooks/use-storage.ts:50-69 | After reconciliation, state and cache agree with a durable value when one is present. The cache is touched only at that key. |
| StorageSync.StorageHook.HandleStorageUpdate | src/hooks/use-storage.ts:99-110 | A theme, font or credentials event updates that field only. A theme sets `data-theme` and the `dark` class and leaves `data-font`; a font sets `data-font` and leaves `data-theme` and `dark`. Cache, events and loading are untouched. Any other key leaves the state and page unchanged. |
| StorageSync.StorageHook.SetTheme | src/hooks/use-storage.ts:116-127 | State, cache and page take the theme, and one theme event is broadcast. The durable store holds it when writable. A failed write undoes nothing. The database is left as `initDB` leaves it (`OpenedFrom`), so on a page's first call success follows from the disk version and store names. |
| StorageSync.StorageHook.SetFont | src/hooks/use-storage.ts:129-140 | The same for the font, with the same first-open effect on the database. |
| StorageSync.StorageHook.SetApiCredentials | src/hooks/use-storage.ts:142-147 | The whole list is replaced, written durably and broadcast. The cache is not touched. The database is left as `initDB` leaves it (`OpenedFrom`), so on a page's first call success follows from the disk version and store names. |
| StorageSync.CredentialsRoundTrip | src/hooks/use-storage.ts:145 | A stored credential list reads back as the same list. |
| StorageSync.CredentialsReadBack | src/hooks/use-storage.ts:171-175 | A value read back as a credential list is stored exactly as that list would be. The write-back in `importData` therefore leaves the store as imported. |
| StorageSync.StorageHook.PushTheme | src/hooks/use-storage.ts:173 | A theme found after import goes through `setTheme`. The state and the cached theme take it, `data-theme` and `dark` follow it, and one theme event is added. The store keeps the imported value; font, credentials, `data-font` and loading are untouched. With no theme found, nothing changes. |
| StorageSync.StorageHook.PushFont | src/hooks/use-storage.ts:174 | The same for the font, through `setFont`: the cached font and `data-font` follow it, `data-theme` and `dark` are untouched. |
| StorageSync.StorageHook.PushCredentials | src/hooks/use-storage.ts:175 | The same for credentials, through `setApiCredentials`. The stored list is rewritten as it was. The cache, the page attributes and loading are untouched. |
| StorageSync.StorageHook.ApplyImported | src/hooks/use-storage.ts:168-175 | After the import, the state takes each imported value that was found. The cache holds the imported theme and font, the page shows them, and loading is untouched. The events are theme, font and credentials, in that order, for those found. |
| StorageSync.FirstLoadAdoptsStoredTheme | src/hooks/use-storage.ts:43-81 | On a first load with an empty cache and a version-2 database holding `swiss`, the stored theme wins in the state and the cache. The font stays `research`. |
| StorageSync.FirstSetThemeIsStored | src/hooks/use-storage.ts:116-127 | The first `setTheme` on a version-1 database upgrades it and stores the theme. |
| StorageSync.StorageHook.ImportData | src/hooks/use-storage.ts:166-176 | Success means the store is the document's entries, followed by the setter effects above on state, cache, page and events. A failed import is rethrown with one message and leaves the hook and the page unchanged. The store is then unchanged too, except that a `null` document has already cleared it. Text that is not JSON leaves the database untouched; other text leaves it as `initDB` does (`OpenedFrom`). |
| Notes.NotesHook.constructor | src/hooks/use-notes.ts:14-15 | No notes, and loading. |
| Notes.NotesOf | src/hooks/use-notes.ts:20 | A paper without a stored record has no notes. |
| Notes.NotesHook.LoadNotes | src/hooks/use-notes.ts:17-26 | The stored notes replace the list. A failed read keeps the list. Loading ends in every case. |
| Notes.NotesHook.HandleNotesUpdate | src/hooks/use-notes.ts:31-41 | Events for another paper are ignored. An event carrying notes replaces the list verbatim. Otherwise the hook reloads. |
| Notes.NotesHook.Add | src/hooks/use-notes.ts:47-55 | On success the new note is appended after the unchanged old list and a reload event is sent. On failure nothing changes. |
| Notes.NotesHook.Update | src/hooks/use-notes.ts:57-65 | On success the list is `WithContent` of the old one and an event is sent. On failure nothing changes. |
| Notes.WithContentSpec | src/hooks/use-notes.ts:60 | Length, order, ids and creation times are kept. Notes with the id get the content and time. Every other note is unchanged. |
| Notes.WithContentIdempotent | src/hooks/use-notes.ts:60 | Repeating the same update changes nothing more. |
| Notes.NotesHook.Remove | src/hooks/use-notes.ts:67-75 | On success the list is `WithoutNote` of the old one and an event is sent. On failure nothing changes. |
| Notes.WithoutNoteSpec | src/hooks/use-notes.ts:70 | No note with the id is left. Every other note keeps its multiplicity and relative order. |
| Notes.RemoveUndoesAdd | src/hooks/use-notes.ts:47-75 | Removing a just-added note with a fresh id gives back the list before the add. |
| Notes.NotesHook.Reorder | src/hooks/use-notes.ts:77-89 | The new list is shown at once. If it is persisted, it is broadcast with the list. If not, the stored list is reloaded. |
| Notes.ReorderSyncsPeer | src/hooks/use-notes.ts:31-89 | A reorder brings another instance of the same paper to the new list without a reload. |
| Common.FilterSpec | src/hooks/use-notes.ts:70 | `filter` keeps exactly the passing elements, each as often as in the input. |
| Arxiv.TokensFrom | src/lib/arxiv.ts:95-96 | Every token is a quoted phrase with no inner quote, or a non-empty run without whitespace. |
| Arxiv.PhraseEnd | src/lib/arxiv.ts:95 | `"[^"]+"` at a position: a phrase ending at `e` starts there exactly when the result is `e`. So the match is the quote, at least one non-quote and the nearest closing quote, and None means no phrase starts there. |
| Arxiv.TokenEnd | src/lib/arxiv.ts:95 | The match at a non-whitespace position is the phrase when one starts there. Otherwise it is `\S+`: no whitespace inside, and whitespace or the end right after it. |
| Arxiv.TokensRebuildText | src/lib/arxiv.ts:95-96 | The query is blank gaps and the tokens taken in turn. The global match skips nothing but whitespace and drops no character. |
| Arxiv.TokensCoverText | src/lib/arxiv.ts:95-96 | The tokens, concatenated, hold every non-whitespace character of the query, in order. |
| Arxiv.TokensEmptyIffBlank | src/lib/arxiv.ts:96 | There are no tokens exactly when the query is blank. |
| Arxiv.Normalize | src/lib/arxiv.ts:103-111 | Normalising a token keeps whether it is an operator. |
| Arxiv.FormatQuery | src/lib/arxiv.ts:93-127 | The loop builds `Formatted(Tokens(query))`, the list that is then joined with single spaces. |
| Arxiv.FormattedPrefix | src/lib/arxiv.ts:113-123 | The element last pushed is the current token, normalised. |
| Arxiv.BlankQueryFormatsEmpty | src/lib/arxiv.ts:93-127 | An empty or blank query formats to `""`. |
| Arxiv.NoAdjacentTerms | src/lib/arxiv.ts:113-121 | Of any two neighbours in the output, at least one is an operator. |
| Arxiv.TermsKept | src/lib/arxiv.ts:101-124 | The terms in the output are exactly the terms of the query, verbatim and in order. Only operators and inserted ANDs are added. |
| Arxiv.OperatorsUpper | src/lib/arxiv.ts:105-111 | Every operator in the output is upper case. |
| Arxiv.AndIsOperator | src/lib/arxiv.ts:119 | The inserted `AND` is itself an operator. |
| Arxiv.AsList | src/lib/arxiv.ts:37-41 | Missing gives `[]`, one object gives a one-element list, and an array is kept. |
| Arxiv.TextOf | src/lib/arxiv.ts:76-77 | A string, an element's `#text`, or `""` for an element without text. A missing value throws. |
| Arxiv.AuthorNames | src/lib/arxiv.ts:42 | One name per author, in order. The result fails exactly when some author has no name. |
| Arxiv.FirstPdfLink | src/lib/arxiv.ts:57 | The first link titled `pdf`, typed `application/pdf` or with rel `related`, or none. |
| Arxiv.ShortIdWithoutMarker | src/lib/arxiv.ts:62-63 | An id without `/abs/` is its own short id. |
| Arxiv.ShortIdAfterMarker | src/lib/arxiv.ts:59-63 | With a single `/abs/`, the short id is everything after it. |
| Arxiv.CleanTitle | src/lib/arxiv.ts:82 | The title is the words of the raw title, its maximal runs of non-whitespace, joined by single spaces. Hence it is single-spaced, has no whitespace at either end, and keeps every non-whitespace character in order. |
| Arxiv.ParseEntry | src/lib/arxiv.ts:35-91 | It throws exactly on a missing id, title, summary or author name, or an empty category array. Otherwise every field is set as the source derives it. A category without `@_term` gives an undefined category; a missing category gives `""`. |
| Text.Trim | src/lib/arxiv.ts:83 | The result is the slice that starts at the first non-whitespace character and ends at the last one. The text before and after it is whitespace, and everything inside, inner whitespace included, is kept. |
| Text.TrimAround | src/lib/arxiv.ts:82-83 | Trimming text that is whitespace, then text with no whitespace at its ends, then whitespace, gives back exactly the middle. |
| Text.Words | src/lib/arxiv.ts:82 | The words of a text are non-empty and hold no whitespace. |
| Text.WordsEmptyIffBlank | src/lib/arxiv.ts:82 | A text has no words exactly when it is blank. |
| Text.CollapseSpacesWords | src/lib/arxiv.ts:82 | `replace(/\s+/g, ' ')` keeps every word and turns every whitespace run, inner or at an end, into exactly one space. |
| Text.CollapseTrimJoinsWords | src/lib/arxiv.ts:82 | Collapsing then trimming gives the words joined by single spaces. |
| Text.TrimSingleSpaced | src/lib/arxiv.ts:82 | Trimming a single-spaced title keeps it single-spaced. |
| Text.Includes | src/components/CategoryBrowser.tsx:27-29 | `includes` holds exactly when the text occurs at some index. |
| Text.FindFrom | src/lib/arxiv.ts:62 | The first occurrence at or after an index, or none at all. |
| Text.LowerOfUpper | src/components/CategoryBrowser.tsx:25 | Lower-casing forgets an earlier upper-casing. |
| CategoryBrowser.Tag | src/components/CategoryBrowser.tsx:16-19 | Each category of a section is tagged with the section title, in order. |
| CategoryBrowser.AllCategoriesSpec | src/components/CategoryBrowser.tsx:14-21 | The flat list has one entry per category of every section. Each entry is a category of a section tagged with its title, and each such pair is present. |
| CategoryBrowser.AllCategoriesAppend | src/components/CategoryBrowser.tsx:15 | Section order is kept: splitting the sections splits the list. |
| CategoryBrowser.SuggestionsSpec | src/components/CategoryBrowser.tsx:23-31 | An empty query suggests nothing. Otherwise an entry is suggested exactly when its name, id or section contains the query, ignoring case, in list order. |
| CategoryBrowser.SuggestionsIgnoreCase | src/components/CategoryBrowser.tsx:25 | An upper-case query suggests the same entries. |
| CategoryBrowser.Narrowed | src/components/CategoryBrowser.tsx:58-64 | Every section left is non-empty. |
| CategoryBrowser.NarrowedCategories | src/components/CategoryBrowser.tsx:58-64 | The categories left are exactly those whose name or id contains the filter, in their original order. |
| CategoryBrowser.NarrowedTitles | src/components/CategoryBrowser.tsx:58-64 | Each section left is an input section with its title, holding that section's matching categories. |
| CategoryBrowser.EmptyFilterShowsAll | src/components/CategoryBrowser.tsx:55 | An empty filter shows all sections unchanged. |
| CategoryBrowser.OwnNameKeepsCategory | src/components/CategoryBrowser.tsx:54-65 | A category survives the filter made of its own name. |
| CategoryBrowser.PhysicsDropsRobotics | src/components/CategoryBrowser.tsx:58-64 | No physics category passes the filter `robotics`, so the physics section is dropped. |
| CategoryBrowser.PhysicsNotRobotics | src/components/CategoryBrowser.tsx:58-64 | Each physics category lacks a `b` in its name and id, so the filter `robotics` rejects it. |
| CategoryBrowser.RoboticsKept | src/components/CategoryBrowser.tsx:58-64 | The Robotics category passes the filter `robotics`. |
| CategoryBrowser.RoboticsFilter | src/components/CategoryBrowser.tsx:54-65 | Filtering the real tables by `Robotics` keeps computer science with Robotics and drops physics. |
| CategoryBrowser.Browser.constructor | src/components/CategoryBrowser.tsx:9-11 | Empty input, empty filter, dropdown closed. |
| CategoryBrowser.Browser.HandleSearchChange | src/components/CategoryBrowser.tsx:33-39 | The input takes the text and the dropdown opens. Clearing the input clears the filter; otherwise the filter is kept. |
| CategoryBrowser.Browser.HandleKeyDown | src/components/CategoryBrowser.tsx:41-46 | Enter applies the input as the filter and closes the dropdown. Other keys change nothing. |
| CategoryBrowser.Browser.HandleSuggestionClick | src/components/CategoryBrowser.tsx:48-52 | The name becomes both the input and the filter, and the dropdown closes. |
| CategoryBrowser.Browser.HandleFocus | src/components/CategoryBrowser.tsx:79 | Focus opens the dropdown. |
| CategoryBrowser.Browser.HandleBlur | src/components/CategoryBrowser.tsx:80 | Blur closes the dropdown. |
| CategoryBrowser.ClickShowsCategory | src/components/CategoryBrowser.tsx:48-65 | After a click on a suggestion, the dropdown is gone and the clicked category is on the page. |
| ModelPicker.AvailableProvidersSpec | src/components/ModelPicker.tsx:19-21 | The providers offered are the listed ones, in order, that have a credential with a non-empty key. |
| ModelPicker.ZeroStateSpec | src/components/ModelPicker.tsx:24 | Zero state holds exactly when no listed provider has a usable credential. |
| ModelPicker.FindModel | src/components/ModelPicker.tsx:48 | `find`: the first model whose id is the default, or none when no model has that id. |
| ModelPicker.SelectionStepSpec | src/components/ModelPicker.tsx:39-56 | Closed, or nothing offered: no change. A selection no longer offered is cleared. An empty selection becomes the default model's provider if offered, else the first offered. |
| ModelPicker.SelectionConverges | src/components/ModelPicker.tsx:39-56 | While open with something offered, two runs reach a fixed point, and the selection there is offered. |
| ModelPicker.FixedPointIsAvailable | src/components/ModelPicker.tsx:39-56 | With non-empty provider ids, the effect leaves the selection alone exactly when it is offered. |
| ModelPicker.ModelsForSpec | src/components/ModelPicker.tsx:158-160 | `filter`: each model of the selected provider is listed as often as it occurs, and no other model. Order is kept, since the list of a split table is the lists of its parts in turn. Nothing is listed without a selection. |
| ModelPicker.Picker.constructor | src/components/ModelPicker.tsx:15-16 | Nothing is selected at first. |
| ModelPicker.Picker.SelectionEffect | src/components/ModelPicker.tsx:39-56 | One run of the effect sets the selection to `SelectionStep` of the one it saw. |
| ModelPicker.Picker.HandleModelSelect | src/components/ModelPicker.tsx:59-62 | The model becomes the default and the picker closes. |
| ModelPicker.AsWrittenIgnoresDefaultModel | src/components/ModelPicker.tsx:15 | With the default model undefined, as the hook leaves it, the first provider is picked even when the default model's provider is offered. |
| PaperList.InfiniteList.constructor | src/components/InfinitePaperList.tsx:13-16 | The initial papers, offset equal to their count, `hasMore` exactly when fewer than the total, not loading. |
| PaperList.InfiniteList.Reset | src/components/InfinitePaperList.tsx:20-24 | New props reset papers, offset and `hasMore` as the constructor sets them. `loading` is left as it was. |
| PaperList.InfiniteList.LoadMorePapers | src/components/InfinitePaperList.tsx:47-68 | Requests the page at the current offset. A non-empty page is appended, the offset stays equal to the paper count, and the list ends once the old offset plus the page reaches the total. An empty page ends the list. A failure changes nothing. Loading ends, and an ended list stays ended. |
| PaperList.InfiniteList.OnIntersect | src/components/InfinitePaperList.tsx:27-68 | A page is fetched exactly when the sentinel is visible, more exist and none is loading. Otherwise nothing changes. A fetch asks for the page after the papers shown and ends with loading off. A non-empty page is appended, and more remain exactly when the new count is below the total. An empty page ends the list, and a failure keeps the papers and the list open. |
| MarkdownRenderer.EnvAt | src/components/MarkdownRenderer.tsx:16 | The environment found is one of the names, and its `\begin{...}` starts there. |
| MarkdownRenderer.EnvAtNone | src/components/MarkdownRenderer.tsx:16 | Nothing is found exactly when no name's `\begin{...}` starts there. |
| MarkdownRenderer.NoBeginWithoutBackslash | src/components/MarkdownRenderer.tsx:16 | No environment begins where there is no backslash. |
| MarkdownRenderer.MatchAmong | src/components/MarkdownRenderer.tsx:16 | A match is non-empty and ends within the text. |
| MarkdownRenderer.MatchAmongSpec | src/components/MarkdownRenderer.tsx:16 | A match opens an environment of the list and ends with the same environment's `\end{...}`, the first one after the opening. |
| MarkdownRenderer.MatchAmongNone | src/components/MarkdownRenderer.tsx:16 | There is no match exactly when no environment opens there, or when its end tag never follows. |
| MarkdownRenderer.NearestEndMatches | src/components/MarkdownRenderer.tsx:16 | The text from an opening tag to the nearest matching end tag is one match. |
| MarkdownRenderer.ScanCovers | src/components/MarkdownRenderer.tsx:18-22 | The pieces, put back together, are the content. Nothing is lost, added or reordered, and matches do not overlap. |
| MarkdownRenderer.ScanAt | src/components/MarkdownRenderer.tsx:16-21 | Each piece sits where the global replace would take it. A single character is at an offset where the expression does not match, and a match is at an offset where the expression matches exactly that text. |
| MarkdownRenderer.ScanUnique | src/components/MarkdownRenderer.tsx:16-21 | Any cut into pieces that sit that way is the scan. The global replace walks the content in exactly one way. |
| MarkdownRenderer.PreprocessLaTeX | src/components/MarkdownRenderer.tsx:11-23 | The result is the content rendered along the one cut into pieces that fits its matches. Each matched environment is wrapped in `$$` lines, and every other character is kept. |
| MarkdownRenderer.FitsOnlyScan | src/components/MarkdownRenderer.tsx:16-21 | The scan is the only cut of the whole content that fits its matches. |
| MarkdownRenderer.ScanMatches | src/components/MarkdownRenderer.tsx:16-18 | Every matched piece is a well-formed environment of the list, closed by its nearest end tag. |
| MarkdownRenderer.ScanWithoutBegin | src/components/MarkdownRenderer.tsx:16-18 | Where no listed environment begins, nothing is matched. |
| MarkdownRenderer.NoBeginUnchanged | src/components/MarkdownRenderer.tsx:11-23 | Content with no `\begin{E}` for a listed E, including the empty content, is returned unchanged. |
| MarkdownRenderer.RenderAppend | src/components/MarkdownRenderer.tsx:18-21 | Rewriting goes piece by piece: the rewrite of a concatenation is the concatenation of the rewrites. |
| MarkdownRenderer.DelimitedCDMatch | src/components/MarkdownRenderer.tsx:16 | In `$$\begin{CD}x\end{CD}$$` the match is the whole environment. |
| MarkdownRenderer.AlreadyDelimitedIsWrappedAgain | src/components/MarkdownRenderer.tsx:19-21 | An environment already between `$$` is wrapped a second time. There is no skip check. |

## Left out

- `JSON.parse` and `JSON.stringify` are the parameter `JsonCodec`. Numbers are integers only. Key order inside objects is not modelled, because the store is a map.
- IndexedDB and `idb`: each call is one atomic step. The only open failure modelled is a database on disk that is newer than version 2. Quota errors, blocked upgrades and transaction aborts are not modelled.
- Storage.SettingsDb.ImportStorageData: a `null` document ends with an empty store. The clear has been awaited before `Object.entries` throws, and nothing aborts the transaction. Its string and array entries use decimal-index keys, as `Object.entries` does.
- StorageSync.StorageHook.LoadSettings: adopts a stored theme or font only when it is a non-empty JSON string, and credentials only when they form a well-formed list. The source adopts any truthy value, of any shape, unchecked.
- StorageSync.StorageHook.ReadStored: returns a stored theme or font only when it is a non-empty JSON string, and credentials only when they form a well-formed list. The source passes on any truthy value.
- StorageSync.StorageHook.ApplyImported: pushes only the values `ReadStored` returns, so a truthy stored value of another shape is not pushed. The source pushes any truthy value.
- StorageSync.StorageHook.ImportData: the same restriction, through `ApplyImported`.
- StorageSync.StorageHook.HandleStorageUpdate: events are typed. The source takes `event.detail.value` of any shape.
- The `ApiCredential` type is not defined in `src/lib/storage.ts`. The model uses the provider and key that `ModelPicker.tsx` reads.
- `updateSetting`, `getSettingValue` and `exportData` (`src/hooks/use-storage.ts:153-164`) pass straight through to `setSetting`, `getSetting` and `exportStorageData`. Those are modelled; the wrappers are not.
- `localStorage` failures, `console.error`, and `typeof window` (the constructor's `inBrowser` parameter).
- `window.dispatchEvent` is the appended event log of the page. A listener receiving an event is the separate step `HandleStorageUpdate` or `HandleNotesUpdate`, not part of the dispatching setter.
- React scheduling: every `setState` updater runs at once, in order. Stale closures between renders are not modelled. The exception is the selection effect, which reads the selection its render saw.
- The note repository (`getNotesForPaper`, `addNoteToPaper`, `updateNoteInPaper`, `deleteNoteFromPaper`, `reorderNotesInPaper`) is not defined in `src/lib/storage.ts`. Each reply is a parameter, and each method returns the requests it issued.
- Unicode case mapping: `toUpperCase` and `toLowerCase` are modelled on ASCII letters only.
- The regular expressions of `formatQuery` and `preprocessLaTeX` are hand-written scanners. `\s` is ECMAScript's WhiteSpace and LineTerminator set.
- The XML parser (`fast-xml-parser`) is not modelled. Text nodes are strings or elements; attribute values are strings; numeric coercion is not modelled.
- Arxiv.ParseEntry: `published` and `updated` are passed through as optional strings. The source does not check them either.
- `searchPapers`, `getPaperById`, the fetch functions of `src/lib/llm.ts` and the `/api/search.json` route are network clients.
- The `PROVIDERS` and `MODELS` tables are not defined in `src/lib/llm.ts`. They are parameters of the picker.
- ModelPicker.Picker.HandleModelSelect: models the evident intent, a stored default model. As written, `setDefaultModel` is undefined and the call throws (see Findings). `onClose` is modelled as closing the picker.
- The picker's body-scroll lock and all rendering, animation and styling.
- CategoryBrowser.Browser.HandleBlur: the 200 ms delay before the dropdown closes is not modelled.
- PaperList.InfiniteList.LoadMorePapers: `totalResults` is an integer. A reply without it, where every comparison is false and `hasMore` stays on, is not modelled. The `IntersectionObserver` is reduced to the `OnIntersect` callback.
- KaTeX, `react-markdown` and the rest of the Markdown rendering.
- MarkdownRenderer.PreprocessLaTeX: the comments at `src/components/MarkdownRenderer.tsx:14` and `:19-20` speak of skipping environments already wrapped in delimiters. The code has no such check, and the model follows the code (`AlreadyDelimitedIsWrappedAgain`). The intended heuristic is not specified, so no corrected version is modelled.

## Findings

| source | as written | input that shows it | evidently intended | confidence | as-written member | corrected member |
|---|---|---|---|---|---|---|
| src/components/ModelPicker.tsx:15 | `defaultModel` and `setDefaultModel` are taken from `useStorage()`, which returns neither (`src/hooks/use-storage.ts:178-187`). The effect always sees an undefined default model, and `handleModelSelect` calls an undefined function. | Providers `openai` then `anthropic` both have keys, and the default model `claude` belongs to `anthropic`. The effect selects `openai`. | The default model's provider is preselected when offered (`anthropic`), and picking a model stores it as the default. | not executed; read from the hook's return value | ModelPicker.AsWrittenIgnoresDefaultModel | ModelPicker.SelectionStepSpec |
