# Documentation viewer — a verified model

This project models, in Dafny, the two documentation viewers of the
repository.

**The single-page engine `DocEngine`** (docs/doc-engine.js). It works in four stages:

- It reads a manifest `docs_index.json` and merges the JSON files the manifest lists into one list of pages. Every page gets a unique id, and the merge also settles the site title.
- It sorts the pages and builds a navigation tree of folders from each page's `path`.
- It indexes the pages for full-text search. Each hit is scored per term from its title, path, id and text. A query yields ranked hits with a snippet around the first match, and matches are highlighted in the open article.
- A mounted instance keeps UI state:
  - the search dropdown: its hits, the active row and whether it is open;
  - the set of open folders;
  - the current page.

  It changes that state on input, arrow keys, Enter, clicks and hash routes (`#/page/<id>`).

**The older `DocumentationManager`** (js/docs.js). It works in three stages:

- It loads sections from a list of JSON files. The load tolerates individual failures, recognises three shapes of file, and sorts the sections by `order`.
- It flattens the articles into a search index, filters that index by substring, and shows at most five results.
- It navigates by hash `#section/article` and finds the previous and next article.

Modules, one per component:

- `Text`: the JavaScript string built-ins the code relies on:
  - `trim` and `toLowerCase`;
  - collapsing `\s+` runs;
  - `split` and `join`, `indexOf` and `slice`;
  - decimal `String(n)`.
- `Json` holds JSON values, including `undefined` for a missing field, JavaScript truthiness, `||` and `String()`.
- `Sorting` models `Array.prototype.sort`, which is stable, as an insertion sort over a comparator.
- `EngineHelpers` holds `escapeHtml`, `slugify`, `parseRoute` and `joinUrl`.
- `Manifest` holds `parseDocsIndex`.
- `PageIds` holds `ensureUniquePageId`. It is a class over the `used` set that the function updates in place.
- `Corpus` holds `loadAllDocs`.
- `NavTree` holds `sortPages`, `normalizePath`, `folderKeyFromPath` and `buildTree`. The folder map is a `map` from key to folder.
- `Search` holds `normalizeQuery`, `splitTerms`, `countOccurrences`, `makeSnippet`, the search index and `computeSearchResults`.
- `Highlight` holds `highlightTextNodes` over a tree of text, element and `<mark>` nodes.
- `UiState` holds the mounted instance's state as a class `MountState`, with one method per event handler.
- `DocsManager` models js/docs.js, including the class `DocumentationManager`.

Three behaviours of the code that the model keeps as they are:

- A multi-file load of `DocEngine` is all-or-nothing. The fetches are awaited together with `Promise.all`, so one failed fetch rejects the whole load (docs/doc-engine.js:212-216).
- Search snippets use a radius of 90 characters (docs/doc-engine.js:698); `makeSnippet`'s own default of 80 is never used there (docs/doc-engine.js:296). A snippet is cut at exact character positions, not at word boundaries: its whitespace is only collapsed and trimmed (docs/doc-engine.js:302-308).
- `DocumentationManager` falls back to its built-in list of six files only when the list request throws (js/docs.js:52-61). A response that is not ok leaves the list empty, and so the load fails (js/docs.js:44-50).

## Model

| member | source | states |
|---|---|---|
| EngineHelpers.UnescapeEscape | docs/doc-engine.js:28-35 | escaping is lossless: decoding the five entities `escapeHtml` writes gives back the input |
| EngineHelpers.EscapeHtmlIsPerCharacter | docs/doc-engine.js:28-35 | the chain of `replaceAll` calls, with `&` first, escapes every character on its own, so no entity is escaped twice |
| EngineHelpers.EscapedHasNoMarkup | docs/doc-engine.js:28-35 | escaped text holds none of `<`, `>`, `"` or `'` |
| EngineHelpers.EscapeHtmlAppend | docs/doc-engine.js:28-35 | escaping distributes over concatenation |
| EngineHelpers.SlugifyIsSlug | docs/doc-engine.js:37-43 | a slug holds only lower-case Latin or Russian letters, digits, `_` and `-`, so no whitespace and no `/` |
| EngineHelpers.SlugifyIdempotent | docs/doc-engine.js:37-43 | slugifying a slug leaves it unchanged |
| EngineHelpers.PageLinkRoutesBack | docs/doc-engine.js:45-55 | the link `#/page/<enc>` that `openPageById` writes routes back to the page whose id `enc` decodes to |
| EngineHelpers.ExtraSegmentsIgnored | docs/doc-engine.js:45-55 | segments after the id do not change the route |
| EngineHelpers.JoinUrlShape | docs/doc-engine.js:63-68 | absolute URLs, rooted names and any name with an empty directory come back unchanged; otherwise exactly one `/` separates the directory, without its trailing slashes, from the name |
| EngineHelpers.StripTrailingSlashes | docs/doc-engine.js:67 | the result is a prefix that does not end in `/`, and every character removed after it is a `/` |
| EngineHelpers.StripLeadingSlashes | docs/doc-engine.js:67 | the result is a suffix that does not start with `/`, and every character removed before it is a `/` |
| Manifest.ParseEntries | docs/doc-engine.js:162-172 | items are accepted iff every one parses; the result is item by item; a refused item is `BadEntry` |
| Manifest.ParseDocsIndex | docs/doc-engine.js:150-173 | `BadFormat` exactly when there is no array, no `files` array and no `docs` array; otherwise one entry per item |
| Manifest.ParseEncodedIndex | docs/doc-engine.js:150-173 | a manifest written from normalised entries parses back to the same entries |
| Manifest.ParseFileNameList | docs/doc-engine.js:150-173 | a bare array of file names gives one entry per name, with no prefix and no namespace |
| PageIds.BaseId | docs/doc-engine.js:176-177 | the base id is never empty, and it is the trimmed raw id whenever that is not blank |
| PageIds.SuffixedInjective | docs/doc-engine.js:184-193 | different counters give different `<base>-<n>` ids |
| PageIds.FirstFreeFrom | docs/doc-engine.js:184-192 | the suffix search ends at the first free `-n` with `n >= 2`; it stops because the used set is finite |
| PageIds.FirstFreeSuffixUnique | docs/doc-engine.js:184-192 | the first free suffixed id is unique |
| PageIds.AssignedId | docs/doc-engine.js:175-194 | the assigned id is non-empty, not already used, and is the id the source's branches choose |
| PageIds.AssignedIdUnique | docs/doc-engine.js:175-194 | those branches determine the id uniquely |
| PageIds.UsedIds.TakeFirstFreeSuffix | docs/doc-engine.js:184-192 | the `while (used.has(...)) i++` loop returns the first free suffixed id and adds it to the set |
| PageIds.UsedIds.EnsureUniquePageId | docs/doc-engine.js:175-194 | returns the assigned id and adds exactly that id to the used set |
| Corpus.LastSegment | docs/doc-engine.js:237 | the last `/`-segment of a file name holds no `/` |
| Corpus.FirstOverride | docs/doc-engine.js:222-227 | finds the first file whose truthy `siteTitle` differs from the initial title: that file's title is returned and no earlier file overrides; nothing is found iff no file overrides |
| Corpus.SiteTitleIsFirstOverride | docs/doc-engine.js:220-227 | the title fold settles on the first file that overrides the default and ignores all later files |
| Corpus.MergedPagesWellFormed | docs/doc-engine.js:228-248 | merged pages have pairwise distinct, non-empty ids, all recorded as used, with a truthy title and a numeric order |
| Corpus.FinishFacts | docs/doc-engine.js:244-245 | a finished page keeps every other field and its own truthy title and numeric order; otherwise the title falls back to the id and the order to 999999 |
| Corpus.FreeIdKept | docs/doc-engine.js:241-242 | a page whose trimmed raw id is still free keeps it |
| Corpus.NoNamespaceOnlyForBareFile | docs/doc-engine.js:235-239 | a page has no namespace only when the entry has none and the file's last segment is empty or exactly `.json` |
| Corpus.MergePage | docs/doc-engine.js:229-248 | one page: prefix its path, assign the id through the shared used set, finish it |
| Corpus.MergeFile | docs/doc-engine.js:228-249 | the per-file loop extends the merge by that file's pages in order |
| Corpus.MergeDocs | docs/doc-engine.js:218-251 | the two nested loops compute the site-title fold and the merged pages |
| Corpus.FetchAll | docs/doc-engine.js:212-216 | succeeds iff every listed file is fetched; results come in manifest order; a failure names a URL whose fetch failed |
| Corpus.LoadAllDocs | docs/doc-engine.js:196-252 | single document: succeeds iff it is fetched and not `null`; its pages are the document's pages as they are, and the title is its `siteTitle`, else the option, else the default. Manifest: succeeds iff the manifest and every file load; the pages are then the merged pages of the fetched files, well formed with unique ids, and the title is the site-title fold over the files in manifest order |
| NavTree.PageLeTotal | docs/doc-engine.js:84-93 | the page comparator is a total preorder whenever the collation is |
| NavTree.SortPagesOrdered | docs/doc-engine.js:84-93 | sorted pages are a permutation, ordered by `order` (missing means 999999) and then by collated title; the first page has the least order |
| NavTree.SortPagesStable | docs/doc-engine.js:84-93 | pages that compare equal keep their relative order |
| NavTree.NormalizePath | docs/doc-engine.js:95-99 | a normalised path holds no empty segment |
| NavTree.NormalizePathStable | docs/doc-engine.js:95-99 | normalising a normalised path changes nothing |
| NavTree.FolderKeyExtend | docs/doc-engine.js:101-103 | extending a path appends `/` and the slug of the new segment to the key |
| NavTree.FolderKeyGrows | docs/doc-engine.js:119-126 | each deeper prefix of a path has a strictly longer key, which is why the parent is always created first |
| NavTree.FolderKeySplits | docs/doc-engine.js:101-103 | splitting a key on `/` gives back the slugs of the path's segments |
| NavTree.EnsureFolder | docs/doc-engine.js:110-117 | an existing folder is left alone; a new folder is registered empty under its key and appended to its parent's children; nothing else changes |
| NavTree.EnsureFolderLinked | docs/doc-engine.js:110-117 | adding a folder keeps every folder other than the root linked from a parent with a shorter key |
| NavTree.EnsureFolderLeaves | docs/doc-engine.js:110-117 | adding a folder keeps the leaves of each folder equal to the pages filed under its key |
| NavTree.EnsureFolderOpens | docs/doc-engine.js:110-127 | at step `i` of a page's path the folder of every step so far exists, and a folder `ensureFolder` adds there has the `i`-th name as its title and is listed under the folder of the first `i` names |
| NavTree.PlacePage | docs/doc-engine.js:119-131 | one page: a folder exists for every prefix of its path, each folder other than the root was opened by a step along a placed page's path, and the page becomes a leaf of the folder for its full path |
| NavTree.PlaceAll | docs/doc-engine.js:119-131 | after the loop, every folder's leaves are exactly the pages whose path key is that folder's key, in page order; every prefix of every path has its folder, and every folder other than the root comes from such a prefix, titled by its last name and listed under the folder of the prefix one shorter |
| NavTree.BuildTree | docs/doc-engine.js:105-146 | the tree is well linked, and every page's folder exists. The folders are exactly those of the prefixes of the pages' paths: each has the title of its prefix's last name and is a child of the folder of the prefix one shorter. Each folder's leaves are a permutation of its pages, its children are sorted, and folders come before pages |
| NavTree.ChildLeTotal | docs/doc-engine.js:134-142 | the child comparator is a total preorder whenever the collation is |
| NavTree.SortChildren | docs/doc-engine.js:133-146 | sorting every folder keeps the keys, the titles and each folder's children as a permutation (so its leaves too), and leaves every child list sorted with folders first |
| Sorting.SortBySorted | docs/doc-engine.js:85 | `sort` with a total-preorder comparator returns a sorted permutation |
| Sorting.SortByStable | docs/doc-engine.js:85 | `sort` is stable: the order among equivalent elements is kept |
| Search.NormalizeQueryShape | docs/doc-engine.js:270-274 | a normalised query is trimmed, lower-case and single-spaced, and it is empty iff the query is blank |
| Search.NormalizeQueryIdempotent | docs/doc-engine.js:270-274 | normalising twice is normalising once |
| Search.SplitTermsShape | docs/doc-engine.js:276-280 | every term is lower-case, has at least two characters and holds no whitespace; a blank query has no terms |
| Search.OccurrencesBound | docs/doc-engine.js:282-293 | non-overlapping occurrences times the needle length never exceed the haystack length |
| Search.OccurrencesZeroIffAbsent | docs/doc-engine.js:282-293 | the count is zero iff the needle is empty or occurs nowhere |
| Search.CountOccurrences | docs/doc-engine.js:282-293 | the `indexOf` loop counts the non-overlapping occurrences |
| Search.FirstMatch | docs/doc-engine.js:298-299 | `-1` iff the lowered text does not contain the query; otherwise the query matches there |
| Search.MakeSnippetAbsent | docs/doc-engine.js:295-309 | no match gives the empty snippet |
| Search.MakeSnippetMarkers | docs/doc-engine.js:295-309 | an ellipsis opens the snippet iff text was cut before it and closes it iff text was cut after; an uncut snippet is the text with whitespace collapsed and trimmed |
| Search.MakeSnippetLength | docs/doc-engine.js:295-309 | a snippet is at most the query plus twice the radius plus the two ellipses long |
| Search.MakeSnippetShowsMatch | docs/doc-engine.js:295-309 | the snippet contains the matched text, which lowers to the query |
| Search.SearchIndexEntries | docs/doc-engine.js:658-676 | one entry per page with its id, its title (falling back to the id) and its path joined by ` / `; every `*Lower` field is lower-case |
| Search.WeightedIsCappedCount | docs/doc-engine.js:689-694 | a field contributes its weight times its occurrence count capped at the limit |
| Search.TermScoreRange | docs/doc-engine.js:689-694 | a term scores iff some field contains it, and it scores at most 214 |
| Search.ScorePositive | docs/doc-engine.js:686-696 | an entry scores iff some term scores |
| Search.ScoreEntry | docs/doc-engine.js:686-696 | the per-term loop computes the score |
| Search.ComputeSearchResults | docs/doc-engine.js:678-704 | the loop computes the specified results |
| Search.SearchResultsBlank | docs/doc-engine.js:678-684 | a blank query, or one without terms, gives no results |
| Search.HitsMembers | docs/doc-engine.js:686-699 | the hits are exactly the positively scored entries |
| Search.RankedHitsOrder | docs/doc-engine.js:702 | the ranking is a permutation of the hits, in non-increasing score, stable among equal scores |
| Search.SearchResultsPrefix | docs/doc-engine.js:703 | the results are a prefix of the ranking, of length `min(limit, hits)`, or `hits + limit` (at least 0) for a negative limit |
| Search.SearchResultsScored | docs/doc-engine.js:686-703 | every result has a positive score and comes from an index entry |
| Highlight.ReplaceNodeWithHighlighted | docs/doc-engine.js:338-363 | replaced iff the lowered text contains the term. The fragment list marks every non-overlapping match, and the number of marks is the occurrence count |
| Highlight.FragmentsFromText | docs/doc-engine.js:346-360 | the fragments' text is the node's text: nothing is lost or duplicated |
| Highlight.FragmentsFromMarks | docs/doc-engine.js:346-360 | the number of `<mark>` nodes equals the number of matches |
| Highlight.FragmentsFromMarksHold | docs/doc-engine.js:350-353 | every new `<mark>` holds text that lowers to a search term |
| Highlight.HighlightPass | docs/doc-engine.js:365-375 | one term's pass over the tree computes the specified nodes and mark count |
| Highlight.HighlightTextNodes | docs/doc-engine.js:311-378 | the pass per term computes the highlighted tree and the total count of marks |
| Highlight.SkippedParentUntouched | docs/doc-engine.js:321-331 | text whose direct parent is a `script`, `style`, `noscript`, `code`, `pre` or `mark` element is never changed and counts no match |
| Highlight.SkippedUntouched | docs/doc-engine.js:321-331 | text with a `code`, `pre` or `mark` element anywhere among its ancestors is never changed |
| Highlight.HighlightedText | docs/doc-engine.js:311-378 | highlighting keeps the visible text |
| Highlight.HighlightedMarks | docs/doc-engine.js:311-378 | the marks added are exactly the returned total |
| Highlight.HighlightedHold | docs/doc-engine.js:311-378 | every mark, old or new, holds text of some search term when the old ones did |
| UiState.Clamp | docs/doc-engine.js:798-805 | the active row stays within the hits and moves exactly as asked when that is in range |
| UiState.Toggle | docs/doc-engine.js:912-915 | toggling flips exactly the given folder key |
| UiState.ToggleTwice | docs/doc-engine.js:912-915 | toggling twice restores the set |
| UiState.OwnFolderOpened | docs/doc-engine.js:1043-1049 | opening a page opens its own folder |
| UiState.AncestorKeysArePrefixes | docs/doc-engine.js:1043-1049 | every opened key is the key of a prefix of the page's path |
| UiState.DefaultPageFirst | docs/doc-engine.js:1063-1064 | the route without a page falls to a page iff there is one, and that page has the least order |
| UiState.ResultsOfNormalized | docs/doc-engine.js:923-935 | searching the normalised input gives the same results as searching the raw input |
| UiState.MountState.constructor | docs/doc-engine.js:382-500 | the state starts empty, with the dropdown closed |
| UiState.MountState.DdClose | docs/doc-engine.js:721-726 | closing empties the hits and resets the active row |
| UiState.MountState.DdOpenWithHits | docs/doc-engine.js:729-740 | the dropdown shows the hits, the first row is active, and it is open iff there are hits |
| UiState.MountState.DdMove | docs/doc-engine.js:798-805 | the active row moves by the clamped step only while the list is open and has hits |
| UiState.MountState.DdSelectActive | docs/doc-engine.js:807-818 | selects the active hit, or the first when none is active, and closes; with no hit it changes nothing |
| UiState.MountState.DdPressItem | docs/doc-engine.js:821-832 | a mouse press on a row in range opens that row's hit; any other press changes nothing |
| UiState.MountState.OnSearchInput | docs/doc-engine.js:923-938 | input without terms closes the dropdown; otherwise it shows the search results for the input |
| UiState.MountState.OnArrowDown | docs/doc-engine.js:945-953 | a closed dropdown opens with the results; an open one moves down one row |
| UiState.MountState.OnArrowUp | docs/doc-engine.js:955-959 | an open dropdown moves up one row |
| UiState.MountState.OnEnter | docs/doc-engine.js:967-980 | an open dropdown opens its active hit; otherwise the first search result is opened; the dropdown ends closed |
| UiState.MountState.ToggleFolder | docs/doc-engine.js:905-920 | a click toggles the clicked folder key; an empty key changes nothing |
| UiState.MountState.OpenAncestors | docs/doc-engine.js:1043-1049 | every non-empty prefix key of the path is added to the open folders |
| UiState.MountState.RenderPageById | docs/doc-engine.js:1016-1049 | an unknown id clears the current page, as `renderNotFound` does, and leaves the open folders alone; a known one becomes current and opens its folders, its own among them |
| DocsManager.JoinPieces | js/docs.js:152-165 | one string per block, as `join` writes them |
| DocsManager.BlockTextsSpec | js/docs.js:151-165 | the map succeeds iff every block can be read, and then holds each block's text |
| DocsManager.ExtractFails | js/docs.js:151-165 | extraction throws iff the content is not an array or some block is `null`, `undefined` or a list without an array of items |
| DocsManager.ExtractHoldsBlock | js/docs.js:151-165 | the extracted text contains every block's text, lowered |
| DocsManager.ExtractIsLower | js/docs.js:151-165 | the extracted text is lower-case |
| DocsManager.NotOkIndexFails | js/docs.js:41-61 | a list request that is not ok leaves no sections, so the load fails; a list request that throws falls back to the six built-in files |
| DocsManager.GatherLoaded | js/docs.js:95-112 | the count of loaded files never exceeds the number of files |
| DocsManager.GatherOk | js/docs.js:95-112 | gathering throws iff a fetched body is `null` or `undefined`, where reading its shape throws |
| DocsManager.GatherPrefix | js/docs.js:95-112 | sections only accumulate: each file's contribution extends what came before |
| DocsManager.GatherOrder | js/docs.js:95-112 | each fetched file's sections appear in file order |
| DocsManager.SectionLeTotal | js/docs.js:119 | ordering by `order \|\| 999` is a total preorder |
| DocsManager.LoadOk | js/docs.js:36-128 | a successful load has sections, which are a sorted permutation of the gathered ones, and it loaded at most one file per listed file |
| DocsManager.DocumentationManager.constructor | js/docs.js:8-13 | nothing loaded, no article, an empty index |
| DocsManager.DocumentationManager.LoadDocumentation | js/docs.js:36-128 | the loop stores the specified sections under the fixed title and version, and reports success and the number of files loaded |
| DocsManager.IndexArticlesSpec | js/docs.js:134-146 | a section's articles index iff every article can be read, and then one entry per article, in order |
| DocsManager.IndexSectionsCount | js/docs.js:132-148 | a successful index has one entry per article of every section |
| DocsManager.DocumentationManager.BuildSearchIndex | js/docs.js:132-148 | the nested loops build the specified index, stopping where the source throws |
| DocsManager.MatchingSpec | js/docs.js:425-428 | the filter keeps exactly the entries whose joined text contains the lowered query |
| DocsManager.MatchingConcat | js/docs.js:425-428 | filtering distributes over concatenation |
| DocsManager.MatchPositionsSpec | js/docs.js:425-428 | the positions of the matching entries are ascending, each names a matching entry, and every matching entry's position is among them |
| DocsManager.PerformSearchSpec | js/docs.js:420-429 | a blank query gives nothing. Results are matching index entries, at most five; when fewer than five, every match is among them |
| DocsManager.PerformSearchFirstMatches | js/docs.js:420-429 | for a non-blank query the results are the first `min(5, matches)` matching entries, in index order |
| DocsManager.FindIndexSpec | js/docs.js:338 | `findIndex` is `-1` iff no article has the id; otherwise it is the first article that has it |
| DocsManager.NavigationAround | js/docs.js:337-340 | the links are the neighbours of the current article, when they are truthy |
| DocsManager.NavigationWhenMissing | js/docs.js:337-340 | for an article that is not in the section, there is no previous link and the next link is the first article |
| DocsManager.HashTargetOfLink | js/docs.js:481-492 | the hash `section/article` targets exactly that section and article |
| DocsManager.HashTargetShape | js/docs.js:487-488 | a target's two parts are non-empty, hold no `/`, and `section/article` starts the hash |
| DocsManager.EntryLinksBack | js/docs.js:143 | an index entry's URL navigates back to its own article |
| DocsManager.FindByIdSpec | js/docs.js:214-217 | `find` returns the first item with the id, is missing iff no item has it, and throws on a `null` item before any match |
| DocsManager.DocumentationManager.ShowArticle | js/docs.js:213-222 | the current article becomes the looked-up article when it is found; nothing changes otherwise; reports whether the lookup threw |
| DocsManager.DocumentationManager.HandleNavigation | js/docs.js:481-492 | an empty hash shows the welcome page; a hash that names no section and article changes nothing; otherwise it shows that article |
| DocsManager.KeepChars | js/docs.js:509-513 | the kept characters are word characters, whitespace or `-` from the input |
| DocsManager.DocSlugifyIsSlug | js/docs.js:509-513 | the slug holds only lower-case Latin letters, digits, `_` and `-` |
| DocsManager.DocSlugifyIdempotent | js/docs.js:509-513 | slugifying a slug changes nothing |
| DocsManager.DocSlugifyDropsOthers | js/docs.js:509-513 | a text without word characters, whitespace or `-` slugifies to the empty string |

## Left out

- Fetching, `Promise.all` and the other asynchronous orchestration are not modelled. A fetch is a parameter: a URL maps to a parsed body, or to nothing when `fetchJson` or `fetch` throws. Console logging and the error pages are left out.
- `DOMParser`, `marked` and `DOMPurify` are parameters. `toPlainTextFromHtml`, `toPlainTextFromMarkdown`, `safeMarked` and `sanitize` appear only as the `plainOf` function the search index is given.
- `localeCompare(…, "ru")` is a collation parameter, assumed to be a total preorder. `decodeURIComponent` is a parameter that may fail, and `Math.random` is a parameter that gives the hex digits of a fresh id.
- Numbers are integers: the model has no floating point or NaN. A JSON number `order` is an `int`.
- Strings are sequences of code points, with no UTF-16 surrogate pairs. `toLowerCase` covers Latin and Russian letters only.
- Rendering is left out: HTML templates, `renderTreeNode`, `renderNav`, breadcrumbs, the table of contents and the page `renderNotFound` draws (its clearing of the current page is modelled). So are focus, scrolling, the nav collapse animation (`setNavCollapsed`), `localStorage` (`loadOpenFolders`, `saveOpenFolders`), debouncing, and `initialize`, `showWelcomePage`, `renderNavigation` and `parseMarkdown`/`highlightText`/`highlightCode` in js/docs.js.
- `escapeHtml` in js/docs.js is left out: it delegates to the browser's `innerHTML`.
- `DocsManager.DocumentationManager` never changes `isLoading`, and neither does the source.
- `Highlight.HighlightTextNodes`: the tree walker's collection phase and its replacement phase are merged into one pass per term. That is equivalent: a replacement puts plain text fragments and `<mark>` nodes in place of one collected text node, and neither the source, which replaces only the nodes it collected beforehand, nor the merged pass revisits the nodes a replacement adds.
- `UiState.MountState` does not keep `currentSearchQuery` or `currentPageHtml`. Re-highlighting on input is the `Highlight` model.
- `DocsManager.FindIndex` and `DocsManager.FindById` compare ids structurally; JavaScript `===` on objects compares identity. A `null` article in `findIndex` counts as a mismatch instead of throwing.
- `DocsManager.SectionRank` treats a truthy `order` that is neither a number nor `true` (a string, an object) as 999. JavaScript would coerce it to a number or NaN.
- NavTree.SortTitle: when two pages tie on `order`, `sortPages` calls `localeCompare` on the title itself, or on `""` for a falsy title. A truthy title that is not a string (a number, `true`, an array, an object) has no `localeCompare` method, so the source throws as soon as its `sort` compares such a page with one of equal `order` (docs/doc-engine.js:84-93), and `mount` then shows the error instead of the navigation (docs/doc-engine.js:1088, 1100-1101). Which pairs `sort` compares is left to the JavaScript engine, so the model does not model this failure: it renders such titles with `ToJsString` and sorts them like strings.
- `DocsManager.Load`: when the `sort` comparator throws (a `null` section among two or more), the model only reports the failure. It does not model the order the interrupted sort leaves behind.
