# tagger core in Dafny

This project models the core of *tagger*, a Qt file browser. The browser shows a directory as a grid of thumbnails, filters the grid with a small query language, pages through the result, keeps a list of saved workspaces and lets the user edit the tags of one file. Modules of the model:

- `FileItems` (`file_item.dfy`): the `FileItem` record, its thumbnail status, and the file kind derived from a directory entry.
- `QtText` (`qt_text.dfy`): the pieces of `QString` the core relies on. These are `trimmed`, `toLower`, `contains`, `split` (with and without `SkipEmptyParts`), `join`, `toLongLong` and `QString::number`.
- The query engine of `filterproxy.cpp`, in five modules:
  - `QueryLexer`: the lexer.
  - `QueryPredicates`: the predicates a token compiles into, and what they mean for an item.
  - `QueryInfix`: the pass that builds the infix stream and inserts implicit ANDs.
  - `QueryRpn`: the shunting-yard pass, its sanity check and the stack evaluator.
  - `QueryMatcher`: `matches`, with its fallback to a plain text search, and the `FilterProxy` that applies it to every row.
- `Paging` (`paged_proxy.dfy`): `PagedProxy`, which shows one page of its source model.
- `Pagination` (`pagination_bar.dfy`): `PaginationBar`, which lays out First, Prev, a window of at most seven page buttons, dots, Next and Last.
- `Workspaces` (`workspace_list_model.dfy`): `WorkspaceListModel`, the list of saved workspaces, kept free of duplicate directories.
- `FileNames` and `Thumbnails` (`thumbnail_model.dfy`): `ThumbnailModel`. It loads a directory into sorted rows and keeps a path-to-row index. It accepts thumbnail results only for the current load and finds the neighbouring file of a row.
- `TagEditing` (`tag_editing.dfy`): the tag editor of the file details tab. This covers the normalisation of the edited text, the text that is shown, and the two guarded store writes.

What the model proves:

- The query compiler and evaluator compute the AND/OR value of the query, with AND binding tighter than OR. The fallback is taken exactly when the compiled program is malformed.
- The paging arithmetic puts every source row on exactly one page. Mapping a row back and forth is the identity.
- The pagination layout has exactly one checked button, the current page, inside a window that contains it.
- Adding workspaces one at a time keeps the list free of duplicate directories.
- The directory load sorts by the comparator's strict weak order. It keeps every entry, and its path index finds every row.
- Normalising the tag text is idempotent. Normalising `join(", ")` of a well-formed tag list (non-empty, trimmed, comma-free, distinct tags) gives that list back. The text box between the join and the normalisation is taken to return its text unchanged (see "## Left out").

## Model

| member | source | states |
|---|---|---|
| FileItems.KindOrdinal | fileitem.h:20-25 | the enum values run from 0 to 3; 0 is Directory and 3 is GenericFile |
| FileItems.KindFromOrdinal | fileitem.h:20-25 | the `static_cast<FileKind>` of an ordinal 0..3 gives back the kind with that ordinal |
| FileItems.KindOrdinalRoundTrip | fileitem.h:20-25 | converting a kind to `int` and back is the identity, as the FileKindRole round trip needs |
| FileItems.DefaultItemFields | fileitem.h:41-52 | a default item is a GenericFile with status NotRequested, size 0, no tags, an invalid time and a null thumbnail |
| FileItems.FileNameOf | fileitem.h:27-31 | the file name of a path has no separator |
| FileItems.Suffix | fileitem.h:27-31 | the suffix has neither '.' nor '/' |
| FileItems.SuffixOfDotExt | fileitem.h:27-31 | the suffix of `base.ext` is `ext` |
| FileItems.IsVideoExtOfName | fileitem.h:27-31 | `base.ext` is a video exactly when the lower-cased `ext` is one of the eleven listed extensions |
| FileItems.NoDotNoVideo | fileitem.h:27-31 | a file name without a dot is never a video |
| FileItems.ClassifyFileKind | fileitem.h:33-39 | for each of the four kinds, the exact condition under which it is chosen: directory, then readable image, then video extension, else generic |
| FileItems.ReadableVideoIsPicture | fileitem.h:33-39 | a readable image with a video extension is classified as a Picture |
| QtText.Trim | filterproxy.cpp:307-310 | the result has no space at either end, and an already trimmed string is unchanged |
| QtText.TrimEmptyIffAllSpace | filterproxy.cpp:307-310 | trimming gives the empty string exactly when the input is all whitespace |
| QtText.TrimPadded | filedetailstab.cpp:106 | trimming strips the whitespace padding around a trimmed string and gives that string back |
| QtText.Lower | filterproxy.cpp:96-98 | lower-casing keeps the length and maps each character on its own |
| QtText.ToLongLong | filterproxy.cpp:70-71 | the value is the decimal value when it fits in qint64, and 0 on overflow |
| QtText.NumberTextValue | filterproxy.cpp:200-204 | reading back the digits `QString::number` writes gives the number |
| QtText.Split | filedetailstab.cpp:105 | split never returns an empty list, and no part contains the separator |
| QtText.SplitPrefix | filedetailstab.cpp:105 | a separator-free prefix joins the first part of the split |
| QtText.SplitSkipEmpty | filedetailstab.cpp:105 | with SkipEmptyParts, the parts are non-empty and free of the separator |
| QueryLexer.RunLength | filterproxy.cpp:66-74 | a word run stops at the first delimiter and contains no delimiter |
| QueryLexer.HeadToken | filterproxy.cpp:45-75 | one lexer step emits no token exactly at whitespace, and one token otherwise |
| QueryLexer.Lex | filterproxy.cpp:35-78 | the imperative lexer returns the token sequence of the trimmed input as the function `Tokens` defines it |
| QueryLexer.TokensOfWordRun | filterproxy.cpp:66-74 | a maximal run of non-delimiters is one token: a Number when it is all digits, a Word otherwise |
| QueryLexer.TokensAtSpace | filterproxy.cpp:48 | whitespace separates tokens and emits nothing |
| QueryLexer.TokensAtBoolOp | filterproxy.cpp:50-51 | `&` and `\|` are one operator token each, wherever they occur |
| QueryLexer.TokensOfComparison | filterproxy.cpp:54-62 | `<`, `>` or `=` followed by `=` is one two-character operator; otherwise the character alone is the operator |
| QueryLexer.HeadTokenWellFormed | filterproxy.cpp:45-75 | the token one scan step emits is a non-empty non-numeric word, a number within qint64, or one of the six comparison texts |
| QueryLexer.TokensWellFormed | filterproxy.cpp:35-78 | every token of a lexed query is well formed in that sense |
| QueryPredicates.MakeUnaryPredicate | filterproxy.cpp:107-124 | `picture` and `video`, in any case, select a kind; any other token becomes a text-or-tag test on the trimmed token |
| QueryPredicates.EvalCmp | filterproxy.cpp:126-134 | the meaning of each of the five operators on integers; any other operator text is false |
| QueryPredicates.MakeBinaryPredicate | filterproxy.cpp:136-156 | `year` and `size`, in any case, select a field and keep the operator and value; any other field gives the predicate that never matches |
| QueryPredicates.SingleEqualsFailsClosed | filterproxy.cpp:126-134 | a lone `=` compares false for every pair of values |
| QueryPredicates.ComparisonsComplementary | filterproxy.cpp:126-134 | `<` and `>=` are complementary, `>` and `<=` are complementary, and exactly one of `<`, `==`, `>` holds |
| QueryPredicates.UnknownFieldNeverMatches | filterproxy.cpp:153-155 | a comparison on an unknown field matches no item |
| QueryPredicates.FieldComparisonMeaning | filterproxy.cpp:139-151 | a year comparison reads the modification year, or 0 when the time is invalid; a size comparison reads the size in bytes |
| QueryPredicates.InvalidTimeIsYearZero | filterproxy.cpp:143-144 | an item with no valid modification time compares as year 0 |
| QueryPredicates.TextTokenMeaning | filterproxy.cpp:118-123 | a text token matches when the file name contains it, ignoring case, or a tag equals it, ignoring case |
| QueryPredicates.TextTokenMatchesOwnName | filterproxy.cpp:118-123 | a text token matches an item whose name, or one of whose tags, is that token |
| QueryPredicates.KeywordMeaning | filterproxy.cpp:111-116 | `picture` matches exactly the pictures and `video` exactly the videos |
| QueryInfix.Precedence | filterproxy.cpp:91-94 | AND binds tighter than OR |
| QueryInfix.InfixFrom | filterproxy.cpp:159-211 | the infix stream never has two predicates next to each other |
| QueryInfix.InfixFromStep | filterproxy.cpp:175-208 | one loop step of toInfix: the stream is what the front tokens emit followed by the stream of the rest |
| QueryInfix.ToInfix | filterproxy.cpp:159-211 | the imperative pass returns the infix stream `Infix` defines, with no two adjacent predicates |
| QueryRpn.Step | filterproxy.cpp:259-269 | an evaluation step fails exactly when an operator finds fewer than two values, and otherwise changes the stack depth by the token's arity |
| QueryRpn.RunShape | filterproxy.cpp:253-274 | evaluation succeeds exactly when the running depth never drops below two at an operator, and it ends at the program's depth |
| QueryRpn.EvalOkIffValid | filterproxy.cpp:235-245 | evaluation yields a value exactly when the program passes toRpn's sanity check |
| QueryRpn.Remaining | filterproxy.cpp:224-228 | popping while the top binds at least as tightly leaves a prefix of the stack whose top binds more loosely |
| QueryRpn.ShuntCounts | filterproxy.cpp:214-249 | the shunting yard keeps every predicate and outputs every operator, including those left on the stack |
| QueryRpn.CountingAlternation | filterproxy.cpp:235-245 | without adjacent predicates, one more predicate than operators means the stream alternates predicate, operator, predicate |
| QueryRpn.RpnComputesInfixValue | filterproxy.cpp:214-274 | for an alternating stream, the RPN evaluates to the OR of the AND-terms of the infix query |
| QueryRpn.CompiledValidIff | filterproxy.cpp:235-245 | a compiled stream passes the sanity check exactly when it is empty or alternates |
| QueryRpn.PopWhileTighter | filterproxy.cpp:224-228 | the inner pop loop outputs what the shunting specification pops and leaves the remaining stack |
| QueryRpn.DrainAll | filterproxy.cpp:232 | the final drain appends the stack's operators, top first, to the output |
| QueryRpn.CheckRpn | filterproxy.cpp:235-245 | the imperative depth check returns exactly RpnValid |
| QueryRpn.ToRpn | filterproxy.cpp:214-249 | the imperative shunting yard returns `Rpn(infix)`, and `ok` exactly when that program is valid |
| QueryRpn.EvalRpn | filterproxy.cpp:253-274 | the imperative evaluator succeeds exactly when the specification yields a value, and returns that value |
| QueryMatcher.Matches | filterproxy.cpp:277-296 | the imperative pipeline computes `Matching`: an empty trimmed query matches all; a failed compile or evaluation falls back to a whole-query text test |
| QueryMatcher.MatchingMeaning | filterproxy.cpp:277-296 | an empty query or empty stream matches; an alternating stream gives its AND/OR value; anything else gives the fallback text test |
| QueryMatcher.FallbackIndependentOfItem | filterproxy.cpp:286-293 | whether the fallback is taken depends on the query alone, never on the item |
| QueryMatcher.InfixOfAdjacent | filterproxy.cpp:171-198 | two adjacent terms get an implicit AND between them |
| QueryMatcher.InfixOfOperator | filterproxy.cpp:178-179 | an explicit operator between two terms is kept as written |
| QueryMatcher.InfixOfComparison | filterproxy.cpp:182-191 | Word, comparison, Number is consumed as one field-comparison predicate, with the implicit AND before it when needed |
| QueryMatcher.InfixIgnoresStrayComparison | filterproxy.cpp:206-207 | a comparison operator outside that triple is dropped |
| QueryMatcher.ImplicitAndMeansAnd | filterproxy.cpp:171-198 | `a b` matches exactly when `a & b` matches, which is when both terms match |
| QueryMatcher.OrMeansEither | filterproxy.cpp:178-179 | `a \| b` matches exactly when either term matches |
| QueryMatcher.LeadingOperatorFallsBack | filterproxy.cpp:286-293 | a query whose stream starts with an operator is answered by the text test on the whole trimmed query |
| QueryMatcher.NonsenseFallsBackToText | filterproxy.cpp:286-293 | example: the query `& \| <` is searched for as literal text (an instance of LeadingOperatorFallsBack) |
| QueryMatcher.StrayComparisonsCompileToNothing | filterproxy.cpp:206-207 | a token stream of comparison operators only compiles to an empty stream, whatever precedes it |
| QueryMatcher.OnlyComparisonsMatchAll | filterproxy.cpp:206-207 | a query whose tokens are all comparison operators compiles to nothing and matches every item |
| QueryMatcher.LoneComparisonMatchesAll | filterproxy.cpp:206-207 | example: the query `<` matches every item (an instance of OnlyComparisonsMatchAll) |
| QueryMatcher.RoleItem | filterproxy.cpp:322-327 | the item rebuilt from the roles carries name, modified time, size, tags and kind, and defaults elsewhere |
| QueryMatcher.MatchingReadsSearchFields | filterproxy.cpp:322-329 | matching depends only on those five fields, so the rebuilt item answers as the row would |
| QueryMatcher.FilterProxy.constructor | filterproxy.cpp:302-305 | the proxy starts with an empty needle |
| QueryMatcher.FilterProxy.SetNeedle | filterproxy.cpp:307-310 | the stored needle is the trimmed text |
| QueryMatcher.FilterProxy.FilterAcceptsRow | filterproxy.cpp:312-330 | an empty needle accepts every row; otherwise the row is accepted exactly when it matches the needle |
| Paging.Bound | pagedproxy.cpp:82 | qBound's result lies in range, equals the value when that is in range, and is the nearer limit otherwise |
| Paging.PageCount | pagedproxy.cpp:74-78 | there is at least one page, exactly one when there are no items, and otherwise the fewest pages that hold all items |
| Paging.CeilingDivision | pagedproxy.cpp:77 | the integer expression of totalPages is that ceiling |
| Paging.PageRowCount | pagedproxy.cpp:28-33 | a page shows between 0 and pageSize rows |
| Paging.PageRowMembership | pagedproxy.cpp:28-33 | a row is on a page exactly when it lies between the page's start and the end of the source |
| Paging.EveryRowOnItsPage | pagedproxy.cpp:28-33 | every source row lies on some page in range |
| Paging.RowOnOnePageOnly | pagedproxy.cpp:28-33 | that page is the only one holding the row |
| Paging.PagesInRangeAreNonEmpty | pagedproxy.cpp:74-78 | a page is in range exactly when it shows at least one row |
| Paging.SourceIndex | pagedproxy.cpp:45 | the source model hands out a valid index exactly for an in-range row and column |
| Paging.PagedProxy.constructor | pagedproxy.h:42-43 | a new proxy has page size 60, is on page 1 and has no source |
| Paging.PagedProxy.TotalPages | pagedproxy.cpp:74-78 | there is at least one page |
| Paging.PagedProxy.RowCount | pagedproxy.cpp:28-33 | 0 without a source, otherwise the rows of the current page, never more than the page size |
| Paging.PagedProxy.Index | pagedproxy.cpp:35-40 | a valid index exactly for a row and column inside the current page |
| Paging.PagedProxy.MapToSource | pagedproxy.cpp:42-46 | an invalid index without a source; otherwise the source index at the row offset by the page start |
| Paging.PagedProxy.MapFromSource | pagedproxy.cpp:48-54 | an invalid index without a source or outside the page; otherwise the row less the page start |
| Paging.PagedProxy.SetPageSize | pagedproxy.cpp:60-68 | the size becomes at least 1, and a change resets to page 1 and reports the change |
| Paging.PagedProxy.SetCurrentPage | pagedproxy.cpp:80-88 | the page is clamped into 1..totalPages, and a change is reported exactly when the page moved |
| Paging.PagedProxy.OnSourceModelResetOrChanged | pagedproxy.cpp:90-96 | the current page is pulled back to the last page when the source shrank, and otherwise kept |
| Paging.PagedProxy.SetSourceModel | pagedproxy.cpp:9-21 | the new source is installed and the page is clamped to its page count |
| Paging.PagedProxy.SourceChanged | pagedproxy.cpp:15-18 | a reset, layout change, insert or remove in the source clamps the page the same way |
| Paging.MapRoundTrip | pagedproxy.cpp:35-54 | mapping a proxy index to the source and back gives the same index |
| Paging.MapFromSourceRoundTrip | pagedproxy.cpp:42-54 | a source index on the current page maps to a proxy index that maps back to it |
| Paging.DefaultsGiveOnePage | pagedproxy.h:42-43 | a new proxy has one page and no rows |
| Pagination.PageWindow | paginationbar.cpp:62-65 | the window lies within 1..total, contains the current page and holds min(7, total) pages |
| Pagination.WindowCentred | paginationbar.cpp:62-65 | away from both ends, the window is the current page plus three on each side |
| Pagination.PageButtons | paginationbar.cpp:71-77 | one button per page of the window, in order, checked exactly on the current page |
| Pagination.LayoutButtons | paginationbar.cpp:38-87 | the layout's page buttons are exactly the window's pages, and the only checked one is the current page |
| Pagination.LayoutDots | paginationbar.cpp:67-69 | dots appear before the buttons exactly when the window starts after page 1, and after them exactly when it ends before the last page |
| Pagination.PaginationBar.constructor | paginationbar.cpp:14-30 | a new bar shows page 1 of 1 with the four navigation buttons disabled |
| Pagination.PaginationBar.SetPageInfo | paginationbar.cpp:32-36 | the total is at least 1, the current page is clamped into it, and the layout is rebuilt |
| Pagination.PaginationBar.Rebuild | paginationbar.cpp:38-87 | the layout becomes `Layout(current, total)`; First/Prev are enabled exactly when current > 1, Next/Last exactly when current < total |
| Pagination.PaginationBar.ClearLayout | paginationbar.cpp:40-51 | the drain loop empties the layout |
| Pagination.PaginationBar.AddPageButtons | paginationbar.cpp:71-77 | the loop appends exactly the window's page buttons |
| Pagination.PaginationBar.FirstRequest | paginationbar.cpp:24 | First requests page 1 |
| Pagination.PaginationBar.PrevRequest | paginationbar.cpp:25 | Prev requests the page before the current one |
| Pagination.PaginationBar.NextRequest | paginationbar.cpp:26 | Next requests the page after the current one |
| Pagination.PaginationBar.LastRequest | paginationbar.cpp:27 | Last requests the last page |
| Pagination.PrevNextAfterClamping | paginationbar.cpp:25-26 | after the receiver clamps Prev and Next, they move at most one page and stay put at the ends |
| Workspaces.NormDir | workspacelistmodel.cpp:40-44 | a normalised directory never ends in a separator unless it is the root |
| Workspaces.NormDirIdempotent | workspacelistmodel.cpp:40-44 | normalising twice is normalising once |
| Workspaces.NormDirTrailingSlash | workspacelistmodel.cpp:41 | `/a/b/` and `/a/b` are the same directory |
| Workspaces.RemoveRow | workspacelistmodel.cpp:69 | removing a row shifts the later rows up by one and leaves the earlier rows in place |
| Workspaces.AppendKeepsDistinct | workspacelistmodel.cpp:58-64 | appending an unlisted directory keeps the directories distinct |
| Workspaces.RemoveKeepsDistinct | workspacelistmodel.cpp:66-71 | removing a row keeps the directories distinct |
| Workspaces.RemoveKeepsOrder | workspacelistmodel.cpp:66-71 | the rows that remain keep their relative order |
| Workspaces.DistinctRowIsUnique | workspacelistmodel.cpp:46-52 | in a duplicate-free list, at most one row holds a given directory |
| Workspaces.AddedIsFoundLast | workspacelistmodel.cpp:58-64 | after adding an unlisted directory, it is found in the new last row and in no earlier row |
| Workspaces.WorkspaceListModel.constructor | workspacelistmodel.cpp:4 | a new list is empty |
| Workspaces.WorkspaceListModel.SetWorkspaces | workspacelistmodel.cpp:29-33 | the list is replaced as given, duplicates included |
| Workspaces.WorkspaceListModel.WorkspaceAt | workspacelistmodel.cpp:35-38 | the row's workspace, or the empty workspace when the row is out of range |
| Workspaces.WorkspaceListModel.IndexOfDir | workspacelistmodel.cpp:46-52 | -1 exactly when no row holds the directory; otherwise the lowest row that holds it |
| Workspaces.WorkspaceListModel.ContainsDir | workspacelistmodel.cpp:54-56 | true exactly when some row holds the directory |
| Workspaces.WorkspaceListModel.AddWorkspace | workspacelistmodel.cpp:58-64 | nothing happens when the directory is listed; otherwise the workspace is appended; distinctness is kept and the directory ends up listed |
| Workspaces.WorkspaceListModel.RemoveAt | workspacelistmodel.cpp:66-71 | a row out of range changes nothing; otherwise exactly that row is removed |
| FileNames.NameLessIrreflexive | thumbnailmodel.cpp:218 | no name sorts before itself |
| FileNames.NameLessTransitive | thumbnailmodel.cpp:218 | the name order is transitive |
| FileNames.NameLessTotal | thumbnailmodel.cpp:218 | of two different names, one sorts first |
| FileNames.NameLessAsymmetric | thumbnailmodel.cpp:218 | two names never sort before each other |
| Thumbnails.BeforeIrreflexive | thumbnailmodel.cpp:211-219 | the comparator never puts an item before itself |
| Thumbnails.BeforeAsymmetric | thumbnailmodel.cpp:211-219 | the comparator never puts each of two items before the other |
| Thumbnails.BeforeTransitive | thumbnailmodel.cpp:211-219 | the comparator is transitive |
| Thumbnails.BeforeTotal | thumbnailmodel.cpp:211-219 | two items are unordered exactly when they agree on every sort key |
| Thumbnails.BeforeNegTransitive | thumbnailmodel.cpp:211-219 | "not before" is transitive, which makes the order a strict weak order as std::sort requires |
| Thumbnails.Insert | thumbnailmodel.cpp:211 | inserting adds exactly one item and loses none |
| Thumbnails.InsertSorted | thumbnailmodel.cpp:211-219 | inserting into a sorted sequence keeps it sorted |
| Thumbnails.SortItems | thumbnailmodel.cpp:211 | the sort is a permutation of its input |
| Thumbnails.SortItemsSorted | thumbnailmodel.cpp:211-219 | the sort's output is ordered by the comparator |
| Thumbnails.SortedMeaning | thumbnailmodel.cpp:212-216 | in sorted rows, directories come first; then newer modification times; on equal times, newer creation times |
| Thumbnails.BestEffortCreatedTime | thumbnailmodel.cpp:45-55 | birth time when valid, else metadata-change time when valid, else the modification time |
| Thumbnails.FileTags | thumbnailmodel.cpp:191-202 | without a store, no tags; with one, the store's tags, else the sidecar's, else none |
| Thumbnails.MakeItem | thumbnailmodel.cpp:173-203 | each field of the row built from an entry; directories get size 0, status Unavailable and no tags; files get their size, status Loading and their tags |
| Thumbnails.MakeItems | thumbnailmodel.cpp:169-209 | one row per directory entry, in listing order |
| Thumbnails.RowIndexMeaning | thumbnailmodel.cpp:222-223 | the index holds exactly the listed paths, each mapped to an in-range row with that path; a repeated path maps to its last row |
| Thumbnails.RowIndexOfRow | thumbnailmodel.cpp:222-223 | with distinct paths, the index maps every row's path to that row |
| Thumbnails.RowIndexSamePaths | thumbnailmodel.cpp:70-71 | a change that keeps every row's path leaves the index valid |
| Thumbnails.PermutationKeepsDistinctPaths | thumbnailmodel.cpp:211 | sorting cannot create duplicate paths |
| Thumbnails.ThumbnailModel.constructor | thumbnailmodel.cpp:57 | a new model is empty, with token 0, no directory and no store |
| Thumbnails.ThumbnailModel.SetStore | thumbnailmodel.h:37 | the store is attached |
| Thumbnails.ThumbnailModel.ItemAt | thumbnailmodel.cpp:238-242 | the row's item, or a default item when the row is out of range |
| Thumbnails.ThumbnailModel.RowOf | thumbnailmodel.cpp:246 | the indexed row of a path, or -1 |
| Thumbnails.ThumbnailModel.SetDirectory | thumbnailmodel.cpp:138-150 | an empty path clears everything and bumps the token; the same directory changes nothing; a new one is loaded |
| Thumbnails.ThumbnailModel.LoadDirectory | thumbnailmodel.cpp:153-224 | the directory is recorded and the token bumped; the rows are the entries' items, sorted, with a valid path index |
| Thumbnails.ThumbnailModel.BuildItems | thumbnailmodel.cpp:169-209 | the listing loop builds exactly `MakeItems` |
| Thumbnails.ThumbnailModel.RebuildRowIndex | thumbnailmodel.cpp:222-223 | the insertion loop builds exactly `RowIndex(items)` |
| Thumbnails.ThumbnailModel.OnReady | thumbnailmodel.cpp:62-75 | a stale token, an unknown path or an out-of-range row changes nothing; otherwise exactly that row gets the thumbnail and status Ready |
| Thumbnails.ThumbnailModel.OnUnavailable | thumbnailmodel.cpp:77-89 | the same guards; otherwise exactly that row gets status Unavailable |
| Thumbnails.ThumbnailModel.NeighborFile | thumbnailmodel.cpp:244-255 | the nearest file row after (or before) the indexed row of the path, skipping directories; none when the path is empty or unknown or no such row exists |
| Thumbnails.IndexedRowInRange | thumbnailmodel.cpp:65-68 | in a valid model, a path's indexed row is in range and holds that path |
| Thumbnails.LoadedIndexFindsRows | thumbnailmodel.cpp:222-223 | after a load of distinct paths, every row is found under its own path |
| TagEditing.RemoveDuplicates | filedetailstab.cpp:109 | the same set of tags, never more of them |
| TagEditing.RemoveDuplicatesDistinct | filedetailstab.cpp:109 | no tag remains twice |
| TagEditing.RemoveDuplicatesOfDistinct | filedetailstab.cpp:109 | a list without duplicates is unchanged |
| TagEditing.RemoveDuplicatesKeepsOrder | filedetailstab.cpp:109 | first occurrences keep their relative order |
| TagEditing.TrimmedParts | filedetailstab.cpp:106-107 | every kept part is non-empty and trimmed |
| TagEditing.NormalizeWellFormed | filedetailstab.cpp:103-111 | normalised tags are non-empty, trimmed, comma-free and distinct |
| TagEditing.Normalize | filedetailstab.cpp:103-111 | the imperative loop returns `NormalizeTags(text)` |
| TagEditing.SplitJoin | filedetailstab.cpp:95 | splitting the `", "`-joined tags at commas gives each tag back, the later ones with their leading space |
| TagEditing.NormalizeDisplayRoundTrip | filedetailstab.cpp:95-111 | normalising `join(", ")` of well-formed tags gives those tags back; the text box is taken to return what it was filled with |
| TagEditing.NormalizeIdempotent | filedetailstab.cpp:95-111 | showing normalised tags and normalising again changes nothing |
| TagEditing.FileDetailsTab.constructor | filedetailstab.h:16-19 | a new tab has no current tags and has made no writes or hash requests |
| TagEditing.FileDetailsTab.SaveTimeout | filedetailstab.cpp:117-126 | no store means no change; otherwise the tags become the normalised text, are written by path, and a hash is requested when a hasher exists |
| TagEditing.FileDetailsTab.HashReady | filedetailstab.cpp:128-135 | a write by hash happens exactly when a hasher is set (the handler is connected only then), there is a store, the path is this item's, and the current tags are non-empty |

## Left out

- Qt signals are not modelled: `dataChanged`, `pagingChanged`, `pageRequested`, the model reset and row notifications, and `invalidateFilter`. The model states the data each one reports, or the page each one requests.
- TagEditing.DisplayText: the QTextEdit is taken to give back the text it was filled with. In the program, setText (filedetailstab.cpp:95) may read HTML-looking text such as `<b>x</b>` as rich text, and toPlainText (filedetailstab.cpp:119) maps U+00A0 to a space and U+2028/U+2029 to a newline. Such tags do not survive a reopen-and-edit cycle unchanged, which NormalizeDisplayRoundTrip does not cover.
- Widgets are not modelled: the tab layouts, labels, the QTimer debounce of 300 ms, and the deletion of the dynamic buttons in rebuild's drain loop. The pagination layout is a sequence of widget values, and the drain empties that sequence.
- `data()` and `roleNames()` of the list models are not modelled. The filter reads the role fields of a row directly.
- Every `parent` QModelIndex argument is taken to be the invalid top-level parent.
- The directory listing is not modelled: QDirIterator, QFileInfo and the icon provider. They become the `entries` parameter, a sequence of `DirEntry` values, in listing order.
- QImageReader::canRead is the `imageReadable` field of `FileInfo`.
- The tag store and the sidecar JSON are represented by each entry's `Option` fields. `loadTagsFromSidecar` and `TaggerStore` are not part of this model, and a sidecar that exists but cannot be parsed is represented as `Some([])`.
- Thumbnail requests at the end of loadDirectory (`thumbnailmodel.cpp:228-232`) are left out. They call ThumbnailManager, which is not part of this model.
- File hashing is not modelled. The hasher's request is logged in `hashRequests`, and its reply is the `HashReady` call.
- Store writes are recorded in `writes` rather than performed.
- Threads and the arrival order of asynchronous results are not modelled. Thumbnail and hash results are taken one call at a time.
- QueryPredicates: the closures the source builds are named by `Predicate` constructors and interpreted by `EvalPred`.
- QtText.ToLowerChar: only ASCII letters are case-folded, because Unicode case mapping is not part of this model.
- QtText.IsDigit: only '0'..'9' are digits. QChar::isDigit (filterproxy.cpp:29-33) accepts every Unicode decimal digit, and toLongLong then fails on a non-ASCII run and gives 0 (filterproxy.cpp:70-71). So the source lexes such a run as Number(0), where the model lexes it as a Word: `year > ٣` is `year > 0` in the source, but two text terms with the `>` dropped in the model.
- Workspaces.NormDir: QDir::absolutePath also resolves relative paths against the working directory, maps the empty path to the working directory, collapses repeated separators, and collapses `.` and `..`. So with `/a/b` listed, adding `/a//b` appends a row in the model, where the program changes nothing. The model keeps only the stripping of trailing separators, since the working directory is outside the model. The list properties hold for any normalisation.
- FileNames.NameLess: QString::localeAwareCompare depends on the system locale. The model uses code-point lexicographic order, which has the same order properties.
- FileItems.SameTime: QDateTime is abstracted to a validity flag, milliseconds and a year. Time zones are not modelled, and two invalid times compare equal.
- Integer widths are not modelled. The model uses unbounded integers where the source uses `int` page arithmetic that could overflow with a huge page size, `qsizetype` row counts and `qint64` sizes. ToLongLong models qint64 overflow by returning 0.
- ThumbnailModel.NeighborFile returns the row of the neighbour instead of a pointer to its FileItem.
- Thumbnails.SortItems: std::sort is modelled as an insertion sort. It promises only what std::sort promises: a permutation, ordered by the comparator. The order among equal-key items is not specified.
- Thumbnails.ThumbnailModel.RowCount, Workspaces.WorkspaceListModel.RowCount: these have no contract of their own; each returns the number of rows.
- Several of the source's loops are separate methods in the model, each with its own specification:
  - the lexer's run and comparison scans;
  - the shunting yard's pop loop, its final drain and its sanity check;
  - rebuild's drain loop and its button loop;
  - loadDirectory's listing loop and its index loop.
