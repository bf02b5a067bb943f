# fake-bookStore, modelled in Dafny

fake-bookStore is a single-page book-browsing web application. Under its React
markup sits a thin layer of list and string logic. This project models that layer
and proves properties of it:

- **Book search client** (`src/app/api/book.ts`), module `BookApi`.
  - A category is mapped to a Google Books query term. Unknown and empty categories
    fall back to `subject:fiction`.
  - The request URL is built by concatenation, with a fixed cap of 20 results.
  - The result policy is fail-soft: a failed request, a non-ok status or an
    unreadable body gives the empty list. An ok response gives its `items`, or the
    empty list when there are none.
  - The network round trip is a parameter: a function from the URL to the outcome
    of fetching it.
- **Book list** (`src/app/components/BookList.tsx`), module `BookList`.
  - The case-insensitive title search.
  - Create, which puts the new book first.
  - Filling the edit form from a book.
  - Update and delete by id, applied to every book that carries the id. Ids are
    not unique, because new ids come from the clock.
  - The comma-split and trim of the authors field.
  - The title truncation on the cards.
  - The component's state (`books`, `searchQuery`, `editingBook`, `formData`) is
    the class `BookListState`. Each event handler is one method and runs as one
    atomic step.
- **Favorites** (`src/app/page.tsx`), module `Home`.
  - The star toggle over the list of favorite titles.
  - The class `HomePage` keeps the invariant that no title appears twice.
- **Book detail dialog** (`src/app/components/BookDetailDialog.tsx`), module `BookDetailDialog`.
  - The per-book comment map.
  - The rule that enables saving: the trimmed comment must be non-empty.
  - The 100-character description preview and the "See more" button.
  - The dialog's state is the class `DialogState`.

Supporting modules:

- `Types` holds the `Book` record.
- `JsStrings` holds the JavaScript string operations the code uses (`trim`, `split`,
  `join`, `toLowerCase`, `includes`).
- `Seqs` holds `Array.prototype.filter` as an order-preserving filter.

In the code, `BookList` receives `onFavorite` and `favorites` from the page
but never reads them.

## Model

| member | source | states |
|---|---|---|
| `BookApi.SelectQuery` | src/app/api/book.ts:19-21 | the query always starts with `?q=`; a mapped category gives its mapped term; the query is the fiction default exactly when the category is not a key of the map |
| `BookApi.MagicSelectsFantasy` | src/app/api/book.ts:10-20 | `Magic` selects `?q=subject:fantasy` |
| `BookApi.UnmappedCategoriesFallBack` | src/app/api/book.ts:19-21 | the empty category and `magic` (wrong case) both select `?q=subject:fiction` |
| `BookApi.SidebarCategoriesAreMapped` | src/app/api/book.ts:10-17 | every one of the six categories the sidebar offers (Sidebar.tsx line 7) is a key of the map, so choosing it never gives the default query |
| `BookApi.Decimal` | src/app/api/book.ts:23 | a number is interpolated as a non-empty string of decimal digits whose value is the number, with no leading zero (`0` is `"0"`) |
| `BookApi.KeyText` | src/app/api/book.ts:23 | a set key is interpolated as itself; an unset key as `undefined` |
| `BookApi.MaxResultsText` | src/app/api/book.ts:4 | the cap of 20 is rendered in the URL as `20` |
| `BookApi.BuildUrl` | src/app/api/book.ts:8-23 | the URL starts with the Google Books volumes endpoint |
| `BookApi.UrlParameters` | src/app/api/book.ts:23 | when the key has no `&`, the URL's parameters are exactly, in order: the query, `maxResults=20`, `key=` plus the key (or `undefined` when unset), and `langRestrict=en` |
| `BookApi.CapIsAlwaysTwenty` | src/app/api/book.ts:23 | for every category and every key, the second URL parameter is `maxResults=20` |
| `BookApi.ResultOf` | src/app/api/book.ts:25-36 | an ok response with a readable body gives its `items`, or `[]` when there are none; every other outcome gives `[]` |
| `BookApi.FetchBooks` | src/app/api/book.ts:6-37 | the result is the empty list, or exactly the `items` of an ok, parsed response to the composed URL; conversely an ok, parsed response gives its `items`, or `[]` when there are none; no error escapes |
| `BookApi.FailuresGiveEmptyList` | src/app/api/book.ts:25-36 | a network failure, a non-ok status or an unreadable body gives `[]` |
| `BookApi.OkResponseYieldsItems` | src/app/api/book.ts:32-33 | an ok response gives its `items` unchanged and in order, or `[]` when `items` is absent |
| `JsStrings.Trim` | src/app/components/BookList.tsx:129 | the result neither starts nor ends with whitespace; it is the infix of the input that is left after cutting whitespace from both ends |
| `JsStrings.TrimEmptyIffBlank` | src/app/components/BookDetailDialog.tsx:122 | trimming gives the empty string exactly when the input is all whitespace |
| `JsStrings.Split` | src/app/components/BookList.tsx:127-128 | `split` gives at least one piece, and a string without the separator is one piece, itself (also used at BookList.tsx line 83) |
| `JsStrings.Join` | src/app/components/BookList.tsx:109 | joining no parts gives `""`, one part gives that part, and a join starts with its first part |
| `JsStrings.Includes` | src/app/components/BookList.tsx:75 | the empty needle is always found, and a found needle is no longer than the haystack; `IncludesIffOccurs` gives the full characterisation |
| `JsStrings.SplitPieces` | src/app/components/BookList.tsx:127-128 | `split` gives one more piece than there are separators, and no piece contains the separator |
| `JsStrings.JoinSplit` | src/app/components/BookList.tsx:127-128 | joining the pieces of a split with the separator restores the string |
| `JsStrings.SplitJoin` | src/app/components/BookList.tsx:127-128 | splitting a join of separator-free parts gives the parts back |
| `JsStrings.ToLower` | src/app/components/BookList.tsx:75 | the result has the input's length and lower-cases each letter A-Z in place, leaving every other character as it is |
| `JsStrings.ToLowerIdempotent` | src/app/components/BookList.tsx:75 | lower-casing twice equals lower-casing once |
| `JsStrings.IncludesIffOccurs` | src/app/components/BookList.tsx:75 | `includes` is true exactly when the needle occurs at some position of the haystack |
| `Seqs.Filter` | src/app/components/BookList.tsx:74-76 | the result is an order-preserving subsequence; it holds each element that satisfies the predicate exactly as often as the input does, and none of the others |
| `Seqs.Remove` | src/app/page.tsx:17 | the removed value no longer occurs; every other value keeps its count; the order is kept |
| `Seqs.RemoveLength` | src/app/page.tsx:17 | removing a value shortens the list by its number of occurrences |
| `Seqs.RemoveAppended` | src/app/page.tsx:16-18 | removing a value appended to a list that lacked it gives the list back |
| `BookList.FilterByTitle` | src/app/components/BookList.tsx:74-76 | the shown books are an order-preserving subsequence of the list; a book is shown, as often as it occurs, exactly when its lower-cased title contains the lower-cased query |
| `BookList.EmptyQueryShowsAll` | src/app/components/BookList.tsx:74-76 | with the empty query every book is shown |
| `BookList.QueryCaseIgnored` | src/app/components/BookList.tsx:74-76 | a query and its lower-cased form show the same books |
| `BookList.ParseAuthors` | src/app/components/BookList.tsx:83 | the authors field gives one name per comma plus one; each name is the trimmed piece between commas, so it is trimmed and has no comma |
| `BookList.JoinAuthors` | src/app/components/BookList.tsx:109 | no authors give `""`; otherwise the field starts with the first name |
| `BookList.JoinedAuthorsCommas` | src/app/components/BookList.tsx:109 | comma-free names joined for the form give exactly one comma fewer than there are names, the inverse of the count `ParseAuthors` produces |
| `BookList.AuthorsRoundTrip` | src/app/components/BookList.tsx:109 | a non-empty list of trimmed, comma-free names, joined with `", "` for the form and parsed back on save, is unchanged |
| `BookList.EmptyAuthorsComeBackBlank` | src/app/components/BookList.tsx:109 | an empty author list is shown as `""` and saved back as one blank author `[""]` |
| `BookList.NormalizeAuthorsIdempotent` | src/app/components/BookList.tsx:127-129 | a second save and edit of the authors field changes nothing more |
| `BookList.NewBook` | src/app/components/BookList.tsx:79-91 | the new book has the given id, the form's title, description and date, the authors parsed from the form (one per comma plus one), the one category `[form.category]`, the placeholder thumbnail, and no sale data, page count, rating or language |
| `BookList.AddBook` | src/app/components/BookList.tsx:94 | the new book is at index 0, the old list follows unchanged, and the length grows by one |
| `BookList.NewBookIsRepresentable` | src/app/components/BookList.tsx:78-91 | every created book can go through the edit form without loss |
| `BookList.EditForm` | src/app/components/BookList.tsx:107-113 | the form shows the title, the authors joined with `", "`, the first category, and the description and date, each `""` when missing |
| `BookList.ApplyForm` | src/app/components/BookList.tsx:119-136 | the title, description and date are the form's, the authors are parsed from the form, the categories are `[form.category]`; the id, sale data, thumbnail, page count, rating and language are kept; reopening the editor shows the saved form, with the authors field normalised |
| `BookList.EditThenSaveIsIdentity` | src/app/components/BookList.tsx:105-136 | for a book with present description and date, exactly one category, and a non-empty list of trimmed, comma-free authors, filling the form and saving it unchanged gives the book back |
| `BookList.UpdateById` | src/app/components/BookList.tsx:116-139 | length, order and ids are kept; every book carrying the id is rewritten from the form; every other book is untouched |
| `BookList.UpdateAbsentIdIsNoop` | src/app/components/BookList.tsx:119-137 | updating an id that no book carries changes nothing |
| `BookList.UpdateIdempotent` | src/app/components/BookList.tsx:119-137 | saving the same form twice equals saving it once |
| `BookList.EditThenUpdateLeavesList` | src/app/components/BookList.tsx:105-139 | editing a representable book and saving unchanged leaves the list as it was, when every book sharing the id is that book |
| `BookList.DeleteById` | src/app/components/BookList.tsx:143 | no book with the id remains; every other book keeps its count; the order is kept |
| `BookList.DeleteAbsentIdIsNoop` | src/app/components/BookList.tsx:143 | deleting an id that no book carries changes nothing |
| `BookList.DisplayTitle` | src/app/components/BookList.tsx:244-255 | on mobile a title of at most 10 characters is shown unchanged and a longer one as its first 11 characters and `...`; on desktop the threshold is 18 and a longer title shows its first 18 characters and `...` |
| `BookList.DesktopTitleIsHonest` | src/app/components/BookList.tsx:251-254 | on desktop, `...` appears only after a proper prefix of the title |
| `BookList.MobileTitleOffByOne` | src/app/components/BookList.tsx:244-248 | on mobile, the 11-character title `Hello World` is shown as `Hello World...`: the whole title, followed by `...` |
| `BookList.DisplayTitleIntended` | src/app/components/BookList.tsx:244-254 | with the mobile cut at 10 characters, a mobile title of at most 10 characters is unchanged and a longer one shows its first 10 and `...`; desktop is unchanged; `...` appears only after a proper prefix of the title, in both modes |
| `BookList.BookListState.FilteredBooks` | src/app/components/BookList.tsx:74-76 | the grid shows, in list order, the books whose title matches the current query, each as many times as it occurs in the list, and no others |
| `BookList.BookListState.constructor` | src/app/components/BookList.tsx:28-41 | the list, the query and the form start empty, and no book is being edited |
| `BookList.BookListState.LoadBooks` | src/app/components/BookList.tsx:43-53 | the list becomes the result of fetching the active category; nothing else changes |
| `BookList.BookListState.SetSearchQuery` | src/app/components/BookList.tsx:161 | only the query changes |
| `BookList.BookListState.SetFormData` | src/app/components/BookList.tsx:186-213 | only the form changes; the edit dialog's inputs (BookList.tsx lines 302-336) set the form in the same way |
| `BookList.BookListState.CreateBook` | src/app/components/BookList.tsx:78-103 | the book built from the form is put in front of the old list, and all five form fields are reset to `""` |
| `BookList.BookListState.EditBook` | src/app/components/BookList.tsx:105-114 | the book becomes the one being edited and the form is filled from it |
| `BookList.BookListState.UpdateBook` | src/app/components/BookList.tsx:116-139 | with no book being edited nothing changes; otherwise every book carrying the edited id is rewritten from the form and editing stops; the form is not cleared |
| `BookList.BookListState.CloseEditDialog` | src/app/components/BookList.tsx:295 | editing stops; nothing else changes |
| `BookList.BookListState.DeleteBook` | src/app/components/BookList.tsx:141-144 | the list loses every book carrying the id |
| `Home.Toggle` | src/app/page.tsx:14-20 | membership of the toggled title flips and every other title keeps its membership; an absent title is appended at the end; a present one is removed everywhere, and the others keep their order |
| `Home.ToggleTwiceRestores` | src/app/page.tsx:15-19 | toggling an absent title twice restores the list |
| `Home.ToggleKeepsNoDuplicates` | src/app/page.tsx:15-19 | a toggle keeps a duplicate-free list duplicate-free |
| `Home.ToggleChangesCountByOne` | src/app/page.tsx:15-19 | on a duplicate-free list a toggle changes the length by exactly one, and that length is the count the header reports (Header.tsx lines 49-51) |
| `Home.RemovingSingleTitleShortensByOne` | src/app/page.tsx:17 | removing a title that occurs once shortens the list by one |
| `Home.TogglesFromEmptyHaveNoDuplicates` | src/app/page.tsx:12-20 | starting from `[]`, any series of toggles gives a list without duplicates |
| `Home.HomePage.constructor` | src/app/page.tsx:12 | favorites start empty, and therefore duplicate-free |
| `Home.HomePage.HandleFavorite` | src/app/page.tsx:14-20 | the favorites become the toggled list, and stay duplicate-free |
| `BookDetailDialog.SaveComment` | src/app/components/BookDetailDialog.tsx:33-37 | the book's id maps to the comment, and every other key keeps its value |
| `BookDetailDialog.SaveEnabled` | src/app/components/BookDetailDialog.tsx:122 | saving is enabled exactly when the comment has a character that `trim` keeps |
| `BookDetailDialog.ShownComment` | src/app/components/BookDetailDialog.tsx:107-111 | a saved comment is shown only when it is non-empty, and it is shown as saved |
| `BookDetailDialog.SaveTwiceKeepsLater` | src/app/components/BookDetailDialog.tsx:34-37 | saving twice for the same id keeps only the later comment |
| `BookDetailDialog.SavedCommentIsShown` | src/app/components/BookDetailDialog.tsx:107-122 | after an enabled save, the dialog shows exactly the saved comment |
| `BookDetailDialog.DescriptionPreview` | src/app/components/BookDetailDialog.tsx:73-75 | a present, non-empty description previews as its first 100 characters (or all of it, if shorter) followed by `...`; otherwise the preview is `No description available` |
| `BookDetailDialog.ShortDescriptionShownWhole` | src/app/components/BookDetailDialog.tsx:73-75 | a description of at most 100 characters is shown whole, and `...` is still appended |
| `BookDetailDialog.SeeMoreIffPreviewFromDescription` | src/app/components/BookDetailDialog.tsx:73-87 | "See more" is offered exactly when the preview is not the placeholder |
| `BookDetailDialog.DialogState.constructor` | src/app/components/BookDetailDialog.tsx:29-31 | no comments, an empty comment box, and the full description closed |
| `BookDetailDialog.DialogState.SetCurrentComment` | src/app/components/BookDetailDialog.tsx:117 | only the comment being typed changes |
| `BookDetailDialog.DialogState.HandleSaveComment` | src/app/components/BookDetailDialog.tsx:33-39 | callable only while saving is enabled; the comments map gets the typed comment under the id, and the box is cleared to `""` |
| `BookDetailDialog.DialogState.OpenFullDescription` | src/app/components/BookDetailDialog.tsx:79-87 | callable only for a book with a description; opens the full description |
| `BookDetailDialog.DialogState.CloseFullDescription` | src/app/components/BookDetailDialog.tsx:141 | closes the full description |

## Left out

- The network call, the reading of the error text, JSON parsing and the environment
  API key are I/O. The outcome of a fetch is a `FetchOutcome` value, produced by a
  function-valued parameter from the URL. The key is an optional string parameter.
- The `setTimeout` delays and async sequencing: each handler is one atomic state step.
  This means the model does not capture interleavings, such as a delete that lands
  while a create is still waiting.
- `isMobile` comes from listening to window resizes. It is a boolean parameter of
  `DisplayTitle`.
- `Date.now()` id generation: the new id is a parameter of `CreateBook`.
- Price display: `Intl.NumberFormat` is a foreign locale library. `saleInfo` is part
  of `Book` but nothing reads it.
- JSX rendering, CSS, icons, the loading flag, the detail dialog's open/close state
  (`handleBookClick`, `handleCloseDialog`), and the page's `menuOpen` and
  `activeCategory` setters.
- `Header.tsx`, `Sidebar.tsx` and `MobileMenu.tsx`: markup and trivial setters. Only
  the sidebar's category list is used, as a constant.
- The comment map lives only as long as the dialog is mounted, and closing the
  dialog unmounts it. The model keeps one `DialogState` and does not model its
  disposal.
- `JsStrings.ToLower`: folds only the letters A to Z. JavaScript's `toLowerCase` also
  maps other Unicode letters.
- `JsStrings.Trim`: trims the ECMAScript whitespace and line-terminator characters
  as a fixed set of code points.
- String lengths and `slice` count Unicode scalar values. JavaScript counts UTF-16
  code units, so a title with characters outside the Basic Multilingual Plane is cut
  at a different place.
- `BookApi.SelectQuery`: looks up only the table's six own keys. In JavaScript, a
  category naming a property inherited from `Object.prototype` (such as
  `constructor`) would also be truthy, and its string form would be sent as the
  query. The sidebar never sends such a name.
- `BookApi.FetchBooks`: a truthy `items` is assumed to be an array of books. Other
  JSON shapes are not modelled.
- `BookList.FilterByTitle`: the book's title is required, as `types.ts` declares it.
  The `?.` guard that would drop a title-less book from the search, or show nothing
  for it on a card, is not modelled.

## Findings

| source | as written | input that shows it | evidently intended | confidence | as-written member | corrected member |
|---|---|---|---|---|---|---|
| src/app/components/BookList.tsx:246-248 | on mobile, titles longer than 10 characters are cut with `slice(0, 11)` and get `...` | the 11-character title `Hello World` is shown as `Hello World...`: nothing is hidden, yet the ellipsis is added | cut at the threshold's length, 10 characters, as the desktop branch does with 18 | medium; not executed | `BookList.MobileTitleOffByOne` | `BookList.DisplayTitleIntended` |
