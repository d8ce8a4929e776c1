# HomeLibrary in Dafny

A model of the logic of HomeLibrary, a small Next.js and Firebase application in
which two readers keep a shared catalogue of their books. The model covers these
parts of the application:

- **The catalogue search client** (`GoogleBooks`, from `src/lib/api/googleBooks.ts`):
  - the bounded retry loop on HTTP 429 with its doubling waits;
  - `searchBooks`, with its module-level result cache (a 5-minute freshness window
    and a sweep of entries older than 10 minutes), and the mapping of a failed
    reply to a user-facing message;
  - `formatBookFromGoogleBooks`, which turns a catalogue volume into the fields
    of a book.
- **The book store** (`BookStore`, from `src/lib/hooks/useBooks.ts`):
  - the payload rules of `addBook`, `updateBook` and `deleteBook` over a store
    that maps document ids to documents;
  - the subscription query of `useBooks` and its snapshot-to-book mapping;
  - the substring search `searchBooksInLibrary`.
- **The book detail panel** (`BookDetail`, from `src/components/BookDetail.tsx`):
  the owner guard, the rating toggle, the re-seed on open, and the save payload
  with its write-once `finishedAt` and trimmed notes.
- **The add-book dialog** (`AddBookDialog`, from `src/components/AddBookDialog.tsx`):
  the blank-query rule, the reset on close, and the record `handleAddBook`
  assembles. Chained with the normaliser and `addBook`, that record gives the
  exact document the "add" pipeline stores.
- **The statistics page** (`Stats`, from `src/app/stats/page.tsx`): category
  counts, twelve monthly buckets, the top-5 authors, the average rating, the
  reading goal and the capped progress.
- **The library page** (`HomePage`, from `src/app/page.tsx`): the category
  selection, the subscription it opens, and the order-preserving search filter.
- **The authentication provider** (`Auth`, from `src/contexts/AuthContext.tsx`):
  - the e-mail whitelist;
  - the order of the check and the sign-in in `login`, `signup` and
    `loginWithGoogle`;
  - the profile document it loads or creates.

Shared support lives in three modules:

- `Types`: the application's records.
- `JsText`: the JavaScript string operations the code uses, such as
  `toLowerCase`, `trim`, `includes`, `join`, `replace`, `split` and `parseInt`.
- `Sequences`: order-preserving filters and subsequences.

External systems become values:

- **The network** is an oracle: `network(i)` is the reply to the i-th request.
- **Clock readings, server timestamps and generated document ids** are
  parameters.
- **Firestore documents** are maps from field names to JavaScript values.
  `undefined`, `null`, `NaN`, dates, timestamps and the `deleteField` sentinel
  are kept distinct.
- **The side effects of the authentication actions** are returned as a trace.

Stateful pieces are classes whose methods update their fields:

- `CatalogClient`, the search cache;
- `Store`, the book collection;
- `Editor`, the detail panel's local state;
- `Dialog`, the add-book dialog's state;
- `HomeState`, the library page's state;
- `AuthState`, the provider's state.

Each method's `ensures` ties the new state to a specification function of the
old state and the inputs. The lemmas state the promises of the code about those
functions.

Three places where the code differs from what its description suggests; the
model follows the code:

- **ISBN choice.** The ISBN is the identifier of the first `ISBN_13` *or*
  `ISBN_10` entry in list order. ISBN-13 is not preferred.
- **The fetch after the retry loop.** `fetchWithRetry` returns from inside its
  loop on every iteration, so the `fetch` after the loop is never reached for a
  non-negative retry count. The model keeps that branch for negative counts.
- **What the dialog stores as results.** The dialog stores the whole search
  result object where it declares a list of items. The result list and the
  "no results" note are therefore never shown after a search completes
  (`AddBookDialog.CompletedSearchShowsNothing`). This is listed under
  "## Findings" with a corrected search beside it.

## Model

| member | source | states |
|---|---|---|
| GoogleBooks.FetchWithRetry | src/lib/api/googleBooks.ts:14-31 | the attempts, waits and final reply follow the retry trace: at most retries+1 requests; the first non-429 reply is returned at once; a wait of 2^i·1000 ms only after a 429 that is not the last attempt; the last 429 is returned, not refetched |
| GoogleBooks.RateLimited | src/lib/api/googleBooks.ts:19 | a reply is rate limited exactly when it is a response with status 429 |
| GoogleBooks.Backoff | src/lib/api/googleBooks.ts:20 | the wait after attempt i is 2^i × 1000 ms |
| GoogleBooks.RetryTrace | src/lib/api/googleBooks.ts:14-31 | every attempt but the last was rate limited; the last reply is returned; at most retries + 1 attempts, one when retries is negative; a wait follows each attempt that another attempt follows |
| GoogleBooks.RetryTraceUnique | src/lib/api/googleBooks.ts:14-31 | the retry trace determines the number of attempts, the reply and the waits uniquely for a given oracle |
| GoogleBooks.ErrorMessage | src/lib/api/googleBooks.ts:62-69 | status 429 gives exactly the rate-limit message; any other status ≥ 500 gives exactly the server message; any other status gives a message containing the status in decimal |
| GoogleBooks.FetchedItems | src/lib/api/googleBooks.ts:77-78 | an ok response whose body parses yields its items, or [] when it has none; any other reply yields nothing |
| GoogleBooks.ReplyOutcome | src/lib/api/googleBooks.ts:56-99 | the result has no error exactly when the reply is ok and its body parses; its items are then the body's items, or [] when absent; on any error the items are empty and the message follows the status mapping |
| GoogleBooks.CacheKey | src/lib/api/googleBooks.ts:37 | the key is the lower-cased query, '_' and the result count in decimal |
| GoogleBooks.CacheKeyInjective | src/lib/api/googleBooks.ts:37 | two searches share a cache key exactly when their lower-cased queries and their result limits are equal |
| GoogleBooks.IsFresh | src/lib/api/googleBooks.ts:39 | an entry is fresh while less than five minutes old |
| GoogleBooks.IsStale | src/lib/api/googleBooks.ts:86 | an entry is stale when more than ten minutes old |
| GoogleBooks.Hit | src/lib/api/googleBooks.ts:38-39 | a search is served from the cache exactly when its key holds a fresh entry |
| GoogleBooks.Swept | src/lib/api/googleBooks.ts:84-89 | the swept cache keeps exactly the entries that are not stale, unchanged |
| GoogleBooks.AfterFetch | src/lib/api/googleBooks.ts:77-89 | a request that fetched nothing leaves the cache as it was; otherwise the entry is stored and then the stale entries are swept |
| GoogleBooks.StoredEntrySurvives | src/lib/api/googleBooks.ts:78-89 | after a successful fetch the fresh entry holds the items and the fetch time, survives the sweep, and is a hit for any time less than 5 minutes later |
| GoogleBooks.SweptRemovesExactlyStale | src/lib/api/googleBooks.ts:84-89 | the sweep removes exactly the entries older than 10 minutes (strictly) and leaves every other entry unchanged |
| GoogleBooks.CatalogClient.constructor | src/lib/api/googleBooks.ts:6 | the cache starts empty |
| GoogleBooks.CatalogClient.SweepStale | src/lib/api/googleBooks.ts:84-89 | the cache becomes the swept cache of its old value |
| GoogleBooks.SearchOutcome | src/lib/api/googleBooks.ts:33-101 | the three outcomes of `searchBooks`: a blank query gives no items and no error, with no fetch and the cache unchanged; a fresh hit gives the cached items, with no fetch and the cache unchanged; otherwise the retried reply's outcome, with its items stored and the stale entries swept |
| GoogleBooks.CatalogClient.SearchBooks | src/lib/api/googleBooks.ts:33-101 | a blank query returns no items and no error, with no fetch and the cache untouched; a fresh hit returns the cached items with no fetch; otherwise the result is the outcome of the retried reply, and the cache becomes the old cache with the entry stored (on success only) and swept |
| GoogleBooks.SearchTwice | src/lib/api/googleBooks.ts:37-42 | a second search whose query differs only in letter case, made within 5 minutes of a successful fetch, makes no request and returns the same result; made later, it fetches again |
| GoogleBooks.FirstIsbnIndex | src/lib/api/googleBooks.ts:105-107 | the index found is the first identifier whose type is ISBN_13 or ISBN_10; none is found only when no identifier has such a type |
| GoogleBooks.IsbnOf | src/lib/api/googleBooks.ts:105-111 | the isbn is the identifier of the first ISBN_13 or ISBN_10 entry, and undefined when there is none or it is empty |
| GoogleBooks.Secure | src/lib/api/googleBooks.ts:115 | a link is made secure by replacing its first "http://" with "https://" |
| GoogleBooks.CoverOf | src/lib/api/googleBooks.ts:115-116 | the cover is the secured thumbnail when non-empty, else the secured small thumbnail, else '' |
| GoogleBooks.YearOf | src/lib/api/googleBooks.ts:118 | a missing or empty date gives null; otherwise `parseInt` of the part before the first '-', NaN when no digit is read |
| GoogleBooks.FormatBook | src/lib/api/googleBooks.ts:103-121 | the id passes through; the title and the author are never empty; the title falls back to 'Neznámý název'; the author is the authors joined by ", " when that is non-empty, and 'Neznámý autor' when the list is missing or joins to ""; the description, page count and category list are passed through when present, and '', 0 and [] when missing |
| GoogleBooks.FormatIsbn | src/lib/api/googleBooks.ts:105-111 | the isbn is the identifier of the first ISBN-typed entry in list order, or undefined when that identifier is empty |
| GoogleBooks.FormatNoIsbn | src/lib/api/googleBooks.ts:105-111 | with no ISBN-typed entry, the isbn is undefined |
| GoogleBooks.FormatCover | src/lib/api/googleBooks.ts:115-116 | without image links the cover is ''; otherwise it is a non-empty thumbnail made secure, else the small thumbnail made secure, and it is empty exactly when neither is a non-empty string |
| GoogleBooks.SecureRewritesHttp | src/lib/api/googleBooks.ts:115 | a URL starting with "http://" gets "https://" in its place |
| GoogleBooks.FormatYear | src/lib/api/googleBooks.ts:118 | a date starting with a year, followed by nothing or by '-', gives that year |
| GoogleBooks.YearOfDate | src/lib/api/googleBooks.ts:118 | the integer before the first '-' of such a date is the year |
| GoogleBooks.FormatNoYear | src/lib/api/googleBooks.ts:118 | a missing or empty date gives a null year |
| JsText.LowerKeepsBlank | src/app/page.tsx:31-33 | lower-casing keeps a query blank or not blank |
| JsText.Lower | src/app/page.tsx:33 | each character A-Z becomes its lower-case letter; all others stay |
| JsText.IsBlank | src/app/page.tsx:31 | a text is blank when every character is ECMAScript white space or a line terminator |
| JsText.TrimStart | src/components/BookDetail.tsx:58 | the start-trimmed text is empty exactly for a blank text, and does not start with whitespace |
| JsText.TrimStartSuffix | src/components/BookDetail.tsx:58 | start-trimming leaves a suffix of the text |
| JsText.TrimEnd | src/components/BookDetail.tsx:58 | the end-trimmed text is empty exactly for a blank text, and does not end with whitespace |
| JsText.TrimEndPrefix | src/components/BookDetail.tsx:58 | end-trimming leaves a prefix of the text |
| JsText.Trim | src/components/BookDetail.tsx:58 | the trimmed text is empty exactly for a blank text, and neither starts nor ends with whitespace |
| JsText.TrimIsInfix | src/components/BookDetail.tsx:58 | the trimmed text is a contiguous slice of the original |
| JsText.ContainsOccurs | src/app/page.tsx:36-38 | `includes` holds exactly when the pattern occurs at some position |
| JsText.Contains | src/app/page.tsx:36-38 | `includes` holds when the pattern is a prefix of the text or of one of its suffixes |
| JsText.JoinEmpty | src/lib/api/googleBooks.ts:113 | joining with a non-empty separator gives "" exactly for no parts or one empty part |
| JsText.Join | src/lib/api/googleBooks.ts:113 | the items in order with the separator between neighbours; no items give "" |
| JsText.ReplaceFirst | src/lib/api/googleBooks.ts:115 | replacing a pattern that does not occur changes nothing; with non-empty pattern and replacement, the result is empty exactly when the text is |
| JsText.ReplaceFirstReplacesFirst | src/lib/api/googleBooks.ts:115 | when the pattern occurs, the result is the text before its first occurrence, then the replacement, then the text after that occurrence |
| JsText.BeforeFirst | src/lib/api/googleBooks.ts:118 | the part before the first separator is a prefix of the text without the separator, and is followed by the separator when shorter |
| JsText.DigitRun | src/lib/api/googleBooks.ts:118 | the digit run is the longest prefix of digits valid in the radix |
| JsText.NatToString | src/lib/api/googleBooks.ts:68 | the decimal rendering of a number is non-empty and made of digits |
| JsText.NatToStringValue | src/lib/api/googleBooks.ts:68 | the digits of the rendering read back to the number |
| JsText.DigitRunOfDigits | src/lib/api/googleBooks.ts:118 | on a text of digits the digit run is the whole text |
| JsText.ParseUnsignedDigits | src/lib/api/googleBooks.ts:118 | a non-empty run of decimal digits parses to its value with the sign applied |
| JsText.ParseIntOfIntToString | src/lib/api/googleBooks.ts:118 | `parseInt` reads back any integer's decimal rendering |
| JsText.ParseInt | src/lib/api/googleBooks.ts:118 | leading white space, an optional sign, an optional 0x prefix for radix 16, then the longest digit run; NaN when the run is empty |
| JsText.IntToString | src/lib/api/googleBooks.ts:37 | an integer is written in decimal, with '-' before a negative one |
| JsText.IntToStringInjective | src/lib/api/googleBooks.ts:37 | two integers render the same exactly when they are equal |
| Sequences.Filter | src/app/page.tsx:34-39 | a filter's result is an order-preserving subsequence of its input, never longer |
| Sequences.FilterMembers | src/app/page.tsx:34-39 | the result holds only kept elements of the input, and every kept element of the input is in the result |
| BookStore.Written | src/lib/hooks/useBooks.ts:104 | a write fails exactly when the payload holds `undefined` and undefined properties are not ignored; a written payload holds no `undefined` |
| BookStore.Truthy | src/lib/hooks/useBooks.ts:95 | undefined, null, NaN, '', 0 and false are falsy; every other value, `deleteField()` included, is truthy |
| BookStore.CleanData | src/lib/hooks/useBooks.ts:77-79 | the data without the fields whose value is undefined |
| BookStore.AddPayload | src/lib/hooks/useBooks.ts:81-84 | the cleaned data with `addedAt` set to the server-time sentinel |
| BookStore.Persisted | src/lib/hooks/useBooks.ts:81-84 | a stored `Date` becomes a timestamp of that date, the server-time sentinel a timestamp of the server time, and other values stay |
| BookStore.ApplyUpdate | src/lib/hooks/useBooks.ts:104 | a payload field replaces the stored one, `deleteField()` removes it, and fields the payload does not name stay |
| BookStore.UpdateData | src/lib/hooks/useBooks.ts:93-102 | the update payload never holds `id` or `addedAt` |
| BookStore.BuildUpdateData | src/lib/hooks/useBooks.ts:93-102 | the in-place copy, conversion and deletions build the update payload |
| BookStore.UpdateDataKey | src/lib/hooks/useBooks.ts:93-102 | `id` and `addedAt` are removed; every other key is present exactly when it was given; values pass through, `undefined` included, except that a truthy `finishedAt` becomes a timestamp (a date keeps its time, anything else becomes the server time) and a falsy one is kept as given |
| BookStore.UpdateKeepsIdAndAddedAt | src/lib/hooks/useBooks.ts:101-102 | an update never changes a document's `id` or `addedAt` field |
| BookStore.UpdateStoresFinishedDate | src/lib/hooks/useBooks.ts:95-99 | a `finishedAt` date given to an update is stored as a timestamp of the same time |
| BookStore.WrittenPart | src/lib/hooks/useBooks.ts:104 | a written payload holds only fields of the payload, unchanged |
| BookStore.ApplyUpdateUntouched | src/lib/hooks/useBooks.ts:104 | an update leaves every field it does not name as it was |
| BookStore.ApplyUpdateKey | src/lib/hooks/useBooks.ts:104 | an updated field is removed by `deleteField`, otherwise stored as given (a server timestamp resolved); an unnamed field is kept |
| BookStore.UpdatedDocs | src/lib/hooks/useBooks.ts:88-105 | a successful update targets an existing document, keeps the set of ids, and leaves every other document unchanged; it fails only for a missing document, or for `undefined` values when those are not ignored |
| BookStore.UndefinedFieldKept | src/lib/hooks/useBooks.ts:93-104 | a field given as `undefined` to an update keeps its stored value, or the update fails |
| BookStore.DefinedUpdateStored | src/lib/hooks/useBooks.ts:88-105 | an update without `undefined` values always succeeds on an existing document and applies the update payload to it |
| BookStore.Subscription | src/lib/hooks/useBooks.ts:26-41 | a query exists exactly for a signed-in user with a database; it filters by the given category and by nothing else |
| BookStore.SubscriptionIgnoresUser | src/lib/hooks/useBooks.ts:26-41 | any two signed-in users get the same query |
| BookStore.Selected | src/lib/hooks/useBooks.ts:33-40 | a document is returned when it has a timestamp `addedAt` and, for a category query, that category; no owner field is consulted |
| BookStore.Answers | src/lib/hooks/useBooks.ts:33-40 | the listing holds each selected document of the store once, as stored, newest `addedAt` first |
| BookStore.ReadDate | src/lib/hooks/useBooks.ts:52-53 | reading a date gives nothing for a missing, undefined or null field, the date of a timestamp, and a throw for any other value |
| BookStore.Convertible | src/lib/hooks/useBooks.ts:52-53 | a document converts when neither `addedAt` nor `finishedAt` throws on reading |
| BookStore.ToRecord | src/lib/hooks/useBooks.ts:48-54 | a document converts unless a date field throws; a stored `id` overrides the document id; `addedAt` is the stored date or now; `finishedAt` is the stored date or undefined; every other field is copied |
| BookStore.SnapshotBooks | src/lib/hooks/useBooks.ts:43-58 | the snapshot gives books exactly when every document converts; then it gives one book per document, in order |
| BookStore.Records | src/lib/hooks/useBooks.ts:122-130 | the listing maps to one book per document |
| BookStore.RecordsPrefix | src/lib/hooks/useBooks.ts:122-130 | mapping a longer prefix of the listing appends the next document's book |
| BookStore.RecordKeepsSearchedText | src/lib/hooks/useBooks.ts:124-136 | a converted book keeps the stored title, author and description |
| BookStore.Found | src/lib/hooks/useBooks.ts:132-137 | a book matches when its lower-cased title, author or description contains the lower-cased query |
| BookStore.Searchable | src/lib/hooks/useBooks.ts:134-136 | title, author and description are all present texts |
| BookStore.SearchListing | src/lib/hooks/useBooks.ts:122-142 | the loop returns the listing's books whose lower-cased title, author or description contains the lower-cased query, in listing order |
| BookStore.Store.constructor | src/lib/hooks/useBooks.ts:18 | the store starts with the given database state and documents |
| BookStore.Store.AddBook | src/lib/hooks/useBooks.ts:71-86 | without a database, or with a `deleteField` value, nothing is stored and an error is returned; otherwise the new id is returned and the cleaned payload, stamped with the server time, is stored under it |
| BookStore.Store.UpdateBook | src/lib/hooks/useBooks.ts:88-105 | without a database the store is unchanged and an error is returned; otherwise the documents become the updated documents, or are unchanged when the update fails |
| BookStore.Store.DeleteBook | src/lib/hooks/useBooks.ts:107-112 | without a database nothing changes; otherwise exactly the given document is removed |
| BookStore.Store.SearchLibrary | src/lib/hooks/useBooks.ts:114-143 | a blank query or no database gives []; otherwise exactly the matching books of the `addedAt`-descending listing of all documents, in that order, whoever the user is |
| BookStore.SearchResultExact | src/lib/hooks/useBooks.ts:132-139 | a listing book is in the search result exactly when it matches, and the result is an order-preserving subsequence of the listing |
| BookStore.StoredKey | src/lib/hooks/useBooks.ts:77-84 | `addBook` stores a field other than `addedAt` exactly when it is given with a value other than `undefined`, and stores that value |
| BookStore.StoredAddedAt | src/lib/hooks/useBooks.ts:81-84 | `addBook` always stores the server time as `addedAt`, whatever `addedAt` is given |
| BookStore.AddedDocument | src/lib/hooks/useBooks.ts:71-86 | the stored document is the given record without its `undefined` fields, with any stray `id` kept, `addedAt` set to the server time, and no `undefined` left |
| BookDetail.Toggled | src/components/BookDetail.tsx:138 | clicking star v clears the rating when it is v and sets it to v otherwise |
| BookDetail.CanEdit | src/components/BookDetail.tsx:86 | editing is allowed exactly to a signed-in user whose uid is the book's `userId` |
| BookDetail.ValidRating | src/components/BookDetail.tsx:134-138 | a rating the stars show is none or 1 to 5 |
| BookDetail.ToggleKeepsRatingValid | src/components/BookDetail.tsx:134-138 | toggling a star from 1 to 5 keeps the rating empty or between 1 and 5; clicking the same star twice restores an empty rating or that star |
| BookDetail.NotesValue | src/components/BookDetail.tsx:58 | the saved notes are `undefined` exactly for blank notes, and the trimmed notes otherwise |
| BookDetail.RatingValue | src/components/BookDetail.tsx:57 | the saved rating is `undefined` exactly when there is none |
| BookDetail.FinishedAtValue | src/components/BookDetail.tsx:59 | `finishedAt` is now when the category is 'finished' and the book has none; an existing `finishedAt` is kept; otherwise it is undefined |
| BookDetail.SavePayload | src/components/BookDetail.tsx:55-60 | the save payload holds exactly category, rating, notes and `finishedAt` |
| BookDetail.Edited | src/components/BookDetail.tsx:55-60 | the edited fields are category, rating, notes and `finishedAt` |
| BookDetail.SaveFinishedAtWriteOnce | src/components/BookDetail.tsx:59 | the update sends `finishedAt` as now exactly for a first finish, as the existing time when there is one, and as undefined otherwise |
| BookDetail.SaveNeverClearsFinishedAt | src/components/BookDetail.tsx:59 | a successful save never removes a stored `finishedAt`, even when leaving 'finished' |
| BookDetail.SaveTouchesOnlyEditedFields | src/components/BookDetail.tsx:55-60 | a save changes no field other than category, rating, notes and `finishedAt` |
| BookDetail.ClearedNotesSurvive | src/components/BookDetail.tsx:58 | as written, saving blank notes either fails or keeps the stored notes |
| BookDetail.ClearedRatingSurvives | src/components/BookDetail.tsx:57 | as written, saving with no rating either fails or keeps the stored rating |
| BookDetail.SavePayloadFixed | src/components/BookDetail.tsx:55-60 | the corrected payload holds only the edited fields |
| BookDetail.Cleared | src/components/BookDetail.tsx:57-58 | a cleared value is never `undefined`: a defined value is kept and `undefined` becomes `deleteField` |
| BookDetail.FixedPayloadKeys | src/components/BookDetail.tsx:55-60 | the corrected payload always names category, rating and notes, and names `finishedAt` exactly when the book is or was finished |
| BookDetail.FixedPayloadField | src/components/BookDetail.tsx:55-60 | each field of the corrected payload is the as-written field, cleared |
| BookDetail.FixedUpdateData | src/components/BookDetail.tsx:55-60 | the corrected update holds no `undefined` |
| BookDetail.FixedUpdateClears | src/components/BookDetail.tsx:57-58 | the corrected update deletes blank notes and a removed rating, and sends the trimmed notes and the rating otherwise |
| BookDetail.FixedUpdateFinishedAt | src/components/BookDetail.tsx:59 | the corrected update keeps the write-once `finishedAt` and sends none when the book was never finished |
| BookDetail.FixedSaveClears | src/components/BookDetail.tsx:55-60 | with the corrected payload a save always succeeds: blank notes and a removed rating are deleted, the rest are stored, and `finishedAt` is never cleared |
| BookDetail.Editor.constructor | src/components/BookDetail.tsx:36-40 | local category and rating start from the book; notes start from the book's notes or ''; not saving, not deleting |
| BookDetail.Editor.Reseed | src/components/BookDetail.tsx:42-48 | opening re-seeds category, rating and notes from the book; otherwise nothing changes |
| BookDetail.Editor.ClickStar | src/components/BookDetail.tsx:138 | the rating becomes the toggled rating; nothing else changes |
| BookDetail.Editor.HandleSave | src/components/BookDetail.tsx:50-68 | a user who is not the owner changes nothing; without a database the error is alerted; otherwise the store becomes the updated documents and the panel closes, or the failure is alerted and the store is unchanged |
| BookDetail.Editor.HandleDelete | src/components/BookDetail.tsx:70-84 | the delete is called exactly for the owner who confirms; then exactly that document is removed and the panel closes, or without a database the error is alerted |
| AddBookDialog.CompletedSearchShowsNothing | src/components/AddBookDialog.tsx:49-54 | once a search has completed, neither the result list nor the "no results" note is shown |
| AddBookDialog.StoredItemsShowResults | src/components/AddBookDialog.tsx:128-191 | with the items of an answered search stored, the list shows exactly when the reply brought items, and the note exactly when a non-empty query got none, error replies included |
| AddBookDialog.ShowsList | src/components/AddBookDialog.tsx:128 | the list is drawn when no search runs and the results are a non-empty array |
| AddBookDialog.ShowsNoResults | src/components/AddBookDialog.tsx:191 | the note is drawn when no search runs, the query is non-empty and the results are an empty array |
| AddBookDialog.FormattedFields | src/components/AddBookDialog.tsx:64-66 | the normalised item's fields, with an undefined isbn when there is none and a null, NaN or number year |
| AddBookDialog.NewBookRecord | src/components/AddBookDialog.tsx:64-73 | the normalised item's fields plus the user's uid, the category, undefined rating and notes, `isManual` false and `addedAt` now |
| AddBookDialog.RecordIdAndDates | src/components/AddBookDialog.tsx:64-73 | the record carries the volume id as `id` and no `finishedAt` |
| AddBookDialog.RecordItemFields | src/components/AddBookDialog.tsx:64-66 | the record carries the normalised id, isbn, title, author and description |
| AddBookDialog.RecordDetailFields | src/components/AddBookDialog.tsx:64-66 | the record carries the normalised cover, page count, year and genres |
| AddBookDialog.RecordAddedFields | src/components/AddBookDialog.tsx:67-72 | the record carries the user's uid, the chosen category, an undefined rating and notes, `isManual` false and `addedAt` now |
| AddBookDialog.StoredItemFields | src/lib/hooks/useBooks.ts:77-84 | the stored document keeps the item fields and has an isbn exactly when the item has one |
| AddBookDialog.StoredDetailFields | src/lib/hooks/useBooks.ts:77-84 | the stored document keeps the cover, page count, genres and a year that is null when there is no date |
| AddBookDialog.StoredAddedFields | src/lib/hooks/useBooks.ts:77-84 | the stored document has the server time as `addedAt`, the owner, the category and `isManual` false |
| AddBookDialog.StoredAbsentFields | src/lib/hooks/useBooks.ts:77-84 | the stored document has no rating, notes or `finishedAt` |
| AddBookDialog.AddPipelineDocument | src/components/AddBookDialog.tsx:59-81 | the document the whole add pipeline stores for a catalogue item, field by field |
| AddBookDialog.ShownRecord | src/lib/hooks/useBooks.ts:49-54 | a stored book with a timestamp `addedAt` is shown, under its stored `id` when it has one and otherwise under its document id |
| AddBookDialog.ShownIdIsVolumeId | src/components/AddBookDialog.tsx:64-73 | as written, an added book is shown under the volume id, and deleting by that id leaves its document in place |
| AddBookDialog.NewBookRecordFixed | src/lib/hooks/useBooks.ts:71 | the corrected record has no `id` and agrees with the as-written record on every other field |
| AddBookDialog.FixedShownIdIsDocumentId | src/lib/hooks/useBooks.ts:49-54 | with the corrected record, an added book is shown under its document id, and deleting by that id removes the document |
| AddBookDialog.ResultCoverMatchesBook | src/components/AddBookDialog.tsx:135-136 | the result list draws a cover exactly when the added book gets one, with the same URL |
| AddBookDialog.ResultCover | src/components/AddBookDialog.tsx:135-136 | the shown cover is the secured thumbnail when non-empty, else the secured small thumbnail, else undefined |
| AddBookDialog.YearTextMatchesBook | src/components/AddBookDialog.tsx:163-166 | a result whose date starts with a year shows that year, and the added book stores it |
| AddBookDialog.YearText | src/components/AddBookDialog.tsx:163-166 | a result with a non-empty date shows the part before its first '-' |
| AddBookDialog.Dialog.constructor | src/components/AddBookDialog.tsx:27-32 | empty query and results, not searching, nothing selected, category 'wishlist', not adding |
| AddBookDialog.Dialog.OnOpenChange | src/components/AddBookDialog.tsx:34-41 | closing resets the query, results, selection and category to their initial values; opening changes nothing |
| AddBookDialog.Dialog.OnQueryChange | src/components/AddBookDialog.tsx:43-47 | the query is set; a search is scheduled exactly for a non-blank query; a blank query clears the results |
| AddBookDialog.Dialog.RunScheduledSearch | src/components/AddBookDialog.tsx:49-54 | the result, the attempts and the client's new cache are those of `searchBooks` on the current query with 40 results; the whole result object is stored as the results and searching ends, so neither the list nor the note shows |
| AddBookDialog.Dialog.RunScheduledSearchFixed | src/components/AddBookDialog.tsx:49-54 | corrected: the same search, with the result's items stored; the list shows exactly when there are items, and the note exactly when a non-empty query found none |
| AddBookDialog.Dialog.HandleAddBook | src/components/AddBookDialog.tsx:59-81 | without a user nothing happens; otherwise the pipeline document is stored under the new id and the dialog closes, or without a database the error is alerted; `adding` ends false after an attempt; the query, results, selection, searching flag and category never change |
| Stats.CategoriesCoverAll | src/app/stats/page.tsx:21-24 | the four category counts add up to the number of books |
| Stats.InCategory | src/app/stats/page.tsx:21-24 | a book is in a category when its category is that one |
| Stats.CategoryCount | src/app/stats/page.tsx:21-24 | a category's count is the number of books in it |
| Stats.InYear | src/app/stats/page.tsx:28-30 | a book is finished in a year when it has `finishedAt` in that local year |
| Stats.ThisYear | src/app/stats/page.tsx:27-30 | this year's books are the finished books finished in the current local year |
| Stats.InMonth | src/app/stats/page.tsx:34-36 | a book is finished in a month when it has `finishedAt` in that local month |
| Stats.MonthlyCounts | src/app/stats/page.tsx:32-41 | twelve buckets, bucket i holding this year's books finished in month i + 1 |
| Stats.MonthsUpToFirst | src/app/stats/page.tsx:32-41 | the books finished up to a month are counted one book at a time |
| Stats.MonthsUpToNone | src/app/stats/page.tsx:32-41 | no books, no count |
| Stats.MonthsCoverDated | src/app/stats/page.tsx:32-41 | every dated book falls in one of the twelve months |
| Stats.MonthlyPrefixSum | src/app/stats/page.tsx:32-41 | the first n buckets sum to the books finished up to month n |
| Stats.MonthlySumsToYear | src/app/stats/page.tsx:32-41 | there are twelve buckets and they sum to the number of books finished this year |
| Stats.AuthorCount | src/app/stats/page.tsx:45-46 | the number of books whose author string equals the author exactly |
| Stats.AuthorTally | src/app/stats/page.tsx:44-48 | one entry per author, in the order of their first book, with that author's number of books |
| Stats.Authors | src/app/stats/page.tsx:44-47 | the tallied authors are exactly those with a finished book, each listed once |
| Stats.CountAuthors | src/app/stats/page.tsx:44-47 | the `forEach` loop builds the author tally: each author once, in first-seen order, with their count |
| Stats.TallyStep | src/app/stats/page.tsx:45-46 | one more book adds its author when new and adds one to that author's count |
| Stats.Insert | src/app/stats/page.tsx:49 | an entry is placed before the first entry whose count is not larger |
| Stats.SortByCount | src/app/stats/page.tsx:49 | the entries sorted by descending count, equal counts kept in their order |
| Stats.InsertPermutes | src/app/stats/page.tsx:49 | inserting an entry into the sorted list adds exactly that entry |
| Stats.InsertBounded | src/app/stats/page.tsx:49 | inserting keeps every count under a common bound |
| Stats.InsertSorted | src/app/stats/page.tsx:49 | inserting into a list sorted by descending count keeps it sorted |
| Stats.InsertStable | src/app/stats/page.tsx:49 | inserting keeps the relative order of entries with equal counts |
| Stats.SortByCountPermutes | src/app/stats/page.tsx:49 | the sort is a permutation |
| Stats.SortByCountDescending | src/app/stats/page.tsx:49 | the sort orders by descending count |
| Stats.SortByCountStable | src/app/stats/page.tsx:49 | the sort keeps the order of entries with equal counts |
| Stats.SortByCountSorts | src/app/stats/page.tsx:49 | the sort is a stable permutation into descending count order |
| Stats.TopFive | src/app/stats/page.tsx:50 | the top list is the first five entries, or all of them when there are fewer |
| Stats.TallyEntry | src/app/stats/page.tsx:44-48 | every tallied entry holds its author's exact number of finished books, which is positive |
| Stats.TopAuthors | src/app/stats/page.tsx:44-51 | the first five entries of the sorted tally of the finished books |
| Stats.TopAuthorsRanked | src/app/stats/page.tsx:44-51 | the top authors are at most five, sorted by descending count, each with their exact count |
| Stats.TopAuthorsComplete | src/app/stats/page.tsx:44-51 | an author left out of the top list has no more books than any listed author |
| Stats.Rated | src/app/stats/page.tsx:54 | a book is rated when its rating is present and not 0 |
| Stats.RatingSum | src/app/stats/page.tsx:57 | the sum of the books' ratings, a missing one counting 0 |
| Stats.AverageRating | src/app/stats/page.tsx:54-58 | the rating sum of the rated finished books divided by their number, and 0 when there is none |
| Stats.RatingSumBounds | src/app/stats/page.tsx:57 | the ratings of n star-rated books sum to between n and 5n |
| Stats.AverageRatingBounds | src/app/stats/page.tsx:54-58 | the average is 0 with no rated book and otherwise lies between 1 and 5 |
| Stats.Goal | src/app/stats/page.tsx:61 | the goal is the user's reading goal when it is non-zero, and 24 otherwise; never 0 |
| Stats.Progress | src/app/stats/page.tsx:62-82 | the books read as a percentage of the goal, capped at 100 |
| Stats.ProgressCapped | src/app/stats/page.tsx:62-82 | progress never exceeds 100, is not negative for a positive goal, and is 100 exactly when the goal is reached |
| Stats.ChartSlice | src/app/stats/page.tsx:65-70 | each category's chart label and colour |
| Stats.StatsOf | src/app/stats/page.tsx:20-85 | the summary: the counts, monthly buckets, top authors, average rating, goal, progress, this year's count and chart slices of the book list |
| Stats.ComputeStats | src/app/stats/page.tsx:20-85 | the computation returns the statistics of the book list |
| Stats.StatsConsistent | src/app/stats/page.tsx:20-85 | the category counts add up to the total; the chart has four slices in fixed order with those counts; twelve monthly buckets sum to this year's count, which is at most the finished count; the goal is non-zero and the progress at most 100 |
| HomePage.SubscribedCategory | src/app/page.tsx:28 | 'all' subscribes with no category; any other selection subscribes with that category |
| HomePage.Matches | src/app/page.tsx:36-38 | a book matches when its lower-cased title or author, or its present description, contains the query |
| HomePage.FilteredBooks | src/app/page.tsx:30-40 | a blank query keeps the whole list; otherwise the books matching the lower-cased query, in order |
| HomePage.FilteredBooksExact | src/app/page.tsx:30-40 | a blank query gives the list unchanged; the result is always an order-preserving subsequence; otherwise a book is kept exactly when its lower-cased title, author or present description contains the lower-cased, untrimmed query |
| HomePage.FilterIgnoresCase | src/app/page.tsx:33 | queries that differ only in letter case filter alike |
| HomePage.HomeState.constructor | src/app/page.tsx:21-22 | the selection starts at 'all' and the query at '' |
| HomePage.HomeState.Subscribed | src/app/page.tsx:28 | the page subscribes with the user and the selected category, no category for 'all' |
| HomePage.HomeState.Visible | src/app/page.tsx:30-40 | the grid shows the delivered books filtered by the current query |
| HomePage.HomeState.OnSidebarChange | src/app/page.tsx:70-73 | a sidebar change sets the selection and clears the query, so the whole list is shown |
| HomePage.HomeState.OnTabChange | src/app/page.tsx:97 | a tab change sets the selection and keeps the query |
| HomePage.HomeState.OnSearchChange | src/app/page.tsx:131 | typing sets the query and keeps the selection |
| HomePage.SelectionSubscribes | src/app/page.tsx:28 | a signed-in user is always subscribed, with no category for 'all' and with the selected category otherwise |
| Auth.IsWhitelisted | src/contexts/AuthContext.tsx:93-109 | everyone is allowed without a database or without the whitelist document; a failed lookup allows no one; otherwise exactly the listed addresses are allowed |
| Auth.EmptyWhitelistDeniesAll | src/contexts/AuthContext.tsx:103-104 | a whitelist document without addresses allows no one |
| Auth.WhitelistIsCaseSensitive | src/contexts/AuthContext.tsx:104 | the comparison is exact: e.g. with only 'Reader@Example.com' listed, 'reader@example.com' is refused |
| Auth.CheckedFirst | src/contexts/AuthContext.tsx:111-139 | every password sign-in and account creation comes right after a whitelist check that let the same address in |
| Auth.NewProfile | src/contexts/AuthContext.tsx:62-70 | a new profile has the account's uid, e-mail and name, theme 'system', reading goal 24 and the default settings |
| Auth.DefinedName | src/contexts/AuthContext.tsx:65 | a display name is kept exactly when it is a non-empty string |
| Auth.Storable | src/contexts/AuthContext.tsx:71-74 | the profile can be written when `ignoreUndefinedProperties` is set or the display name is defined |
| Auth.Login | src/contexts/AuthContext.tsx:111-118 | the whitelist check comes before any sign-in; an address not on the list is refused with no sign-in attempt; sign-in succeeds exactly when Firebase is ready, the address is listed and the sign-in call succeeds |
| Auth.Signup | src/contexts/AuthContext.tsx:120-139 | the whitelist check comes before any account creation; a refused address creates nothing; a created account gets a new profile with the server time |
| Auth.LoginWithGoogle | src/contexts/AuthContext.tsx:141-167 | the popup sign-in comes first; an address not on the list is signed out and refused; otherwise the profile is read, and written with the defaults only when absent |
| Auth.LoadedProfile | src/contexts/AuthContext.tsx:49-59 | an existing profile keeps its stored values; a falsy reading goal becomes 24; theme, settings, creation time and name fall back to 'system', the defaults, now and the account's name |
| Auth.AuthState.constructor | src/contexts/AuthContext.tsx:31-39 | no user or profile; loading only in a browser with Firebase ready |
| Auth.AuthState.OnAuthStateChanged | src/contexts/AuthContext.tsx:41-82 | sign-out clears the user and the profile; sign-in sets the user; without a database nothing else happens; otherwise the stored profile is loaded, or a new one is written with the server time, and loading ends |
| Auth.SignInWithoutDatabase | src/contexts/AuthContext.tsx:41-45 | with auth but no database, a sign-in leaves the provider loading for good |

## Left out

- I/O. The real `fetch`, URL building, URL encoding and the API-key splice are
  not modelled. The body's JSON parse is a value: the parsed items, or the
  message of the error it throws. Logging is not modelled.
- User prompts. `alert` becomes a returned flag and `confirm` a boolean input.
- Timers. The waits of the retry loop are returned as a list, not slept.
- The dialog's 500 ms debounce and its `clearTimeout` are not modelled: a
  scheduled search runs through a separate call, and a cancelled timer is a call
  not made.
- Concurrency. Async interleaving between handlers and callbacks is not modelled.
- Firestore and Firebase Auth internals are values:
  - the collection is a map from id to document;
  - the id `addDoc` generates and the server time are parameters;
  - the listing a query returns is a parameter tied to the map by a predicate.
- The snapshot listener's lifetime is not modelled: unsubscribing, the `loading`
  flag of `useBooks` and its error callback.
- The Firestore setting `ignoreUndefinedProperties` is a parameter.
  `src/lib/firebase.ts` is not part of this model.
- Rendering is not modelled: the components' markup, labels, icons and date
  formatting, and `toFixed(1)`.
- `handleManualAdd` (`src/components/AddBookDialog.tsx:83-87`) only alerts that
  the feature is not available yet.
- `logout` (`src/contexts/AuthContext.tsx:169-172`) only signs out.
- The sidebar, the profile page, the book card, the grid and the mobile
  navigation are not part of this model.
- The books that `HomePage` and `Stats` receive are typed `Book` values. The
  conversion from stored documents to them is modelled only in `BookStore`.
- The account's e-mail is taken to be present; the source asserts it with `!`.
- JsText.Lower: only A-Z are lower-cased. JavaScript's `toLowerCase` also maps
  other letters, such as the Czech Č or Ř.
- Stats.AverageRating: computed on exact reals, so the rounding of
  floating-point division is not modelled.
- Stats.ProgressCapped: stated on exact reals, for the same reason.
- Stats.TopAuthors: authors with equal counts keep the order of their first
  book. `Object.entries` lists integer-like keys first, in numeric order, so an
  author named by digits alone would be ordered differently. The tally is a
  plain map, but the source counts into a plain `{}` object
  (`src/app/stats/page.tsx:44-46`). An author named like an inherited
  `Object.prototype` member ("constructor", "toString", "valueOf", ...) reads a
  truthy function, so the count becomes a string such as
  "function Object() { [native code] }1". An author named "__proto__" is never
  stored as an own key and is missing from the top list. Neither behaviour is
  modelled.
- Stats.AuthorTally: an exact count per author, so the inherited
  `Object.prototype` names above are counted like any other author.
- Stats.CountAuthors: its loop fills a map, so the same names are counted like
  any other author.
- BookStore.Store.SearchLibrary: requires every listed document to be
  convertible and searchable, so two throws of the source are not modelled.
  First, `?.toDate()` on an `addedAt` or `finishedAt` that is not a timestamp
  throws (`src/lib/hooks/useBooks.ts:128-129`). Second, the search calls
  `toLowerCase` on the title, the author and the description without checking
  them. The `||` stops at the first match, so a missing title always throws,
  while a missing author or description throws only when the earlier fields
  did not match (`src/lib/hooks/useBooks.ts:133-137`). Either throw rejects
  the whole search.
- BookStore.SearchResultExact: stated for any listing of convertible documents.
  The link to the stored documents is stated by `Store.SearchLibrary`.
- GoogleBooks.FormatBook: its own contract leaves the isbn, cover and year to
  the lemmas `FormatIsbn`, `FormatNoIsbn`, `FormatCover`, `FormatYear` and
  `FormatNoYear`. Those lemmas cover dates that start with a decimal year; other
  dates go through the general `parseInt` model without a lemma of their own.
- Numbers are unbounded integers. The loss of precision in JavaScript numbers
  beyond 2^53 is not modelled.

## Findings

| source | as written | input that shows it | evidently intended | confidence | as-written member | corrected member |
|---|---|---|---|---|---|---|
| src/components/AddBookDialog.tsx:64-73 | the record spreads the normalised item, whose `id` is the catalogue volume id, into `addBook`. `addBook` keeps it (useBooks.ts:77-84), and the snapshot mapping lets a stored `id` override the document id (useBooks.ts:49-51) | adding volume "vol1" when the store generates document id "doc9": the library shows the book with id "vol1", and `deleteBook("vol1")` leaves "doc9" in place | the record leaves out `id`, as `addBook`'s parameter type (a `Book` without `id` and `addedAt`) says, so the book is shown and deleted under its document id | not executed | AddBookDialog.ShownIdIsVolumeId | AddBookDialog.FixedShownIdIsDocumentId |
| src/components/BookDetail.tsx:55-60 | clearing the notes, or clicking the selected star to remove the rating, sends `undefined`. Firestore then either rejects the whole update, or skips the field and keeps the old value | a book stored with notes "x", saved with notes "   ": the update fails, or the notes stay "x" | a cleared field is deleted (`deleteField()`). `finishedAt` is left out when there is none, because `deleteField()` is truthy and `updateBook` would turn it into a timestamp | not executed | BookDetail.ClearedNotesSurvive | BookDetail.FixedSaveClears |
| src/components/AddBookDialog.tsx:49-54 | the search effect stores the whole `{items, error}` object that `searchBooks` returns in `searchResults`, a state declared as an item list (AddBookDialog.tsx:28). The object has no `length`, so the list (line 128) and the "no results" note (line 191) never render | typing "dune" when the search returns one item: `searchResults.length` is undefined, and neither the item nor the note is shown | `setSearchResults(results.items)`, so the list shows the found items and the note shows when a query found none | not executed | AddBookDialog.CompletedSearchShowsNothing | AddBookDialog.Dialog.RunScheduledSearchFixed |

Each row keeps the as-written operation: `Dialog.HandleAddBook`,
`Editor.HandleSave` and `Dialog.RunScheduledSearch` follow the code as written.
The corrected definitions (`AddBookDialog.NewBookRecordFixed`,
`BookDetail.SavePayloadFixed` and `Dialog.RunScheduledSearchFixed`) carry the
intended property, proved beside them.
