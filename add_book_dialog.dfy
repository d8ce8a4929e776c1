/** The add-book dialog of `AddBookDialog.tsx`: its search state, the reset
    when it closes, the record `handleAddBook` assembles from a catalogue
    item, and the cover and year the result list shows. The 500 ms debounce
    is left out: a scheduled search is run by a separate call. */
module AddBookDialog {
  import opened Wrappers
  import opened JsText
  import opened Types
  import opened GoogleBooks
  import opened BookStore

  /** What `searchResults` holds. The state is declared as an item list, but
      the search effect stores the whole `SearchResult` object in it. */
  datatype ResultsState = Items(items: seq<GoogleBooksItem>) | WholeResult(result: SearchResult)

  /** The result list is rendered: `!searching && searchResults.length > 0`.
      An object has no `length`, and `undefined > 0` is false. */
  predicate ShowsList(results: ResultsState, searching: bool) {
    !searching && results.Items? && |results.items| > 0
  }

  /** The "no results" note: `!searching && searchQuery && searchResults.length === 0`. */
  predicate ShowsNoResults(query: string, results: ResultsState, searching: bool) {
    !searching && query != "" && results.Items? && |results.items| == 0
  }

  /** Once a search has completed, the dialog shows neither the list nor the
      note, whatever the search returned. */
  lemma CompletedSearchShowsNothing(query: string, result: SearchResult)
    ensures !ShowsList(WholeResult(result), false) && !ShowsNoResults(query, WholeResult(result), false)
  {
  }

  /** With the items of an answered search stored, the list shows exactly
      when the reply brought items, and the note exactly when a query got a
      reply that brought none, an error reply included. */
  lemma StoredItemsShowResults(query: string, reply: Reply)
    ensures var items := ReplyOutcome(reply).items;
      ShowsList(Items(items), false) <==> FetchedItems(reply).Some? && |FetchedItems(reply).value| > 0
    ensures var items := ReplyOutcome(reply).items;
      ShowsNoResults(query, Items(items), false) <==>
        query != "" && (FetchedItems(reply).None? || |FetchedItems(reply).value| == 0)
  {
  }

  /** The `Book` fields of a normalised item, as the spread `...formatted`
      puts them in the record; `isbn` is `undefined` when there is none and
      `publishedYear` is `null`, `NaN` or a number. */
  function FormattedFields(f: FormattedBook): Fields {
    map[IdField := Text(f.id),
        IsbnField := (if f.isbn.Some? then Text(f.isbn.value) else Undefined),
        TitleField := Text(f.title),
        AuthorField := Text(f.author),
        DescriptionField := Text(f.description),
        CoverUrlField := Text(f.coverUrl),
        PageCountField := Number(f.pageCount),
        PublishedYearField := YearValue(f.publishedYear),
        GenresField := TextList(f.genres)]
  }

  function YearValue(y: PublishedYear): Value {
    match y
    case NoDate => Null
    case NotANumber => BookStore.NotANumber
    case Year(n) => Number(n)
  }

  /** The object `handleAddBook` passes to `addBook`, built from the
      normalised item `f`. */
  function NewBookRecord(f: FormattedBook, uid: string, category: Category, now: int): Fields {
    FormattedFields(f)
      [UserIdField := Text(uid)]
      [CategoryField := Text(CategoryName(category))]
      [RatingField := Undefined]
      [NotesField := Undefined]
      [IsManualField := Flag(false)]
      [AddedAtField := Date(now)]
  }

  /** The fields of the record that come from the normalised item. */
  predicate RecordHoldsItem(r: Fields, f: FormattedBook) {
    && IdField in r && r[IdField] == Text(f.id)
    && IsbnField in r && r[IsbnField] == (if f.isbn.Some? then Text(f.isbn.value) else Undefined)
    && TitleField in r && r[TitleField] == Text(f.title)
    && AuthorField in r && r[AuthorField] == Text(f.author)
    && DescriptionField in r && r[DescriptionField] == Text(f.description)
  }

  predicate RecordHoldsDetails(r: Fields, f: FormattedBook) {
    && CoverUrlField in r && r[CoverUrlField] == Text(f.coverUrl)
    && PageCountField in r && r[PageCountField] == Number(f.pageCount)
    && PublishedYearField in r && r[PublishedYearField] == YearValue(f.publishedYear)
    && GenresField in r && r[GenresField] == TextList(f.genres)
  }

  /** The fields `handleAddBook` adds to the item. */
  predicate RecordHoldsAdded(r: Fields, uid: string, category: Category, now: int) {
    && UserIdField in r && r[UserIdField] == Text(uid)
    && CategoryField in r && r[CategoryField] == Text(CategoryName(category))
    && RatingField in r && r[RatingField] == Undefined
    && NotesField in r && r[NotesField] == Undefined
    && IsManualField in r && r[IsManualField] == Flag(false)
    && AddedAtField in r && r[AddedAtField] == Date(now)
    && FinishedAtField !in r
  }

  lemma RecordIdAndDates(f: FormattedBook, uid: string, category: Category, now: int)
    ensures var r := NewBookRecord(f, uid, category, now);
      IdField in r && r[IdField] == Text(f.id) && FinishedAtField !in r
  {
  }

  lemma RecordItemFields(f: FormattedBook, uid: string, category: Category, now: int)
    ensures RecordHoldsItem(NewBookRecord(f, uid, category, now), f)
  {
  }

  lemma RecordDetailFields(f: FormattedBook, uid: string, category: Category, now: int)
    ensures RecordHoldsDetails(NewBookRecord(f, uid, category, now), f)
  {
  }

  lemma RecordAddedFields(f: FormattedBook, uid: string, category: Category, now: int)
    ensures RecordHoldsAdded(NewBookRecord(f, uid, category, now), uid, category, now)
  {
  }

  /** What `addBook` stores of those fields. */
  predicate StoredHoldsItem(stored: Fields, f: FormattedBook) {
    && IdField in stored && stored[IdField] == Text(f.id)
    && (IsbnField in stored <==> f.isbn.Some?)
    && (f.isbn.Some? ==> stored[IsbnField] == Text(f.isbn.value))
    && TitleField in stored && stored[TitleField] == Text(f.title)
    && AuthorField in stored && stored[AuthorField] == Text(f.author)
    && DescriptionField in stored && stored[DescriptionField] == Text(f.description)
  }

  predicate StoredHoldsDetails(stored: Fields, f: FormattedBook) {
    && CoverUrlField in stored && stored[CoverUrlField] == Text(f.coverUrl)
    && PageCountField in stored && stored[PageCountField] == Number(f.pageCount)
    && GenresField in stored && stored[GenresField] == TextList(f.genres)
    && PublishedYearField in stored && stored[PublishedYearField] == YearValue(f.publishedYear)
  }

  predicate StoredHoldsAdded(stored: Fields, uid: string, category: Category, serverTime: int) {
    && AddedAtField in stored && stored[AddedAtField] == Timestamp(serverTime)
    && UserIdField in stored && stored[UserIdField] == Text(uid)
    && CategoryField in stored && stored[CategoryField] == Text(CategoryName(category))
    && IsManualField in stored && stored[IsManualField] == Flag(false)
  }

  predicate StoredHoldsAbsent(stored: Fields) {
    RatingField !in stored && NotesField !in stored && FinishedAtField !in stored
  }

  lemma StoredItemFields(r: Fields, f: FormattedBook, serverTime: int)
    requires RecordHoldsItem(r, f)
    ensures StoredHoldsItem(PersistAll(AddPayload(r), serverTime), f)
  {
    StoredKey(r, serverTime, IdField);
    StoredKey(r, serverTime, IsbnField);
    StoredKey(r, serverTime, TitleField);
    StoredKey(r, serverTime, AuthorField);
    StoredKey(r, serverTime, DescriptionField);
  }

  lemma StoredDetailFields(r: Fields, f: FormattedBook, serverTime: int)
    requires RecordHoldsDetails(r, f)
    ensures StoredHoldsDetails(PersistAll(AddPayload(r), serverTime), f)
  {
    StoredKey(r, serverTime, CoverUrlField);
    StoredKey(r, serverTime, PageCountField);
    StoredKey(r, serverTime, PublishedYearField);
    StoredKey(r, serverTime, GenresField);
  }

  lemma StoredAddedFields(r: Fields, uid: string, category: Category, now: int, serverTime: int)
    requires RecordHoldsAdded(r, uid, category, now)
    ensures StoredHoldsAdded(PersistAll(AddPayload(r), serverTime), uid, category, serverTime)
  {
    StoredKey(r, serverTime, UserIdField);
    StoredKey(r, serverTime, CategoryField);
    StoredKey(r, serverTime, IsManualField);
  }

  lemma StoredAbsentFields(r: Fields, uid: string, category: Category, now: int, serverTime: int)
    requires RecordHoldsAdded(r, uid, category, now)
    ensures StoredHoldsAbsent(PersistAll(AddPayload(r), serverTime))
  {
    StoredKey(r, serverTime, RatingField);
    StoredKey(r, serverTime, NotesField);
    StoredKey(r, serverTime, FinishedAtField);
  }

  /** The document the add pipeline stores for a normalised item: the item
      with the owner and the chosen category, no rating and no notes, not
      manual, an `isbn` only when the item has one, a `publishedYear` even
      when it is `null`, and the server time as `addedAt` rather than the
      client's clock. */
  lemma AddPipelineDocument(f: FormattedBook, uid: string, category: Category, now: int, serverTime: int)
    ensures var stored := PersistAll(AddPayload(NewBookRecord(f, uid, category, now)), serverTime);
      && StoredHoldsItem(stored, f) && StoredHoldsDetails(stored, f)
      && StoredHoldsAdded(stored, uid, category, serverTime) && StoredHoldsAbsent(stored)
  {
    var r := NewBookRecord(f, uid, category, now);
    RecordItemFields(f, uid, category, now);
    RecordDetailFields(f, uid, category, now);
    RecordAddedFields(f, uid, category, now);
    StoredItemFields(r, f, serverTime);
    StoredDetailFields(r, f, serverTime);
    StoredAddedFields(r, uid, category, now, serverTime);
    StoredAbsentFields(r, uid, category, now, serverTime);
  }

  /** As written, the record carries the catalogue volume id as `id`, and the
      snapshot mapping lets that stored field override the document id: the
      book the library shows has the volume id, and deleting it by that id
      leaves the document in place. */
  lemma ShownIdIsVolumeId(docs: map<string, Fields>, f: FormattedBook, uid: string, category: Category,
                          now: int, serverTime: int, newId: string, later: int)
    requires newId != f.id && f.id !in docs
    ensures var stored := PersistAll(AddPayload(NewBookRecord(f, uid, category, now)), serverTime);
      var shown := ToRecord(newId, stored, later);
      && shown.Some? && shown.value[IdField] == Text(f.id)
      && newId in docs[newId := stored] - {f.id}
  {
    var r := NewBookRecord(f, uid, category, now);
    var stored := PersistAll(AddPayload(r), serverTime);
    RecordIdAndDates(f, uid, category, now);
    StoredKey(r, serverTime, IdField);
    StoredKey(r, serverTime, FinishedAtField);
    StoredAddedAt(r, serverTime);
    assert IdField in stored && stored[IdField] == Text(f.id);
    ShownRecord(newId, stored, later);
  }

  /** A stored book with a timestamp `addedAt` and no `finishedAt` is shown,
      under its stored `id` when it has one. */
  lemma ShownRecord(docId: string, stored: Fields, later: int)
    requires AddedAtField in stored && stored[AddedAtField].Timestamp? && FinishedAtField !in stored
    ensures ToRecord(docId, stored, later).Some?
    ensures ToRecord(docId, stored, later).value[IdField] == if IdField in stored then stored[IdField] else Text(docId)
  {
  }

  /** The record as evidently intended by `addBook`'s parameter type, which
      leaves out `id` and `addedAt`: without the volume id. */
  function NewBookRecordFixed(f: FormattedBook, uid: string, category: Category, now: int): (r: Fields)
    ensures IdField !in r
    ensures forall k :: k in r ==> k in NewBookRecord(f, uid, category, now) && r[k] == NewBookRecord(f, uid, category, now)[k]
  {
    NewBookRecord(f, uid, category, now) - {IdField}
  }

  /** With the corrected record the shown book has the document id, and
      deleting it by that id removes the document. */
  lemma FixedShownIdIsDocumentId(docs: map<string, Fields>, f: FormattedBook, uid: string, category: Category,
                                 now: int, serverTime: int, newId: string, later: int)
    ensures var stored := PersistAll(AddPayload(NewBookRecordFixed(f, uid, category, now)), serverTime);
      var shown := ToRecord(newId, stored, later);
      && shown.Some? && shown.value[IdField] == Text(newId)
      && newId !in docs[newId := stored] - {shown.value[IdField].text}
  {
    var record := NewBookRecordFixed(f, uid, category, now);
    var stored := PersistAll(AddPayload(record), serverTime);
    StoredKey(record, serverTime, IdField);
    StoredKey(record, serverTime, FinishedAtField);
    StoredAddedAt(record, serverTime);
    ShownRecord(newId, stored, later);
  }

  /** The cover a result shows: `thumbnail?.replace(...) || smallThumbnail?.replace(...)`,
      possibly `undefined` (`None`); it is drawn when truthy. */
  function ResultCover(links: Option<ImageLinks>): Option<string> {
    if links.None? then None
    else
      var thumb := links.value.thumbnail;
      var small := links.value.smallThumbnail;
      if thumb.Some? && Secure(thumb.value) != "" then Some(Secure(thumb.value))
      else if small.Some? then Some(Secure(small.value))
      else None
  }

  /** The result list draws a cover exactly when the added book gets one,
      and it is the same URL. */
  lemma ResultCoverMatchesBook(item: GoogleBooksItem)
    ensures var shown := ResultCover(item.volumeInfo.imageLinks);
      (shown.Some? && shown.value != "") <==> FormatBook(item).coverUrl != ""
    ensures var shown := ResultCover(item.volumeInfo.imageLinks);
      shown.Some? && shown.value != "" ==> shown.value == FormatBook(item).coverUrl
  {
  }

  /** The year a result shows: `publishedDate.split('-')[0]`, when there is a date. */
  function YearText(date: Option<string>): Option<string> {
    if date.None? || date.value == "" then None else Some(BeforeFirst(date.value, '-'))
  }

  /** A result whose date starts with a year shows that year and the added
      book stores it. */
  lemma YearTextMatchesBook(item: GoogleBooksItem, year: nat, rest: string)
    requires rest == "" || rest[0] == '-'
    requires item.volumeInfo.publishedDate == Some(NatToString(year) + rest)
    ensures YearText(item.volumeInfo.publishedDate) == Some(NatToString(year))
    ensures FormatBook(item).publishedYear == Year(year)
  {
    BeforeFirstOfPrefix(NatToString(year), rest, '-');
    FormatYear(item, year, rest);
  }

  /** The local state of the dialog. */
  class Dialog {
    var query: string
    var results: ResultsState
    var searching: bool
    var selected: Option<GoogleBooksItem>
    var category: Category
    var adding: bool

    constructor ()
      ensures query == "" && results == Items([]) && !searching && selected.None? && category == Wishlist && !adding
    {
      query := "";
      results := Items([]);
      searching := false;
      selected := None;
      category := Wishlist;
      adding := false;
    }

    /** The effect on `open`: closing resets the dialog to its initial
        search state and category. */
    method OnOpenChange(open: bool)
      modifies this
      ensures !open ==> query == "" && results == Items([]) && selected.None? && category == Wishlist
      ensures open ==> query == old(query) && results == old(results) && selected == old(selected) && category == old(category)
      ensures searching == old(searching) && adding == old(adding)
    {
      if !open {
        query := "";
        results := Items([]);
        selected := None;
        category := Wishlist;
      }
    }

    /** Typing into the search field: a blank query clears the results and
        schedules nothing; any other query schedules a search. */
    method OnQueryChange(q: string) returns (scheduled: bool)
      modifies this
      ensures query == q
      ensures scheduled <==> !IsBlank(q)
      ensures !scheduled ==> results == Items([])
      ensures scheduled ==> results == old(results)
      ensures searching == old(searching) && selected == old(selected) && category == old(category) && adding == old(adding)
    {
      query := q;
      if IsBlank(q) {
        results := Items([]);
        scheduled := false;
      } else {
        scheduled := true;
      }
    }

    /** The scheduled search, once its timer fires: the whole result of
        `searchBooks(searchQuery)` is stored in `searchResults`, so neither
        the list nor the "no results" note can show. */
    method RunScheduledSearch(client: CatalogClient, now: int, later: int, network: nat -> Reply)
      returns (result: SearchResult, attempts: nat, waits: seq<int>)
      modifies this, client
      ensures SearchOutcome(old(client.cache), query, DefaultMaxResults, now, later, network,
                            result, attempts, waits, client.cache)
      ensures results == WholeResult(result) && !searching
      ensures !ShowsList(results, searching) && !ShowsNoResults(query, results, searching)
      ensures query == old(query) && selected == old(selected) && category == old(category) && adding == old(adding)
    {
      searching := true;
      result, attempts, waits := client.SearchBooks(query, DefaultMaxResults, now, later, network);
      results := WholeResult(result);
      searching := false;
    }

    /** The scheduled search as intended: the items of the result are
        stored, so the list shows exactly when there are items and the note
        exactly when a query found none. */
    method RunScheduledSearchFixed(client: CatalogClient, now: int, later: int, network: nat -> Reply)
      returns (result: SearchResult, attempts: nat, waits: seq<int>)
      modifies this, client
      ensures SearchOutcome(old(client.cache), query, DefaultMaxResults, now, later, network,
                            result, attempts, waits, client.cache)
      ensures results == Items(result.items) && !searching
      ensures ShowsList(results, searching) <==> |result.items| > 0
      ensures ShowsNoResults(query, results, searching) <==> query != "" && |result.items| == 0
      ensures query == old(query) && selected == old(selected) && category == old(category) && adding == old(adding)
    {
      searching := true;
      result, attempts, waits := client.SearchBooks(query, DefaultMaxResults, now, later, network);
      results := Items(result.items);
      searching := false;
    }

    /** `handleAddBook(item)`: nothing without a user; otherwise the record is
        added and the dialog closes, or the error is alerted. `newId` is the
        id the store generates. */
    method HandleAddBook(user: Option<string>, item: GoogleBooksItem, store: Store, newId: string, now: int, serverTime: int)
      returns (closed: bool, alerted: bool)
      requires newId !in store.docs
      modifies this, store
      ensures user.None? ==> !closed && !alerted && store.docs == old(store.docs) && adding == old(adding)
      ensures user.Some? && store.initialised ==>
        closed && !alerted && !adding &&
        store.docs == old(store.docs)[newId := PersistAll(AddPayload(NewBookRecord(FormatBook(item), user.value, category, now)), serverTime)]
      ensures user.Some? && !store.initialised ==> !closed && alerted && !adding && store.docs == old(store.docs)
      ensures query == old(query) && results == old(results) && category == old(category)
      ensures selected == old(selected) && searching == old(searching)
    {
      closed, alerted := false, false;
      if user.None? {
        return;
      }
      adding := true;
      var formatted := FormatBook(item);
      var record := NewBookRecord(formatted, user.value, category, now);
      assert !HoldsDeleteField(AddPayload(record));
      var r := store.AddBook(record, newId, serverTime);
      if r.Success? {
        closed := true;
      } else {
        alerted := true;
      }
      adding := false;
    }
  }
}
