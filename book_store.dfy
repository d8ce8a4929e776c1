/** The book store of `useBooks.ts`: the `books` collection as a map from
    document id to the fields of the document, the payload rules of
    `addBook`, `updateBook` and `deleteBook`, the query the subscription
    selects, the mapping of a stored document to a book, and
    `searchBooksInLibrary`. The clock and the id Firestore generates are
    parameters; a query's answer is supplied as a listing of documents. */
module BookStore {
  import opened Wrappers
  import opened JsText
  import opened Types
  import Sequences

  /** The values a payload or a stored document holds. `Date` is a JS `Date`,
      `Timestamp` a Firestore timestamp, `ServerTimestamp` the
      `serverTimestamp()` sentinel and `DeleteField` the `deleteField()` one. */
  datatype Value =
    | Undefined
    | Null
    | NotANumber
    | Text(text: string)
    | Number(number: int)
    | Flag(flag: bool)
    | TextList(texts: seq<string>)
    | Date(ms: int)
    | Timestamp(ms: int)
    | ServerTimestamp
    | DeleteField

  /** The names of the `Book` fields, the only keys the payloads and the
      stored documents of this module carry. */
  datatype Key =
    | IdField | IsbnField | TitleField | AuthorField | DescriptionField | CoverUrlField
    | PageCountField | PublishedYearField | GenresField | UserIdField | CategoryField
    | RatingField | NotesField | AddedAtField | FinishedAtField | IsManualField

  type Fields = map<Key, Value>

  /** JS truthiness. */
  predicate Truthy(v: Value) {
    match v
    case Undefined => false
    case Null => false
    case NotANumber => false
    case Text(t) => t != ""
    case Number(n) => n != 0
    case Flag(b) => b
    case _ => true
  }

  /** `Firebase není inicializováno`, a missing document, and data Firestore
      refuses to write (`undefined` without `ignoreUndefinedProperties`, a
      `deleteField()` outside an update). */
  datatype StoreError = NotInitialised | NoDocument | InvalidData

  const NotInitialisedMessage: string := "Firebase není inicializováno"

  /** The `cleanData` comprehension of `addBook`. */
  function CleanData(data: Fields): Fields {
    map k | k in data && data[k] != Undefined :: data[k]
  }

  /** `{...cleanData, addedAt: serverTimestamp()}` */
  function AddPayload(data: Fields): Fields {
    CleanData(data)[AddedAtField := ServerTimestamp]
  }

  /** How Firestore stores a written value: a `Date` as a timestamp, the
      server-time sentinel as the time the write reached the server. */
  function Persisted(v: Value, serverTime: int): Value {
    match v
    case Date(ms) => Timestamp(ms)
    case ServerTimestamp => Timestamp(serverTime)
    case _ => v
  }

  function PersistAll(payload: Fields, serverTime: int): Fields {
    map k | k in payload :: Persisted(payload[k], serverTime)
  }

  predicate HoldsUndefined(payload: Fields) {
    exists k :: k in payload && payload[k] == Undefined
  }

  predicate HoldsDeleteField(payload: Fields) {
    exists k :: k in payload && payload[k] == DeleteField
  }

  /** What Firestore writes of an update payload: the payload without its
      `undefined` fields when `ignoreUndefinedProperties` is set, else the
      payload, or a refusal when it holds `undefined`. */
  function Written(payload: Fields, ignoreUndefined: bool): (r: Result<Fields, StoreError>)
    ensures r.Success? ==> !HoldsUndefined(r.value)
    ensures r.Failure? <==> !ignoreUndefined && HoldsUndefined(payload)
  {
    if ignoreUndefined then Success(CleanData(payload))
    else if HoldsUndefined(payload) then Failure(InvalidData)
    else Success(payload)
  }

  /** `updateDoc` merging a written payload into a document: each payload
      field replaces the stored one, `deleteField()` removes it, and the
      fields the payload does not name keep their values. */
  function ApplyUpdate(doc: Fields, payload: Fields, serverTime: int): Fields {
    map k | k in doc.Keys + payload.Keys && !(k in payload && payload[k] == DeleteField) ::
      if k in payload then Persisted(payload[k], serverTime) else doc[k]
  }

  /** `updateData` of `updateBook`: the updates without `id` and `addedAt`,
      with a truthy `finishedAt` turned into a timestamp (of the date when
      it is a `Date`, else of the server time). */
  function UpdateData(updates: Fields): (r: Fields)
    ensures IdField !in r && AddedAtField !in r
  {
    var converted :=
      if FinishedAtField in updates && Truthy(updates[FinishedAtField]) then
        updates[FinishedAtField := if updates[FinishedAtField].Date? then Timestamp(updates[FinishedAtField].ms) else ServerTimestamp]
      else updates;
    converted - {IdField, AddedAtField}
  }

  /** The building of `updateData`, step by step as `updateBook` does it. */
  method BuildUpdateData(updates: Fields) returns (updateData: Fields)
    ensures updateData == UpdateData(updates)
  {
    updateData := updates;
    if FinishedAtField in updates && Truthy(updates[FinishedAtField]) {
      var finishedAt := updates[FinishedAtField];
      updateData := updateData[FinishedAtField := if finishedAt.Date? then Timestamp(finishedAt.ms) else ServerTimestamp];
    }
    updateData := updateData - {IdField};
    updateData := updateData - {AddedAtField};
  }

  /** One field of `updateData`: `id` and `addedAt` are dropped, every other
      field of the updates is kept with its value, except that a truthy
      `finishedAt` becomes a timestamp (of the date when it is a `Date`,
      else of the server time). */
  lemma UpdateDataKey(updates: Fields, k: Key)
    ensures k == IdField || k == AddedAtField ==> k !in UpdateData(updates)
    ensures k != IdField && k != AddedAtField ==> (k in UpdateData(updates) <==> k in updates)
    ensures k != IdField && k != AddedAtField && k != FinishedAtField && k in updates ==>
      UpdateData(updates)[k] == updates[k]
    ensures k == FinishedAtField && k in updates ==>
      var f := updates[k];
      UpdateData(updates)[k] == (if !Truthy(f) then f else if f.Date? then Timestamp(f.ms) else ServerTimestamp)
  {
  }

  /** An update never touches the stored `id` and `addedAt` of a document. */
  lemma UpdateKeepsIdAndAddedAt(doc: Fields, updates: Fields, ignoreUndefined: bool, serverTime: int)
    requires Written(UpdateData(updates), ignoreUndefined).Success?
    ensures var after := ApplyUpdate(doc, Written(UpdateData(updates), ignoreUndefined).value, serverTime);
      forall k :: k == IdField || k == AddedAtField ==> (k in after <==> k in doc) && (k in doc ==> after[k] == doc[k])
  {
  }

  /** A `Date` given as `finishedAt` is stored as the timestamp of that date. */
  lemma UpdateStoresFinishedDate(doc: Fields, updates: Fields, ms: int, ignoreUndefined: bool, serverTime: int)
    requires FinishedAtField in updates && updates[FinishedAtField] == Date(ms)
    requires Written(UpdateData(updates), ignoreUndefined).Success?
    ensures var after := ApplyUpdate(doc, Written(UpdateData(updates), ignoreUndefined).value, serverTime);
      FinishedAtField in after && after[FinishedAtField] == Timestamp(ms)
  {
    var payload := UpdateData(updates);
    UpdateDataKey(updates, FinishedAtField);
    assert FinishedAtField in payload && payload[FinishedAtField] == Timestamp(ms);
  }

  lemma WrittenPart(payload: Fields, ignoreUndefined: bool)
    requires Written(payload, ignoreUndefined).Success?
    ensures forall k :: k in Written(payload, ignoreUndefined).value ==>
      k in payload && Written(payload, ignoreUndefined).value[k] == payload[k]
  {
  }

  /** A field the payload does not name keeps its stored value. */
  lemma ApplyUpdateUntouched(doc: Fields, payload: Fields, serverTime: int)
    ensures forall k :: k !in payload ==>
      (k in ApplyUpdate(doc, payload, serverTime) <==> k in doc) &&
      (k in doc ==> ApplyUpdate(doc, payload, serverTime)[k] == doc[k])
  {
  }

  /** One field of a document after an update. */
  lemma ApplyUpdateKey(doc: Fields, payload: Fields, serverTime: int, k: Key)
    ensures k in payload && payload[k] == DeleteField ==> k !in ApplyUpdate(doc, payload, serverTime)
    ensures k in payload && payload[k] != DeleteField ==>
      k in ApplyUpdate(doc, payload, serverTime) && ApplyUpdate(doc, payload, serverTime)[k] == Persisted(payload[k], serverTime)
    ensures k !in payload ==>
      (k in ApplyUpdate(doc, payload, serverTime) <==> k in doc) &&
      (k in doc ==> ApplyUpdate(doc, payload, serverTime)[k] == doc[k])
  {
  }

  /** The collection after `updateBook(bookId, updates)` on an initialised
      store: the merged document, or the error `updateDoc` rejects with. */
  function UpdatedDocs(docs: map<string, Fields>, bookId: string, updates: Fields, ignoreUndefined: bool, serverTime: int)
    : (r: Result<map<string, Fields>, StoreError>)
    ensures r.Success? ==> bookId in docs && r.value.Keys == docs.Keys
    ensures r.Success? ==> forall id :: id in docs && id != bookId ==> r.value[id] == docs[id]
    ensures r.Failure? ==> r.error == NoDocument || (r.error == InvalidData && !ignoreUndefined)
  {
    match Written(UpdateData(updates), ignoreUndefined)
    case Failure(e) => Failure(e)
    case Success(payload) =>
      if bookId in docs then Success(docs[bookId := ApplyUpdate(docs[bookId], payload, serverTime)])
      else Failure(NoDocument)
  }

  /** A field `updateBook` sends as `undefined` is never changed: Firestore
      skips it, or refuses the whole update. */
  lemma UndefinedFieldKept(docs: map<string, Fields>, bookId: string, updates: Fields, ignoreUndefined: bool,
                           serverTime: int, k: Key)
    requires bookId in docs && k in docs[bookId]
    requires k in UpdateData(updates) && UpdateData(updates)[k] == Undefined
    ensures var out := UpdatedDocs(docs, bookId, updates, ignoreUndefined, serverTime);
      out.Failure? || (k in out.value[bookId] && out.value[bookId][k] == docs[bookId][k])
  {
    var u := UpdateData(updates);
    if ignoreUndefined {
      assert k !in CleanData(u);
      ApplyUpdateKey(docs[bookId], CleanData(u), serverTime, k);
    }
  }

  /** An update free of `undefined` is written whole: each field it names is
      stored, or removed when it is `deleteField()`. */
  lemma DefinedUpdateStored(docs: map<string, Fields>, bookId: string, updates: Fields, ignoreUndefined: bool,
                            serverTime: int)
    requires bookId in docs
    requires forall j :: j in UpdateData(updates) ==> UpdateData(updates)[j] != Undefined
    ensures var out := UpdatedDocs(docs, bookId, updates, ignoreUndefined, serverTime);
      && out.Success?
      && out.value[bookId] == ApplyUpdate(docs[bookId], UpdateData(updates), serverTime)
  {
    var u := UpdateData(updates);
    assert !HoldsUndefined(u);
    if ignoreUndefined {
      assert CleanData(u) == u;
    }
  }

  /** A document as the store hands it out. */
  datatype Doc = Doc(id: string, data: Fields)

  /** The query a subscription runs: the `books` collection ordered by
      `addedAt` descending, filtered on `category` when one is given. */
  datatype Query = Query(category: Option<Category>)

  /** The query `useBooks(userId, category)` subscribes to; none without a
      signed-in user or a database. */
  function Subscription(userId: Option<string>, dbReady: bool, category: Option<Category>): (q: Option<Query>)
    ensures q.Some? <==> userId.Some? && userId.value != "" && dbReady
    ensures q.Some? ==> q.value.category == category
  {
    if userId.None? || userId.value == "" || !dbReady then None else Some(Query(category))
  }

  /** The user gates the subscription but does not filter it: every signed-in
      user gets the same query, and so the same books. */
  lemma SubscriptionIgnoresUser(u1: string, u2: string, category: Option<Category>)
    requires u1 != "" && u2 != ""
    ensures Subscription(Some(u1), true, category) == Subscription(Some(u2), true, category)
    ensures Subscription(Some(u1), true, category).Some?
  {
  }

  /** A document the query returns: it has a timestamp `addedAt` to order by
      and, for a category query, that category. No field about the owner
      is consulted. */
  predicate Selected(q: Query, data: Fields) {
    && AddedAtField in data && data[AddedAtField].Timestamp?
    && (q.category.Some? ==> CategoryField in data && data[CategoryField] == Text(CategoryName(q.category.value)))
  }

  function AddedAtKey(d: Doc): int {
    if AddedAtField in d.data && d.data[AddedAtField].Timestamp? then d.data[AddedAtField].ms else 0
  }

  /** `listing` is the answer of the store `docs` to `q`: each selected
      document once, as stored, newest first. */
  ghost predicate Answers(docs: map<string, Fields>, q: Query, listing: seq<Doc>) {
    && (forall i :: 0 <= i < |listing| ==>
          listing[i].id in docs && docs[listing[i].id] == listing[i].data && Selected(q, listing[i].data))
    && (forall id :: id in docs && Selected(q, docs[id]) ==> exists i :: 0 <= i < |listing| && listing[i].id == id)
    && (forall i, j :: 0 <= i < j < |listing| ==> listing[i].id != listing[j].id)
    && Sequences.Descending(listing, AddedAtKey)
  }

  /** The outcome of `data.f?.toDate()`: nothing for a missing or null field,
      the date of a timestamp, and a thrown error for anything else. */
  datatype DateRead = NoValue | DateValue(date: Value) | Throws

  function ReadDate(data: Fields, key: Key): DateRead {
    if key !in data || data[key] == Undefined || data[key] == Null then NoValue
    else if data[key].Timestamp? then DateValue(Date(data[key].ms))
    else Throws
  }

  predicate Convertible(data: Fields) {
    !ReadDate(data, AddedAtField).Throws? && !ReadDate(data, FinishedAtField).Throws?
  }

  /** The book the snapshot handler builds from a document,
      `{id: doc.id, ...data, addedAt: ..., finishedAt: ...}`: none when the
      handler throws on a date field that is not a timestamp. */
  function ToRecord(docId: string, data: Fields, now: int): (r: Option<Fields>)
    ensures r.Some? <==> Convertible(data)
    ensures r.Some? ==> IdField in r.value && r.value[IdField] == (if IdField in data then data[IdField] else Text(docId))
    ensures r.Some? ==>
      && AddedAtField in r.value
      && r.value[AddedAtField] == (if ReadDate(data, AddedAtField).DateValue? then Date(data[AddedAtField].ms) else Date(now))
    ensures r.Some? ==>
      && FinishedAtField in r.value
      && r.value[FinishedAtField] == (if ReadDate(data, FinishedAtField).DateValue? then Date(data[FinishedAtField].ms) else Undefined)
    ensures r.Some? ==> forall k :: k in data && k != IdField && k != AddedAtField && k != FinishedAtField ==>
      k in r.value && r.value[k] == data[k]
  {
    var added := ReadDate(data, AddedAtField);
    var finished := ReadDate(data, FinishedAtField);
    if added.Throws? || finished.Throws? then None
    else
      var spread := map[IdField := Text(docId)] + data;
      Some(spread[AddedAtField := if added.DateValue? then added.date else Date(now)]
                 [FinishedAtField := if finished.DateValue? then finished.date else Undefined])
  }

  /** The snapshot handler: the books of a listing, in its order, or none
      when the mapping of some document throws. */
  method SnapshotBooks(listing: seq<Doc>, now: int) returns (books: Option<seq<Fields>>)
    ensures books.Some? <==> forall i :: 0 <= i < |listing| ==> Convertible(listing[i].data)
    ensures books.Some? ==>
      && |books.value| == |listing|
      && forall i :: 0 <= i < |listing| ==> books.value[i] == ToRecord(listing[i].id, listing[i].data, now).value
  {
    var booksData: seq<Fields> := [];
    var i := 0;
    while i < |listing|
      invariant 0 <= i <= |listing|
      invariant forall j :: 0 <= j < i ==> Convertible(listing[j].data)
      invariant |booksData| == i
      invariant forall j :: 0 <= j < i ==> booksData[j] == ToRecord(listing[j].id, listing[j].data, now).value
    {
      var book := ToRecord(listing[i].id, listing[i].data, now);
      if book.None? {
        return None;
      }
      booksData := booksData + [book.value];
      i := i + 1;
    }
    books := Some(booksData);
  }

  /** A document `searchBooksInLibrary` can read: title, author and
      description are present texts (the description is lower-cased without a
      presence check). */
  predicate Searchable(data: Fields) {
    && TitleField in data && data[TitleField].Text?
    && AuthorField in data && data[AuthorField].Text?
    && DescriptionField in data && data[DescriptionField].Text?
  }

  function TextOf(rec: Fields, key: Key): string {
    if key in rec && rec[key].Text? then rec[key].text else ""
  }

  /** The search condition for the lower-cased query `lq`. */
  predicate Found(lq: string, rec: Fields) {
    || Contains(Lower(TextOf(rec, TitleField)), lq)
    || Contains(Lower(TextOf(rec, AuthorField)), lq)
    || Contains(Lower(TextOf(rec, DescriptionField)), lq)
  }

  function Records(listing: seq<Doc>, now: int): (r: seq<Fields>)
    requires forall i :: 0 <= i < |listing| ==> Convertible(listing[i].data)
    ensures |r| == |listing|
  {
    seq(|listing|, i requires 0 <= i < |listing| => ToRecord(listing[i].id, listing[i].data, now).value)
  }

  lemma RecordsPrefix(listing: seq<Doc>, now: int, i: nat)
    requires i < |listing|
    requires forall j :: 0 <= j < |listing| ==> Convertible(listing[j].data)
    ensures Records(listing[..i + 1], now) == Records(listing[..i], now) + [Records(listing, now)[i]]
  {
  }

  /** The lower-cased title, author and description of a book as stored. */
  lemma RecordKeepsSearchedText(docId: string, data: Fields, now: int)
    requires Searchable(data) && Convertible(data)
    ensures var rec := ToRecord(docId, data, now).value;
      TextOf(rec, TitleField) == data[TitleField].text &&
      TextOf(rec, AuthorField) == data[AuthorField].text &&
      TextOf(rec, DescriptionField) == data[DescriptionField].text
  {
  }

  /** The `forEach` of `searchBooksInLibrary` over the listing: each
      document becomes a book, which is kept when the lower-cased query
      occurs in its title, author or description. */
  method SearchListing(searchQuery: string, listing: seq<Doc>, now: int) returns (results: seq<Fields>)
    requires forall i :: 0 <= i < |listing| ==> Convertible(listing[i].data)
    ensures results == Sequences.Filter(Records(listing, now), rec => Found(Lower(searchQuery), rec))
  {
    ghost var keep := rec => Found(Lower(searchQuery), rec);
    results := [];
    var i := 0;
    while i < |listing|
      invariant 0 <= i <= |listing|
      invariant results == Sequences.Filter(Records(listing[..i], now), keep)
    {
      var book := ToRecord(listing[i].id, listing[i].data, now).value;
      var searchLower := Lower(searchQuery);
      RecordsPrefix(listing, now, i);
      Sequences.FilterSnoc(Records(listing[..i], now), book, keep);
      if Found(searchLower, book) {
        results := results + [book];
      }
      i := i + 1;
    }
    assert listing[..i] == listing;
  }

  /** The store: the `books` collection, whether `db` is initialised, and the
      `ignoreUndefinedProperties` setting of the Firestore instance. */
  class Store {
    const initialised: bool
    const ignoreUndefined: bool
    var docs: map<string, Fields>

    constructor (initialised: bool, ignoreUndefined: bool, docs: map<string, Fields>)
      ensures this.initialised == initialised && this.ignoreUndefined == ignoreUndefined && this.docs == docs
    {
      this.initialised := initialised;
      this.ignoreUndefined := ignoreUndefined;
      this.docs := docs;
    }

    /** `addBook(bookData)`; `newId` is the fresh id Firestore generates and
        `serverTime` the time the write reaches the server. */
    method AddBook(bookData: Fields, newId: string, serverTime: int) returns (r: Result<string, StoreError>)
      requires newId !in docs
      modifies this
      ensures !initialised ==> r == Failure(NotInitialised) && docs == old(docs)
      ensures initialised && HoldsDeleteField(AddPayload(bookData)) ==> r == Failure(InvalidData) && docs == old(docs)
      ensures initialised && !HoldsDeleteField(AddPayload(bookData)) ==>
        r == Success(newId) && docs == old(docs)[newId := PersistAll(AddPayload(bookData), serverTime)]
    {
      if !initialised {
        return Failure(NotInitialised);
      }
      var payload := AddPayload(bookData);
      if HoldsDeleteField(payload) {
        return Failure(InvalidData);
      }
      docs := docs[newId := PersistAll(payload, serverTime)];
      r := Success(newId);
    }

    /** `updateBook(bookId, updates)` */
    method UpdateBook(bookId: string, updates: Fields, serverTime: int) returns (r: Result<(), StoreError>)
      modifies this
      ensures !initialised ==> r == Failure(NotInitialised) && docs == old(docs)
      ensures initialised ==>
        match UpdatedDocs(old(docs), bookId, updates, ignoreUndefined, serverTime)
        case Failure(e) => r == Failure(e) && docs == old(docs)
        case Success(after) => r == Success(()) && docs == after
    {
      if !initialised {
        return Failure(NotInitialised);
      }
      var updateData := BuildUpdateData(updates);
      var written := Written(updateData, ignoreUndefined);
      if written.Failure? {
        return Failure(written.error);
      }
      if bookId !in docs {
        return Failure(NoDocument);
      }
      docs := docs[bookId := ApplyUpdate(docs[bookId], written.value, serverTime)];
      r := Success(());
    }

    /** `deleteBook(bookId)`; deleting a missing document succeeds. */
    method DeleteBook(bookId: string) returns (r: Result<(), StoreError>)
      modifies this
      ensures !initialised ==> r == Failure(NotInitialised) && docs == old(docs)
      ensures initialised ==> r == Success(()) && docs == old(docs) - {bookId}
    {
      if !initialised {
        return Failure(NotInitialised);
      }
      docs := docs - {bookId};
      r := Success(());
    }

    /** `searchBooksInLibrary(searchQuery, userId)`, where `listing` is the
        answer to the query on all books, newest first. The user is not
        consulted. */
    method SearchLibrary(searchQuery: string, userId: Option<string>, listing: seq<Doc>, now: int)
      returns (results: seq<Fields>)
      requires Answers(docs, Query(None), listing)
      requires forall i :: 0 <= i < |listing| ==> Searchable(listing[i].data) && Convertible(listing[i].data)
      ensures IsBlank(searchQuery) || !initialised ==> results == []
      ensures !IsBlank(searchQuery) && initialised ==>
        results == Sequences.Filter(Records(listing, now), rec => Found(Lower(searchQuery), rec))
    {
      if IsBlank(searchQuery) || !initialised {
        return [];
      }
      results := SearchListing(searchQuery, listing, now);
    }
  }

  /** The search result keeps the order of the listing (newest first) and
      holds exactly the books whose lower-cased title, author or description
      contains the lower-cased query; the owner plays no part. */
  lemma SearchResultExact(listing: seq<Doc>, searchQuery: string, now: int)
    requires forall i :: 0 <= i < |listing| ==> Convertible(listing[i].data)
    ensures var results := Sequences.Filter(Records(listing, now), rec => Found(Lower(searchQuery), rec));
      && (forall i :: 0 <= i < |listing| ==>
            (Records(listing, now)[i] in results <==> Found(Lower(searchQuery), Records(listing, now)[i])))
      && Sequences.IsSubsequence(results, Records(listing, now))
  {
    var recs := Records(listing, now);
    var keep := rec => Found(Lower(searchQuery), rec);
    var results := Sequences.Filter(recs, keep);
    Sequences.FilterMembers(recs, keep);
    forall i | 0 <= i < |listing| && recs[i] in results
      ensures Found(Lower(searchQuery), recs[i])
    {
      var j :| 0 <= j < |results| && results[j] == recs[i];
    }
  }

  /** One field of a document stored by `addBook`. */
  lemma StoredKey(data: Fields, serverTime: int, k: Key)
    requires k != AddedAtField
    ensures k in PersistAll(AddPayload(data), serverTime) <==> k in data && data[k] != Undefined
    ensures k in data && data[k] != Undefined ==> PersistAll(AddPayload(data), serverTime)[k] == Persisted(data[k], serverTime)
  {
  }

  /** `addBook` always stores the server time as `addedAt`. */
  lemma StoredAddedAt(data: Fields, serverTime: int)
    ensures AddedAtField in PersistAll(AddPayload(data), serverTime)
    ensures PersistAll(AddPayload(data), serverTime)[AddedAtField] == Timestamp(serverTime)
  {
  }

  /** A book added with `addBook` is stored with exactly its defined fields,
      `Date`s as timestamps, and `addedAt` the server time, whatever
      `addedAt` (and whatever `id`) the data held. */
  lemma AddedDocument(bookData: Fields, serverTime: int)
    requires !HoldsDeleteField(bookData)
    ensures var stored := PersistAll(AddPayload(bookData), serverTime);
      && AddedAtField in stored && stored[AddedAtField] == Timestamp(serverTime)
      && (forall k :: k != AddedAtField ==> (k in stored <==> k in bookData && bookData[k] != Undefined))
      && (forall k :: k in stored && k != AddedAtField ==> stored[k] == Persisted(bookData[k], serverTime))
      && !HoldsUndefined(stored)
  {
  }
}
