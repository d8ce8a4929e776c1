/** The editing rules of `BookDetail.tsx`: the owner guard, the re-seeding of
    the local state when the detail opens, the rating toggle, and the
    payloads `handleSave` and `handleDelete` send to the store. `confirm`
    is a boolean input and the clock a parameter. */
module BookDetail {
  import opened Wrappers
  import opened JsText
  import opened Types
  import opened BookStore

  /** `canEdit`: the signed-in user owns the book. Both handlers return
      early without it. */
  predicate CanEdit(user: Option<string>, book: Book) {
    user.Some? && user.value == book.userId
  }

  /** A rating the stars can show: none, or 1 to 5. */
  predicate ValidRating(r: Option<int>) {
    r.None? || 1 <= r.value <= 5
  }

  /** The rating after clicking star `v`. */
  function Toggled(rating: Option<int>, v: int): (r: Option<int>)
    ensures r.None? <==> rating == Some(v)
    ensures r.Some? ==> r.value == v
  {
    if rating == Some(v) then None else Some(v)
  }

  /** Clicking stars 1 to 5 keeps the rating among none and 1 to 5, and
      clicking the same star twice in a row from none or that star restores
      the rating. */
  lemma ToggleKeepsRatingValid(rating: Option<int>, v: int)
    requires ValidRating(rating) && 1 <= v <= 5
    ensures ValidRating(Toggled(rating, v))
    ensures rating == None || rating == Some(v) ==> Toggled(Toggled(rating, v), v) == rating
  {
  }

  /** `notes.trim() || undefined` */
  function NotesValue(notes: string): (v: Value)
    ensures v == Undefined <==> IsBlank(notes)
    ensures v != Undefined ==> v == Text(Trim(notes)) && Trim(notes) != ""
  {
    var trimmed := Trim(notes);
    if trimmed == "" then Undefined else Text(trimmed)
  }

  /** The `rating` state as sent: the number, or `undefined` when no star is
      selected. */
  function RatingValue(rating: Option<int>): (v: Value)
    ensures v == Undefined <==> rating.None?
    ensures rating.Some? ==> v == Number(rating.value)
  {
    if rating.Some? then Number(rating.value) else Undefined
  }

  /** `category === 'finished' && !book.finishedAt ? new Date() : book.finishedAt` */
  function FinishedAtValue(category: Category, book: Book, now: int): (v: Value)
    ensures category == Finished && book.finishedAt.None? ==> v == Date(now)
    ensures book.finishedAt.Some? ==> v == Date(book.finishedAt.value)
    ensures category != Finished && book.finishedAt.None? ==> v == Undefined
  {
    if category == Finished && book.finishedAt.None? then Date(now)
    else if book.finishedAt.Some? then Date(book.finishedAt.value)
    else Undefined
  }

  /** The fields the detail view edits. */
  predicate Edited(k: Key) {
    k == CategoryField || k == RatingField || k == NotesField || k == FinishedAtField
  }

  /** The update `handleSave` sends: the four edited fields and nothing else. */
  function SavePayload(category: Category, rating: Option<int>, notes: string, book: Book, now: int): (p: Fields)
    ensures forall k :: k in p <==> Edited(k)
  {
    map[CategoryField := Text(CategoryName(category)),
        RatingField := RatingValue(rating),
        NotesField := NotesValue(notes),
        FinishedAtField := FinishedAtValue(category, book, now)]
  }

  /** Through `updateBook`, `finishedAt` is set to the time of the save when
      the chosen category is 'finished' and the book has none; a date the
      book has is written back as it is, whatever the category; and with
      neither, the field is sent as `undefined`. */
  lemma SaveFinishedAtWriteOnce(category: Category, rating: Option<int>, notes: string, book: Book, now: int)
    ensures var p := UpdateData(SavePayload(category, rating, notes, book, now));
      && FinishedAtField in p
      && (category == Finished && book.finishedAt.None? ==> p[FinishedAtField] == Timestamp(now))
      && (book.finishedAt.Some? ==> p[FinishedAtField] == Timestamp(book.finishedAt.value))
      && (category != Finished && book.finishedAt.None? ==> p[FinishedAtField] == Undefined)
  {
    var written := SavePayload(category, rating, notes, book, now);
    assert written[FinishedAtField] == FinishedAtValue(category, book, now);
    UpdateDataKey(written, FinishedAtField);
  }

  /** A save never removes a stored `finishedAt`, not even when the book
      leaves 'finished'. */
  lemma SaveNeverClearsFinishedAt(docs: map<string, Fields>, category: Category, rating: Option<int>, notes: string,
                                  book: Book, now: int, ignoreUndefined: bool, serverTime: int)
    requires book.id in docs && FinishedAtField in docs[book.id]
    requires UpdatedDocs(docs, book.id, SavePayload(category, rating, notes, book, now), ignoreUndefined, serverTime).Success?
    ensures FinishedAtField in UpdatedDocs(docs, book.id, SavePayload(category, rating, notes, book, now), ignoreUndefined, serverTime).value[book.id]
  {
    SaveFinishedAtWriteOnce(category, rating, notes, book, now);
  }

  /** The save changes only the four edited fields of the stored book. */
  lemma SaveTouchesOnlyEditedFields(docs: map<string, Fields>, category: Category, rating: Option<int>, notes: string,
                                    book: Book, now: int, ignoreUndefined: bool, serverTime: int)
    requires UpdatedDocs(docs, book.id, SavePayload(category, rating, notes, book, now), ignoreUndefined, serverTime).Success?
    ensures var after := UpdatedDocs(docs, book.id, SavePayload(category, rating, notes, book, now), ignoreUndefined, serverTime).value[book.id];
      forall k :: !Edited(k) ==>
        (k in after <==> k in docs[book.id]) && (k in after ==> after[k] == docs[book.id][k])
  {
    var p := SavePayload(category, rating, notes, book, now);
    var written := Written(UpdateData(p), ignoreUndefined).value;
    WrittenPart(UpdateData(p), ignoreUndefined);
    forall k | !Edited(k) ensures k !in written {
      UpdateDataKey(p, k);
    }
    ApplyUpdateUntouched(docs[book.id], written, serverTime);
  }

  /** Blank notes are sent as `undefined`, and Firestore either skips that
      field or refuses the whole update: the stored notes are never cleared. */
  lemma ClearedNotesSurvive(docs: map<string, Fields>, category: Category, rating: Option<int>, notes: string,
                            book: Book, now: int, ignoreUndefined: bool, serverTime: int)
    requires IsBlank(notes)
    requires book.id in docs && NotesField in docs[book.id]
    ensures var out := UpdatedDocs(docs, book.id, SavePayload(category, rating, notes, book, now), ignoreUndefined, serverTime);
      out.Failure? || (NotesField in out.value[book.id] && out.value[book.id][NotesField] == docs[book.id][NotesField])
  {
    var p := SavePayload(category, rating, notes, book, now);
    assert p[NotesField] == NotesValue(notes) == Undefined;
    UpdateDataKey(p, NotesField);
    UndefinedFieldKept(docs, book.id, SavePayload(category, rating, notes, book, now), ignoreUndefined, serverTime, NotesField);
  }

  /** The same holds for a rating cleared by clicking its star again. */
  lemma ClearedRatingSurvives(docs: map<string, Fields>, category: Category, notes: string,
                              book: Book, now: int, ignoreUndefined: bool, serverTime: int)
    requires book.id in docs && RatingField in docs[book.id]
    ensures var out := UpdatedDocs(docs, book.id, SavePayload(category, None, notes, book, now), ignoreUndefined, serverTime);
      out.Failure? || (RatingField in out.value[book.id] && out.value[book.id][RatingField] == docs[book.id][RatingField])
  {
    var p := SavePayload(category, None, notes, book, now);
    assert p[RatingField] == RatingValue(None) == Undefined;
    UpdateDataKey(p, RatingField);
    UndefinedFieldKept(docs, book.id, SavePayload(category, None, notes, book, now), ignoreUndefined, serverTime, RatingField);
  }

  /** The save payload as evidently intended: a cleared note or rating is
      sent as `deleteField()` (`value || deleteField()`), and `finishedAt`
      is left out when there is no date to write, since `updateBook` would
      turn a truthy `deleteField()` there into the server time. No field is
      `undefined`. */
  function SavePayloadFixed(category: Category, rating: Option<int>, notes: string, book: Book, now: int): (p: Fields)
    ensures forall k :: k in p ==> Edited(k)
  {
    var base := map[CategoryField := Text(CategoryName(category)),
                    RatingField := Cleared(RatingValue(rating)),
                    NotesField := Cleared(NotesValue(notes))];
    var finishedAt := FinishedAtValue(category, book, now);
    if finishedAt == Undefined then base else base[FinishedAtField := finishedAt]
  }

  /** `value || deleteField()` for a value that is either `undefined` or
      truthy: a missing value becomes a removal. */
  function Cleared(v: Value): (r: Value)
    ensures r != Undefined
    ensures v != Undefined ==> r == v
    ensures v == Undefined ==> r == DeleteField
  {
    if v == Undefined then DeleteField else v
  }

  /** The corrected payload always sends the category, the rating and the
      notes, and sends `finishedAt` exactly when the book is finished or has
      a date. */
  lemma FixedPayloadKeys(category: Category, rating: Option<int>, notes: string, book: Book, now: int)
    ensures var p := SavePayloadFixed(category, rating, notes, book, now);
      && CategoryField in p && RatingField in p && NotesField in p
      && (FinishedAtField in p <==> category == Finished || book.finishedAt.Some?)
  {
    var p := SavePayloadFixed(category, rating, notes, book, now);
    var v := FinishedAtValue(category, book, now);
    assert CategoryField in p && RatingField in p && NotesField in p;
    if v == Undefined {
      assert FinishedAtField !in p;
    } else {
      assert FinishedAtField in p;
    }
  }

  /** Each field of the corrected payload is the `|| deleteField()` of the
      field the as-written payload sends, so none is `undefined`. */
  lemma FixedPayloadField(category: Category, rating: Option<int>, notes: string, book: Book, now: int, k: Key)
    requires k in SavePayloadFixed(category, rating, notes, book, now)
    ensures k in SavePayload(category, rating, notes, book, now)
    ensures SavePayloadFixed(category, rating, notes, book, now)[k] == Cleared(SavePayload(category, rating, notes, book, now)[k])
  {
    var p := SavePayload(category, rating, notes, book, now);
    var f := SavePayloadFixed(category, rating, notes, book, now);
    if k == FinishedAtField {
      assert f[k] == FinishedAtValue(category, book, now) == p[k];
    } else if k == NotesField {
      assert f[k] == Cleared(NotesValue(notes)) && p[k] == NotesValue(notes);
    } else if k == RatingField {
      assert f[k] == Cleared(RatingValue(rating)) && p[k] == RatingValue(rating);
    } else {
      assert k == CategoryField;
      assert f[k] == Text(CategoryName(category)) == p[k];
    }
  }

  /** The notes, rating and finishing date of the as-written payload. */
  lemma SavePayloadField(category: Category, rating: Option<int>, notes: string, book: Book, now: int)
    ensures var p := SavePayload(category, rating, notes, book, now);
      && p[NotesField] == NotesValue(notes)
      && p[RatingField] == RatingValue(rating)
      && p[FinishedAtField] == FinishedAtValue(category, book, now)
  {
  }

  /** A field other than `id`, `addedAt` and `finishedAt` that the payload
      sends as `v || deleteField()` reaches `updateDoc` unchanged. */
  lemma UpdateClearedKey(p: Fields, k: Key, v: Value)
    requires k in p && p[k] == Cleared(v)
    requires k != IdField && k != AddedAtField && k != FinishedAtField
    ensures k in UpdateData(p) && UpdateData(p)[k] == Cleared(v)
  {
    UpdateDataKey(p, k);
  }

  /** `updateBook` turns no field of the corrected payload into `undefined`. */
  lemma FixedUpdateData(category: Category, rating: Option<int>, notes: string, book: Book, now: int)
    ensures var u := UpdateData(SavePayloadFixed(category, rating, notes, book, now));
      forall k :: k in u ==> u[k] != Undefined
  {
    var p := SavePayloadFixed(category, rating, notes, book, now);
    var u := UpdateData(p);
    forall k | k in u ensures u[k] != Undefined {
      UpdateDataKey(p, k);
      FixedPayloadField(category, rating, notes, book, now, k);
    }
  }

  /** `updateBook` passes the corrected notes and rating through: a removal
      for blank notes and a cleared rating, the trimmed notes and the rating
      otherwise. */
  lemma FixedUpdateClears(category: Category, rating: Option<int>, notes: string, book: Book, now: int)
    ensures var u := UpdateData(SavePayloadFixed(category, rating, notes, book, now));
      && NotesField in u && u[NotesField] == (if IsBlank(notes) then DeleteField else Text(Trim(notes)))
      && RatingField in u && u[RatingField] == (if rating.Some? then Number(rating.value) else DeleteField)
  {
    var p := SavePayloadFixed(category, rating, notes, book, now);
    FixedPayloadKeys(category, rating, notes, book, now);
    SavePayloadField(category, rating, notes, book, now);
    FixedPayloadField(category, rating, notes, book, now, NotesField);
    FixedPayloadField(category, rating, notes, book, now, RatingField);
    UpdateClearedKey(p, NotesField, NotesValue(notes));
    UpdateClearedKey(p, RatingField, RatingValue(rating));
  }

  /** With the corrected payload `finishedAt` is written as the timestamp of
      the save at the first finish, as the book's own date once it has one,
      and not at all otherwise. */
  lemma FixedUpdateFinishedAt(category: Category, rating: Option<int>, notes: string, book: Book, now: int)
    ensures var u := UpdateData(SavePayloadFixed(category, rating, notes, book, now));
      && (category == Finished && book.finishedAt.None? ==> FinishedAtField in u && u[FinishedAtField] == Timestamp(now))
      && (book.finishedAt.Some? ==> FinishedAtField in u && u[FinishedAtField] == Timestamp(book.finishedAt.value))
      && (category != Finished && book.finishedAt.None? ==> FinishedAtField !in u)
  {
    var p := SavePayloadFixed(category, rating, notes, book, now);
    FixedPayloadKeys(category, rating, notes, book, now);
    UpdateDataKey(p, FinishedAtField);
    if FinishedAtField in p {
      SavePayloadField(category, rating, notes, book, now);
      FixedPayloadField(category, rating, notes, book, now, FinishedAtField);
    }
  }

  /** With the corrected payload the save succeeds on an existing book under
      either setting, clears blank notes and a cleared rating, stores the
      trimmed notes otherwise, and keeps `finishedAt` write-once: set at the
      first finish, written back as it is afterwards. */
  lemma FixedSaveClears(docs: map<string, Fields>, category: Category, rating: Option<int>, notes: string,
                        book: Book, now: int, ignoreUndefined: bool, serverTime: int)
    requires book.id in docs
    ensures var out := UpdatedDocs(docs, book.id, SavePayloadFixed(category, rating, notes, book, now), ignoreUndefined, serverTime);
      && out.Success?
      && var after := out.value[book.id];
      && (IsBlank(notes) ==> NotesField !in after)
      && (!IsBlank(notes) ==> NotesField in after && after[NotesField] == Text(Trim(notes)))
      && (rating.None? ==> RatingField !in after)
      && (rating.Some? ==> RatingField in after && after[RatingField] == Number(rating.value))
      && (book.finishedAt.Some? ==> FinishedAtField in after && after[FinishedAtField] == Timestamp(book.finishedAt.value))
      && (category == Finished && book.finishedAt.None? ==> FinishedAtField in after && after[FinishedAtField] == Timestamp(now))
      && (FinishedAtField in docs[book.id] ==> FinishedAtField in after)
  {
    var p := SavePayloadFixed(category, rating, notes, book, now);
    var u := UpdateData(p);
    FixedUpdateData(category, rating, notes, book, now);
    FixedUpdateClears(category, rating, notes, book, now);
    FixedUpdateFinishedAt(category, rating, notes, book, now);
    DefinedUpdateStored(docs, book.id, p, ignoreUndefined, serverTime);
    var doc := docs[book.id];
    ApplyUpdateKey(doc, u, serverTime, NotesField);
    ApplyUpdateKey(doc, u, serverTime, RatingField);
    ApplyUpdateKey(doc, u, serverTime, FinishedAtField);
  }

  /** The local state of the detail view. */
  class Editor {
    var category: Category
    var rating: Option<int>
    var notes: string
    var saving: bool
    var deleting: bool

    /** The initial state, taken from the book. */
    constructor (book: Book)
      ensures category == book.category && rating == book.rating && notes == book.notes.GetOr("")
      ensures !saving && !deleting
    {
      category := book.category;
      rating := book.rating;
      notes := book.notes.GetOr("");
      saving := false;
      deleting := false;
    }

    /** The effect that re-seeds category, rating and notes from the book
        whenever the detail is open. */
    method Reseed(book: Book, open: bool)
      modifies this
      ensures open ==> category == book.category && rating == book.rating && notes == book.notes.GetOr("")
      ensures !open ==> category == old(category) && rating == old(rating) && notes == old(notes)
      ensures saving == old(saving) && deleting == old(deleting)
    {
      if open {
        category := book.category;
        rating := book.rating;
        notes := book.notes.GetOr("");
      }
    }

    method ClickStar(v: int)
      modifies this
      ensures rating == Toggled(old(rating), v)
      ensures category == old(category) && notes == old(notes) && saving == old(saving) && deleting == old(deleting)
    {
      rating := if rating == Some(v) then None else Some(v);
    }

    /** `handleSave`; `closed` reports `onOpenChange(false)` and `alerted` the
        error alert. */
    method HandleSave(user: Option<string>, book: Book, store: Store, now: int, serverTime: int)
      returns (closed: bool, alerted: bool)
      modifies this, store
      ensures !CanEdit(user, book) ==>
        !closed && !alerted && store.docs == old(store.docs) && saving == old(saving)
      ensures CanEdit(user, book) && !store.initialised ==>
        !closed && alerted && store.docs == old(store.docs) && !saving
      ensures CanEdit(user, book) && store.initialised ==>
        && !saving
        && match UpdatedDocs(old(store.docs), book.id, SavePayload(old(category), old(rating), old(notes), book, now),
                             store.ignoreUndefined, serverTime)
           case Success(after) => closed && !alerted && store.docs == after
           case Failure(_) => !closed && alerted && store.docs == old(store.docs)
      ensures category == old(category) && rating == old(rating) && notes == old(notes) && deleting == old(deleting)
    {
      closed, alerted := false, false;
      if !CanEdit(user, book) {
        return;
      }
      saving := true;
      var payload := SavePayload(category, rating, notes, book, now);
      var r := store.UpdateBook(book.id, payload, serverTime);
      if r.Success? {
        closed := true;
      } else {
        alerted := true;
      }
      saving := false;
    }

    /** `handleDelete`; `confirmed` is the answer to the confirmation and
        `called` reports whether `deleteBook` was called. */
    method HandleDelete(user: Option<string>, book: Book, confirmed: bool, store: Store)
      returns (called: bool, closed: bool, alerted: bool)
      modifies this, store
      ensures called <==> CanEdit(user, book) && confirmed
      ensures !called ==> !closed && !alerted && store.docs == old(store.docs) && deleting == old(deleting)
      ensures called && store.initialised ==> closed && !alerted && store.docs == old(store.docs) - {book.id} && !deleting
      ensures called && !store.initialised ==> !closed && alerted && store.docs == old(store.docs) && !deleting
      ensures category == old(category) && rating == old(rating) && notes == old(notes) && saving == old(saving)
    {
      called, closed, alerted := false, false, false;
      if !CanEdit(user, book) {
        return;
      }
      if !confirmed {
        return;
      }
      deleting := true;
      called := true;
      var r := store.DeleteBook(book.id);
      if r.Success? {
        closed := true;
      } else {
        alerted := true;
      }
      deleting := false;
    }
  }
}
