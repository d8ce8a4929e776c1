/** The library view of `app/page.tsx`: the category selection and the
    subscription it opens, the search box and the list it filters, and the
    resets between them. */
module HomePage {
  import opened Wrappers
  import opened Types
  import opened JsText
  import opened Sequences
  import opened BookStore

  /** `selectedCategory`: a category, or 'all'. */
  datatype Selection = All | Only(category: Category)

  /** `selectedCategory === 'all' ? undefined : selectedCategory` */
  function SubscribedCategory(s: Selection): (c: Option<Category>)
    ensures c.None? <==> s.All?
    ensures s.Only? ==> c == Some(s.category)
  {
    match s
    case All => None
    case Only(category) => Some(category)
  }

  /** The book matches a query that is already lower-cased: its title, its
      author or, when it has one, its description contains the query. */
  predicate Matches(query: string, book: Book) {
    || Contains(Lower(book.title), query)
    || Contains(Lower(book.author), query)
    || (book.description.Some? && Contains(Lower(book.description.value), query))
  }

  function MatchesQuery(query: string): Book -> bool {
    (b: Book) => Matches(query, b)
  }

  /** `filteredBooks`: the whole list for a blank query; otherwise the books
      matching the lower-cased query, which is not trimmed. */
  function FilteredBooks(books: seq<Book>, searchQuery: string): seq<Book> {
    if IsBlank(searchQuery) then books else Filter(books, MatchesQuery(Lower(searchQuery)))
  }

  /** A blank query shows every book; any other query keeps, in their order,
      exactly the books whose title, author or present description contains
      it, letter case aside. */
  lemma FilteredBooksExact(books: seq<Book>, searchQuery: string)
    ensures IsBlank(searchQuery) ==> FilteredBooks(books, searchQuery) == books
    ensures IsSubsequence(FilteredBooks(books, searchQuery), books)
    ensures !IsBlank(searchQuery) ==>
      forall i :: 0 <= i < |books| ==>
        (books[i] in FilteredBooks(books, searchQuery) <==> Matches(Lower(searchQuery), books[i]))
  {
    if IsBlank(searchQuery) {
      SubsequenceOfItself(books);
    } else {
      var keep := MatchesQuery(Lower(searchQuery));
      FilterMembers(books, keep);
      var r := Filter(books, keep);
      forall i | 0 <= i < |books| && books[i] in r ensures Matches(Lower(searchQuery), books[i]) {
        var j :| 0 <= j < |r| && r[j] == books[i];
      }
    }
  }

  lemma {:induction false} SubsequenceOfItself<T>(s: seq<T>)
    ensures IsSubsequence(s, s)
    decreases |s|
  {
    if s != [] {
      SubsequenceOfItself(s[1..]);
    }
  }

  /** Queries that differ only in letter case show the same books. */
  lemma FilterIgnoresCase(books: seq<Book>, q1: string, q2: string)
    requires Lower(q1) == Lower(q2)
    ensures FilteredBooks(books, q1) == FilteredBooks(books, q2)
  {
    LowerKeepsBlank(q1);
    LowerKeepsBlank(q2);
  }

  /** The state of the page the filter and the subscription depend on. */
  class HomeState {
    var selected: Selection
    var searchQuery: string

    /** `useState('all')` and `useState('')` */
    constructor()
      ensures selected == All && searchQuery == ""
    {
      selected := All;
      searchQuery := "";
    }

    /** The subscription the page holds for a signed-in user. */
    function Subscribed(userId: Option<string>, dbReady: bool): Option<Query>
      reads this
    {
      Subscription(userId, dbReady, SubscribedCategory(selected))
    }

    /** The books the grid shows out of those the subscription delivers. */
    function Visible(books: seq<Book>): seq<Book>
      reads this
    {
      FilteredBooks(books, searchQuery)
    }

    /** The sidebar's `onCategoryChange`: selects the category and clears the
        search, so the grid shows every book the new subscription delivers. */
    method OnSidebarChange(selection: Selection)
      modifies this
      ensures selected == selection && searchQuery == ""
      ensures forall books :: Visible(books) == books
    {
      selected := selection;
      searchQuery := "";
    }

    /** The tabs' `onValueChange`: selects the category and keeps the search. */
    method OnTabChange(selection: Selection)
      modifies this
      ensures selected == selection && searchQuery == old(searchQuery)
    {
      selected := selection;
    }

    /** The search bar's `onChange`. */
    method OnSearchChange(query: string)
      modifies this
      ensures searchQuery == query && selected == old(selected)
    {
      searchQuery := query;
    }
  }

  /** Selecting 'all' subscribes to every category, any other selection to
      that one category. */
  lemma SelectionSubscribes(state: HomeState, userId: string)
    requires userId != ""
    ensures state.Subscribed(Some(userId), true).Some?
    ensures state.selected.All? ==> state.Subscribed(Some(userId), true).value.category.None?
    ensures state.selected.Only? ==> state.Subscribed(Some(userId), true).value.category == Some(state.selected.category)
  {
  }
}
