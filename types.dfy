/** The application's records: a book on a shelf, a user profile and the raw
    item the Google Books volumes search returns. */
module Types {
  import opened Wrappers

  /** The four shelves a book can be on. */
  datatype Category = Wishlist | Reading | Finished | Owned

  /** The string the category is stored and compared as. */
  function CategoryName(c: Category): string {
    match c
    case Wishlist => "wishlist"
    case Reading => "reading"
    case Finished => "finished"
    case Owned => "owned"
  }

  /** A JavaScript `Date`, as milliseconds since the epoch. */
  type Instant = int

  /** A book as the views receive it from the live subscription. */
  datatype Book = Book(
    id: string,
    isbn: Option<string>,
    title: string,
    author: string,
    description: Option<string>,
    coverUrl: Option<string>,
    pageCount: Option<int>,
    publishedYear: Option<int>,
    genres: Option<seq<string>>,
    userId: string,
    category: Category,
    rating: Option<int>,          // 1-5 when set from the editor
    notes: Option<string>,
    addedAt: Instant,
    finishedAt: Option<Instant>,
    isManual: bool)

  datatype Theme = Light | Dark | System
  datatype ViewMode = Grid | List
  datatype Settings = Settings(defaultView: Option<ViewMode>, notificationsEnabled: Option<bool>)

  /** The yearly reading goal a profile starts with, and the one the
      statistics fall back to. */
  const DefaultReadingGoal := 24

  /** A user profile as the application keeps it in memory. */
  datatype User = User(
    uid: string,
    email: string,
    displayName: Option<string>,
    createdAt: Instant,
    theme: Option<Theme>,
    readingGoal: Option<int>,
    settings: Option<Settings>)

  datatype IndustryIdentifier = IndustryIdentifier(kind: string, identifier: string)
  datatype ImageLinks = ImageLinks(thumbnail: Option<string>, smallThumbnail: Option<string>)

  /** The `volumeInfo` of a catalogue item. The service may leave out any of
      these, the title included, so each is optional here. */
  datatype VolumeInfo = VolumeInfo(
    title: Option<string>,
    authors: Option<seq<string>>,
    description: Option<string>,
    imageLinks: Option<ImageLinks>,
    pageCount: Option<int>,
    publishedDate: Option<string>,
    categories: Option<seq<string>>,
    industryIdentifiers: Option<seq<IndustryIdentifier>>)

  datatype GoogleBooksItem = GoogleBooksItem(id: string, volumeInfo: VolumeInfo)
}
