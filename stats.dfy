/** The statistics page of `stats/page.tsx`: a pure summary of the book
    list, the signed-in user's reading goal and the current time. The local
    calendar (`getFullYear`, `getMonth`) is a parameter; chart labels and the
    one-decimal formatting of the average are not modelled. */
module Stats {
  import opened Wrappers
  import opened Types
  import opened Sequences

  /** A month of the local calendar, January being 1. */
  type Month = m: int | 1 <= m <= 12 witness 1

  /** The local year and month of an instant, as `getFullYear()` and
      `getMonth() + 1` read them. */
  datatype CalendarDate = CalendarDate(year: int, month: Month)

  /* ---------- Category counts ---------- */

  function InCategory(c: Category): Book -> bool {
    (b: Book) => b.category == c
  }

  /** `books.filter((b) => b.category === c).length` */
  function CategoryCount(books: seq<Book>, c: Category): nat {
    |Filter(books, InCategory(c))|
  }

  /** Every book is counted in exactly one of the four categories, so the
      four counts add up to the total. */
  lemma {:induction false} CategoriesCoverAll(books: seq<Book>)
    ensures CategoryCount(books, Finished) + CategoryCount(books, Reading)
          + CategoryCount(books, Wishlist) + CategoryCount(books, Owned) == |books|
    decreases |books|
  {
    if books != [] {
      CategoriesCoverAll(books[1..]);
    }
  }

  /* ---------- Books finished this year, month by month ---------- */

  /** `b.finishedAt && b.finishedAt.getFullYear() === year` */
  function InYear(calendar: Instant -> CalendarDate, year: int): Book -> bool {
    (b: Book) => b.finishedAt.Some? && calendar(b.finishedAt.value).year == year
  }

  /** `b.finishedAt && b.finishedAt.getMonth() + 1 === month` */
  function InMonth(calendar: Instant -> CalendarDate, month: Month): Book -> bool {
    (b: Book) => b.finishedAt.Some? && calendar(b.finishedAt.value).month == month
  }

  /** `monthlyData`: entry `i` is the number of books finished in month `i + 1`. */
  function MonthlyCounts(thisYear: seq<Book>, calendar: Instant -> CalendarDate): seq<nat> {
    seq(12, i requires 0 <= i < 12 => |Filter(thisYear, InMonth(calendar, i + 1))|)
  }

  function Sum(s: seq<nat>): nat {
    if s == [] then 0 else Sum(s[..|s| - 1]) + s[|s| - 1]
  }

  /** The books counted in months 1 to `n`. */
  function MonthsUpTo(books: seq<Book>, calendar: Instant -> CalendarDate, n: nat): nat
    requires n <= 12
  {
    if n == 0 then 0 else MonthsUpTo(books, calendar, n - 1) + |Filter(books, InMonth(calendar, n))|
  }

  /** Taking the first book off the list takes it off the month it belongs to. */
  lemma {:induction false} MonthsUpToFirst(books: seq<Book>, calendar: Instant -> CalendarDate, n: nat)
    requires n <= 12 && books != []
    ensures var b := books[0];
      MonthsUpTo(books, calendar, n)
      == MonthsUpTo(books[1..], calendar, n)
         + (if b.finishedAt.Some? && calendar(b.finishedAt.value).month <= n then 1 else 0)
  {
    if n > 0 {
      MonthsUpToFirst(books, calendar, n - 1);
      var keep := InMonth(calendar, n);
      FilterFirstCount(books, keep);
      var b := books[0];
      assert keep(b) <==> b.finishedAt.Some? && calendar(b.finishedAt.value).month == n;
      assert MonthsUpTo(books, calendar, n) == MonthsUpTo(books, calendar, n - 1) + |Filter(books, keep)|;
      assert MonthsUpTo(books[1..], calendar, n) == MonthsUpTo(books[1..], calendar, n - 1) + |Filter(books[1..], keep)|;
    }
  }

  lemma {:induction false} MonthsUpToNone(calendar: Instant -> CalendarDate, n: nat)
    requires n <= 12
    ensures MonthsUpTo([], calendar, n) == 0
  {
    if n > 0 {
      MonthsUpToNone(calendar, n - 1);
    }
  }

  /** Over all twelve months, each book with a finishing date is counted once. */
  lemma {:induction false} MonthsCoverDated(books: seq<Book>, calendar: Instant -> CalendarDate)
    requires forall i :: 0 <= i < |books| ==> books[i].finishedAt.Some?
    ensures MonthsUpTo(books, calendar, 12) == |books|
    decreases |books|
  {
    if books != [] {
      MonthsUpToFirst(books, calendar, 12);
      assert forall i :: 0 <= i < |books[1..]| ==> books[1..][i] == books[i + 1];
      MonthsCoverDated(books[1..], calendar);
    } else {
      MonthsUpToNone(calendar, 12);
    }
  }

  lemma {:induction false} MonthlyPrefixSum(thisYear: seq<Book>, calendar: Instant -> CalendarDate, n: nat)
    requires n <= 12
    ensures Sum(MonthlyCounts(thisYear, calendar)[..n]) == MonthsUpTo(thisYear, calendar, n)
  {
    if n > 0 {
      var monthly := MonthlyCounts(thisYear, calendar);
      assert monthly[..n][..n - 1] == monthly[..n - 1];
      MonthlyPrefixSum(thisYear, calendar, n - 1);
    }
  }

  /** The twelve monthly bars add up to the number of books finished this
      year. */
  lemma MonthlySumsToYear(thisYear: seq<Book>, calendar: Instant -> CalendarDate)
    requires forall i :: 0 <= i < |thisYear| ==> thisYear[i].finishedAt.Some?
    ensures |MonthlyCounts(thisYear, calendar)| == 12
    ensures Sum(MonthlyCounts(thisYear, calendar)) == |thisYear|
  {
    var monthly := MonthlyCounts(thisYear, calendar);
    MonthlyPrefixSum(thisYear, calendar, 12);
    assert monthly[..12] == monthly;
    MonthsCoverDated(thisYear, calendar);
  }

  /* ---------- Top authors ---------- */

  /** One entry of `topAuthors`. */
  datatype AuthorEntry = AuthorEntry(author: string, count: nat)

  function CountKey(e: AuthorEntry): int {
    e.count
  }

  /** The number of books whose author string is exactly `author`. */
  function AuthorCount(books: seq<Book>, author: string): nat {
    if books == [] then 0
    else AuthorCount(books[..|books| - 1], author) + (if books[|books| - 1].author == author then 1 else 0)
  }

  /** The keys of `authorCounts` in insertion order: each author once, in
      the order of their first book. */
  function Authors(books: seq<Book>): (r: seq<string>)
    ensures forall a :: a in r <==> AuthorCount(books, a) > 0
    ensures forall i, j :: 0 <= i < j < |r| ==> r[i] != r[j]
  {
    if books == [] then []
    else
      var earlier := Authors(books[..|books| - 1]);
      var a := books[|books| - 1].author;
      if a in earlier then earlier else earlier + [a]
  }

  /** `Object.entries(authorCounts)`. */
  function AuthorTally(books: seq<Book>): seq<AuthorEntry> {
    var authors := Authors(books);
    seq(|authors|, i requires 0 <= i < |authors| => AuthorEntry(authors[i], AuthorCount(books, authors[i])))
  }

  /** The `forEach` that fills `authorCounts`, with the object's insertion
      order kept beside its map. */
  method CountAuthors(finished: seq<Book>) returns (entries: seq<AuthorEntry>)
    ensures entries == AuthorTally(finished)
  {
    var order: seq<string> := [];
    var counts: map<string, nat> := map[];
    var i := 0;
    while i < |finished|
      invariant 0 <= i <= |finished|
      invariant order == Authors(finished[..i])
      invariant forall a :: a in counts <==> a in order
      invariant forall a :: a in counts ==> counts[a] == AuthorCount(finished[..i], a)
    {
      var author := finished[i].author;
      ghost var seen := finished[..i + 1];
      TallyStep(finished, i);
      var previous := if author in counts && counts[author] != 0 then counts[author] else 0;
      if author !in counts {
        order := order + [author];
      }
      counts := counts[author := previous + 1];
      forall a | a in counts ensures counts[a] == AuthorCount(seen, a) {
        assert AuthorCount(seen, a) == AuthorCount(finished[..i], a) + (if author == a then 1 else 0);
      }
      i := i + 1;
      assert finished[..i] == seen;
    }
    assert finished[..i] == finished;
    entries := seq(|order|, k requires 0 <= k < |order| => AuthorEntry(order[k], counts[order[k]]));
  }

  /** One step of the tally: the next book adds its author at the end when
      the author is new, and adds one to that author's count. */
  lemma TallyStep(books: seq<Book>, i: nat)
    requires i < |books|
    ensures var a := books[i].author;
      Authors(books[..i + 1]) == if a in Authors(books[..i]) then Authors(books[..i]) else Authors(books[..i]) + [a]
    ensures forall a :: AuthorCount(books[..i + 1], a) == AuthorCount(books[..i], a) + (if books[i].author == a then 1 else 0)
    ensures books[i].author in Authors(books[..i]) ==> AuthorCount(books[..i], books[i].author) > 0
  {
    assert books[..i + 1][..i] == books[..i];
  }

  /** Places `e` before the first entry whose count is not larger. */
  function Insert(e: AuthorEntry, sorted: seq<AuthorEntry>): seq<AuthorEntry> {
    if sorted == [] || e.count >= sorted[0].count then [e] + sorted
    else [sorted[0]] + Insert(e, sorted[1..])
  }

  /** `.sort(([, a], [, b]) => b - a)`: a stable sort by count, largest first. */
  function SortByCount(entries: seq<AuthorEntry>): seq<AuthorEntry> {
    if entries == [] then [] else Insert(entries[0], SortByCount(entries[1..]))
  }

  function HasCount(c: nat): AuthorEntry -> bool {
    (e: AuthorEntry) => e.count == c
  }

  lemma {:induction false} InsertPermutes(e: AuthorEntry, sorted: seq<AuthorEntry>)
    ensures multiset(Insert(e, sorted)) == multiset(sorted) + multiset{e}
    decreases |sorted|
  {
    if sorted != [] && e.count < sorted[0].count {
      InsertPermutes(e, sorted[1..]);
      assert sorted == [sorted[0]] + sorted[1..];
    }
  }

  /** No entry of `s` has a count above `m`. */
  predicate CountsAtMost(s: seq<AuthorEntry>, m: int) {
    forall i :: 0 <= i < |s| ==> s[i].count <= m
  }

  lemma {:induction false} InsertBounded(e: AuthorEntry, sorted: seq<AuthorEntry>, m: int)
    requires CountsAtMost(sorted, m) && e.count <= m
    ensures CountsAtMost(Insert(e, sorted), m)
    decreases |sorted|
  {
    var r := Insert(e, sorted);
    if sorted != [] && e.count < sorted[0].count {
      var rest := sorted[1..];
      assert CountsAtMost(rest, m) by {
        forall i | 0 <= i < |rest| ensures rest[i].count <= m {
          assert rest[i] == sorted[i + 1];
        }
      }
      InsertBounded(e, rest, m);
      forall i | 0 <= i < |r| ensures r[i].count <= m {
        if i > 0 {
          assert r[i] == Insert(e, rest)[i - 1];
        }
      }
    } else {
      forall i | 0 <= i < |r| ensures r[i].count <= m {
        if i > 0 {
          assert r[i] == sorted[i - 1];
        }
      }
    }
  }

  lemma {:induction false} InsertSorted(e: AuthorEntry, sorted: seq<AuthorEntry>)
    requires Descending(sorted, CountKey)
    ensures Descending(Insert(e, sorted), CountKey)
    decreases |sorted|
  {
    var r := Insert(e, sorted);
    if sorted != [] && e.count < sorted[0].count {
      var rest := sorted[1..];
      var tail := Insert(e, rest);
      assert Descending(rest, CountKey) by {
        forall i, j | 0 <= i < j < |rest| ensures CountKey(rest[i]) >= CountKey(rest[j]) {
          assert rest[i] == sorted[i + 1] && rest[j] == sorted[j + 1];
        }
      }
      assert CountsAtMost(rest, sorted[0].count) by {
        forall i | 0 <= i < |rest| ensures rest[i].count <= sorted[0].count {
          assert rest[i] == sorted[i + 1] && CountKey(sorted[0]) >= CountKey(sorted[i + 1]);
        }
      }
      InsertSorted(e, rest);
      InsertBounded(e, rest, sorted[0].count);
      assert r == [sorted[0]] + tail;
      forall i, j | 0 <= i < j < |r| ensures CountKey(r[i]) >= CountKey(r[j]) {
        assert r[j] == tail[j - 1];
        if i > 0 {
          assert r[i] == tail[i - 1];
        }
      }
    } else {
      forall i, j | 0 <= i < j < |r| ensures CountKey(r[i]) >= CountKey(r[j]) {
        assert r[j] == sorted[j - 1];
        if i > 0 {
          assert r[i] == sorted[i - 1];
        } else if j > 1 {
          assert CountKey(sorted[0]) >= CountKey(sorted[j - 1]);
        }
      }
    }
  }

  lemma {:induction false} InsertStable(e: AuthorEntry, sorted: seq<AuthorEntry>, c: nat)
    ensures Filter(Insert(e, sorted), HasCount(c)) == (if e.count == c then [e] else []) + Filter(sorted, HasCount(c))
    decreases |sorted|
  {
    var r := Insert(e, sorted);
    if sorted != [] && e.count < sorted[0].count {
      var rest := sorted[1..];
      InsertStable(e, rest, c);
      assert r[1..] == Insert(e, rest);
    } else {
      assert r[1..] == sorted;
    }
  }

  lemma {:induction false} SortByCountPermutes(entries: seq<AuthorEntry>)
    ensures multiset(SortByCount(entries)) == multiset(entries)
    decreases |entries|
  {
    if entries != [] {
      SortByCountPermutes(entries[1..]);
      InsertPermutes(entries[0], SortByCount(entries[1..]));
      assert entries == [entries[0]] + entries[1..];
    }
  }

  lemma {:induction false} SortByCountDescending(entries: seq<AuthorEntry>)
    ensures Descending(SortByCount(entries), CountKey)
    decreases |entries|
  {
    if entries != [] {
      SortByCountDescending(entries[1..]);
      InsertSorted(entries[0], SortByCount(entries[1..]));
    }
  }

  lemma {:induction false} SortByCountStable(entries: seq<AuthorEntry>, c: nat)
    ensures Filter(SortByCount(entries), HasCount(c)) == Filter(entries, HasCount(c))
    decreases |entries|
  {
    if entries != [] {
      SortByCountStable(entries[1..], c);
      InsertStable(entries[0], SortByCount(entries[1..]), c);
    }
  }

  /** The sort is a permutation, orders by count, and keeps the entries of
      equal count in their original order (it is stable). */
  lemma SortByCountSorts(entries: seq<AuthorEntry>)
    ensures multiset(SortByCount(entries)) == multiset(entries)
    ensures Descending(SortByCount(entries), CountKey)
    ensures forall c :: Filter(SortByCount(entries), HasCount(c)) == Filter(entries, HasCount(c))
  {
    SortByCountPermutes(entries);
    SortByCountDescending(entries);
    forall c ensures Filter(SortByCount(entries), HasCount(c)) == Filter(entries, HasCount(c)) {
      SortByCountStable(entries, c);
    }
  }

  /** `.slice(0, 5)` */
  function TopFive(sorted: seq<AuthorEntry>): (r: seq<AuthorEntry>)
    ensures |r| == if |sorted| < 5 then |sorted| else 5
    ensures r == sorted[..|r|]
  {
    if |sorted| < 5 then sorted else sorted[..5]
  }

  /** The author appears among the entries. */
  predicate Listed(entries: seq<AuthorEntry>, author: string) {
    exists i :: 0 <= i < |entries| && entries[i].author == author
  }

  /** `topAuthors` of a list of finished books. */
  function TopAuthors(finished: seq<Book>): seq<AuthorEntry> {
    TopFive(SortByCount(AuthorTally(finished)))
  }

  lemma TallyEntry(finished: seq<Book>, e: AuthorEntry)
    requires e in multiset(AuthorTally(finished))
    ensures e.count == AuthorCount(finished, e.author) && e.count > 0
  {
    var tally := AuthorTally(finished);
    var k :| 0 <= k < |tally| && tally[k] == e;
    assert Authors(finished)[k] in Authors(finished);
  }

  /** `topAuthors` holds five authors, or all of them when there are fewer,
      each with its exact number of finished books, largest first. */
  lemma TopAuthorsRanked(finished: seq<Book>)
    ensures var top := TopAuthors(finished);
      && |top| == (if |Authors(finished)| < 5 then |Authors(finished)| else 5)
      && Descending(top, CountKey)
      && (forall i :: 0 <= i < |top| ==> top[i].count == AuthorCount(finished, top[i].author) && top[i].count > 0)
  {
    var tally := AuthorTally(finished);
    var sorted := SortByCount(tally);
    var top := TopFive(sorted);
    SortByCountSorts(tally);
    assert |sorted| == |multiset(sorted)| == |multiset(tally)| == |tally|;
    PrefixIsSubsequence(sorted, |top|);
    SubsequenceDescending(top, sorted, CountKey);
    forall i | 0 <= i < |top| ensures top[i].count == AuthorCount(finished, top[i].author) && top[i].count > 0 {
      assert top[i] == sorted[i] && top[i] in multiset(sorted);
      TallyEntry(finished, top[i]);
    }
  }

  /** An author of a finished book who is not in `topAuthors` has no more
      books than any author who is. */
  lemma TopAuthorsComplete(finished: seq<Book>, author: string)
    requires AuthorCount(finished, author) > 0
    ensures var top := TopAuthors(finished);
      Listed(top, author) || forall i :: 0 <= i < |top| ==> AuthorCount(finished, author) <= top[i].count
  {
    var tally := AuthorTally(finished);
    var sorted := SortByCount(tally);
    var top := TopFive(sorted);
    SortByCountSorts(tally);
    var authors := Authors(finished);
    var k :| 0 <= k < |authors| && authors[k] == author;
    var e := tally[k];
    assert e in multiset(sorted);
    var j :| 0 <= j < |sorted| && sorted[j] == e;
    if j < |top| {
      assert top[j].author == author;
    }
  }

  lemma {:induction false} PrefixIsSubsequence<T>(s: seq<T>, n: nat)
    requires n <= |s|
    ensures IsSubsequence(s[..n], s)
    decreases |s|
  {
    if n > 0 {
      PrefixIsSubsequence(s[1..], n - 1);
      assert s[..n][1..] == s[1..][..n - 1];
    }
  }

  /* ---------- Average rating ---------- */

  /** `b.rating` is truthy. */
  predicate Rated(b: Book) {
    b.rating.Some? && b.rating.value != 0
  }

  /** `reduce((sum, b) => sum + (b.rating || 0), 0)` */
  function RatingSum(books: seq<Book>): int {
    if books == [] then 0
    else (if books[0].rating.Some? then books[0].rating.value else 0) + RatingSum(books[1..])
  }

  /** `avgRating` before formatting: the mean over the finished books with
      a truthy rating, or 0 when there is none. */
  function AverageRating(finished: seq<Book>): real {
    var rated := Filter(finished, Rated);
    if |rated| > 0 then (RatingSum(rated) as real) / (|rated| as real) else 0.0
  }

  /** A book whose rating is none or one of the five stars. */
  predicate StarRated(b: Book) {
    b.rating.None? || 1 <= b.rating.value <= 5
  }

  lemma {:induction false} RatingSumBounds(rated: seq<Book>)
    requires forall i :: 0 <= i < |rated| ==> Rated(rated[i]) && StarRated(rated[i])
    ensures |rated| <= RatingSum(rated) <= 5 * |rated|
    decreases |rated|
  {
    if rated != [] {
      RatingSumBounds(rated[1..]);
    }
  }

  lemma MeanBounds(sum: int, n: int)
    requires 0 < n <= sum <= 5 * n
    ensures 1.0 <= (sum as real) / (n as real) <= 5.0
  {
    var q := (sum as real) / (n as real);
    assert q * (n as real) == sum as real;
  }

  /** With ratings of one to five stars, the average is 0 when no finished
      book is rated, and lies between 1 and 5 otherwise. */
  lemma AverageRatingBounds(finished: seq<Book>)
    requires forall i :: 0 <= i < |finished| ==> StarRated(finished[i])
    ensures |Filter(finished, Rated)| == 0 ==> AverageRating(finished) == 0.0
    ensures |Filter(finished, Rated)| > 0 ==> 1.0 <= AverageRating(finished) <= 5.0
  {
    var rated := Filter(finished, Rated);
    if |rated| > 0 {
      FilterMembers(finished, Rated);
      forall i | 0 <= i < |rated| ensures Rated(rated[i]) && StarRated(rated[i]) {
        var k :| 0 <= k < |finished| && finished[k] == rated[i];
      }
      RatingSumBounds(rated);
      MeanBounds(RatingSum(rated), |rated|);
    }
  }

  /* ---------- Reading goal ---------- */

  /** `userData?.readingGoal || 24` */
  function Goal(userData: Option<User>): (g: int)
    ensures g != 0
    ensures g == DefaultReadingGoal || (userData.Some? && userData.value.readingGoal == Some(g))
    ensures userData.Some? && userData.value.readingGoal.Some? && userData.value.readingGoal.value != 0 ==>
      g == userData.value.readingGoal.value
  {
    if userData.Some? && userData.value.readingGoal.Some? && userData.value.readingGoal.value != 0
    then userData.value.readingGoal.value
    else DefaultReadingGoal
  }

  /** `Math.min((count / goal) * 100, 100)` */
  function Progress(count: nat, goal: int): real
    requires goal != 0
  {
    var p := (count as real) / (goal as real) * 100.0;
    if p < 100.0 then p else 100.0
  }

  lemma RatioAgainstOne(c: real, g: real)
    requires 0.0 <= c && 0.0 < g
    ensures 0.0 <= c / g
    ensures c / g >= 1.0 <==> c >= g
  {
    var q := c / g;
    assert q * g == c;
  }

  /** The progress bar never passes 100; with a positive goal it is not
      negative, and it is full exactly when the goal is reached. */
  lemma ProgressCapped(count: nat, goal: int)
    requires goal != 0
    ensures Progress(count, goal) <= 100.0
    ensures goal > 0 ==> 0.0 <= Progress(count, goal)
    ensures goal > 0 ==> (Progress(count, goal) == 100.0 <==> count >= goal)
  {
    if goal > 0 {
      RatioAgainstOne(count as real, goal as real);
    }
  }

  /* ---------- The summary ---------- */

  /** One slice of the category chart. */
  datatype Slice = Slice(name: string, value: nat, color: string)

  /** The categories of the chart, in its order. */
  const ChartOrder: seq<Category> := [Finished, Reading, Wishlist, Owned]

  /** The chart label and colour of each category. */
  function ChartSlice(c: Category, value: nat): Slice {
    match c
    case Finished => Slice("Přečteno", value, "#10b981")
    case Reading => Slice("Právě čtu", value, "#3b82f6")
    case Wishlist => Slice("Chci přečíst", value, "#f59e0b")
    case Owned => Slice("Knihovna", value, "#8b5cf6")
  }

  /** The object the `useMemo` returns, `avgRating` before `toFixed(1)`. */
  datatype Summary = Summary(
    total: nat,
    finished: nat,
    reading: nat,
    wishlist: nat,
    owned: nat,
    monthlyData: seq<nat>,
    topAuthors: seq<AuthorEntry>,
    avgRating: real,
    goal: int,
    progress: real,
    thisYearCount: nat,
    categoryData: seq<Slice>)

  /** The books finished in the year of `now`. */
  function ThisYear(books: seq<Book>, now: Instant, calendar: Instant -> CalendarDate): seq<Book> {
    Filter(Filter(books, InCategory(Finished)), InYear(calendar, calendar(now).year))
  }

  /** The statistics of a book list. */
  function StatsOf(books: seq<Book>, userData: Option<User>, now: Instant, calendar: Instant -> CalendarDate): Summary {
    var finished := Filter(books, InCategory(Finished));
    var thisYear := ThisYear(books, now, calendar);
    var goal := Goal(userData);
    Summary(
      |books|,
      |finished|,
      CategoryCount(books, Reading),
      CategoryCount(books, Wishlist),
      CategoryCount(books, Owned),
      MonthlyCounts(thisYear, calendar),
      TopAuthors(finished),
      AverageRating(finished),
      goal,
      Progress(|thisYear|, goal),
      |thisYear|,
      seq(4, i requires 0 <= i < 4 => ChartSlice(ChartOrder[i], CategoryCount(books, ChartOrder[i]))))
  }

  /** The `useMemo` body: the filters, the author tally loop, the sort and the
      slices, in the order the page computes them. */
  method ComputeStats(books: seq<Book>, userData: Option<User>, now: Instant, calendar: Instant -> CalendarDate)
    returns (stats: Summary)
    ensures stats == StatsOf(books, userData, now, calendar)
  {
    var finished := Filter(books, InCategory(Finished));
    var reading := Filter(books, InCategory(Reading));
    var wishlist := Filter(books, InCategory(Wishlist));
    var owned := Filter(books, InCategory(Owned));
    var thisYearBooks := Filter(finished, InYear(calendar, calendar(now).year));
    var monthlyData := MonthlyCounts(thisYearBooks, calendar);
    var authorCounts := CountAuthors(finished);
    var topAuthors := TopFive(SortByCount(authorCounts));
    var avgRating := AverageRating(finished);
    var goal := Goal(userData);
    var progress := Progress(|thisYearBooks|, goal);
    var categoryData := [
      ChartSlice(Finished, |finished|),
      ChartSlice(Reading, |reading|),
      ChartSlice(Wishlist, |wishlist|),
      ChartSlice(Owned, |owned|)];
    stats := Summary(|books|, |finished|, |reading|, |wishlist|, |owned|, monthlyData, topAuthors,
                     avgRating, goal, progress, |thisYearBooks|, categoryData);
  }

  /** The summary agrees with itself: the four category counts and the four
      chart slices both add up to the total, the twelve monthly bars add up
      to the books finished this year, which are among the finished ones,
      and the progress is capped at 100. */
  lemma StatsConsistent(books: seq<Book>, userData: Option<User>, now: Instant, calendar: Instant -> CalendarDate)
    ensures var s := StatsOf(books, userData, now, calendar);
      && s.finished + s.reading + s.wishlist + s.owned == s.total
      && |s.categoryData| == 4
      && (forall i :: 0 <= i < 4 ==> s.categoryData[i].value == CategoryCount(books, ChartOrder[i]))
      && s.categoryData[0].value + s.categoryData[1].value + s.categoryData[2].value + s.categoryData[3].value == s.total
      && |s.monthlyData| == 12
      && Sum(s.monthlyData) == s.thisYearCount <= s.finished
      && s.goal != 0
      && s.progress <= 100.0
  {
    var s := StatsOf(books, userData, now, calendar);
    var finished := Filter(books, InCategory(Finished));
    var thisYear := ThisYear(books, now, calendar);
    CategoriesCoverAll(books);
    FilterMembers(finished, InYear(calendar, calendar(now).year));
    forall i | 0 <= i < |thisYear| ensures thisYear[i].finishedAt.Some? {
      assert InYear(calendar, calendar(now).year)(thisYear[i]);
    }
    MonthlySumsToYear(thisYear, calendar);
    ProgressCapped(|thisYear|, s.goal);
  }
}
