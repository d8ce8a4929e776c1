/** The catalogue search client: `fetchWithRetry`, `searchBooks` with its
    module-level result cache, and `formatBookFromGoogleBooks`, which turns a
    catalogue item into the fields of a book. The network is an oracle: the
    reply to the i-th request of a search is `network(i)`. Clock readings are
    parameters, and the waits between attempts are returned as a list. */
module GoogleBooks {
  import opened Wrappers
  import opened JsText
  import opened Types

  /** How long a cached search stays fresh: 5 minutes, in milliseconds. */
  const CacheDuration: int := 5 * 60 * 1000
  /** The `retries` argument `searchBooks` leaves at its default. */
  const DefaultRetries: int := 2
  const DefaultMaxResults: int := 40

  const RateLimitMessage: string :=
    "Příliš mnoho požadavků. " + "Google Books API má omezení. " + "Zkuste to za chvíli nebo přidejte API klíč pro vyšší limity."
  const ServerErrorMessage: string := "Chyba serveru. Zkuste to znovu za chvíli."
  const ApiErrorPrefix: string := "API chyba: "
  const TryAgainSuffix: string := ". Zkuste to znovu za chvíli."
  const SearchFailedPrefix: string := "Chyba při vyhledávání: "
  const UnknownError: string := "Neznámá chyba"
  const UnknownTitle: string := "Neznámý název"
  const UnknownAuthor: string := "Neznámý autor"

  /** What `searchBooks` resolves to; `error` is `null` on success. */
  datatype SearchResult = SearchResult(items: seq<GoogleBooksItem>, error: Option<string>)

  datatype CacheEntry = CacheEntry(items: seq<GoogleBooksItem>, timestamp: int)

  /** What `response.json()` gives: the optional `items` of the parsed body,
      or the message of the error it throws when the body is not JSON. */
  datatype Body = Json(items: Option<seq<GoogleBooksItem>>) | Unparsable(message: string)

  /** The outcome of one `fetch`: a response, or a rejection whose value is an
      `Error` with a message (`Some`) or some other thrown value (`None`). */
  datatype Reply = Response(status: nat, body: Body) | NetworkError(message: Option<string>)

  predicate RateLimited(r: Reply) {
    r.Response? && r.status == 429
  }

  /** `response.ok` */
  predicate IsOk(r: Reply)
    requires r.Response?
  {
    200 <= r.status <= 299
  }

  function Pow2(n: nat): nat {
    if n == 0 then 1 else 2 * Pow2(n - 1)
  }

  /** The waits that follow the first `n` attempts: 1000 ms, 2000 ms, 4000 ms, ... */
  function Backoff(n: nat): seq<int> {
    seq(n, j requires 0 <= j < n => Pow2(j) * 1000)
  }

  /** What `fetchWithRetry(url, retries)` does with the replies `network`:
      every attempt but the last was rate limited, the last reply is returned
      as it is, and it is rate limited only when the attempts ran out; there
      are at most `retries + 1` attempts, and one for a negative `retries`
      (the call after the loop); a wait of 2^i seconds follows attempt i
      exactly when another attempt comes after it. */
  ghost predicate RetryTrace(network: nat -> Reply, retries: int, reply: Reply, attempts: nat, waits: seq<int>) {
    && 1 <= attempts
    && reply == network(attempts - 1)
    && (forall j: nat :: j < attempts - 1 ==> RateLimited(network(j)))
    && (retries >= 0 ==> attempts <= retries + 1 && (attempts <= retries ==> !RateLimited(reply)))
    && (retries < 0 ==> attempts == 1)
    && waits == Backoff(attempts - 1)
  }

  method FetchWithRetry(network: nat -> Reply, retries: int) returns (reply: Reply, attempts: nat, waits: seq<int>)
    ensures RetryTrace(network, retries, reply, attempts, waits)
  {
    attempts, waits := 0, [];
    var i := 0;
    while i <= retries
      invariant 0 <= i && (retries >= 0 ==> i <= retries) && (retries < 0 ==> i == 0)
      invariant attempts == i
      invariant forall j: nat :: j < i ==> RateLimited(network(j))
      invariant waits == Backoff(i)
      decreases retries - i
    {
      var response := network(attempts);
      attempts := attempts + 1;
      if RateLimited(response) && i < retries {
        assert Backoff(i + 1) == Backoff(i) + [Pow2(i) * 1000];
        waits := waits + [Pow2(i) * 1000];
        i := i + 1;
        continue;
      }
      return response, attempts, waits;
    }
    // reached only when `retries` is negative and the loop never ran
    reply := network(attempts);
    attempts := attempts + 1;
  }

  /** The retry trace is determined by the replies: at most one number of
      attempts fits it. */
  lemma RetryTraceUnique(network: nat -> Reply, retries: int,
                         r1: Reply, a1: nat, w1: seq<int>, r2: Reply, a2: nat, w2: seq<int>)
    requires RetryTrace(network, retries, r1, a1, w1)
    requires RetryTrace(network, retries, r2, a2, w2)
    ensures a1 == a2 && r1 == r2 && w1 == w2
  {
  }

  /** The message shown for a response that is not ok: the rate-limit text for
      429, the server text for 500 and above, and otherwise a text that
      names the status. */
  function ErrorMessage(status: nat): (m: string)
    ensures m == RateLimitMessage <==> status == 429
    ensures m == ServerErrorMessage <==> status != 429 && status >= 500
    ensures status != 429 && status < 500 ==> Contains(m, NatToString(status))
  {
    if status == 429 then RateLimitMessage
    else if status >= 500 then ServerErrorMessage
    else
      var m := ApiErrorPrefix + NatToString(status) + TryAgainSuffix;
      assert RateLimitMessage[0] == 'P';
      assert ServerErrorMessage[0] == 'C';
      assert m[0] == ApiErrorPrefix[0] == 'A';
      assert OccursAt(m, NatToString(status), |ApiErrorPrefix|);
      ContainsOccurs(m, NatToString(status));
      m
  }

  /** The items an answered request yields and caches: those of an ok response
      whose body parses, `[]` when the body has no `items`. */
  function FetchedItems(reply: Reply): Option<seq<GoogleBooksItem>> {
    if reply.Response? && IsOk(reply) && reply.body.Json? then Some(reply.body.items.GetOr([])) else None
  }

  /** What `searchBooks` returns once the request has been answered. */
  function ReplyOutcome(reply: Reply): (r: SearchResult)
    ensures r.error.None? <==> FetchedItems(reply).Some?
    ensures r.error.None? ==> r.items == FetchedItems(reply).value
    ensures r.error.Some? ==> r.items == []
    ensures RateLimited(reply) ==> r.error == Some(RateLimitMessage)
    ensures reply.Response? && reply.status >= 500 ==> r.error == Some(ServerErrorMessage)
    ensures reply.Response? && !IsOk(reply) && reply.status != 429 && reply.status < 500 ==>
              r.error.Some? && Contains(r.error.value, NatToString(reply.status))
  {
    match reply
    case NetworkError(message) => SearchResult([], Some(SearchFailedPrefix + message.GetOr(UnknownError)))
    case Response(status, body) =>
      if !IsOk(reply) then SearchResult([], Some(ErrorMessage(status)))
      else match body
        case Json(items) => SearchResult(items.GetOr([]), None)
        case Unparsable(message) => SearchResult([], Some(SearchFailedPrefix + message))
  }

  /** `${query.toLowerCase()}_${maxResults}` */
  function CacheKey(query: string, maxResults: int): string {
    Lower(query) + "_" + IntToString(maxResults)
  }

  lemma IntToStringHasNoUnderscore(n: int)
    ensures forall i :: 0 <= i < |IntToString(n)| ==> IntToString(n)[i] != '_'
  {
    var m: nat := if n < 0 then -n else n;
    assert forall i :: 0 <= i < |NatToString(m)| ==> '0' <= NatToString(m)[i] <= '9';
  }

  /** Two searches share a cache entry exactly when their queries are equal up
      to letter case and they ask for the same number of results. */
  lemma CacheKeyInjective(q1: string, m1: int, q2: string, m2: int)
    ensures CacheKey(q1, m1) == CacheKey(q2, m2) <==> Lower(q1) == Lower(q2) && m1 == m2
  {
    var s1, s2 := IntToString(m1), IntToString(m2);
    var k1, k2 := CacheKey(q1, m1), CacheKey(q2, m2);
    if k1 == k2 {
      IntToStringHasNoUnderscore(m1);
      IntToStringHasNoUnderscore(m2);
      SameLengthAfterMark(Lower(q1), s1, Lower(q2), s2);
      assert s1 == k1[|k1| - |s1|..] == k2[|k2| - |s2|..] == s2;
      assert Lower(q1) == k1[..|k1| - |s1| - 1] == k2[..|k2| - |s2| - 1] == Lower(q2);
      IntToStringInjective(m1, m2);
    }
  }

  /** Two texts `a + "_" + s` that are equal, where neither `s` holds an
      underscore, end in the same `s`. */
  lemma SameLengthAfterMark(a1: string, s1: string, a2: string, s2: string)
    requires a1 + "_" + s1 == a2 + "_" + s2
    requires forall i :: 0 <= i < |s1| ==> s1[i] != '_'
    requires forall i :: 0 <= i < |s2| ==> s2[i] != '_'
    ensures |s1| == |s2|
  {
    var k := a1 + "_" + s1;
    assert k == a2 + "_" + s2;
    assert k[|k| - |s1| - 1] == '_' && k[|k| - |s2| - 1] == '_';
    assert forall i :: |k| - |s1| <= i < |k| ==> k[i] == s1[i - (|k| - |s1|)];
    assert forall i :: |k| - |s2| <= i < |k| ==> k[i] == s2[i - (|k| - |s2|)];
  }

  predicate IsFresh(e: CacheEntry, now: int) {
    now - e.timestamp < CacheDuration
  }

  /** Older than twice the freshness window: removed by the sweep. */
  predicate IsStale(e: CacheEntry, now: int) {
    now - e.timestamp > CacheDuration * 2
  }

  /** A search is served from the cache. */
  predicate Hit(cache: map<string, CacheEntry>, key: string, now: int) {
    key in cache && IsFresh(cache[key], now)
  }

  /** The cache after the sweep at time `now`: the entries that are not stale. */
  function Swept(cache: map<string, CacheEntry>, now: int): map<string, CacheEntry> {
    map k | k in cache && !IsStale(cache[k], now) :: cache[k]
  }

  /** The cache after a request answered at time `t`: unchanged when nothing
      was fetched, else the entry stored and the stale entries swept away. */
  function AfterFetch(cache: map<string, CacheEntry>, key: string, reply: Reply, t: int): map<string, CacheEntry> {
    match FetchedItems(reply)
    case None => cache
    case Some(items) => Swept(cache[key := CacheEntry(items, t)], t)
  }

  /** The entry a successful search stores survives the sweep that follows
      it, and is served for the next five minutes. */
  lemma StoredEntrySurvives(cache: map<string, CacheEntry>, key: string, reply: Reply, t: int, later: int)
    requires FetchedItems(reply).Some?
    requires 0 <= later - t < CacheDuration
    ensures key in AfterFetch(cache, key, reply, t)
    ensures AfterFetch(cache, key, reply, t)[key] == CacheEntry(FetchedItems(reply).value, t)
    ensures Hit(AfterFetch(cache, key, reply, t), key, later)
  {
  }

  /** The sweep removes exactly the stale entries and changes no other. */
  lemma SweptRemovesExactlyStale(cache: map<string, CacheEntry>, now: int)
    ensures Swept(cache, now).Keys == cache.Keys - set k | k in cache && IsStale(cache[k], now)
    ensures forall k :: k in Swept(cache, now) ==> Swept(cache, now)[k] == cache[k] && !IsStale(cache[k], now)
  {
  }

  /** What `searchBooks(query, maxResults)` returns and leaves in the cache,
      given the cache `before` and the clock readings `now` (the cache is
      consulted) and `later` (the response is in): nothing for a blank
      query, the cached items for a fresh hit, and otherwise the outcome of
      the retried request, whose items are stored and followed by a sweep. */
  ghost predicate SearchOutcome(before: map<string, CacheEntry>, query: string, maxResults: int,
                                now: int, later: int, network: nat -> Reply,
                                result: SearchResult, attempts: nat, waits: seq<int>,
                                after: map<string, CacheEntry>)
  {
    var key := CacheKey(query, maxResults);
    && (IsBlank(query) ==>
          result == SearchResult([], None) && attempts == 0 && waits == [] && after == before)
    && (!IsBlank(query) && Hit(before, key, now) ==>
          && result == SearchResult(before[key].items, None)
          && attempts == 0 && waits == [] && after == before)
    && (!IsBlank(query) && !Hit(before, key, now) ==>
          && 1 <= attempts
          && RetryTrace(network, DefaultRetries, network(attempts - 1), attempts, waits)
          && result == ReplyOutcome(network(attempts - 1))
          && after == AfterFetch(before, key, network(attempts - 1), later))
  }

  /** The catalogue client and its result cache (`searchCache`). */
  class CatalogClient {
    var cache: map<string, CacheEntry>

    constructor ()
      ensures cache == map[]
    {
      cache := map[];
    }

    /** The loop that deletes the stale entries of the cache. */
    method SweepStale(now: int)
      modifies this
      ensures cache == Swept(old(cache), now)
    {
      var keys := cache.Keys;
      while keys != {}
        invariant keys <= old(cache).Keys
        invariant cache == map k | k in old(cache) && (k in keys || !IsStale(old(cache)[k], now)) :: old(cache)[k]
        decreases keys
      {
        var key :| key in keys;
        if now - cache[key].timestamp > CacheDuration * 2 {
          cache := cache - {key};
        }
        keys := keys - {key};
      }
    }

    /** `searchBooks(query, maxResults)`. The clock reads `now` when the cache
        is consulted and `later` once the response is in. */
    method SearchBooks(query: string, maxResults: int, now: int, later: int, network: nat -> Reply)
      returns (result: SearchResult, attempts: nat, waits: seq<int>)
      modifies this
      ensures SearchOutcome(old(cache), query, maxResults, now, later, network, result, attempts, waits, cache)
    {
      if IsBlank(query) {
        return SearchResult([], None), 0, [];
      }
      var cacheKey := CacheKey(query, maxResults);
      if cacheKey in cache && now - cache[cacheKey].timestamp < CacheDuration {
        return SearchResult(cache[cacheKey].items, None), 0, [];
      }
      var response;
      response, attempts, waits := FetchWithRetry(network, DefaultRetries);
      if response.NetworkError? {
        var message := response.message.GetOr(UnknownError);
        return SearchResult([], Some(SearchFailedPrefix + message)), attempts, waits;
      }
      if !IsOk(response) {
        return SearchResult([], Some(ErrorMessage(response.status))), attempts, waits;
      }
      if response.body.Unparsable? {
        return SearchResult([], Some(SearchFailedPrefix + response.body.message)), attempts, waits;
      }
      var items := response.body.items.GetOr([]);
      cache := cache[cacheKey := CacheEntry(items, later)];
      SweepStale(later);
      result := SearchResult(items, None);
    }
  }

  /** Two searches in a row. When the first one went to the network and
      succeeded, a second search for the same text, in any letter case, is
      answered from the cache with no request while the entry is fresh, and
      goes to the network again once five minutes have passed. */
  method SearchTwice(client: CatalogClient, query: string, again: string, maxResults: int,
                     t1: int, t1Done: int, t2: int, network1: nat -> Reply, network2: nat -> Reply)
    returns (first: SearchResult, attempts1: nat, second: SearchResult, attempts2: nat)
    requires Lower(again) == Lower(query)
    modifies client
    ensures !IsBlank(query) && attempts1 > 0 && first.error.None? && t2 - t1Done < CacheDuration ==>
              attempts2 == 0 && second == first
    ensures !IsBlank(query) && attempts1 > 0 && first.error.None? && t2 - t1Done >= CacheDuration ==>
              attempts2 > 0
  {
    var waits1, waits2;
    first, attempts1, waits1 := client.SearchBooks(query, maxResults, t1, t1Done, network1);
    CacheKeyInjective(query, maxResults, again, maxResults);
    LowerKeepsBlank(query);
    LowerKeepsBlank(again);
    second, attempts2, waits2 := client.SearchBooks(again, maxResults, t2, t2, network2);
  }

  predicate IsIsbnKind(kind: string) {
    kind == "ISBN_13" || kind == "ISBN_10"
  }

  /** The index `industryIdentifiers.find(...)` stops at: the first entry,
      in list order, of type ISBN_13 or ISBN_10. */
  function FirstIsbnIndex(ids: seq<IndustryIdentifier>): (k: Option<nat>)
    ensures k.Some? ==> k.value < |ids| && IsIsbnKind(ids[k.value].kind)
    ensures k.Some? ==> forall j :: 0 <= j < k.value ==> !IsIsbnKind(ids[j].kind)
    ensures k.None? ==> forall j :: 0 <= j < |ids| ==> !IsIsbnKind(ids[j].kind)
    decreases |ids|
  {
    if |ids| == 0 then None
    else if IsIsbnKind(ids[0].kind) then Some(0)
    else match FirstIsbnIndex(ids[1..])
      case None => None
      case Some(k) => Some(k + 1)
  }

  /** `industryIdentifiers?.find(...)?.identifier || undefined` */
  function IsbnOf(ids: Option<seq<IndustryIdentifier>>): Option<string> {
    match ids
    case None => None
    case Some(xs) =>
      match FirstIsbnIndex(xs)
      case None => None
      case Some(k) => if xs[k].identifier == "" then None else Some(xs[k].identifier)
  }

  /** `url.replace('http://', 'https://')` */
  function Secure(url: string): string {
    ReplaceFirst(url, "http://", "https://")
  }

  /** `thumbnail?.replace(...) || smallThumbnail?.replace(...) || ''` */
  function CoverOf(links: Option<ImageLinks>): string {
    var thumb := if links.Some? && links.value.thumbnail.Some? then Secure(links.value.thumbnail.value) else "";
    var small := if links.Some? && links.value.smallThumbnail.Some? then Secure(links.value.smallThumbnail.value) else "";
    if thumb != "" then thumb else small
  }

  /** `publishedYear`: `null`, `NaN` or a number. */
  datatype PublishedYear = NoDate | NotANumber | Year(value: int)

  /** `publishedDate ? parseInt(publishedDate.split('-')[0]) : null` */
  function YearOf(date: Option<string>): PublishedYear {
    if date.None? || date.value == "" then NoDate
    else match ParseInt(BeforeFirst(date.value, '-'))
      case None => NotANumber
      case Some(y) => Year(y)
  }

  /** The object `formatBookFromGoogleBooks` returns. */
  datatype FormattedBook = FormattedBook(
    id: string,
    isbn: Option<string>,
    title: string,
    author: string,
    description: string,
    coverUrl: string,
    pageCount: int,
    publishedYear: PublishedYear,
    genres: seq<string>)

  /** `formatBookFromGoogleBooks(item)`: total, with a fallback for every
      field the catalogue may leave out. */
  function FormatBook(item: GoogleBooksItem): (r: FormattedBook)
    ensures r.id == item.id
    ensures r.title != "" && r.author != ""
    ensures var t := item.volumeInfo.title;
      r.title == (if t.Some? && t.value != "" then t.value else UnknownTitle)
    ensures var a := item.volumeInfo.authors;
      (a.None? || a.value == [] ==> r.author == UnknownAuthor) &&
      (a.Some? && Join(a.value, ", ") != "" ==> r.author == Join(a.value, ", ")) &&
      (a.Some? && Join(a.value, ", ") == "" ==> r.author == UnknownAuthor)
    ensures var d := item.volumeInfo.description;
      r.description == if d.Some? then d.value else ""
    ensures var n := item.volumeInfo.pageCount;
      r.pageCount == if n.Some? then n.value else 0
    ensures var c := item.volumeInfo.categories;
      r.genres == if c.Some? then c.value else []
  {
    var v := item.volumeInfo;
    var joined := if v.authors.Some? then Join(v.authors.value, ", ") else "";
    FormattedBook(
      item.id,
      IsbnOf(v.industryIdentifiers),
      if v.title.Some? && v.title.value != "" then v.title.value else UnknownTitle,
      if joined != "" then joined else UnknownAuthor,
      v.description.GetOr(""),
      CoverOf(v.imageLinks),
      v.pageCount.GetOr(0),
      YearOf(v.publishedDate),
      v.categories.GetOr([]))
  }

  /** The ISBN is the identifier of the first ISBN_13 or ISBN_10 entry in list
      order (an ISBN_10 listed first wins over a later ISBN_13), and there is
      none when that identifier is empty or no entry has such a type. */
  lemma FormatIsbn(item: GoogleBooksItem, k: nat)
    requires item.volumeInfo.industryIdentifiers.Some?
    requires var ids := item.volumeInfo.industryIdentifiers.value;
      k < |ids| && IsIsbnKind(ids[k].kind) && forall j :: 0 <= j < k ==> !IsIsbnKind(ids[j].kind)
    ensures var ids := item.volumeInfo.industryIdentifiers.value;
      FormatBook(item).isbn == (if ids[k].identifier == "" then None else Some(ids[k].identifier))
  {
    var ids := item.volumeInfo.industryIdentifiers.value;
    assert FormatBook(item).isbn == IsbnOf(Some(ids));
    assert FirstIsbnIndex(ids) == Some(k);
  }

  lemma FormatNoIsbn(item: GoogleBooksItem)
    requires var ids := item.volumeInfo.industryIdentifiers;
      ids.None? || forall j :: 0 <= j < |ids.value| ==> !IsIsbnKind(ids.value[j].kind)
    ensures FormatBook(item).isbn.None?
  {
    assert FormatBook(item).isbn == IsbnOf(item.volumeInfo.industryIdentifiers);
  }

  /** The cover prefers a non-empty thumbnail to the small thumbnail, with
      the first "http://" turned into "https://", and is empty only when
      neither link is there; without image links it is empty. */
  lemma FormatCover(item: GoogleBooksItem)
    ensures item.volumeInfo.imageLinks.None? ==> FormatBook(item).coverUrl == ""
    ensures item.volumeInfo.imageLinks.Some? ==>
      var links := item.volumeInfo.imageLinks.value;
      var thumb := links.thumbnail;
      var small := links.smallThumbnail;
      && (thumb.Some? && thumb.value != "" ==> FormatBook(item).coverUrl == Secure(thumb.value))
      && ((thumb.None? || thumb.value == "") && small.Some? ==> FormatBook(item).coverUrl == Secure(small.value))
      && (FormatBook(item).coverUrl == "" <==>
            (thumb.None? || thumb.value == "") && (small.None? || small.value == ""))
  {
  }

  lemma SecureRewritesHttp(rest: string)
    ensures Secure("http://" + rest) == "https://" + rest
  {
    assert "http://" <= "http://" + rest;
  }

  /** A date that starts with a year, alone or followed by "-...", gives that
      year: "1999" gives 1999 and "2003-07" gives 2003. */
  lemma FormatYear(item: GoogleBooksItem, year: nat, rest: string)
    requires rest == "" || rest[0] == '-'
    requires item.volumeInfo.publishedDate == Some(NatToString(year) + rest)
    ensures FormatBook(item).publishedYear == Year(year)
  {
    assert FormatBook(item).publishedYear == YearOf(item.volumeInfo.publishedDate);
    YearOfDate(year, rest);
  }

  lemma YearOfDate(year: nat, rest: string)
    requires rest == "" || rest[0] == '-'
    ensures YearOf(Some(NatToString(year) + rest)) == Year(year)
  {
    BeforeFirstOfPrefix(NatToString(year), rest, '-');
    ParseIntOfIntToString(year);
  }

  lemma FormatNoYear(item: GoogleBooksItem)
    requires item.volumeInfo.publishedDate.None? || item.volumeInfo.publishedDate == Some("")
    ensures FormatBook(item).publishedYear == NoDate
  {
  }

  lemma {:induction false} BeforeFirstOfPrefix(a: string, b: string, sep: char)
    requires sep !in a
    requires b == "" || b[0] == sep
    ensures BeforeFirst(a + b, sep) == a
    decreases |a|
  {
    if |a| > 0 {
      assert (a + b)[1..] == a[1..] + b;
      BeforeFirstOfPrefix(a[1..], b, sep);
    }
  }
}
