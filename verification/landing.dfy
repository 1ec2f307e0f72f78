/** The landing page: its API helper (`apiService`), the search form, and the
    three independently loaded areas (search results, recommendations, categories). */
module Landing {

  import opened Values
  import opened Http
  import opened Catalog

  const ApiBaseUrl: string := "https://library-system-api-o8rl.onrender.com/api/v1"

  /** A GET request: the URL before the `?` and the query entries after it. */
  datatype Get = Get(path: string, query: Query)

  /** The object passed to `getBooks`. `limit` is what the recommendations fallback passes. */
  datatype SearchParams = SearchParams(
    title: Option<string>,
    author: Option<string>,
    bookId: Option<string>,
    category: Option<string>,
    limit: Option<int>
  )

  const NoParams: SearchParams := SearchParams(None, None, None, None, None)

  // ---------------------------------------------------------------------------
  // getBooks: parameters to query entries
  // ---------------------------------------------------------------------------

  /** The keys `getBooks` can append, declared in the order it appends them. */
  datatype QueryKey = TitleKey | AuthorKey | IdKey | CategoryKey {
    /** The name sent on the wire; `bookId` travels under "id". */
    function Name(): string {
      match this
      case TitleKey => "title"
      case AuthorKey => "author"
      case IdKey => "id"
      case CategoryKey => "category"
    }

    /** The position of the key in the append order. */
    function Rank(): (n: nat)
      ensures n < 4
    {
      match this
      case TitleKey => 0
      case AuthorKey => 1
      case IdKey => 2
      case CategoryKey => 3
    }
  }

  /** The key appended at a given position. */
  function KeyAt(r: nat): (k: QueryKey)
    requires r < 4
    ensures k.Rank() == r
  {
    if r == 0 then TitleKey else if r == 1 then AuthorKey else if r == 2 then IdKey else CategoryKey
  }

  /** The entries `getBooks` appends to its `URLSearchParams`. */
  type BooksQueryEntries = seq<(QueryKey, string)>

  /** The query as it goes on the wire. */
  function Wire(q: BooksQueryEntries): (w: Query)
    ensures |w| == |q|
    ensures forall i :: 0 <= i < |q| ==> w[i] == (q[i].0.Name(), q[i].1)
  {
    seq(|q|, i requires 0 <= i < |q| => (q[i].0.Name(), q[i].1))
  }

  /** A query `getBooks` can produce: each key at most once, in the fixed order, with a non-empty value. */
  predicate WellFormedQuery(q: BooksQueryEntries) {
    && (forall i :: 0 <= i < |q| ==> q[i].1 != "")
    && (forall i, j :: 0 <= i < j < |q| ==> q[i].0.Rank() < q[j].0.Rank())
  }

  /** One `if (value) queryParams.append(key, value)` step. */
  function Entry(key: QueryKey, v: Option<string>): (e: BooksQueryEntries)
    ensures Lookup(e, key) == WhenTruthy(v)
    ensures forall k :: k != key ==> Lookup(e, k) == None
    ensures forall i :: 0 <= i < |e| ==> e[i].0 == key && e[i].1 != ""
    ensures |e| <= 1
  {
    if Truthy(v) then [(key, v.value)] else []
  }

  /** Putting one step's entries in front of a well-formed query of higher-ranked keys keeps it well formed. */
  lemma PrependEntry(key: QueryKey, v: Option<string>, rest: BooksQueryEntries)
    requires WellFormedQuery(rest)
    requires forall j :: 0 <= j < |rest| ==> key.Rank() < rest[j].0.Rank()
    ensures WellFormedQuery(Entry(key, v) + rest)
    ensures forall j :: 0 <= j < |Entry(key, v) + rest| ==> key.Rank() <= (Entry(key, v) + rest)[j].0.Rank()
  {
    var e := Entry(key, v);
    if |e| == 1 {
      assert forall j :: 0 < j <= |rest| ==> (e + rest)[j] == rest[j - 1];
    } else {
      assert e + rest == rest;
    }
  }

  /** In such a joined query, the step's key is found in the step's entries, every other key in the rest. */
  lemma PrependLookup(key: QueryKey, v: Option<string>, rest: BooksQueryEntries, k: QueryKey)
    requires forall j :: 0 <= j < |rest| ==> rest[j].0 != key
    ensures Lookup(Entry(key, v) + rest, k) == if k == key then WhenTruthy(v) else Lookup(rest, k)
  {
    LookupAppend(Entry(key, v), rest, k);
  }

  /** The query `getBooks` builds: title, author, id (from `bookId`), category, in that
      order, each only when its parameter is truthy; `limit` and anything else is not sent. */
  function BooksQuery(p: SearchParams): (q: BooksQueryEntries)
    ensures WellFormedQuery(q)
    ensures Lookup(q, TitleKey) == WhenTruthy(p.title)
    ensures Lookup(q, AuthorKey) == WhenTruthy(p.author)
    ensures Lookup(q, IdKey) == WhenTruthy(p.bookId)
    ensures Lookup(q, CategoryKey) == WhenTruthy(p.category)
  {
    var t, a, i, c := Entry(TitleKey, p.title), Entry(AuthorKey, p.author), Entry(IdKey, p.bookId), Entry(CategoryKey, p.category);
    PrependEntry(CategoryKey, p.category, []);
    assert c + [] == c;
    PrependEntry(IdKey, p.bookId, c);
    PrependEntry(AuthorKey, p.author, i + c);
    PrependEntry(TitleKey, p.title, a + (i + c));
    PrependLookup(TitleKey, p.title, a + (i + c), TitleKey);
    PrependLookup(TitleKey, p.title, a + (i + c), AuthorKey);
    PrependLookup(AuthorKey, p.author, i + c, AuthorKey);
    PrependLookup(TitleKey, p.title, a + (i + c), IdKey);
    PrependLookup(AuthorKey, p.author, i + c, IdKey);
    PrependLookup(IdKey, p.bookId, c, IdKey);
    PrependLookup(TitleKey, p.title, a + (i + c), CategoryKey);
    PrependLookup(AuthorKey, p.author, i + c, CategoryKey);
    PrependLookup(IdKey, p.bookId, c, CategoryKey);
    t + (a + (i + c))
  }

  /** Reading the four parameters back out of a query (what the service receives). */
  function ParamsOf(q: BooksQueryEntries): SearchParams {
    SearchParams(Lookup(q, TitleKey), Lookup(q, AuthorKey), Lookup(q, IdKey), Lookup(q, CategoryKey), None)
  }

  /** The query keeps exactly the truthy ones among the four parameters: reading it back gives
      them unchanged, while falsy values and `limit` are gone. */
  lemma BooksQueryRoundTrip(p: SearchParams)
    ensures ParamsOf(BooksQuery(p)) ==
      SearchParams(WhenTruthy(p.title), WhenTruthy(p.author), WhenTruthy(p.bookId), WhenTruthy(p.category), None)
  {
  }

  /** The entries of `q` rebuilt rank by rank from its lookups, from rank `r` on. */
  function FromRank(q: BooksQueryEntries, r: nat): BooksQueryEntries
    requires r <= 4
    decreases 4 - r
  {
    if r == 4 then [] else Entry(KeyAt(r), Lookup(q, KeyAt(r))) + FromRank(q, r + 1)
  }

  /** Dropping a head entry of rank below `r` does not change the rebuild from rank `r`. */
  lemma {:induction false} SkipHead(q: BooksQueryEntries, r: nat)
    requires 0 < |q| && r <= 4 && q[0].0.Rank() < r
    ensures FromRank(q, r) == FromRank(q[1..], r)
    decreases 4 - r
  {
    if r < 4 {
      assert Lookup(q, KeyAt(r)) == Lookup(q[1..], KeyAt(r));
      SkipHead(q, r + 1);
    }
  }

  /** Rebuilding from rank `r` when the head of a well-formed query ranks higher: no entry has the
      key of rank `r`, so that step adds nothing. */
  lemma FromRankAbsent(q: BooksQueryEntries, r: nat)
    requires r < 4 && WellFormedQuery(q)
    requires forall i :: 0 <= i < |q| ==> r <= q[i].0.Rank()
    requires 0 < |q| && q[0].0.Rank() != r
    ensures FromRank(q, r) == FromRank(q, r + 1)
    ensures forall i :: 0 <= i < |q| ==> r + 1 <= q[i].0.Rank()
  {
    assert forall i :: 0 <= i < |q| ==> q[i].0 != KeyAt(r) by {
      forall i | 0 < i < |q|
        ensures q[0].0.Rank() < q[i].0.Rank()
      {
      }
    }
    assert Lookup(q, KeyAt(r)) == None;
  }

  /** Rebuilding from rank `r` when the head entry has the key of rank `r`: that step yields the head. */
  lemma FromRankPresent(q: BooksQueryEntries, r: nat)
    requires r < 4 && 0 < |q| && q[0].0 == KeyAt(r) && q[0].1 != ""
    ensures FromRank(q, r) == [q[0]] + FromRank(q, r + 1)
  {
    assert Lookup(q, KeyAt(r)) == Some(q[0].1);
  }

  /** Behind a head of rank `r`, the rest of a well-formed query is well formed with ranks above `r`. */
  lemma TailAboveRank(q: BooksQueryEntries, r: nat)
    requires WellFormedQuery(q) && 0 < |q| && q[0].0.Rank() == r
    ensures WellFormedQuery(q[1..])
    ensures forall i :: 0 <= i < |q[1..]| ==> r + 1 <= q[1..][i].0.Rank()
  {
    var tail := q[1..];
    assert forall i :: 0 <= i < |tail| ==> tail[i] == q[i + 1];
  }

  /** A head of rank `r` followed by a rest that is rebuilt from rank `r + 1` is rebuilt from rank `r`. */
  lemma RebuildCons(q: BooksQueryEntries, r: nat)
    requires r < 4 && 0 < |q| && q[0].0 == KeyAt(r) && q[0].1 != ""
    requires FromRank(q[1..], r + 1) == q[1..]
    ensures FromRank(q, r) == q
  {
    calc {
      FromRank(q, r);
    == { FromRankPresent(q, r); }
      [q[0]] + FromRank(q, r + 1);
    == { SkipHead(q, r + 1); }
      [q[0]] + q[1..];
    == { assert q == [q[0]] + q[1..]; }
      q;
    }
  }

  /** A well-formed query whose keys all have rank `r` or more is rebuilt exactly from rank `r`. */
  lemma {:induction false} FromRankRebuilds(q: BooksQueryEntries, r: nat)
    requires r <= 4 && WellFormedQuery(q)
    requires forall i :: 0 <= i < |q| ==> r <= q[i].0.Rank()
    ensures FromRank(q, r) == q
    decreases |q| + 4 - r
  {
    if r == 4 {
      assert |q| == 0;
    } else if |q| == 0 {
      FromRankRebuilds(q, r + 1);
    } else if q[0].0.Rank() == r {
      TailAboveRank(q, r);
      FromRankRebuilds(q[1..], r + 1);
      RebuildCons(q, r);
    } else {
      FromRankAbsent(q, r);
      FromRankRebuilds(q, r + 1);
    }
  }

  /** Every query `getBooks` can produce is produced from the parameters it carries:
      with `BooksQueryRoundTrip`, queries and their truthy parameters correspond one to one. */
  lemma BooksQueryFromParams(q: BooksQueryEntries)
    requires WellFormedQuery(q)
    ensures BooksQuery(ParamsOf(q)) == q
  {
    FromRankRebuilds(q, 0);
    var p := ParamsOf(q);
    var c := FromRank(q, 3);
    assert c == Entry(CategoryKey, p.category) by {
      assert KeyAt(3) == CategoryKey;
      assert FromRank(q, 4) == [];
    }
    var ic := FromRank(q, 2);
    assert ic == Entry(IdKey, p.bookId) + c by { assert KeyAt(2) == IdKey; }
    var aic := FromRank(q, 1);
    assert aic == Entry(AuthorKey, p.author) + ic by { assert KeyAt(1) == AuthorKey; }
    assert FromRank(q, 0) == Entry(TitleKey, p.title) + aic by { assert KeyAt(0) == TitleKey; }
  }

  /** The recommendations fallback calls `getBooks({ limit })`: the limit is dropped and the
      request asks for the unfiltered list. */
  lemma LimitIsNeverSent(limit: int)
    ensures BooksQuery(NoParams.(limit := Some(limit))) == []
    ensures forall p: SearchParams :: BooksQuery(p.(limit := Some(limit))) == BooksQuery(p)
  {
  }

  // ---------------------------------------------------------------------------
  // handleSearch: form state to parameters
  // ---------------------------------------------------------------------------

  /** The search form: the typed query, the "search by" choice and the category choice. */
  datatype SearchForm = SearchForm(query: string, searchBy: string, selectedCategory: string)

  /** The category entry that means "no category filter"; also the initial choice. */
  const AllCategories: string := "All Categories"

  const InitialForm: SearchForm := SearchForm("", "title", AllCategories)

  /** The parameter that a "search by" choice names; None for a choice that names none. */
  function SearchField(p: SearchParams, choice: string): Option<string> {
    if choice == "title" then p.title
    else if choice == "author" then p.author
    else if choice == "id" then p.bookId
    else None
  }

  /** The "search by" choices the handler recognises. */
  predicate KnownSearchBy(choice: string) {
    choice == "title" || choice == "author" || choice == "id"
  }

  /** The parameters `handleSearch` builds from the form. */
  function SearchParamsOf(f: SearchForm): (p: SearchParams)
    ensures f.query == "" ==> p.title == None && p.author == None && p.bookId == None
    ensures !KnownSearchBy(f.searchBy) ==> p.title == None && p.author == None && p.bookId == None
    ensures f.query != "" && KnownSearchBy(f.searchBy) ==>
      && SearchField(p, f.searchBy) == Some(f.query)
      && forall choice :: KnownSearchBy(choice) && choice != f.searchBy ==> SearchField(p, choice) == None
    ensures p.category.Some? <==> f.selectedCategory != AllCategories
    ensures p.category.Some? ==> p.category.value == f.selectedCategory
    ensures p.limit == None
  {
    var q := if f.query == "" then None else Some(f.query);
    SearchParams(
      if f.searchBy == "title" then q else None,
      if f.searchBy == "author" then q else None,
      if f.searchBy == "id" then q else None,
      if f.selectedCategory != AllCategories then Some(f.selectedCategory) else None,
      None)
  }

  /** The key a recognised "search by" choice travels under. */
  function SearchKey(choice: string): (k: QueryKey)
    requires KnownSearchBy(choice)
    ensures k.Name() == choice
  {
    if choice == "title" then TitleKey else if choice == "author" then AuthorKey else IdKey
  }

  /** End to end, a search sends at most the typed query under the chosen key, then the chosen
      category; an empty query or an unknown choice sends no query entry, and "All Categories"
      (or an empty category name) sends no category. */
  lemma SearchQuery(f: SearchForm)
    ensures BooksQuery(SearchParamsOf(f)) ==
      (if f.query != "" && KnownSearchBy(f.searchBy) then [(SearchKey(f.searchBy), f.query)] else [])
      + (if f.selectedCategory != AllCategories && f.selectedCategory != "" then [(CategoryKey, f.selectedCategory)] else [])
  {
    var p := SearchParamsOf(f);
    if f.query != "" && KnownSearchBy(f.searchBy) {
      if f.searchBy == "title" {
        assert p.author == None && p.bookId == None;
      } else if f.searchBy == "author" {
        assert p.title == None && p.bookId == None;
      }
    }
  }

  // ---------------------------------------------------------------------------
  // The page's three areas
  // ---------------------------------------------------------------------------

  datatype Area = BooksArea | RecommendationsArea | CategoriesArea

  /** One value per area, updated with `{ ...prev, [area]: value }`. */
  datatype PerArea<T> = PerArea(books: T, recommendations: T, categories: T) {
    function Get(a: Area): T {
      match a
      case BooksArea => books
      case RecommendationsArea => recommendations
      case CategoriesArea => categories
    }

    /** The spread update: the named area takes the new value, the other two keep theirs. */
    function With(a: Area, v: T): (r: PerArea<T>)
      ensures r.Get(a) == v
      ensures forall b :: b != a ==> r.Get(b) == Get(b)
    {
      match a
      case BooksArea => this.(books := v)
      case RecommendationsArea => this.(recommendations := v)
      case CategoriesArea => this.(categories := v)
    }
  }

  /** A category card. */
  datatype Category = Category(id: int, name: string, image: string)

  /** A decoded JSON body as the page reads it: `result` may be null (None), and `result.data`
      may be missing. An array, even an empty one, is truthy. */
  datatype Envelope<T> = Envelope(data: Option<seq<T>>)
  type Reply<T> = Option<Envelope<T>>

  /** `result && result.data`: the reply carries a list to adopt. */
  predicate HasData<T>(reply: Reply<T>) {
    reply.Some? && reply.value.data.Some?
  }

  /** `if (result && result.data) setList(result.data)`. */
  function Adopt<T>(current: seq<T>, reply: Reply<T>): seq<T> {
    if HasData(reply) then reply.value.data.value else current
  }

  /** Everything the landing page keeps. */
  datatype Page = Page(
    books: seq<Book>,
    recommendations: seq<Book>,
    categories: seq<Category>,
    loading: PerArea<bool>,
    error: PerArea<Option<string>>,
    form: SearchForm
  )

  const InitialPage: Page :=
    Page([], [], [], PerArea(false, false, false), PerArea(None, None, None), InitialForm)

  /** The other two areas' loading flags and errors, every list of another area and the form
      are as they were. */
  predicate OthersUnchanged(s: Page, t: Page, a: Area) {
    && (forall b :: b != a ==> t.loading.Get(b) == s.loading.Get(b) && t.error.Get(b) == s.error.Get(b))
    && (a != BooksArea ==> t.books == s.books)
    && (a != RecommendationsArea ==> t.recommendations == s.recommendations)
    && (a != CategoriesArea ==> t.categories == s.categories)
    && t.form == s.form
  }

  /** `setLoading(prev => ({ ...prev, [area]: true }))` as a request starts. */
  function StartLoading(s: Page, a: Area): (t: Page)
    ensures t.loading.Get(a)
    ensures OthersUnchanged(s, t, a)
    ensures t.error == s.error && t.books == s.books && t.recommendations == s.recommendations
    ensures t.categories == s.categories
  {
    s.(loading := s.loading.With(a, true))
  }

  /** How the search results area settles (the rest of `handleSearch`). */
  function SettleBooks(s: Page, outcome: Settled<Reply<Book>>): (t: Page)
    ensures !t.loading.books
    ensures OthersUnchanged(s, t, BooksArea)
    ensures outcome.Resolved? ==> t.error == s.error
    ensures outcome.Resolved? && HasData(outcome.value) ==> t.books == outcome.value.value.data.value
    ensures !(outcome.Resolved? && HasData(outcome.value)) ==> t.books == s.books
    ensures outcome.Rejected? ==> t.error.books == Some(outcome.message)
  {
    var s' := match outcome
      case Resolved(reply) => s.(books := Adopt(s.books, reply))
      case Rejected(m) => s.(error := s.error.With(BooksArea, Some(m)));
    s'.(loading := s'.loading.With(BooksArea, false))
  }

  /** How the recommendations area settles: on an error the sample list replaces the list. */
  function SettleRecommendations(s: Page, outcome: Settled<Reply<Book>>, sample: seq<Book>): (t: Page)
    ensures !t.loading.recommendations
    ensures OthersUnchanged(s, t, RecommendationsArea)
    ensures outcome.Resolved? ==> t.error == s.error
    ensures outcome.Resolved? && HasData(outcome.value) ==> t.recommendations == outcome.value.value.data.value
    ensures outcome.Resolved? && !HasData(outcome.value) ==> t.recommendations == s.recommendations
    ensures outcome.Rejected? ==>
      t.error.recommendations == Some(outcome.message) && t.recommendations == sample
  {
    var s' := match outcome
      case Resolved(reply) => s.(recommendations := Adopt(s.recommendations, reply))
      case Rejected(m) => s.(error := s.error.With(RecommendationsArea, Some(m)), recommendations := sample);
    s'.(loading := s'.loading.With(RecommendationsArea, false))
  }

  /** How the categories area settles. */
  function SettleCategories(s: Page, outcome: Settled<Reply<Category>>): (t: Page)
    ensures !t.loading.categories
    ensures OthersUnchanged(s, t, CategoriesArea)
    ensures outcome.Resolved? ==> t.error == s.error
    ensures outcome.Resolved? && HasData(outcome.value) ==> t.categories == outcome.value.value.data.value
    ensures !(outcome.Resolved? && HasData(outcome.value)) ==> t.categories == s.categories
    ensures outcome.Rejected? ==> t.error.categories == Some(outcome.message)
  {
    var s' := match outcome
      case Resolved(reply) => s.(categories := Adopt(s.categories, reply))
      case Rejected(m) => s.(error := s.error.With(CategoriesArea, Some(m)));
    s'.(loading := s'.loading.With(CategoriesArea, false))
  }

  // ---------------------------------------------------------------------------
  // apiService: requests and how each call settles
  // ---------------------------------------------------------------------------

  /** The request `getBooks(params)` issues. */
  function BooksGet(p: SearchParams): Get {
    Get(ApiBaseUrl + "/book", Wire(BooksQuery(p)))
  }

  /** `getRecommendations()` is always called with its default limit of 4. */
  const DefaultLimit: int := 4
  const RecommendationsGet: Get := Get(ApiBaseUrl + "/book/recommendations", [("limit", "4")])
  const CategoriesGet: Get := Get(ApiBaseUrl + "/categories", [])

  /** A failed exchange: no answer, or a status outside 200-299. */
  predicate Failed<P>(x: Exchange<P>) {
    x.NetworkFailure? || !IsOk(x.status)
  }

  /** How `getBooks` settles: non-ok statuses become the error "Failed to fetch books". */
  function GetBooksOutcome<T>(x: Exchange<Reply<T>>): (o: Settled<Reply<T>>)
    ensures o.Resolved? <==> !Failed(x) && x.body.Json?
    ensures o.Resolved? ==> o.value == x.body.payload
    ensures x.Responded? && !IsOk(x.status) ==> o == Rejected("Failed to fetch books")
    ensures x.NetworkFailure? ==> o == Rejected(x.message)
    ensures x.Responded? && IsOk(x.status) && x.body.Malformed? ==> o == Rejected(x.body.message)
  {
    match x
    case NetworkFailure(m) => Rejected(m)
    case Responded(status, body) =>
      if !IsOk(status) then Rejected("Failed to fetch books")
      else match body
        case Json(reply) => Resolved(reply)
        case Malformed(m) => Rejected(m)
  }

  /** The requests `getRecommendations` issues: its own endpoint, then `getBooks({ limit })` when that fails. */
  function RecommendationRequests<P>(primary: Exchange<P>): (rs: seq<Get>)
    ensures 1 <= |rs| <= 2 && rs[0] == RecommendationsGet
    ensures |rs| == 2 <==> Failed(primary)
  {
    if Failed(primary) then [RecommendationsGet, BooksGet(NoParams.(limit := Some(DefaultLimit)))]
    else [RecommendationsGet]
  }

  /** How `getRecommendations` settles. The body is decoded by a `return response.json()` that is
      not awaited, so a malformed body escapes the `try` and rejects instead of falling back. */
  function GetRecommendationsOutcome(primary: Exchange<Reply<Book>>, fallback: Exchange<Reply<Book>>): (o: Settled<Reply<Book>>)
    ensures !Failed(primary) ==> (o.Resolved? <==> primary.body.Json?)
    ensures !Failed(primary) && primary.body.Json? ==> o.value == primary.body.payload
    ensures !Failed(primary) && primary.body.Malformed? ==> o == Rejected(primary.body.message)
    ensures Failed(primary) ==> o == GetBooksOutcome(fallback)
  {
    if Failed(primary) then GetBooksOutcome(fallback)
    else match primary.body
      case Json(reply) => Resolved(reply)
      case Malformed(m) => Rejected(m)
  }

  /** The built-in categories `getCategories` answers with when the service cannot be used. */
  const FallbackCategories: seq<Category> := [
    Category(1, "Money/Investing", "/images/money.jpg"),
    Category(2, "Design", "/images/design.jpg"),
    Category(3, "Business", "/images/business.jpg"),
    Category(4, "Self Improvement", "/images/self-improvement.jpg")
  ]

  /** How `getCategories` settles: any failure of the exchange itself is answered with the
      built-in list; only a malformed body of an ok response rejects. */
  function GetCategoriesOutcome(x: Exchange<Reply<Category>>): (o: Settled<Reply<Category>>)
    ensures Failed(x) ==> o == Resolved(Some(Envelope(Some(FallbackCategories))))
    ensures o.Rejected? <==> !Failed(x) && x.body.Malformed?
    ensures !Failed(x) && x.body.Json? ==> o == Resolved(x.body.payload)
    ensures !Failed(x) && x.body.Malformed? ==> o == Rejected(x.body.message)
  {
    if Failed(x) then Resolved(Some(Envelope(Some(FallbackCategories))))
    else match x.body
      case Json(reply) => Resolved(reply)
      case Malformed(m) => Rejected(m)
  }

  // ---------------------------------------------------------------------------
  // The page's three loads
  // ---------------------------------------------------------------------------

  /** The request `handleSearch` issues for the current form. */
  function SearchRequest(s: Page): Get {
    BooksGet(SearchParamsOf(s.form))
  }

  /** `handleSearch`, from start to settlement, given the exchange the request met. */
  function Search(s: Page, x: Exchange<Reply<Book>>): (t: Page)
    ensures !t.loading.books
    ensures OthersUnchanged(s, t, BooksArea)
    ensures !Failed(x) && x.body.Json? && HasData(x.body.payload) ==> t.books == x.body.payload.value.data.value
    ensures !(!Failed(x) && x.body.Json? && HasData(x.body.payload)) ==> t.books == s.books
    ensures !Failed(x) && x.body.Json? ==> t.error == s.error
    ensures x.NetworkFailure? ==> t.error.books == Some(x.message)
    ensures x.Responded? && !IsOk(x.status) ==> t.error.books == Some("Failed to fetch books")
  {
    SettleBooks(StartLoading(s, BooksArea), GetBooksOutcome(x))
  }

  /** `fetchRecommendations`; `sample` stands for the page's built-in sample list. */
  function FetchRecommendations(s: Page, primary: Exchange<Reply<Book>>, fallback: Exchange<Reply<Book>>, sample: seq<Book>): (t: Page)
    ensures !t.loading.recommendations
    ensures OthersUnchanged(s, t, RecommendationsArea)
    ensures !Failed(primary) && primary.body.Json? && HasData(primary.body.payload) ==>
      t.recommendations == primary.body.payload.value.data.value && t.error == s.error
    ensures !Failed(primary) && primary.body.Malformed? ==>
      t.recommendations == sample && t.error.recommendations == Some(primary.body.message)
    ensures Failed(primary) && !Failed(fallback) && fallback.body.Json? && HasData(fallback.body.payload) ==>
      t.recommendations == fallback.body.payload.value.data.value && t.error == s.error
  {
    SettleRecommendations(StartLoading(s, RecommendationsArea), GetRecommendationsOutcome(primary, fallback), sample)
  }

  /** `fetchCategories`. */
  function FetchCategories(s: Page, x: Exchange<Reply<Category>>): (t: Page)
    ensures !t.loading.categories
    ensures OthersUnchanged(s, t, CategoriesArea)
    ensures Failed(x) ==> t.categories == FallbackCategories && t.error == s.error
    ensures !Failed(x) && x.body.Json? && HasData(x.body.payload) ==>
      t.categories == x.body.payload.value.data.value && t.error == s.error
    ensures !Failed(x) && x.body.Json? && !HasData(x.body.payload) ==> t.categories == s.categories && t.error == s.error
    ensures !Failed(x) && x.body.Malformed? ==>
      t.categories == s.categories && t.error.categories == Some(x.body.message)
  {
    SettleCategories(StartLoading(s, CategoriesArea), GetCategoriesOutcome(x))
  }

  /** The built-in categories are four, with ids 1 to 4 in order. */
  lemma FallbackCategoriesShape()
    ensures |FallbackCategories| == 4
    ensures forall i :: 0 <= i < 4 ==> FallbackCategories[i].id == i + 1
  {
  }

  /** When the categories request fails, the page shows the built-in categories and records no error. */
  lemma CategoriesFallBack(s: Page, x: Exchange<Reply<Category>>)
    requires Failed(x)
    ensures FetchCategories(s, x).categories == FallbackCategories
    ensures FetchCategories(s, x).error == s.error
    ensures !FetchCategories(s, x).loading.categories
  {
  }

  /** When both the recommendations endpoint and the `getBooks` fallback fail, the sample list is
      shown, the error is recorded and no other area changes. */
  lemma RecommendationsFallToSample(s: Page, primary: Exchange<Reply<Book>>, fallback: Exchange<Reply<Book>>, sample: seq<Book>)
    requires Failed(primary) && Failed(fallback)
    ensures FetchRecommendations(s, primary, fallback, sample).recommendations == sample
    ensures FetchRecommendations(s, primary, fallback, sample).error.recommendations.Some?
    ensures fallback.Responded? ==>
      FetchRecommendations(s, primary, fallback, sample).error.recommendations == Some("Failed to fetch books")
    ensures !FetchRecommendations(s, primary, fallback, sample).loading.recommendations
    ensures OthersUnchanged(s, FetchRecommendations(s, primary, fallback, sample), RecommendationsArea)
  {
  }

  /** A failed search keeps the previous results and records the error; the other areas are untouched. */
  lemma FailedSearchKeepsResults(s: Page, x: Exchange<Reply<Book>>)
    requires Failed(x) || x.body.Malformed?
    ensures Search(s, x).books == s.books
    ensures Search(s, x).error.books.Some?
    ensures !Search(s, x).loading.books
    ensures OthersUnchanged(s, Search(s, x), BooksArea)
  {
  }

  /** A search answered with an empty list shows no books and is not an error. */
  lemma EmptyAnswerIsNotAnError(s: Page, status: int)
    requires IsOk(status)
    ensures Search(s, Responded(status, Json(Some(Envelope(Some([])))))).books == []
    ensures Search(s, Responded(status, Json(Some(Envelope(Some([])))))).error == s.error
  {
  }

  /** A successful answer that does not carry `data` (for instance one shaped `{ books: [...] }`)
      leaves the shown results as they were. */
  lemma AnswerWithoutDataIsIgnored(s: Page, status: int, reply: Reply<Book>)
    requires IsOk(status) && !HasData(reply)
    ensures Search(s, Responded(status, Json(reply))).books == s.books
    ensures Search(s, Responded(status, Json(reply))).error == s.error
  {
  }

  /** When the recommendations endpoint fails, the fallback request asks for the unfiltered list:
      its limit is not sent. */
  lemma RecommendationsFallbackIsUnfiltered<P>(primary: Exchange<P>)
    requires Failed(primary)
    ensures RecommendationRequests(primary)[1] == Get(ApiBaseUrl + "/book", [])
  {
    LimitIsNeverSent(DefaultLimit);
  }

  // ---------------------------------------------------------------------------
  // Clicking a category card
  // ---------------------------------------------------------------------------

  /** The form a category card click sets: the clicked category and an empty query. */
  function CategoryClickForm(f: SearchForm, name: string): (g: SearchForm)
    ensures g.selectedCategory == name && g.query == "" && g.searchBy == f.searchBy
  {
    f.(selectedCategory := name, query := "")
  }

  /** The request the click handler issues as written: it calls the `handleSearch` of the current
      render, which still sees the form as it was before the two state setters took effect. */
  function CategoryClickRequestAsWritten(s: Page, name: string): Get {
    SearchRequest(s)
  }

  /** From the initial page, clicking "Design" as written asks for the unfiltered list, not for Design. */
  lemma StaleCategoryClick()
    ensures CategoryClickRequestAsWritten(InitialPage, "Design").query == []
    ensures SearchRequest(InitialPage.(form := CategoryClickForm(InitialForm, "Design"))).query == [("category", "Design")]
  {
    assert BooksQuery(SearchParamsOf(InitialForm)) == [] by {
      SearchQuery(InitialForm);
    }
    CategoryClickSearchesClickedCategory(InitialPage, "Design");
  }

  /** The click as intended: search with the clicked category and no query text. */
  function CategoryClick(s: Page, name: string, x: Exchange<Reply<Book>>): (t: Page)
    ensures t.form == CategoryClickForm(s.form, name)
    ensures !t.loading.books
    ensures OthersUnchanged(s.(form := CategoryClickForm(s.form, name)), t, BooksArea)
  {
    Search(s.(form := CategoryClickForm(s.form, name)), x)
  }

  /** The intended click sends only the clicked category (none for "All Categories"). */
  lemma CategoryClickSearchesClickedCategory(s: Page, name: string)
    ensures SearchRequest(s.(form := CategoryClickForm(s.form, name))).query ==
      if name != AllCategories && name != "" then [("category", name)] else []
  {
    var f := CategoryClickForm(s.form, name);
    assert f.query == "" && f.selectedCategory == name;
    SearchQuery(f);
  }
}
