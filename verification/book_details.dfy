/** The book detail page (`BookDetails`): what it displays for a possibly missing book,
    the PATCH it sends to edit the book, and the guarded DELETE. */
module BookDetails {

  import opened Values
  import opened Http
  import opened Catalog

  const ApiUrl: string := "https://library-system-api-o8rl.onrender.com/api/v1/books"

  // ---------------------------------------------------------------------------
  // Cover image
  // ---------------------------------------------------------------------------

  const ImageHost: string := "https://savefiles.org/secure/uploads/"
  const ShareSuffix: string := "?shareable_link=636"
  const PlaceholderImage: string := "/api/placeholder/240/360"

  /** `book && book.image`. */
  predicate HasImage(book: Option<Book>) {
    book.Some? && Truthy(book.value.image)
  }

  /** The cover URL: the image token on the file host, or the local placeholder. */
  function ImageUrl(book: Option<Book>): (url: string)
    ensures HasImage(book) ==> url == ImageHost + book.value.image.value + ShareSuffix
    ensures !HasImage(book) ==> url == PlaceholderImage
  {
    if HasImage(book) then ImageHost + book.value.image.value + ShareSuffix else PlaceholderImage
  }

  /** The image token a cover URL refers to, if it is a file-host URL. */
  function ImageOfUrl(url: string): Option<string> {
    if |url| >= |ImageHost| + |ShareSuffix| && url[..|ImageHost|] == ImageHost
       && url[|url| - |ShareSuffix|..] == ShareSuffix
    then Some(url[|ImageHost|..|url| - |ShareSuffix|])
    else None
  }

  /** The cover URL names exactly the book's image, and the placeholder names none. */
  lemma ImageUrlRoundTrip(book: Option<Book>)
    ensures ImageOfUrl(ImageUrl(book)) == if HasImage(book) then book.value.image else None
  {
    if HasImage(book) {
      var img := book.value.image.value;
      var url := ImageHost + img + ShareSuffix;
      assert url[..|ImageHost|] == ImageHost;
      assert url[|url| - |ShareSuffix|..] == ShareSuffix;
      assert url[|ImageHost|..|url| - |ShareSuffix|] == img;
    } else {
      assert |PlaceholderImage| < |ImageHost|;
    }
  }

  // ---------------------------------------------------------------------------
  // Displayed text
  // ---------------------------------------------------------------------------

  /** `book ? book.title : "Title Not Available"`; None when the title renders as nothing. */
  function TitleText(book: Option<Book>): (r: Option<string>)
    ensures book.None? ==> r == Some("Title Not Available")
    ensures book.Some? ==> r == book.value.title
  {
    if book.Some? then book.value.title else Some("Title Not Available")
  }

  /** The author is shown when present, non-empty and not the placeholder "NA". */
  predicate ShowsAuthor(book: Option<Book>) {
    book.Some? && Truthy(book.value.author) && book.value.author.value != "NA"
  }

  function AuthorLine(book: Option<Book>): (r: string)
    ensures ShowsAuthor(book) ==> r == "By " + book.value.author.value
    ensures !ShowsAuthor(book) ==> r == "Author Not Specified"
  {
    if ShowsAuthor(book) then "By " + book.value.author.value else "Author Not Specified"
  }

  /** The author line can be read back: it starts with "By " exactly when the author is shown,
      and what follows is the author. */
  lemma AuthorLineReadsBack(book: Option<Book>)
    ensures (|AuthorLine(book)| >= 3 && AuthorLine(book)[..3] == "By ") <==> ShowsAuthor(book)
    ensures ShowsAuthor(book) ==> AuthorLine(book)[3..] == book.value.author.value
  {
    if ShowsAuthor(book) {
      var a := book.value.author.value;
      assert ("By " + a)[..3] == "By ";
      assert ("By " + a)[3..] == a;
    } else {
      assert "Author Not Specified"[0] != 'B';
    }
  }

  /** `v ? v : fallback` on a text field. */
  function OrFallback(v: Option<string>, fallback: string): (r: string)
    requires fallback != ""
    ensures r != ""
    ensures Truthy(v) ==> r == v.value
    ensures !Truthy(v) ==> r == fallback
  {
    if Truthy(v) then v.value else fallback
  }

  function GenreText(book: Option<Book>): (r: string)
    ensures r != ""
    ensures book.Some? && Truthy(book.value.genre) ==> r == book.value.genre.value
    ensures !(book.Some? && Truthy(book.value.genre)) ==> r == "Genre Not Specified"
  {
    OrFallback(if book.Some? then book.value.genre else None, "Genre Not Specified")
  }

  function DescriptionText(book: Option<Book>): (r: string)
    ensures r != ""
    ensures book.Some? && Truthy(book.value.description) ==> r == book.value.description.value
    ensures !(book.Some? && Truthy(book.value.description)) ==> r == "Description not available."
  {
    OrFallback(if book.Some? then book.value.description else None, "Description not available.")
  }

  /** The title, genre and description texts read back: a text other than its fallback is the
      book's own field, and the fallback shows exactly when the field is falsy or spells the
      fallback itself. */
  lemma FallbackTextsReadBack(book: Option<Book>)
    ensures TitleText(book) == Some("Title Not Available")
        <==> book.None? || book.value.title == Some("Title Not Available")
    ensures TitleText(book) != Some("Title Not Available") ==> book.Some? && book.value.title == TitleText(book)
    ensures GenreText(book) == "Genre Not Specified"
        <==> !(book.Some? && Truthy(book.value.genre)) || book.value.genre == Some("Genre Not Specified")
    ensures GenreText(book) != "Genre Not Specified" ==> book.Some? && book.value.genre == Some(GenreText(book))
    ensures DescriptionText(book) == "Description not available."
        <==> !(book.Some? && Truthy(book.value.description)) || book.value.description == Some("Description not available.")
    ensures DescriptionText(book) != "Description not available." ==>
      book.Some? && book.value.description == Some(DescriptionText(book))
  {
  }

  /** What a year slot renders: the number itself, or a text. */
  datatype YearCell = YearNumber(year: int) | YearText(text: string)

  /** The year in the "Historical Context" paragraph: a missing year and a year of 0 (falsy)
      both read "Year not available". */
  function HistoricalYear(book: Option<Book>): (r: YearCell)
    ensures r.YearNumber? <==> book.Some? && TruthyNum(book.value.publishedYear)
    ensures r.YearNumber? ==> r.year == book.value.publishedYear.value && r.year != 0
    ensures r.YearText? ==> r.text == "Year not available"
  {
    if book.Some? && TruthyNum(book.value.publishedYear) then YearNumber(book.value.publishedYear.value)
    else YearText("Year not available")
  }

  /** The year badge on the cover: "N/A" only when there is no book at all; a book without a
      year renders nothing (None), and a year of 0 is rendered as 0. */
  function YearBadge(book: Option<Book>): (r: Option<YearCell>)
    ensures book.None? ==> r == Some(YearText("N/A"))
    ensures book.Some? && book.value.publishedYear.Some? ==> r == Some(YearNumber(book.value.publishedYear.value))
    ensures book.Some? && book.value.publishedYear.None? ==> r == None
  {
    if book.None? then Some(YearText("N/A"))
    else if book.value.publishedYear.Some? then Some(YearNumber(book.value.publishedYear.value))
    else None
  }

  /** The two year slots disagree on a year of 0: the badge shows it, the paragraph does not. */
  lemma YearSlotsDisagreeOnZero(b: Book)
    requires b.publishedYear == Some(0)
    ensures YearBadge(Some(b)) == Some(YearNumber(0))
    ensures HistoricalYear(Some(b)) == YearText("Year not available")
  {
  }

  // ---------------------------------------------------------------------------
  // Edit: the PATCH payload
  // ---------------------------------------------------------------------------

  /** The members of the edited-book object, in the order the handler writes them. */
  datatype EditKey = TitleField | AuthorField | YearField | GenreField | DescriptionField {
    function Name(): string {
      match this
      case TitleField => "title"
      case AuthorField => "author"
      case YearField => "publishedYear"
      case GenreField => "genre"
      case DescriptionField => "description"
    }
  }

  /** A JSON value of the payload. */
  datatype Json = JStr(s: string) | JNum(n: int)

  /** The object `handleEdit` builds: five fields copied from the book, an undefined one as None. */
  datatype EditedBook = EditedBook(
    title: Option<string>,
    author: Option<string>,
    publishedYear: Option<int>,
    genre: Option<string>,
    description: Option<string>
  )

  function EditedBookOf(b: Book): EditedBook {
    EditedBook(b.title, b.author, b.publishedYear, b.genre, b.description)
  }

  function StrJson(v: Option<string>): Option<Json> {
    if v.Some? then Some(JStr(v.value)) else None
  }

  function NumJson(v: Option<int>): Option<Json> {
    if v.Some? then Some(JNum(v.value)) else None
  }

  /** The object's members in writing order, an undefined member as None. */
  function Members(e: EditedBook): seq<(EditKey, Option<Json>)> {
    [(TitleField, StrJson(e.title)), (AuthorField, StrJson(e.author)), (YearField, NumJson(e.publishedYear)),
     (GenreField, StrJson(e.genre)), (DescriptionField, StrJson(e.description))]
  }

  /** What `JSON.stringify` keeps of an object's members: the defined ones, in order. */
  function Compact<K, V>(l: seq<(K, Option<V>)>): (r: seq<(K, V)>)
    ensures |r| <= |l|
    ensures forall i :: 0 <= i < |r| ==> exists j :: 0 <= j < |l| && l[j] == (r[i].0, Some(r[i].1))
  {
    if |l| == 0 then []
    else
      var rest := Compact(l[1..]);
      if l[0].1.Some? then [(l[0].0, l[0].1.value)] + rest else rest
  }

  /** The PATCH body. */
  function Stringify(e: EditedBook): seq<(EditKey, Json)> {
    Compact(Members(e))
  }

  /** Looking a member up after `JSON.stringify` finds the defined value, and nothing for an undefined one. */
  lemma {:induction false} LookupCompact<K, V>(l: seq<(K, Option<V>)>, k: K)
    requires DistinctKeys(l)
    ensures Lookup(Compact(l), k) == if Lookup(l, k).Some? then Lookup(l, k).value else None
  {
    if |l| > 0 {
      assert DistinctKeys(l[1..]) by {
        assert forall i :: 0 <= i < |l| - 1 ==> l[1..][i] == l[i + 1];
      }
      LookupCompact(l[1..], k);
      if l[0].0 == k {
        assert forall j :: 0 <= j < |l[1..]| ==> l[1..][j].0 != k by {
          assert forall j :: 0 <= j < |l| - 1 ==> l[1..][j] == l[j + 1];
        }
      }
    }
  }

  /** Reading a JSON member back as a text or a number field. */
  function AsStr(v: Option<Json>): Option<string> {
    if v.Some? && v.value.JStr? then Some(v.value.s) else None
  }

  function AsNum(v: Option<Json>): Option<int> {
    if v.Some? && v.value.JNum? then Some(v.value.n) else None
  }

  /** `JSON.parse` of the payload, read as an edited book. */
  function Parse(m: seq<(EditKey, Json)>): EditedBook {
    EditedBook(AsStr(Lookup(m, TitleField)), AsStr(Lookup(m, AuthorField)), AsNum(Lookup(m, YearField)),
               AsStr(Lookup(m, GenreField)), AsStr(Lookup(m, DescriptionField)))
  }

  /** Each member of the edited-book object is found in the PATCH body with its value, or is
      absent there when it is undefined. */
  lemma StringifiedMember(e: EditedBook, i: nat)
    requires i < 5
    ensures Lookup(Stringify(e), Members(e)[i].0) == Members(e)[i].1
  {
    var l := Members(e);
    assert DistinctKeys(l);
    LookupAt(l, i);
    LookupCompact(l, l[i].0);
  }

  /** The payload carries the five edited fields exactly: parsing it gives them back, undefined ones as undefined. */
  lemma PayloadRoundTrip(e: EditedBook)
    ensures Parse(Stringify(e)) == e
  {
    StringifiedMember(e, 0);
    StringifiedMember(e, 1);
    StringifiedMember(e, 2);
    StringifiedMember(e, 3);
    StringifiedMember(e, 4);
  }

  /** The payload never names the book's `id` or `image`, and has no member outside the five. */
  lemma PayloadNeverCarriesIdOrImage(b: Book)
    ensures forall i :: 0 <= i < |Stringify(EditedBookOf(b))| ==>
      Stringify(EditedBookOf(b))[i].0.Name() in {"title", "author", "publishedYear", "genre", "description"}
  {
  }

  // ---------------------------------------------------------------------------
  // Requests and their outcomes
  // ---------------------------------------------------------------------------

  /** The URL both the PATCH and the DELETE target. */
  function ResourceUrl(id: string): string {
    ApiUrl + "/" + id
  }

  /** The book id a resource URL names. */
  function IdOfUrl(url: string): Option<string> {
    if |url| > |ApiUrl| && url[..|ApiUrl| + 1] == ApiUrl + "/" then Some(url[|ApiUrl| + 1..]) else None
  }

  lemma ResourceUrlRoundTrip(id: string)
    ensures IdOfUrl(ResourceUrl(id)) == Some(id)
  {
    var url := ResourceUrl(id);
    assert url[..|ApiUrl| + 1] == ApiUrl + "/";
    assert url[|ApiUrl| + 1..] == id;
  }

  datatype Method = Patch | Delete

  datatype Request = Request(verb: Method, url: string, body: Option<seq<(EditKey, Json)>>)

  datatype EditAlert = Updated | UpdateFailed | UpdateErrored

  /** The outcome of `handleEdit`: the request sent, if any, and the alert shown, if any. */
  datatype EditRun = EditRun(request: Option<Request>, alert: Option<EditAlert>)

  /** `handleEdit`. Without a book, reading `book.title` throws before the `try`, so nothing is
      sent and no alert is shown. */
  function HandleEdit<P>(book: Option<Book>, x: Exchange<P>): (r: EditRun)
    ensures book.None? ==> r == EditRun(None, None)
    ensures book.Some? ==> r.request == Some(Request(Patch, ResourceUrl(book.value.id), Some(Stringify(EditedBookOf(book.value)))))
    ensures book.Some? ==> r.alert.Some?
    ensures book.Some? ==> (r.alert == Some(Updated) <==> x.Responded? && IsOk(x.status))
    ensures book.Some? ==> (r.alert == Some(UpdateErrored) <==> x.NetworkFailure?)
  {
    if book.None? then EditRun(None, None)
    else
      var alert := match x
        case NetworkFailure(_) => UpdateErrored
        case Responded(status, _) => if IsOk(status) then Updated else UpdateFailed;
      EditRun(Some(Request(Patch, ResourceUrl(book.value.id), Some(Stringify(EditedBookOf(book.value))))), Some(alert))
  }

  datatype DeleteAlert = Deleted | AlreadyGone | DeleteFailed | DeleteErrored

  /** How `handleDelete` reads the DELETE exchange. */
  function ClassifyDelete<P>(x: Exchange<P>): (a: DeleteAlert)
    ensures a == Deleted <==> x.Responded? && IsOk(x.status)
    ensures a == AlreadyGone <==> x.Responded? && x.status == NotFound
    ensures a == DeleteErrored <==> x.NetworkFailure?
    ensures a == DeleteFailed <==> x.Responded? && !IsOk(x.status) && x.status != NotFound
  {
    match x
    case NetworkFailure(_) => DeleteErrored
    case Responded(status, _) =>
      if IsOk(status) then Deleted else if status == NotFound then AlreadyGone else DeleteFailed
  }

  /** The text of each delete alert. */
  function DeleteMessage(a: DeleteAlert): string {
    match a
    case Deleted => "Book deleted successfully!"
    case AlreadyGone => "Book not found. It may have already been deleted."
    case DeleteFailed => "An error occurred while deleting the book. Please try again."
    case DeleteErrored => "An error occurred while deleting the book."
  }

  /** The user can tell every delete outcome apart by its alert. */
  lemma DeleteMessagesDistinct(a: DeleteAlert, b: DeleteAlert)
    ensures DeleteMessage(a) == DeleteMessage(b) ==> a == b
  {
    assert DeleteMessage(Deleted) != DeleteMessage(AlreadyGone);
    assert DeleteMessage(Deleted) != DeleteMessage(DeleteFailed);
    assert DeleteMessage(Deleted) != DeleteMessage(DeleteErrored);
    assert DeleteMessage(AlreadyGone) != DeleteMessage(DeleteFailed);
    assert DeleteMessage(AlreadyGone) != DeleteMessage(DeleteErrored);
    assert DeleteMessage(DeleteFailed) != DeleteMessage(DeleteErrored);
  }

  datatype DeleteRun = DeleteRun(request: Option<Request>, alert: Option<DeleteAlert>)

  /** `handleDelete`, given the user's answer to the confirmation and the exchange the request met.
      Without a book, reading `book.id` throws inside the `try`: no request, the generic error alert. */
  function HandleDelete<P>(book: Option<Book>, confirmed: bool, x: Exchange<P>): (r: DeleteRun)
    ensures !confirmed ==> r == DeleteRun(None, None)
    ensures r.request.Some? <==> confirmed && book.Some?
    ensures r.request.Some? ==> r.request.value == Request(Delete, ResourceUrl(book.value.id), None)
    ensures confirmed && book.None? ==> r.alert == Some(DeleteErrored)
    ensures confirmed && book.Some? ==> r.alert == Some(ClassifyDelete(x))
  {
    if !confirmed then DeleteRun(None, None)
    else if book.None? then DeleteRun(None, Some(DeleteErrored))
    else DeleteRun(Some(Request(Delete, ResourceUrl(book.value.id), None)), Some(ClassifyDelete(x)))
  }

  /** Editing and deleting the same book target the same URL, which names the book's id. */
  lemma EditAndDeleteShareTarget<P, Q>(b: Book, x: Exchange<P>, y: Exchange<Q>)
    ensures HandleEdit(Some(b), x).request.value.url == HandleDelete(Some(b), true, y).request.value.url
    ensures IdOfUrl(HandleDelete(Some(b), true, y).request.value.url) == Some(b.id)
  {
    ResourceUrlRoundTrip(b.id);
  }

  /** Deleting twice against a service that answers 200 and then 404 reports success, then the
      benign "already deleted" alert. */
  lemma DeleteTwice<P>(b: Book, body1: Body<P>, body2: Body<P>)
    ensures HandleDelete(Some(b), true, Responded(200, body1)).alert == Some(Deleted)
    ensures HandleDelete(Some(b), true, Responded(NotFound, body2)).alert == Some(AlreadyGone)
  {
  }
}
