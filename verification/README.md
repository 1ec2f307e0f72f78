# library-app pages, modelled in Dafny

The library front end is a set of React pages around calls to a remote book
directory service. This project models the logic those pages compute. Each
rule is written as a total function over immutable records, with the network
exchanges passed in as values:

- the **Browse Books** page (`src/pages/Books.jsx`). It builds the genre
  buttons: "All" followed by the distinct genres in first-seen order. It also
  filters the fetched list by the selected genre.
- the **landing page** (`src/pages/Landing.jsx`):
  - `apiService.getBooks` turns a parameter object into ordered query entries.
  - `getRecommendations` and `getCategories` have fallback rules.
  - `handleSearch` turns the search form into parameters.
  - the page adopts a reply only when it carries `data`.
  - each of the three areas (search results, recommendations, categories)
    has its own loading flag and error slot.
- the **book detail page** (`src/pages/SingleBook.jsx`, component
  `BookDetails`): the cover URL, the display fallbacks, the PATCH payload of
  `handleEdit`, and `handleDelete` with its confirmation guard and status
  classification.
- the **Upload a Book** page (`src/pages/AddBook.jsx`): the declared form
  controls with their constraints, and the three-state submit-button label.

Files:

| file | module | contents |
|---|---|---|
| `values.dfy` | `Values` | `Option`, JavaScript truthiness of strings and numbers, `Settled` (a promise's result) |
| `http.dfy` | `Http` | `Exchange` (no answer, or status plus body), `IsOk`, query entries and `Lookup` |
| `catalog.dfy` | `Catalog` | the `Book` record |
| `seqs.dfy` | `Seqs` | `Distinct`: what spreading a JavaScript `Set` yields |
| `books_page.dfy` | `BooksPage` | genre buttons and genre filter |
| `landing.dfy` | `Landing` | query building, search parameters, replies, per-area page state |
| `book_details.dfy` | `BookDetails` | detail-page derivations, edit and delete |
| `add_book.dfy` | `AddBook` | form constraints, submit label machine, submit handler |

Modelling conventions:

- A missing (`undefined`/`null`) field is `None`.
- A string is truthy when it is present and non-empty. A number is truthy
  when it is present and not 0.
- An array is always truthy, so `result && result.data` adopts an empty list
  as well.
- `response.ok` is a status from 200 to 299. Axios resolves on the same
  statuses.
- A decoded body that is not JSON is `Malformed`. `getRecommendations` and
  `getCategories` return `response.json()` from inside `try` without
  awaiting it. A decoding failure therefore escapes their `catch` and rejects
  the call; it does not trigger the fallback.

Behaviour of the code that a reader might not expect:

- The two pages read the book list from different members. The landing page
  adopts `result.data` (src/pages/Landing.jsx:116, 133, 165). The Browse Books
  page reads `data.books` from the same service (src/pages/Books.jsx:17). An
  answer that carries `books` but no `data` leaves the landing page's results
  as they were (`Landing.AnswerWithoutDataIsIgnored`).
- No handler clears an area's error slot (src/pages/Landing.jsx:120, 137, 169
  only ever set it). An error recorded once stays after a later success.
- When `getRecommendations` rejects, `fetchRecommendations` records the error
  and shows the page's sample list instead (src/pages/Landing.jsx:119-122).

## Model

| member | source | states |
|---|---|---|
| Seqs.Distinct | src/pages/Books.jsx:31 | spreading a Set built from the genres keeps every genre, adds nothing else, and has no duplicates |
| Seqs.DistinctFirstSeenOrder | src/pages/Books.jsx:31 | the distinct genres come out ordered by the position where each first occurs |
| BooksPage.Genres | src/pages/Books.jsx:31 | the button list starts with "All" and is exactly ["All"] for no books; after "All": no duplicates, every book's genre is there, every entry is some book's genre |
| BooksPage.AllListedOnce | src/pages/Books.jsx:31 | "All" occurs only at the front if and only if no book's genre is literally "All" |
| BooksPage.GenresFirstSeenOrder | src/pages/Books.jsx:31 | the genre buttons after "All" follow the order in which each genre first appears among the books |
| BooksPage.FiveBookGenres | src/pages/Books.jsx:31 | genres A, B, A, C, B give the buttons All, A, B, C |
| BooksPage.KeepGenre | src/pages/Books.jsx:37 | the filter keeps only books of the genre, keeps every such book, and never grows the list |
| BooksPage.KeepGenreSelectsInOrder | src/pages/Books.jsx:37 | the k-th kept book is the book at the k-th position whose genre matches: the order-preserving subsequence of exactly the matching books |
| BooksPage.FilteredBooks | src/pages/Books.jsx:34-37 | with "All" selected the list is returned unchanged; otherwise the result is the order-preserving subsequence of exactly the books of the genre: the k-th shown book is the book at the k-th matching position; it is never longer than the input, and it is empty when no book has the genre |
| BooksPage.FiveBookFilter | src/pages/Books.jsx:34-37 | in the A, B, A, C, B example, selecting B shows the second and fifth book in that order |
| Landing.BooksQuery | src/pages/Landing.jsx:10-17 | the query holds title, author, id and category in that fixed order, each at most once with a non-empty value, each present exactly when its parameter is truthy, and bookId travels under "id" |
| Landing.BooksQueryRoundTrip | src/pages/Landing.jsx:13-17 | reading the query back gives the truthy parameters unchanged; falsy ones and limit are gone |
| Landing.BooksQueryFromParams | src/pages/Landing.jsx:13-17 | every well-formed query is the one built from the parameters it carries, so queries and truthy parameters correspond one to one |
| Landing.LimitIsNeverSent | src/pages/Landing.jsx:10-19 | `getBooks({limit})` builds an empty query, and adding a limit to any parameters never changes the query |
| Landing.RecommendationRequests | src/pages/Landing.jsx:30-44 | the recommendations endpoint is always asked first; the books endpoint is asked second exactly when the first exchange failed |
| Landing.RecommendationsFallbackIsUnfiltered | src/pages/Landing.jsx:36-44 | the fallback request is the unfiltered books request: its limit is not sent |
| Landing.GetBooksOutcome | src/pages/Landing.jsx:20-26 | getBooks resolves exactly on an ok status with a JSON body, and then with that body; a non-ok status rejects with "Failed to fetch books"; no answer or a malformed body rejects with that failure's own message |
| Landing.GetRecommendationsOutcome | src/pages/Landing.jsx:34-44 | an ok answer settles with its own body, or rejects with the decoding failure's message on a malformed body; a failed one settles as getBooks does on the fallback exchange |
| Landing.GetCategoriesOutcome | src/pages/Landing.jsx:48-69 | a failed exchange answers with the built-in categories; an ok JSON answer gives its body; the call rejects, with the decoding failure's message, only on a malformed body of an ok answer |
| Landing.FallbackCategoriesShape | src/pages/Landing.jsx:62-67 | the built-in categories are four, with ids 1 to 4 in order |
| Landing.CategoriesFallBack | src/pages/Landing.jsx:129-140 | when the categories request fails the page shows the built-in categories, records no error and stops loading |
| Landing.SearchParamsOf | src/pages/Landing.jsx:149-161 | an empty query or an unknown "search by" sets none of title, author and bookId; otherwise exactly the chosen one is set, to the query; category is set, to the choice, exactly when the choice is not "All Categories"; limit is never set |
| Landing.SearchQuery | src/pages/Landing.jsx:149-163 | a search sends at most the query under the chosen key, followed by the chosen category; "All Categories" and an empty name send no category |
| Landing.StartLoading | src/pages/Landing.jsx:146 | starting a load raises only that area's loading flag; the other areas and all lists and errors keep their values |
| Landing.SettleBooks | src/pages/Landing.jsx:163-172 | search results are replaced only by a reply carrying data; on an error the previous results stay and the error is recorded; success leaves errors as they were; other areas are untouched and loading ends |
| Landing.SettleRecommendations | src/pages/Landing.jsx:114-125 | recommendations are replaced only by a reply carrying data; on an error the sample list is shown and the error recorded; other areas are untouched and loading ends |
| Landing.SettleCategories | src/pages/Landing.jsx:131-140 | categories are replaced only by a reply carrying data; on an error they stay and the error is recorded; other areas are untouched and loading ends |
| Landing.Search | src/pages/Landing.jsx:144-173 | a whole search: loading ends; only an ok JSON answer carrying data replaces the results, anything else keeps them; an ok JSON answer leaves errors as they were; no answer records its message and a non-ok status records "Failed to fetch books"; the other areas are untouched |
| Landing.FetchRecommendations | src/pages/Landing.jsx:112-126 | a whole recommendations load: loading ends; an ok answer with data, or a failed one whose fallback answers with data, replaces the list and records no error; a malformed ok answer shows the sample list and records its message; the other areas are untouched |
| Landing.RecommendationsFallToSample | src/pages/Landing.jsx:112-126 | when the endpoint and the fallback both fail, the sample list is shown, an error is recorded ("Failed to fetch books" when the fallback answered), loading ends and no other area changes |
| Landing.FetchCategories | src/pages/Landing.jsx:129-141 | a whole categories load: loading ends; a failed exchange shows the built-in list with no error; an ok answer with data replaces the list; one without data keeps it; a malformed one keeps it and records its message; the other areas are untouched |
| Landing.FailedSearchKeepsResults | src/pages/Landing.jsx:163-172 | a failed search leaves the previous results visible, records an error and touches no other area |
| Landing.EmptyAnswerIsNotAnError | src/pages/Landing.jsx:165-167 | an ok answer with an empty list shows no books and records no error |
| Landing.AnswerWithoutDataIsIgnored | src/pages/Landing.jsx:165-167 | an ok answer without `data` leaves the results and errors as they were |
| Landing.StaleCategoryClick | src/pages/Landing.jsx:399-403 | as written, clicking "Design" on the initial page requests the unfiltered list instead of Design |
| Landing.CategoryClickSearchesClickedCategory | src/pages/Landing.jsx:399-403 | the intended click searches with the clicked category alone |
| Landing.CategoryClick | src/pages/Landing.jsx:399-403 | the intended click leaves the form holding the clicked category and an empty query, ends the search's loading, and leaves the other areas' lists, loading flags and errors as they were |
| BookDetails.ImageUrl | src/pages/SingleBook.jsx:35-38 | a book with a truthy image gets the file-host URL around the image token; anything else gets exactly the placeholder |
| BookDetails.ImageUrlRoundTrip | src/pages/SingleBook.jsx:35-38 | the cover URL names exactly the book's image token, and the placeholder names none |
| BookDetails.TitleText | src/pages/SingleBook.jsx:121 | without a book the title reads "Title Not Available"; with one it is the book's title as is |
| BookDetails.AuthorLine | src/pages/SingleBook.jsx:125-127 | "By " and the author when the author is present, non-empty and not "NA"; otherwise "Author Not Specified" |
| BookDetails.AuthorLineReadsBack | src/pages/SingleBook.jsx:125-127 | the line starts with "By " exactly when the author is shown, and the rest is the author |
| BookDetails.GenreText | src/pages/SingleBook.jsx:130 | a present genre passes through, a missing or empty one reads "Genre Not Specified"; never blank |
| BookDetails.DescriptionText | src/pages/SingleBook.jsx:141-143 | a present description passes through, a missing or empty one reads "Description not available."; never blank |
| BookDetails.FallbackTextsReadBack | src/pages/SingleBook.jsx:121-143 | the title, genre and description texts show their fallback exactly when the field is falsy (or spells the fallback), and any other text is the book's own field |
| BookDetails.HistoricalYear | src/pages/SingleBook.jsx:154-156 | a present non-zero year is shown as the number; a missing year or 0 reads "Year not available" |
| BookDetails.YearBadge | src/pages/SingleBook.jsx:110 | "N/A" only without a book; a book's year is shown as is, and nothing when it has none |
| BookDetails.YearSlotsDisagreeOnZero | src/pages/SingleBook.jsx:110-156 | for a year of 0 the badge shows 0 while the paragraph says "Year not available" |
| BookDetails.LookupCompact | src/pages/SingleBook.jsx:56 | after serialisation a defined member is found with its value and an undefined one is absent |
| BookDetails.PayloadRoundTrip | src/pages/SingleBook.jsx:42-56 | parsing the PATCH body gives back exactly the five edited fields, undefined ones as undefined |
| BookDetails.PayloadNeverCarriesIdOrImage | src/pages/SingleBook.jsx:42-48 | every member of the PATCH body is one of title, author, publishedYear, genre and description; never id or image |
| BookDetails.ResourceUrlRoundTrip | src/pages/SingleBook.jsx:51 | the edit and delete URL names exactly the book's id |
| BookDetails.HandleEdit | src/pages/SingleBook.jsx:41-67 | without a book nothing is sent or shown; with one, a PATCH of the payload to the book's URL is sent, and it reports success exactly on an ok status and the generic error exactly when no answer came |
| BookDetails.ClassifyDelete | src/pages/SingleBook.jsx:82-92 | an ok status is success, 404 is "already deleted", any other status is a failure, and no answer is the generic error, each case exactly |
| BookDetails.DeleteMessagesDistinct | src/pages/SingleBook.jsx:83-92 | the four delete alerts are pairwise different texts |
| BookDetails.HandleDelete | src/pages/SingleBook.jsx:71-95 | no request and no alert unless confirmed; a DELETE to the book's URL is sent exactly when confirmed with a book; a missing book gives the generic error |
| BookDetails.EditAndDeleteShareTarget | src/pages/SingleBook.jsx:51-78 | editing and deleting a book target the same URL, which names the book's id |
| BookDetails.DeleteTwice | src/pages/SingleBook.jsx:82-86 | deleting against answers 200 then 404 reports success, then "already deleted" |
| AddBook.RequiredFields | src/pages/AddBook.jsx:50-142 | the named controls are exactly title, author, genre, publishedYear, image and description, in that order and all required; there is no rating control |
| AddBook.SubmittedYearInRange | src/pages/AddBook.jsx:87-95 | a submittable form holds a year from 1900 to 2099 and every other field filled in |
| AddBook.YearOutOfRangeBlocks | src/pages/AddBook.jsx:90-91 | a year outside 1900-2099 keeps the form from being submitted |
| AddBook.FormDataOf | src/pages/AddBook.jsx:15 | the form data has one entry per named control, in document order, with that control's value |
| AddBook.FailedSubmitRestores | src/pages/AddBook.jsx:28-30 | submit then failure ends on the initial label "Add to Library", from any label |
| AddBook.SucceededSubmitAdds | src/pages/AddBook.jsx:25-27 | submit then success ends on "Added to Library", from any label |
| AddBook.LabelTextsDistinct | src/pages/AddBook.jsx:6-30 | the three labels read differently |
| AddBook.HandleSubmit | src/pages/AddBook.jsx:9-32 | nothing happens for a form the browser rejects; otherwise the label becomes "Adding to Library" before the post; no post comes before that label; navigation to /ourbooks happens exactly on success |
| AddBook.SubmitFollowsLabelMachine | src/pages/AddBook.jsx:9-32 | the handler's label updates end where the label machine ends: "Added to Library" on success, the initial label on failure |
| AddBook.PostedData | src/pages/AddBook.jsx:15-22 | the posted form data names the six fields in order, and its year lies from 1900 to 2099 |

## Left out

- All network traffic (`fetch`, `axios.post`) and JSON decoding. Each
  exchange is an input value (`Http.Exchange`), and the service's own
  filtering is not modelled.
- `URLSearchParams` percent-encoding and `toString`. The query is the ordered
  list of key/value entries.
- React rendering, hooks, `useEffect` ordering, and the interleaving of
  concurrent loads. A start and a settlement are separate functions, so any
  interleaving can be composed from them, but no ordering is proved.
- `alert`, `window.confirm`, `navigate` and `console.*`. The user's answer to
  the confirmation is a boolean input. Alerts and navigation are outcome
  values.
- The content of `sampleRecommendations`. It is a parameter of
  `Landing.FetchRecommendations`.
- Image-loading fallbacks in `<img>`.
- `BooksPage`: the page's own fetch, which sets `bookData` to `data.books`.
- `getBookById` on the landing page (never called there).
- `handleSave` on the detail page (a POST of the whole book to `/save`).
  These requests carry no logic beyond the request itself.
- The route table (`src/App.jsx`) and the layout (`src/layouts/PagesLayout.jsx`).
- `BookDetails.HandleEdit`: the remote update's result is not modelled. Only
  the request and the alert choice are.
- `AddBook.HandleSubmit`: the browser's constraint check is modelled only as
  "required controls are filled in and the number lies within its bounds".
  The number input's step check and its parsing of typed text are not
  modelled.
- `AddBook.PostedData`: the image is the chosen file's name, not its bytes.
- `null` and `undefined` are one value (`None`).
  `JSON.stringify` keeps a `null` member and drops an `undefined` one. The
  model drops both.

## Findings

| source | as written | input that shows it | evidently intended | confidence | as-written member | corrected member |
|---|---|---|---|---|---|---|
| src/pages/Landing.jsx:399-403 | the category card handler calls `setSelectedCategory(name)`, `setSearchQuery("")`, then `handleSearch` of the same render. That handler still sees the previous form state. | initial page (category "All Categories"), click the "Design" card: the request carries no category | search with the clicked category and an empty query | high (not executed) | Landing.StaleCategoryClick | Landing.CategoryClickSearchesClickedCategory |
