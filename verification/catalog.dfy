/** The book record every page works with, as the Book Directory Service returns it. */
module Catalog {

  import opened Values

  /** A book. The identifier is assigned by the service and is opaque to the pages;
      every other field may be missing from a record, which the detail page tolerates. */
  datatype Book = Book(
    id: string,
    title: Option<string>,
    author: Option<string>,
    genre: Option<string>,
    publishedYear: Option<int>,
    description: Option<string>,
    image: Option<string>
  )

  /** The `genre` column of a list of books, position for position (`bookData.map(b => b.genre)`). */
  function GenreColumn(books: seq<Book>): (gs: seq<Option<string>>)
    ensures |gs| == |books|
    ensures forall i :: 0 <= i < |books| ==> gs[i] == books[i].genre
  {
    seq(|books|, i requires 0 <= i < |books| => books[i].genre)
  }
}
