/** The "Browse Books" page: the genre buttons and the list of books shown
    under the selected genre, both derived from the fetched `bookData`. */
module BooksPage {

  import opened Values
  import opened Catalog
  import opened Seqs

  /** The sentinel genre button meaning "no filter"; it is also the initial selection. */
  const AllGenres: Option<string> := Some("All")

  /** The genre buttons: "All" followed by the distinct genres of the books, first-seen order. */
  function Genres(books: seq<Book>): (r: seq<Option<string>>)
    ensures |r| >= 1 && r[0] == AllGenres
    ensures |books| == 0 ==> r == [AllGenres]
    ensures NoDuplicates(r[1..])
    ensures forall i :: 0 <= i < |books| ==> books[i].genre in r[1..]
    ensures forall k :: 1 <= k < |r| ==> exists i :: 0 <= i < |books| && books[i].genre == r[k]
  {
    var d := Distinct(GenreColumn(books));
    assert ([AllGenres] + d)[1..] == d;
    [AllGenres] + d
  }

  /** "All" is a button of its own exactly once, at the front, if and only if no book's
      genre is literally "All"; otherwise the same label appears a second time. */
  lemma AllListedOnce(books: seq<Book>)
    ensures (forall k :: 1 <= k < |Genres(books)| ==> Genres(books)[k] != AllGenres)
        <==> (forall i :: 0 <= i < |books| ==> books[i].genre != AllGenres)
  {
    var r := Genres(books);
    if exists i :: 0 <= i < |books| && books[i].genre == AllGenres {
      var i :| 0 <= i < |books| && books[i].genre == AllGenres;
      assert books[i].genre in r[1..];
      var k :| 0 <= k < |r[1..]| && r[1..][k] == AllGenres;
      assert r[k + 1] == AllGenres;
    }
  }

  /** The position of the first book with genre `g`. */
  function FirstBookWithGenre(books: seq<Book>, g: Option<string>): (k: nat)
    requires exists i :: 0 <= i < |books| && books[i].genre == g
    ensures k < |books| && books[k].genre == g
    ensures forall i :: 0 <= i < k ==> books[i].genre != g
  {
    var gs := GenreColumn(books);
    assert g in gs;
    FirstIndex(gs, g)
  }

  /** The genre buttons after "All" follow the order in which each genre first appears in the books. */
  lemma {:induction false} GenresFirstSeenOrder(books: seq<Book>)
    ensures forall i, j :: 1 <= i < j < |Genres(books)| ==>
      FirstBookWithGenre(books, Genres(books)[i]) < FirstBookWithGenre(books, Genres(books)[j])
  {
    var gs := GenreColumn(books);
    var d := Distinct(gs);
    var r := Genres(books);
    DistinctFirstSeenOrder(gs);
    forall i, j | 1 <= i < j < |r|
      ensures FirstBookWithGenre(books, r[i]) < FirstBookWithGenre(books, r[j])
    {
      assert r[i] == d[i - 1] && r[j] == d[j - 1];
    }
  }

  /** The positions of the books whose genre is `g`, in increasing order. */
  function MatchingPositions(books: seq<Book>, g: Option<string>): (idx: seq<nat>)
    ensures forall k :: 0 <= k < |idx| ==> idx[k] < |books|
    ensures forall k, l :: 0 <= k < l < |idx| ==> idx[k] < idx[l]
    ensures forall i :: 0 <= i < |books| ==> (i in idx <==> books[i].genre == g)
  {
    if |books| == 0 then []
    else
      var n := |books| - 1;
      var p := MatchingPositions(books[..n], g);
      assert forall i :: 0 <= i < n ==> books[..n][i] == books[i];
      if books[n].genre == g then p + [n] else p
  }

  /** `bookData.filter(book => book.genre === g)`. */
  function KeepGenre(books: seq<Book>, g: Option<string>): (r: seq<Book>)
    ensures |r| <= |books|
    ensures forall k :: 0 <= k < |r| ==> r[k].genre == g && r[k] in books
    ensures forall i :: 0 <= i < |books| && books[i].genre == g ==> books[i] in r
  {
    if |books| == 0 then []
    else
      var n := |books| - 1;
      var p := KeepGenre(books[..n], g);
      assert forall i :: 0 <= i < n ==> books[..n][i] == books[i];
      if books[n].genre == g then p + [books[n]] else p
  }

  /** The filter keeps exactly the books of genre `g`, in their original order:
      the k-th book kept is the book at the k-th matching position. */
  lemma {:induction false} KeepGenreSelectsInOrder(books: seq<Book>, g: Option<string>)
    ensures |KeepGenre(books, g)| == |MatchingPositions(books, g)|
    ensures forall k :: 0 <= k < |KeepGenre(books, g)| ==>
      KeepGenre(books, g)[k] == books[MatchingPositions(books, g)[k]]
  {
    if |books| > 0 {
      var n := |books| - 1;
      var p := books[..n];
      KeepGenreSelectsInOrder(p, g);
      var rp, ip := KeepGenre(p, g), MatchingPositions(p, g);
      forall k | 0 <= k < |rp|
        ensures rp[k] == books[ip[k]]
      {
        assert p[ip[k]] == books[ip[k]];
      }
      if books[n].genre == g {
        assert KeepGenre(books, g) == rp + [books[n]];
        assert MatchingPositions(books, g) == ip + [n];
      } else {
        assert KeepGenre(books, g) == rp;
        assert MatchingPositions(books, g) == ip;
      }
    }
  }

  /** The books shown: all of them, unchanged, while "All" is selected; otherwise those of the selected genre. */
  function FilteredBooks(books: seq<Book>, selected: Option<string>): (r: seq<Book>)
    ensures selected == AllGenres ==> r == books
    ensures |r| <= |books|
    ensures selected != AllGenres ==> forall k :: 0 <= k < |r| ==> r[k].genre == selected
    ensures selected != AllGenres ==>
      forall i :: 0 <= i < |books| && books[i].genre == selected ==> books[i] in r
    ensures selected != AllGenres && (forall i :: 0 <= i < |books| ==> books[i].genre != selected) ==> r == []
    ensures selected != AllGenres ==>
      && |r| == |MatchingPositions(books, selected)|
      && forall k :: 0 <= k < |r| ==> r[k] == books[MatchingPositions(books, selected)[k]]
  {
    if selected == AllGenres then books
    else
      var r := KeepGenre(books, selected);
      assert |r| > 0 ==> r[0] in books;
      KeepGenreSelectsInOrder(books, selected);
      r
  }

  /** Duplicate removal keeps two different values as they are. */
  lemma DistinctPair<T>(a: T, b: T)
    requires a != b
    ensures Distinct([a, b]) == [a, b]
  {
    assert [a] == [] + [a];
    DistinctSnoc([], a);
    assert [a, b] == [a] + [b];
    DistinctSnoc([a], b);
  }

  /** Duplicate removal on A, B, A keeps A, B. */
  lemma DistinctRepeatFirst<T>(a: T, b: T)
    requires a != b
    ensures Distinct([a, b, a]) == [a, b]
  {
    DistinctPair(a, b);
    assert [a, b, a] == [a, b] + [a];
    DistinctSnoc([a, b], a);
  }

  /** Duplicate removal on A, B, A, C keeps A, B, C. */
  lemma DistinctThenNew<T>(a: T, b: T, c: T)
    requires a != b && a != c && b != c
    ensures Distinct([a, b, a, c]) == [a, b, c]
  {
    DistinctRepeatFirst(a, b);
    assert [a, b, a, c] == [a, b, a] + [c];
    DistinctSnoc([a, b, a], c);
  }

  /** Duplicate removal on the genres A, B, A, C, B keeps A, B, C. */
  lemma DistinctExample<T>(a: T, b: T, c: T)
    requires a != b && a != c && b != c
    ensures Distinct([a, b, a, c, b]) == [a, b, c]
  {
    DistinctThenNew(a, b, c);
    assert [a, b, a, c, b] == [a, b, a, c] + [b];
    DistinctSnoc([a, b, a, c], b);
  }

  /** Worked example: five books with genres A, B, A, C, B give the buttons All, A, B, C. */
  lemma FiveBookGenres(b: seq<Book>)
    requires |b| == 5
    requires b[0].genre == Some("A") && b[1].genre == Some("B") && b[2].genre == Some("A")
    requires b[3].genre == Some("C") && b[4].genre == Some("B")
    ensures Genres(b) == [AllGenres, Some("A"), Some("B"), Some("C")]
  {
    FiveBookColumn(b);
    DistinctExample(Some("A"), Some("B"), Some("C"));
    assert [AllGenres] + [Some("A"), Some("B"), Some("C")] == [AllGenres, Some("A"), Some("B"), Some("C")];
  }

  /** The genre column of the five-book example. */
  lemma FiveBookColumn(b: seq<Book>)
    requires |b| == 5
    requires b[0].genre == Some("A") && b[1].genre == Some("B") && b[2].genre == Some("A")
    requires b[3].genre == Some("C") && b[4].genre == Some("B")
    ensures GenreColumn(b) == [Some("A"), Some("B"), Some("A"), Some("C"), Some("B")]
  {
  }

  /** In the same example, selecting B shows the second and the fifth book, in that order. */
  lemma FiveBookFilter(b: seq<Book>)
    requires |b| == 5
    requires b[0].genre == Some("A") && b[1].genre == Some("B") && b[2].genre == Some("A")
    requires b[3].genre == Some("C") && b[4].genre == Some("B")
    ensures FilteredBooks(b, Some("B")) == [b[1], b[4]]
  {
    var g := Some("B");
    assert b[..4] == [b[0], b[1], b[2], b[3]];
    assert b[..4][..3] == [b[0], b[1], b[2]];
    assert b[..4][..3][..2] == [b[0], b[1]];
    assert b[..4][..3][..2][..1] == [b[0]];
    assert KeepGenre([b[0]], g) == [];
    assert KeepGenre([b[0], b[1]], g) == [b[1]];
    assert KeepGenre([b[0], b[1], b[2]], g) == [b[1]];
    assert KeepGenre([b[0], b[1], b[2], b[3]], g) == [b[1]];
  }
}
