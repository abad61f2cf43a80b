/** The /books endpoints: the listing that picks one of four queries from its two optional
    filter names, and the by-id read, update and delete with their 404 answers. */
module BooksRouter {
  import opened Wrappers
  import opened Http
  import opened Seqs
  import opened Models
  import Crud

  /** Which query the listing runs. */
  datatype Branch = Unfiltered | ByLanguageAndGenre | ByGenre | ByLanguage

  /** The if/elif chain on the two query strings; an empty string is "not given". The four
      branches are exclusive and cover every pair of arguments. */
  function Dispatch(genre: string, language: string): (b: Branch)
    ensures b == Unfiltered <==> genre == "" && language == ""
    ensures b == ByLanguageAndGenre <==> genre != "" && language != ""
    ensures b == ByGenre <==> genre != "" && language == ""
    ensures b == ByLanguage <==> genre == "" && language != ""
  {
    if !(genre != "" || language != "") then Unfiltered
    else if genre != "" && language != "" then ByLanguageAndGenre
    else if genre != "" then ByGenre
    else ByLanguage
  }

  /** get_books: a page of books, narrowed to the named genre and/or language. None (what the
      crud query returns) when a given name matches no stored genre or language. */
  function GetBooks(books: seq<Book>, genres: seq<Genre>, languages: seq<Language>,
                    skip: nat, limit: nat, genre: string, language: string)
    : (r: Option<seq<Book>>)
    ensures r.None? <==> (genre != "" && Crud.GetGenreByName(genres, genre).None?)
                         || (language != "" && Crud.GetLanguageByName(languages, language).None?)
    ensures genre == "" && language == "" ==> r == Some(Crud.GetBooks(books, skip, limit))
    ensures genre != "" && language != "" ==>
      r == Crud.FilterBooksByLanguageAndGenre(books, genres, languages, language, genre, skip, limit)
    ensures genre != "" && language == "" ==> r == Crud.GetBooksByGenre(books, genres, genre, skip, limit)
    ensures genre == "" && language != "" ==> r == Crud.GetBooksByLanguage(books, languages, language, skip, limit)
    ensures r.Some? ==> |r.value| <= limit && Subsequence(r.value, books)
    ensures r.Some? ==> forall b :: b in r.value ==> b in books
    ensures r.Some? && genre != "" ==>
      forall b :: b in r.value ==> b.genreId == Some(Crud.GetGenreByName(genres, genre).value.id)
    ensures r.Some? && language != "" ==>
      forall b :: b in r.value ==> b.languageId == Some(Crud.GetLanguageByName(languages, language).value.id)
  {
    match Dispatch(genre, language)
    case Unfiltered =>
      var page := Crud.GetBooks(books, skip, limit);
      assert forall b :: b in page ==> b in books;
      Some(page)
    case ByLanguageAndGenre =>
      Crud.FilterBooksByLanguageAndGenre(books, genres, languages, language, genre, skip, limit)
    case ByGenre => Crud.GetBooksByGenre(books, genres, genre, skip, limit)
    case ByLanguage => Crud.GetBooksByLanguage(books, languages, language, skip, limit)
  }

  /** With no filter and a page covering the whole table from the start, every book is listed. */
  lemma UnfilteredListsAll(books: seq<Book>, genres: seq<Genre>, languages: seq<Language>, limit: nat)
    requires limit >= |books|
    ensures GetBooks(books, genres, languages, 0, limit, "", "") == Some(books)
  {
    assert Crud.GetBooks(books, 0, limit) == books;
  }

  const BOOK_NOT_FOUND := HttpError(404, "Book does not exist", map[])

  /** get_book: the book with that id, or 404 (with the detail text as the source spells it). */
  function GetBook(books: seq<Book>, bookId: int): (r: Result<Book, HttpError>)
    ensures r.Failure? <==> forall b :: b in books ==> b.id != bookId
    ensures r.Failure? ==> r.error == HttpError(404, "Book deos not exist", map[])
    ensures r.Success? ==> r.value in books && r.value.id == bookId
  {
    NotFoundOr(Crud.GetBook(books, bookId), "Book deos not exist")
  }

  /** update_book: 404 when the book is missing. A title already held by another book makes the
      commit raise an IntegrityError the handler does not catch, so the answer is a 500. */
  method UpdateBook(db: Tables, bookId: int, upd: BookUpdate) returns (r: Result<Book, HttpError>)
    requires db.Valid()
    modifies db`books
    ensures db.Valid()
    ensures var s := old(db.books); var k := BookIndex(s, bookId);
      && (r == Failure(BOOK_NOT_FOUND) <==> k == |s|)
      && (r == Failure(INTERNAL_ERROR) <==> k < |s| && upd.title.Some? && TitleTaken(s, bookId, upd.title.value))
      && (r.Success? <==> k < |s| && !(upd.title.Some? && TitleTaken(s, bookId, upd.title.value)))
      && (r.Failure? ==> db.books == s)
      && (r.Success? ==> r.value == ApplyBookUpdate(s[k], upd) && db.books == s[k := r.value])
  {
    var written := db.UpdateBook(bookId, upd);
    match written
    case NoRow => r := Failure(BOOK_NOT_FOUND);
    case Rejected => r := Failure(INTERNAL_ERROR);
    case Written(row) => r := Success(row);
  }

  /** delete_book: 404 when the book is missing; otherwise the book and its copies are gone. */
  method DeleteBook(db: Tables, bookId: int) returns (r: Result<Book, HttpError>)
    requires db.Valid()
    modifies db`books, db`instances
    ensures db.Valid()
    ensures r.Failure? <==> forall b :: b in old(db.books) ==> b.id != bookId
    ensures r.Failure? ==> r == Failure(BOOK_NOT_FOUND) && db.books == old(db.books) && db.instances == old(db.instances)
    ensures r.Success? ==> r.value in old(db.books) && r.value.id == bookId
    ensures r.Success? ==> (forall b :: b in db.books <==> b in old(db.books) && b.id != bookId)
                           && Subsequence(db.books, old(db.books))
    ensures r.Success? ==> (forall i :: i in db.instances <==> i in old(db.instances) && i.bookId != Some(bookId))
                           && Subsequence(db.instances, old(db.instances))
  {
    var deleted := db.DeleteBook(bookId);
    if deleted.None? {
      r := Failure(BOOK_NOT_FOUND);
    } else {
      r := Success(deleted.value);
    }
  }
}
