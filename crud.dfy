/** The read-only queries: lookups by key (first match in stored order), offset/limit listings,
    and the genre, language and borrower filters over the tables. */
module Crud {
  import opened Wrappers
  import opened Seqs
  import opened Models

  /** The page size get_authors always uses, whatever limit it is given. */
  const AUTHORS_PAGE_SIZE: nat := 100

  // users

  function GetUser(users: seq<User>, userId: int): (r: Option<User>)
    ensures r.Some? ==> r.value in users && r.value.id == userId
    ensures r.None? <==> forall u :: u in users ==> u.id != userId
  {
    First((u: User) => u.id == userId, users)
  }

  function GetUserByUsername(users: seq<User>, username: string): (r: Option<User>)
    ensures r.Some? ==> r.value in users && r.value.username == username
    ensures r.None? <==> forall u :: u in users ==> u.username != username
  {
    First((u: User) => u.username == username, users)
  }

  function GetUserByEmail(users: seq<User>, email: string): (r: Option<User>)
    ensures r.Some? ==> r.value in users && r.value.email == email
    ensures r.None? <==> forall u :: u in users ==> u.email != email
  {
    First((u: User) => u.email == email, users)
  }

  /** With unique usernames, the lookup finds exactly the stored user of that name. */
  lemma GetUserByUsernameFinds(users: seq<User>, u: User)
    requires UniqueKey(users, Username) && u in users
    ensures GetUserByUsername(users, u.username) == Some(u)
  {
    var r := GetUserByUsername(users, u.username);
    UniqueKeyMembers(users, Username, r.value, u);
  }

  // authors

  function GetAuthor(authors: seq<Author>, authorId: int): (r: Option<Author>)
    ensures r.Some? ==> r.value in authors && r.value.id == authorId
    ensures r.None? <==> forall a :: a in authors ==> a.id != authorId
  {
    First((a: Author) => a.id == authorId, authors)
  }

  /** The limit argument is not used: the page is always 100 authors long at most. */
  function GetAuthors(authors: seq<Author>, skip: nat, limit: nat): (r: seq<Author>)
    ensures |r| <= AUTHORS_PAGE_SIZE
    ensures |r| == if skip < |authors| then Min(AUTHORS_PAGE_SIZE, |authors| - skip) else 0
    ensures forall k :: 0 <= k < |r| ==> r[k] == authors[skip + k]
  {
    Page(authors, skip, AUTHORS_PAGE_SIZE)
  }

  lemma GetAuthorsIgnoresLimit(authors: seq<Author>, skip: nat, limit1: nat, limit2: nat)
    ensures GetAuthors(authors, skip, limit1) == GetAuthors(authors, skip, limit2)
  {
  }

  // genres

  function GetGenreByName(genres: seq<Genre>, name: string): (r: Option<Genre>)
    ensures r.Some? ==> r.value in genres && r.value.name == name
    ensures r.None? <==> forall g :: g in genres ==> g.name != name
  {
    First((g: Genre) => g.name == name, genres)
  }

  function GetGenres(genres: seq<Genre>, skip: nat, limit: nat): (r: seq<Genre>)
    ensures |r| <= limit
    ensures |r| == if skip < |genres| then Min(limit, |genres| - skip) else 0
    ensures forall k :: 0 <= k < |r| ==> r[k] == genres[skip + k]
  {
    Page(genres, skip, limit)
  }

  // languages

  function GetLanguageByName(languages: seq<Language>, name: string): (r: Option<Language>)
    ensures r.Some? ==> r.value in languages && r.value.name == name
    ensures r.None? <==> forall l :: l in languages ==> l.name != name
  {
    First((l: Language) => l.name == name, languages)
  }

  function GetLanguages(languages: seq<Language>, skip: nat, limit: nat): (r: seq<Language>)
    ensures |r| <= limit
    ensures |r| == if skip < |languages| then Min(limit, |languages| - skip) else 0
    ensures forall k :: 0 <= k < |r| ==> r[k] == languages[skip + k]
  {
    Page(languages, skip, limit)
  }

  // books

  function GetBook(books: seq<Book>, bookId: int): (r: Option<Book>)
    ensures r.Some? ==> r.value in books && r.value.id == bookId
    ensures r.None? <==> forall b :: b in books ==> b.id != bookId
  {
    First((b: Book) => b.id == bookId, books)
  }

  function GetBookByTitle(books: seq<Book>, title: string): (r: Option<Book>)
    ensures r.Some? ==> r.value in books && r.value.title == title
    ensures r.None? <==> forall b :: b in books ==> b.title != title
  {
    First((b: Book) => b.title == title, books)
  }

  function GetBooks(books: seq<Book>, skip: nat, limit: nat): (r: seq<Book>)
    ensures |r| <= limit
    ensures |r| == if skip < |books| then Min(limit, |books| - skip) else 0
    ensures forall k :: 0 <= k < |r| ==> r[k] == books[skip + k]
    ensures Subsequence(r, books)
  {
    PageIsSubsequence(books, skip, limit);
    Page(books, skip, limit)
  }

  /** The row filters of the book queries, named so that a result can be stated as exactly the
      page of the filtered table. */
  function OfGenre(genreId: int): Book -> bool {
    (b: Book) => b.genreId == Some(genreId)
  }

  function OfLanguage(languageId: int): Book -> bool {
    (b: Book) => b.languageId == Some(languageId)
  }

  function OfLanguageAndGenre(languageId: int, genreId: int): Book -> bool {
    (b: Book) => b.genreId == Some(genreId) && b.languageId == Some(languageId)
  }

  /** The genre's books, a page of them in stored order; None when no genre has that name. */
  function GetBooksByGenre(books: seq<Book>, genres: seq<Genre>, genreName: string, skip: nat, limit: nat)
    : (r: Option<seq<Book>>)
    ensures r.None? <==> GetGenreByName(genres, genreName).None?
    ensures r.Some? ==> r.value == Page(Filter(OfGenre(GetGenreByName(genres, genreName).value.id), books), skip, limit)
    ensures r.Some? ==> |r.value| <= limit && Subsequence(r.value, books)
    ensures r.Some? ==> forall b :: b in r.value ==> b in books && b.genreId == Some(GetGenreByName(genres, genreName).value.id)
  {
    var genre := GetGenreByName(genres, genreName);
    if genre.Some? then
      PageOfFilterIsSubsequence(OfGenre(genre.value.id), books, skip, limit);
      Some(Page(Filter(OfGenre(genre.value.id), books), skip, limit))
    else
      None
  }

  /** The language's books, a page of them in stored order; None when no language has that name. */
  function GetBooksByLanguage(books: seq<Book>, languages: seq<Language>, languageName: string, skip: nat, limit: nat)
    : (r: Option<seq<Book>>)
    ensures r.None? <==> GetLanguageByName(languages, languageName).None?
    ensures r.Some? ==> r.value == Page(Filter(OfLanguage(GetLanguageByName(languages, languageName).value.id), books), skip, limit)
    ensures r.Some? ==> |r.value| <= limit && Subsequence(r.value, books)
    ensures r.Some? ==> forall b :: b in r.value ==> b in books && b.languageId == Some(GetLanguageByName(languages, languageName).value.id)
  {
    var language := GetLanguageByName(languages, languageName);
    if language.Some? then
      PageOfFilterIsSubsequence(OfLanguage(language.value.id), books, skip, limit);
      Some(Page(Filter(OfLanguage(language.value.id), books), skip, limit))
    else
      None
  }

  /** The books of both the language and the genre; None unless both names resolve. */
  function FilterBooksByLanguageAndGenre(
    books: seq<Book>, genres: seq<Genre>, languages: seq<Language>,
    languageName: string, genreName: string, skip: nat, limit: nat)
    : (r: Option<seq<Book>>)
    ensures r.None? <==> GetLanguageByName(languages, languageName).None? || GetGenreByName(genres, genreName).None?
    ensures r.Some? ==> r.value == Page(Filter(OfLanguageAndGenre(GetLanguageByName(languages, languageName).value.id,
                                                                  GetGenreByName(genres, genreName).value.id), books), skip, limit)
    ensures r.Some? ==> |r.value| <= limit && Subsequence(r.value, books)
    ensures r.Some? ==> forall b :: b in r.value ==>
      (b in books
       && b.genreId == Some(GetGenreByName(genres, genreName).value.id)
       && b.languageId == Some(GetLanguageByName(languages, languageName).value.id))
  {
    var language := GetLanguageByName(languages, languageName);
    var genre := GetGenreByName(genres, genreName);
    if language.Some? && genre.Some? then
      var matches := OfLanguageAndGenre(language.value.id, genre.value.id);
      PageOfFilterIsSubsequence(matches, books, skip, limit);
      Some(Page(Filter(matches, books), skip, limit))
    else
      None
  }

  /** Every book of the genre is listed when the page starts at 0 and is long enough. */
  lemma GetBooksByGenreComplete(books: seq<Book>, genres: seq<Genre>, genreName: string, limit: nat, b: Book)
    requires GetGenreByName(genres, genreName).Some?
    requires limit >= |books|
    requires b in books && b.genreId == Some(GetGenreByName(genres, genreName).value.id)
    ensures b in GetBooksByGenre(books, genres, genreName, 0, limit).value
  {
    PageOfFilterComplete(OfGenre(GetGenreByName(genres, genreName).value.id), books, limit, b);
  }

  /** Every book of the language is listed when the page starts at 0 and is long enough. */
  lemma GetBooksByLanguageComplete(books: seq<Book>, languages: seq<Language>, languageName: string, limit: nat, b: Book)
    requires GetLanguageByName(languages, languageName).Some?
    requires limit >= |books|
    requires b in books && b.languageId == Some(GetLanguageByName(languages, languageName).value.id)
    ensures b in GetBooksByLanguage(books, languages, languageName, 0, limit).value
  {
    PageOfFilterComplete(OfLanguage(GetLanguageByName(languages, languageName).value.id), books, limit, b);
  }

  /** Every book of both the language and the genre is listed when the page starts at 0 and is
      long enough. */
  lemma FilterBooksByLanguageAndGenreComplete(
    books: seq<Book>, genres: seq<Genre>, languages: seq<Language>,
    languageName: string, genreName: string, limit: nat, b: Book)
    requires GetLanguageByName(languages, languageName).Some? && GetGenreByName(genres, genreName).Some?
    requires limit >= |books|
    requires b in books
    requires b.genreId == Some(GetGenreByName(genres, genreName).value.id)
    requires b.languageId == Some(GetLanguageByName(languages, languageName).value.id)
    ensures b in FilterBooksByLanguageAndGenre(books, genres, languages, languageName, genreName, 0, limit).value
  {
    var matches := OfLanguageAndGenre(GetLanguageByName(languages, languageName).value.id,
                                      GetGenreByName(genres, genreName).value.id);
    PageOfFilterComplete(matches, books, limit, b);
  }

  // book instances

  function GetBookInstance(instances: seq<BookInstance>, instanceId: string): (r: Option<BookInstance>)
    ensures r.Some? ==> r.value in instances && r.value.id == instanceId
    ensures r.None? <==> forall i :: i in instances ==> i.id != instanceId
  {
    var k := InstanceIndex(instances, instanceId);
    if k < |instances| then Some(instances[k]) else None
  }

  function GetBookInstances(instances: seq<BookInstance>, skip: nat, limit: nat): (r: seq<BookInstance>)
    ensures |r| <= limit
    ensures |r| == if skip < |instances| then Min(limit, |instances| - skip) else 0
    ensures forall k :: 0 <= k < |r| ==> r[k] == instances[skip + k]
  {
    Page(instances, skip, limit)
  }

  function BorrowedBy(borrowerId: int): BookInstance -> bool {
    (i: BookInstance) => i.borrowerId == Some(borrowerId)
  }

  /** The instances whose borrower reference is the given user id, a page of them in stored order. */
  function GetBookInstancesByBorrower(instances: seq<BookInstance>, borrowerId: int, skip: nat, limit: nat)
    : (r: seq<BookInstance>)
    ensures r == Page(Filter(BorrowedBy(borrowerId), instances), skip, limit)
    ensures |r| <= limit && Subsequence(r, instances)
    ensures forall i :: i in r ==> i in instances && i.borrowerId == Some(borrowerId)
  {
    PageOfFilterIsSubsequence(BorrowedBy(borrowerId), instances, skip, limit);
    Page(Filter(BorrowedBy(borrowerId), instances), skip, limit)
  }

  /** Every instance the user borrowed is listed when the page starts at 0 and is long enough. */
  lemma GetBookInstancesByBorrowerComplete(instances: seq<BookInstance>, borrowerId: int, limit: nat, i: BookInstance)
    requires limit >= |instances|
    requires i in instances && i.borrowerId == Some(borrowerId)
    ensures i in GetBookInstancesByBorrower(instances, borrowerId, 0, limit)
  {
    PageOfFilterComplete(BorrowedBy(borrowerId), instances, limit, i);
  }
}
