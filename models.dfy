/** The stored tables of the catalog: rows, the status enum, column defaults, unique columns,
    and what inserting, updating and deleting rows does to them (including the cascades). */
module Models {
  import opened Wrappers
  import opened Seqs

  /** BookInstanceStatus: exactly four lending states. */
  datatype Status = Maintenance | OnLoan | Available | Reserved

  /** The enum member's name; an Enum column stores the name, not the value. */
  function MemberName(s: Status): string {
    match s
    case Maintenance => "m"
    case OnLoan => "o"
    case Available => "a"
    case Reserved => "r"
  }

  /** The enum member's value, the text a client sends and receives. */
  function Value(s: Status): string {
    match s
    case Maintenance => "Maintenance"
    case OnLoan => "On loan"
    case Available => "Available"
    case Reserved => "Reserved"
  }

  /** Reading a stored member name back into the enum; any other text is no status. */
  function FromMemberName(name: string): (r: Option<Status>)
    ensures r.Some? ==> MemberName(r.value) == name
    ensures r.None? <==> forall s: Status :: MemberName(s) != name
  {
    if name == "m" then Some(Maintenance)
    else if name == "o" then Some(OnLoan)
    else if name == "a" then Some(Available)
    else if name == "r" then Some(Reserved)
    else None
  }

  /** Parsing a client-supplied status value; any other text is rejected. */
  function FromValue(v: string): (r: Option<Status>)
    ensures r.Some? ==> Value(r.value) == v
    ensures r.None? <==> forall s: Status :: Value(s) != v
  {
    if v == "Maintenance" then Some(Maintenance)
    else if v == "On loan" then Some(OnLoan)
    else if v == "Available" then Some(Available)
    else if v == "Reserved" then Some(Reserved)
    else None
  }

  lemma StatusRoundTrip(s: Status)
    ensures FromMemberName(MemberName(s)) == Some(s)
    ensures FromValue(Value(s)) == Some(s)
  {
  }

  /** The status column's default, written in the source as the member name "m". */
  const DEFAULT_STATUS_NAME: string := "m"

  function DefaultStatus(): (s: Status)
    ensures s == Maintenance
  {
    var parsed := FromMemberName(DEFAULT_STATUS_NAME);
    if parsed.Some? then parsed.value else Maintenance
  }

  datatype User = User(id: int, username: string, email: string, hashedPassword: string, isActive: bool)

  /** Dates are day numbers. */
  datatype Author = Author(id: int, firstName: string, lastName: string, dateOfBirth: int, dateOfDeath: Option<int>)

  datatype Genre = Genre(id: int, name: string)

  datatype Language = Language(id: int, name: string)

  datatype Book = Book(
    id: int, title: string, description: Option<string>,
    authorId: Option<int>, genreId: Option<int>, languageId: Option<int>)

  /** A borrowable copy; its id is a UUID string. */
  datatype BookInstance = BookInstance(
    id: string, bookId: Option<int>, imprint: Option<string>,
    dueBack: Option<int>, borrowerId: Option<int>, status: Status)

  // The key columns, named so that the uniqueness invariant can refer to them.
  function UserId(u: User): int { u.id }
  function Username(u: User): string { u.username }
  function UserEmail(u: User): string { u.email }
  function AuthorId(a: Author): int { a.id }
  function GenreId(g: Genre): int { g.id }
  function GenreName(g: Genre): string { g.name }
  function LanguageId(l: Language): int { l.id }
  function LanguageName(l: Language): string { l.name }
  function BookId(b: Book): int { b.id }
  function BookTitle(b: Book): string { b.title }
  function InstanceId(i: BookInstance): string { i.id }

  /** A partial update of a book instance: only the fields that are present are written. */
  datatype InstanceUpdate = InstanceUpdate(
    bookId: Option<int>, imprint: Option<string>, dueBack: Option<int>,
    borrowerId: Option<int>, status: Option<Status>)

  function ApplyInstanceUpdate(i: BookInstance, u: InstanceUpdate): (r: BookInstance)
    ensures r.id == i.id
    ensures r.bookId == if u.bookId.Some? then u.bookId else i.bookId
    ensures r.imprint == if u.imprint.Some? then u.imprint else i.imprint
    ensures r.dueBack == if u.dueBack.Some? then u.dueBack else i.dueBack
    ensures r.borrowerId == if u.borrowerId.Some? then u.borrowerId else i.borrowerId
    ensures r.status == if u.status.Some? then u.status.value else i.status
    ensures u == InstanceUpdate(None, None, None, None, None) ==> r == i
  {
    BookInstance(
      i.id,
      if u.bookId.Some? then u.bookId else i.bookId,
      if u.imprint.Some? then u.imprint else i.imprint,
      if u.dueBack.Some? then u.dueBack else i.dueBack,
      if u.borrowerId.Some? then u.borrowerId else i.borrowerId,
      if u.status.Some? then u.status.value else i.status)
  }

  /** A partial update of a book: only the fields that are present are written. */
  datatype BookUpdate = BookUpdate(
    title: Option<string>, description: Option<string>,
    authorId: Option<int>, genreId: Option<int>, languageId: Option<int>)

  function ApplyBookUpdate(b: Book, u: BookUpdate): (r: Book)
    ensures r.id == b.id
    ensures r.title == if u.title.Some? then u.title.value else b.title
    ensures r.description == if u.description.Some? then u.description else b.description
    ensures r.authorId == if u.authorId.Some? then u.authorId else b.authorId
    ensures r.genreId == if u.genreId.Some? then u.genreId else b.genreId
    ensures r.languageId == if u.languageId.Some? then u.languageId else b.languageId
    ensures u == BookUpdate(None, None, None, None, None) ==> r == b
  {
    Book(
      b.id,
      if u.title.Some? then u.title.value else b.title,
      if u.description.Some? then u.description else b.description,
      if u.authorId.Some? then u.authorId else b.authorId,
      if u.genreId.Some? then u.genreId else b.genreId,
      if u.languageId.Some? then u.languageId else b.languageId)
  }

  /** Position of the instance with the given id, or |s| when there is none. */
  function InstanceIndex(s: seq<BookInstance>, id: string): (k: nat)
    ensures k <= |s|
    ensures k < |s| ==> s[k].id == id
    ensures forall j :: 0 <= j < k ==> s[j].id != id
  {
    IndexWhere((i: BookInstance) => i.id == id, s)
  }

  /** Position of the book with the given id, or |s| when there is none. */
  function BookIndex(s: seq<Book>, id: int): (k: nat)
    ensures k <= |s|
    ensures k < |s| ==> s[k].id == id
    ensures forall j :: 0 <= j < k ==> s[j].id != id
  {
    IndexWhere((b: Book) => b.id == id, s)
  }

  /** The ids of the books written by an author: what deleting the author takes with it. */
  function BooksOfAuthor(books: seq<Book>, authorId: int): set<int> {
    set b | b in books && b.authorId == Some(authorId) :: b.id
  }

  predicate CopyOfAny(i: BookInstance, bookIds: set<int>) {
    i.bookId.Some? && i.bookId.value in bookIds
  }

  /** What deleting a user does to the instances it borrowed: the reference is set to null. */
  function ClearBorrower(s: seq<BookInstance>, userId: int): (r: seq<BookInstance>)
    ensures |r| == |s|
    ensures forall k :: 0 <= k < |s| ==> r[k].borrowerId == if s[k].borrowerId == Some(userId) then None else s[k].borrowerId
    ensures forall k :: 0 <= k < |s| ==> r[k] == s[k].(borrowerId := r[k].borrowerId)
  {
    seq(|s|, k requires 0 <= k < |s| => if s[k].borrowerId == Some(userId) then s[k].(borrowerId := None) else s[k])
  }

  /** What deleting a genre does to its books: the reference is set to null. */
  function ClearGenre(s: seq<Book>, genreId: int): (r: seq<Book>)
    ensures |r| == |s|
    ensures forall k :: 0 <= k < |s| ==> r[k].genreId == if s[k].genreId == Some(genreId) then None else s[k].genreId
    ensures forall k :: 0 <= k < |s| ==> r[k] == s[k].(genreId := r[k].genreId)
  {
    seq(|s|, k requires 0 <= k < |s| => if s[k].genreId == Some(genreId) then s[k].(genreId := None) else s[k])
  }

  /** What deleting a language does to its books: the reference is set to null. */
  function ClearLanguage(s: seq<Book>, languageId: int): (r: seq<Book>)
    ensures |r| == |s|
    ensures forall k :: 0 <= k < |s| ==> r[k].languageId == if s[k].languageId == Some(languageId) then None else s[k].languageId
    ensures forall k :: 0 <= k < |s| ==> r[k] == s[k].(languageId := r[k].languageId)
  {
    seq(|s|, k requires 0 <= k < |s| => if s[k].languageId == Some(languageId) then s[k].(languageId := None) else s[k])
  }

  /** Whether some book other than the one with id bookId already has the title. */
  predicate TitleTaken(books: seq<Book>, bookId: int, title: string) {
    exists b :: b in books && b.title == title && b.id != bookId
  }

  /** The outcome of a write that can hit a missing row or a unique-column violation. */
  datatype Write<T> = Written(row: T) | NoRow | Rejected

  /** The tables, each a sequence of rows in insertion order. */
  class Tables {
    var users: seq<User>
    var authors: seq<Author>
    var genres: seq<Genre>
    var languages: seq<Language>
    var books: seq<Book>
    var instances: seq<BookInstance>

    /** Primary keys and unique columns hold no duplicates; user ids start at 1. */
    ghost predicate Valid()
      reads this
    {
      && UniqueKey(users, UserId) && UniqueKey(users, Username) && UniqueKey(users, UserEmail)
      && (forall u :: u in users ==> u.id >= 1)
      && UniqueKey(authors, AuthorId)
      && UniqueKey(genres, GenreId) && UniqueKey(genres, GenreName)
      && UniqueKey(languages, LanguageId) && UniqueKey(languages, LanguageName)
      && UniqueKey(books, BookId) && UniqueKey(books, BookTitle)
      && UniqueKey(instances, InstanceId)
    }

    constructor ()
      ensures Valid()
      ensures users == [] && authors == [] && genres == [] && languages == [] && books == [] && instances == []
    {
      users, authors, genres, languages, books, instances := [], [], [], [], [], [];
    }

    /** A new user: username and email must be unused; is_active defaults to true. */
    method InsertUser(username: string, email: string, hashedPassword: string, isActive: Option<bool>)
      returns (r: Option<User>)
      requires Valid()
      modifies this`users
      ensures Valid()
      ensures r.Some? <==> forall u :: u in old(users) ==> u.username != username && u.email != email
      ensures r.Some? ==> r.value.username == username && r.value.email == email && r.value.hashedPassword == hashedPassword
      ensures r.Some? ==> r.value.isActive == if isActive.Some? then isActive.value else true
      ensures r.Some? ==> r.value.id >= 1 && forall u :: u in old(users) ==> u.id != r.value.id
      ensures users == if r.Some? then old(users) + [r.value] else old(users)
    {
      var clash := First((u: User) => u.username == username || u.email == email, users);
      if clash.Some? {
        return None;
      }
      var user := User(NextId(users, UserId), username, email, hashedPassword,
                       if isActive.Some? then isActive.value else true);
      UniqueKeyAppend(users, UserId, user);
      UniqueKeyAppend(users, Username, user);
      UniqueKeyAppend(users, UserEmail, user);
      users := users + [user];
      r := Some(user);
    }

    method InsertAuthor(firstName: string, lastName: string, dateOfBirth: int, dateOfDeath: Option<int>)
      returns (a: Author)
      requires Valid()
      modifies this`authors
      ensures Valid()
      ensures a.firstName == firstName && a.lastName == lastName
      ensures a.dateOfBirth == dateOfBirth && a.dateOfDeath == dateOfDeath
      ensures forall x :: x in old(authors) ==> x.id != a.id
      ensures authors == old(authors) + [a]
    {
      a := Author(NextId(authors, AuthorId), firstName, lastName, dateOfBirth, dateOfDeath);
      UniqueKeyAppend(authors, AuthorId, a);
      authors := authors + [a];
    }

    /** A new genre: its name must be unused. */
    method InsertGenre(name: string) returns (r: Option<Genre>)
      requires Valid()
      modifies this`genres
      ensures Valid()
      ensures r.Some? <==> forall g :: g in old(genres) ==> g.name != name
      ensures r.Some? ==> r.value.name == name && forall g :: g in old(genres) ==> g.id != r.value.id
      ensures genres == if r.Some? then old(genres) + [r.value] else old(genres)
    {
      var clash := First((g: Genre) => g.name == name, genres);
      if clash.Some? {
        return None;
      }
      var genre := Genre(NextId(genres, GenreId), name);
      UniqueKeyAppend(genres, GenreId, genre);
      UniqueKeyAppend(genres, GenreName, genre);
      genres := genres + [genre];
      r := Some(genre);
    }

    /** A new language: its name must be unused. */
    method InsertLanguage(name: string) returns (r: Option<Language>)
      requires Valid()
      modifies this`languages
      ensures Valid()
      ensures r.Some? <==> forall l :: l in old(languages) ==> l.name != name
      ensures r.Some? ==> r.value.name == name && forall l :: l in old(languages) ==> l.id != r.value.id
      ensures languages == if r.Some? then old(languages) + [r.value] else old(languages)
    {
      var clash := First((l: Language) => l.name == name, languages);
      if clash.Some? {
        return None;
      }
      var language := Language(NextId(languages, LanguageId), name);
      UniqueKeyAppend(languages, LanguageId, language);
      UniqueKeyAppend(languages, LanguageName, language);
      languages := languages + [language];
      r := Some(language);
    }

    /** A new book: its title must be unused. */
    method InsertBook(title: string, description: Option<string>,
                      authorId: Option<int>, genreId: Option<int>, languageId: Option<int>)
      returns (r: Option<Book>)
      requires Valid()
      modifies this`books
      ensures Valid()
      ensures r.Some? <==> forall b :: b in old(books) ==> b.title != title
      ensures r.Some? ==> r.value.title == title && r.value.description == description
      ensures r.Some? ==> r.value.authorId == authorId && r.value.genreId == genreId && r.value.languageId == languageId
      ensures r.Some? ==> forall b :: b in old(books) ==> b.id != r.value.id
      ensures books == if r.Some? then old(books) + [r.value] else old(books)
    {
      var clash := First((b: Book) => b.title == title, books);
      if clash.Some? {
        return None;
      }
      var book := Book(NextId(books, BookId), title, description, authorId, genreId, languageId);
      UniqueKeyAppend(books, BookId, book);
      UniqueKeyAppend(books, BookTitle, book);
      books := books + [book];
      r := Some(book);
    }

    /** A new book instance under the freshly drawn UUID id; a status left out defaults to
        Maintenance. A drawn id already in use violates the primary key. */
    method InsertBookInstance(id: string, bookId: Option<int>, imprint: Option<string>,
                              dueBack: Option<int>, borrowerId: Option<int>, status: Option<Status>)
      returns (r: Option<BookInstance>)
      requires Valid()
      modifies this`instances
      ensures Valid()
      ensures r.Some? <==> forall i :: i in old(instances) ==> i.id != id
      ensures r.Some? ==> r.value.id == id && r.value.bookId == bookId && r.value.imprint == imprint
      ensures r.Some? ==> r.value.dueBack == dueBack && r.value.borrowerId == borrowerId
      ensures r.Some? ==> r.value.status == if status.Some? then status.value else Maintenance
      ensures instances == if r.Some? then old(instances) + [r.value] else old(instances)
    {
      var k := InstanceIndex(instances, id);
      if k < |instances| {
        return None;
      }
      var instance := BookInstance(id, bookId, imprint, dueBack, borrowerId,
                                   if status.Some? then status.value else DefaultStatus());
      UniqueKeyAppend(instances, InstanceId, instance);
      instances := instances + [instance];
      r := Some(instance);
    }

    /** crud.update_book_instance: overwrite the fields present in the update, or report the
        instance missing. */
    method UpdateBookInstance(id: string, upd: InstanceUpdate) returns (r: Option<BookInstance>)
      requires Valid()
      modifies this`instances
      ensures Valid()
      ensures var s := old(instances); var k := InstanceIndex(s, id);
        && (r.None? <==> k == |s|)
        && (r.None? ==> instances == s)
        && (r.Some? ==> r.value == ApplyInstanceUpdate(s[k], upd) && instances == s[k := r.value])
    {
      var k := InstanceIndex(instances, id);
      if k == |instances| {
        return None;
      }
      var updated := ApplyInstanceUpdate(instances[k], upd);
      instances := instances[k := updated];
      r := Some(updated);
    }

    /** crud.update_book: overwrite the fields present in the update, unless the book is missing
        or the new title belongs to another book. */
    method UpdateBook(id: int, upd: BookUpdate) returns (r: Write<Book>)
      requires Valid()
      modifies this`books
      ensures Valid()
      ensures var s := old(books); var k := BookIndex(s, id);
        && (r == NoRow <==> k == |s|)
        && (r == Rejected <==> k < |s| && upd.title.Some? && TitleTaken(s, id, upd.title.value))
        && (!r.Written? ==> books == s)
        && (r.Written? ==> r.row == ApplyBookUpdate(s[k], upd) && books == s[k := r.row])
    {
      var k := BookIndex(books, id);
      if k == |books| {
        return NoRow;
      }
      if upd.title.Some? && TitleTaken(books, id, upd.title.value) {
        return Rejected;
      }
      var updated := ApplyBookUpdate(books[k], upd);
      ghost var s := books;
      ghost var t := s[k := updated];
      assert UniqueKey(t, BookTitle) by {
        forall i, j | 0 <= i < j < |t| ensures BookTitle(t[i]) != BookTitle(t[j]) {
          if i == k && upd.title.Some? {
            assert s[j] in s && s[j].id != id;
          } else if j == k && upd.title.Some? {
            assert s[i] in s && s[i].id != id;
          }
        }
      }
      books := books[k := updated];
      r := Written(updated);
    }

    /** Deleting a user nulls the borrower reference of the instances it borrowed. */
    method DeleteUser(id: int) returns (r: Option<User>)
      requires Valid()
      modifies this`users, this`instances
      ensures Valid()
      ensures r.None? <==> forall u :: u in old(users) ==> u.id != id
      ensures r.Some? ==> r.value in old(users) && r.value.id == id
      ensures r.None? ==> users == old(users) && instances == old(instances)
      ensures r.Some? ==> (forall u :: u in users <==> u in old(users) && u.id != id) && Subsequence(users, old(users))
      ensures r.Some? ==> instances == ClearBorrower(old(instances), id)
    {
      r := First((u: User) => u.id == id, users);
      if r.None? {
        return;
      }
      var keep := (u: User) => u.id != id;
      FilterUniqueKey(keep, users, UserId);
      FilterUniqueKey(keep, users, Username);
      FilterUniqueKey(keep, users, UserEmail);
      users := Filter(keep, users);
      instances := ClearBorrower(instances, id);
    }

    /** Deleting an author deletes its books, and with them their instances. */
    method DeleteAuthor(id: int) returns (r: Option<Author>)
      requires Valid()
      modifies this`authors, this`books, this`instances
      ensures Valid()
      ensures r.None? <==> forall a :: a in old(authors) ==> a.id != id
      ensures r.Some? ==> r.value in old(authors) && r.value.id == id
      ensures r.None? ==> authors == old(authors) && books == old(books) && instances == old(instances)
      ensures r.Some? ==> (forall a :: a in authors <==> a in old(authors) && a.id != id) && Subsequence(authors, old(authors))
      ensures r.Some? ==> (forall b :: b in books <==> b in old(books) && b.authorId != Some(id)) && Subsequence(books, old(books))
      ensures r.Some? ==> Subsequence(instances, old(instances))
      ensures r.Some? ==> forall i :: i in instances <==> i in old(instances) && !CopyOfAny(i, BooksOfAuthor(old(books), id))
    {
      r := First((a: Author) => a.id == id, authors);
      if r.None? {
        return;
      }
      var doomed := BooksOfAuthor(books, id);
      var keepAuthor := (a: Author) => a.id != id;
      var keepBook := (b: Book) => b.authorId != Some(id);
      var keepInstance := (i: BookInstance) => !CopyOfAny(i, doomed);
      FilterUniqueKey(keepAuthor, authors, AuthorId);
      FilterUniqueKey(keepBook, books, BookId);
      FilterUniqueKey(keepBook, books, BookTitle);
      FilterUniqueKey(keepInstance, instances, InstanceId);
      authors := Filter(keepAuthor, authors);
      books := Filter(keepBook, books);
      instances := Filter(keepInstance, instances);
    }

    /** Deleting a genre nulls the genre reference of its books. */
    method DeleteGenre(id: int) returns (r: Option<Genre>)
      requires Valid()
      modifies this`genres, this`books
      ensures Valid()
      ensures r.None? <==> forall g :: g in old(genres) ==> g.id != id
      ensures r.Some? ==> r.value in old(genres) && r.value.id == id
      ensures r.None? ==> genres == old(genres) && books == old(books)
      ensures r.Some? ==> (forall g :: g in genres <==> g in old(genres) && g.id != id) && Subsequence(genres, old(genres))
      ensures r.Some? ==> books == ClearGenre(old(books), id)
    {
      r := First((g: Genre) => g.id == id, genres);
      if r.None? {
        return;
      }
      var keep := (g: Genre) => g.id != id;
      FilterUniqueKey(keep, genres, GenreId);
      FilterUniqueKey(keep, genres, GenreName);
      genres := Filter(keep, genres);
      books := ClearGenre(books, id);
    }

    /** Deleting a language nulls the language reference of its books. */
    method DeleteLanguage(id: int) returns (r: Option<Language>)
      requires Valid()
      modifies this`languages, this`books
      ensures Valid()
      ensures r.None? <==> forall l :: l in old(languages) ==> l.id != id
      ensures r.Some? ==> r.value in old(languages) && r.value.id == id
      ensures r.None? ==> languages == old(languages) && books == old(books)
      ensures r.Some? ==> (forall l :: l in languages <==> l in old(languages) && l.id != id) && Subsequence(languages, old(languages))
      ensures r.Some? ==> books == ClearLanguage(old(books), id)
    {
      r := First((l: Language) => l.id == id, languages);
      if r.None? {
        return;
      }
      var keep := (l: Language) => l.id != id;
      FilterUniqueKey(keep, languages, LanguageId);
      FilterUniqueKey(keep, languages, LanguageName);
      languages := Filter(keep, languages);
      books := ClearLanguage(books, id);
    }

    /** Deleting a book deletes its instances. */
    method DeleteBook(id: int) returns (r: Option<Book>)
      requires Valid()
      modifies this`books, this`instances
      ensures Valid()
      ensures r.None? <==> forall b :: b in old(books) ==> b.id != id
      ensures r.Some? ==> r.value in old(books) && r.value.id == id
      ensures r.None? ==> books == old(books) && instances == old(instances)
      ensures r.Some? ==> (forall b :: b in books <==> b in old(books) && b.id != id) && Subsequence(books, old(books))
      ensures r.Some? ==> (forall i :: i in instances <==> i in old(instances) && i.bookId != Some(id)) && Subsequence(instances, old(instances))
    {
      r := First((b: Book) => b.id == id, books);
      if r.None? {
        return;
      }
      var keepBook := (b: Book) => b.id != id;
      var keepInstance := (i: BookInstance) => i.bookId != Some(id);
      FilterUniqueKey(keepBook, books, BookId);
      FilterUniqueKey(keepBook, books, BookTitle);
      FilterUniqueKey(keepInstance, instances, InstanceId);
      books := Filter(keepBook, books);
      instances := Filter(keepInstance, instances);
    }

    method DeleteBookInstance(id: string) returns (r: Option<BookInstance>)
      requires Valid()
      modifies this`instances
      ensures Valid()
      ensures r.None? <==> forall i :: i in old(instances) ==> i.id != id
      ensures r.Some? ==> r.value in old(instances) && r.value.id == id
      ensures r.None? ==> instances == old(instances)
      ensures r.Some? ==> (forall i :: i in instances <==> i in old(instances) && i.id != id) && Subsequence(instances, old(instances))
    {
      r := First((i: BookInstance) => i.id == id, instances);
      if r.None? {
        return;
      }
      var keep := (i: BookInstance) => i.id != id;
      FilterUniqueKey(keep, instances, InstanceId);
      instances := Filter(keep, instances);
    }
  }
}
