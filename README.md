# MyLibrary lending and authorization, modelled in Dafny

A model of the core of the MyLibrary library-catalog web API (FastAPI over SQLAlchemy):

- the **lending handlers** `borrow_book` and `return_book` of `/bookinstances`
  (`book_instances_router.dfy`, module `BookInstancesRouter`): look the copy up, test its status
  and borrower, write a partial update of that one row;
- the **credential and token chain** (`dependencies.dfy`, module `Dependencies`): bcrypt hashing,
  `create_access_token` with its expiry rule, `get_current_user` and `get_current_active_user`;
- the **login and get-by-id handlers** of `main.py` (`app.dfy`, module `App`);
- the **`/books` listing dispatch** and its 404 handlers (`books_router.dfy`, module `BooksRouter`);
- the **read-only queries** of `sql/crud.py` (`crud.dfy`, module `Crud`): lookups by key,
  offset/limit pages, genre/language/borrower filters;
- the **tables** of `sql/models.py` (`models.dfy`, module `Models`): the four-valued status enum,
  column defaults, unique columns, and what inserting and deleting rows does, cascades included.

Supporting modules: `Wrappers` (Option, Result), `Http` (the `HTTPException` shape and the
404-on-missing pattern), `Seqs` (first match, filter, offset/limit, subsequence, unique keys).

How the system's entities appear in the model:

- Each table is a `seq` of rows in insertion order, held by one object of class
  `Models.Tables`. None of the listings in `sql/crud.py` has an `ORDER BY`, so "stored order"
  here is the table-scan (rowid) order SQLite gives, which SQL itself does not guarantee. The class invariant `Valid()` says that primary keys and unique columns hold
  no duplicates and that user ids start at 1. Every insert, update and delete method keeps it.
- Lending is specified by the pure functions `Borrow` and `Return` over the instance table.
  Each returns the response and the new table. The handler methods `BorrowBook` and
  `ReturnBook` change `db.instances` and are proved to produce exactly that outcome. The lemmas
  about lending (borrow then return, return by someone else, borrowing twice, the loan
  invariant) are stated about those functions.
- bcrypt and PyJWT are foreign libraries. They enter as values of function type
  (`Dependencies.Bcrypt`, `Dependencies.Jwt`) passed as parameters and are not interpreted.
  The one assumption about bcrypt (a password checks against a hash of it) is the hypothesis
  `Sound(b)`. PyJWT's `decode` either rejects the token or yields a payload.
- Clocks are parameters: `today` is a day number (dates), `now` is a minute count (token
  times). An optional `timedelta` is an `Option<int>` of minutes.
- A UUID primary key is drawn by the caller and passed in. A drawn id that is already in use is
  reported as the primary-key violation it would be.
- Integer primary keys are one past the largest in use (1 for an empty table).

Facts about the code that shape the model:

- `borrow_book` accepts only an `Available` copy and there is no reserve handler, so a
  `Reserved` copy can be neither borrowed nor returned through these handlers.
- The code has no `is_superuser` column and puts no scopes into tokens. `get_current_active_user`
  never inspects the `scopes=["super"]` that the `/books` routes declare, so no scope check exists.
- `return_book` writes borrower id `0`, not null, and leaves `due_back` as it was.
- A decoded token whose `sub` is present but not a string is modelled as naming no user, so it is
  rejected with the same 401. This is a modelling choice, listed under "## Left out".

## Model

| member | source | states |
|---|---|---|
| BookInstancesRouter.Borrow | routers/book_instances.py:71-89 | unknown id: 404 and nothing written, before any status test; a copy not Available (Maintenance, On loan, Reserved): 400 "not available", table unchanged; an Available copy becomes On loan to the requester, due today + 14 days; the table changes at that one position, and every instance with another id is unchanged |
| BookInstancesRouter.Return | routers/book_instances.py:91-109 | unknown id: 404; a copy not On loan, or on loan to someone else: 400 "not borrowed to you", table unchanged; otherwise the copy becomes Available with borrower id 0 and keeps its due date; instances with other ids are unchanged |
| BookInstancesRouter.BorrowBook | routers/book_instances.py:71-89 | the handler's response and the new instance table are exactly `Borrow`'s outcome for the current user's id; the table invariants hold afterwards |
| BookInstancesRouter.ReturnBook | routers/book_instances.py:91-109 | the handler's response and the new instance table are exactly `Return`'s outcome for the current user's id; the table invariants hold afterwards |
| BookInstancesRouter.BorrowRequest | routers/book_instances.py:71-89 | a token that fails the guard chain yields the guard's 401/400 and writes nothing; otherwise the borrow runs for the user the token names |
| BookInstancesRouter.ReturnRequest | routers/book_instances.py:91-109 | a token that fails the guard chain yields the guard's 401/400 and writes nothing; otherwise the return runs for the user the token names |
| BookInstancesRouter.BorrowThenReturn | routers/book_instances.py:82-107 | after a successful borrow by U, a return by U succeeds and leaves the copy Available, with borrower 0 and the loan's due date, at the same position |
| BookInstancesRouter.ReturnByOtherFails | routers/book_instances.py:102-109 | after a successful borrow by U, a return by any V other than U fails with 400 and writes nothing |
| BookInstancesRouter.BorrowTwiceFails | routers/book_instances.py:82-89 | after a successful borrow, a second borrow of the same copy, by anyone on any day, fails with 400 and writes nothing |
| BookInstancesRouter.ReturnThenBorrow | routers/book_instances.py:82-107 | after a successful return, anyone can borrow the copy and becomes its borrower |
| BookInstancesRouter.LendingKeepsLoansRecorded | routers/book_instances.py:82-107 | if every On-loan copy has a borrower id of at least 1 and a due date, that still holds after a borrow or a return by a user whose id is at least 1 |
| BookInstancesRouter.GuardedLendingKeepsLoansRecorded | routers/book_instances.py:71-107 | the user a request acts as is a stored user, so lending on its behalf keeps every loan's borrower and due date recorded |
| Dependencies.HashPassword | dependencies.py:24-26 | with a sound bcrypt, the password checks against the hash made of it, whatever salt was drawn |
| Dependencies.CheckPassword | dependencies.py:28-32 | with a sound bcrypt, the check passes for every password the stored hash was made from |
| Dependencies.CheckHashedPassword | dependencies.py:24-32 | with a sound bcrypt, a password checks against any hash made of it |
| Dependencies.Expiry | dependencies.py:43-46 | a truthy delta gives now + delta; an absent or zero delta gives now + 15 minutes |
| Dependencies.TokenPayload | dependencies.py:42-47 | the signed claims are the caller's claims plus "exp" (overwriting any "exp" given), with the expiry above; no other key is added or changed |
| Dependencies.CreateAccessToken | dependencies.py:41-49 | the token is the encoding of exactly that payload; the caller's claims are a value and are not changed |
| Dependencies.ZeroDeltaFallsBack | dependencies.py:43-46 | a zero timedelta is not honoured: the token is the one an absent delta gives, expiring 15 minutes on |
| Dependencies.Subject | dependencies.py:61-63 | the subject is present exactly when "sub" is a key with a non-null value, and is that value |
| Dependencies.TokenSubject | dependencies.py:59-65 | a username is obtained exactly when the token decodes and its "sub" is a string |
| Dependencies.GetCurrentUser | dependencies.py:51-69 | every failure (undecodable token, no subject, subject naming no stored user) is the same 401 with `WWW-Authenticate: Bearer`; success exactly when the subject names a stored user, who is returned and whose username equals the subject |
| Dependencies.GetCurrentActiveUser | dependencies.py:71-76 | an inactive user is refused with 400 "Inactive user"; an active user is returned unchanged |
| Dependencies.ActiveUserFromToken | dependencies.py:51-76 | the guard chain succeeds exactly when the token resolves to a stored user who is active, and then yields that user; it fails with 400 exactly when the token resolves to an inactive user, and with the 401 otherwise |
| App.AuthenticateUser | main.py:17-23 | no user of that name: failure; a password that does not check: failure; otherwise the stored user of that name |
| App.AuthenticateStoredCredentials | main.py:17-23 | with a sound bcrypt and unique usernames, the password whose hash is stored authenticates exactly that stored user |
| App.LoginPayload | main.py:44-48 | a login token carries exactly the subject (the username) and an expiry 30 minutes on |
| App.LoginForAccessToken | main.py:31-49 | failure exactly when authentication fails, as 401 "Incorrect username or password" with `WWW-Authenticate: Bearer`; success gives token type "bearer" and a token encoding the login payload |
| App.LoginThenResolve | main.py:31-49 | a login token that still verifies resolves to the very user the login authenticated, and passes the active-user guard exactly when that user is active |
| App.GetAuthor | main.py:81-90 | 404 "Author deos not exist" exactly when no author has that id; otherwise the stored author with that id |
| App.GetBookInstance | main.py:283-292 | 404 exactly when no instance has that id; otherwise the stored instance with that id |
| App.CreateBookInstance | routers/book_instances.py:16-26 | 400 "Failed to create book instance", table unchanged, exactly when the id is taken; otherwise the new row holds exactly the given id, book, imprint, due date and borrower, with status Maintenance when none is given, and is appended |
| Http.NotFoundOr | main.py:87-90 | a missing row becomes a 404 with the handler's message; a found row is returned as it is |
| BooksRouter.Dispatch | routers/books.py:32-44 | the four branches (unfiltered, language-and-genre, genre, language) are mutually exclusive and cover every pair, each selected by which of the two query strings are empty |
| BooksRouter.GetBooks | routers/books.py:26-44 | no filter: the unfiltered page; both names: the combined query, called with the language first and the genre second; one name: that filter's query; a given name that resolves to no genre or language: None; otherwise at most `limit` books, in stored order, every one of the named genre and/or language |
| BooksRouter.UnfilteredListsAll | routers/books.py:32-33 | with no filter and a page covering the table, every book is listed, in stored order |
| BooksRouter.GetBook | routers/books.py:47-56 | 404 "Book deos not exist" exactly when no book has that id; otherwise that book |
| BooksRouter.UpdateBook | routers/books.py:58-66 | 404 exactly when the book is missing; a title held by another book is a 500 with the table unchanged; otherwise (exactly then) the update succeeds and only the fields present are overwritten, at that book's position |
| BooksRouter.DeleteBook | routers/books.py:70-78 | 404 exactly when the book is missing, with nothing deleted; otherwise the book and all its instances are gone, nothing else is, and the remaining books and instances keep their order |
| Crud.GetUser | sql/crud.py:6-7 | a user with that id, or None exactly when there is none |
| Crud.GetUserByUsername | sql/crud.py:9-10 | a stored user whose username equals the key, or None exactly when no user has it |
| Crud.GetUserByUsernameFinds | sql/crud.py:9-10 | with unique usernames, the lookup finds exactly the stored user of that name |
| Crud.GetUserByEmail | sql/crud.py:12-13 | a stored user with that email, or None exactly when there is none |
| Crud.GetAuthor | sql/crud.py:16-17 | an author with that id, or None exactly when there is none |
| Crud.GetAuthors | sql/crud.py:19-20 | the authors from position `skip` on, in stored order, at most 100 of them |
| Crud.GetAuthorsIgnoresLimit | sql/crud.py:19-20 | the `limit` argument makes no difference to the result |
| Crud.GetGenreByName | sql/crud.py:23-24 | a genre with that name, or None exactly when there is none |
| Crud.GetGenres | sql/crud.py:26-27 | the rows of `genres` from position `skip`, up to `limit` of them or to the end: at most `limit` rows, in stored order |
| Crud.GetLanguageByName | sql/crud.py:30-31 | a language with that name, or None exactly when there is none |
| Crud.GetLanguages | sql/crud.py:33-34 | the rows of `languages` from position `skip`, up to `limit` of them or to the end, in stored order |
| Crud.GetBook | sql/crud.py:37-38 | a book with that id, or None exactly when there is none |
| Crud.GetBookByTitle | sql/crud.py:40-41 | a book with that title, or None exactly when there is none |
| Crud.GetBooks | sql/crud.py:43-44 | the rows of `books` from position `skip`, up to `limit` of them or to the end, a subsequence of the table |
| Crud.GetBooksByGenre | sql/crud.py:46-56 | None exactly when no genre has that name; otherwise exactly the page from `skip` of the table's books with that genre's id: at most `limit` of them, in stored order |
| Crud.GetBooksByGenreComplete | sql/crud.py:46-56 | a page from 0 covering the table lists every book of the genre |
| Crud.GetBooksByLanguage | sql/crud.py:58-68 | None exactly when no language has that name; otherwise exactly the page from `skip` of the table's books with that language's id, in stored order |
| Crud.GetBooksByLanguageComplete | sql/crud.py:58-68 | a page from 0 covering the table lists every book of the language |
| Crud.FilterBooksByLanguageAndGenre | sql/crud.py:70-83 | None unless both names resolve; otherwise exactly the page from `skip` of the table's books matching both ids, in stored order |
| Crud.FilterBooksByLanguageAndGenreComplete | sql/crud.py:70-83 | a page from 0 covering the table lists every book of both the language and the genre |
| Crud.GetBookInstance | sql/crud.py:86-87 | an instance with that id, or None exactly when there is none |
| Crud.GetBookInstances | sql/crud.py:89-90 | the rows of `instances` from position `skip`, up to `limit` of them or to the end, in stored order |
| Crud.GetBookInstancesByBorrower | sql/crud.py:92-98 | exactly the page from `skip` of the instances whose borrower is that user id: at most `limit` of them, in stored order |
| Crud.GetBookInstancesByBorrowerComplete | sql/crud.py:92-98 | a page from 0 covering the table lists every instance the user borrowed |
| Models.FromMemberName | sql/models.py:61-65 | exactly the four member names "m", "o", "a", "r" read back as a status; any other text is none |
| Models.FromValue | sql/models.py:61-65 | exactly the four values "Maintenance", "On loan", "Available", "Reserved" parse; any other text is rejected |
| Models.StatusRoundTrip | sql/models.py:61-65 | every status survives writing and reading back, by name and by value |
| Models.DefaultStatus | sql/models.py:75 | the column default "m" is Maintenance |
| Models.ApplyInstanceUpdate | routers/book_instances.py:83-87 | a partial update keeps the id, writes each field present in the update and keeps each absent one |
| Models.ApplyBookUpdate | routers/books.py:58-66 | a partial update keeps the id, writes each field present in the update (title, description, author, genre, language) and keeps each absent one |
| Models.ClearBorrower | sql/models.py:16-18 | deleting a user sets to null the borrower of exactly the instances it borrowed, and changes nothing else |
| Models.ClearGenre | sql/models.py:34-36 | deleting a genre sets to null the genre of exactly its books, and changes nothing else |
| Models.ClearLanguage | sql/models.py:41-43 | deleting a language sets to null the language of exactly its books, and changes nothing else |
| Models.Tables.constructor | sql/models.py:9-78 | the empty tables satisfy every key invariant |
| Models.Tables.InsertUser | sql/models.py:9-16 | rejected, nothing written, exactly when the username or email is taken; otherwise appended with a fresh id of at least 1 and is_active true unless given |
| Models.Tables.InsertAuthor | sql/models.py:20-29 | appended with a fresh id |
| Models.Tables.InsertGenre | sql/models.py:31-36 | rejected exactly when the name is taken; otherwise appended with a fresh id |
| Models.Tables.InsertLanguage | sql/models.py:38-43 | rejected exactly when the name is taken; otherwise appended with a fresh id |
| Models.Tables.InsertBook | sql/models.py:45-53 | rejected exactly when the title is taken; otherwise appended with a fresh id |
| Models.Tables.InsertBookInstance | sql/models.py:67-75 | rejected exactly when the id is already used; otherwise appended, with status Maintenance unless one is given |
| Models.Tables.UpdateBookInstance | routers/book_instances.py:83-87 | None, nothing written, exactly when the id is missing; otherwise the present fields are overwritten at that row's position and nothing else changes |
| Models.Tables.UpdateBook | sql/models.py:48-49 | missing book, or a title held by another book, writes nothing; otherwise the present fields are overwritten at that row's position, titles stay unique |
| Models.Tables.DeleteUser | sql/models.py:9-18 | the user is removed and the instances it borrowed lose their borrower; a missing id changes nothing |
| Models.Tables.DeleteAuthor | sql/models.py:20-29 | the author, all its books and all their instances are removed, and nothing else; a missing id changes nothing |
| Models.Tables.DeleteGenre | sql/models.py:31-36 | the genre is removed and its books lose their genre; a missing id changes nothing |
| Models.Tables.DeleteLanguage | sql/models.py:38-43 | the language is removed and its books lose their language; a missing id changes nothing |
| Models.Tables.DeleteBook | sql/models.py:45-59 | the book and all its instances are removed, and nothing else; a missing id changes nothing |
| Models.Tables.DeleteBookInstance | sql/models.py:67-78 | the instance is removed, and nothing else; a missing id changes nothing |

## Left out

- SQLAlchemy sessions, `get_db` and the `.env` read of the signing key: resource plumbing and I/O. The key is folded into the `Jwt` parameter.
- PyJWT and bcrypt internals: foreign cryptographic code, modelled as uninterpreted functions. Only the hash/check round trip is assumed, as the hypothesis `Sound`.
- FastAPI routing, dependency injection and the `Security(..., scopes=["super"])` annotations: framework behaviour. The shown guard never inspects scopes, so there is no scope check to model.
- Reservation and a super-user role: the code has neither a reserve handler nor an `is_superuser` column.
- Concurrent requests: each request is one atomic step. The race between two borrowers of one copy is not modelled.
- Wall-clock time: `today` and `now` are parameters.
- The update handler for book instances (main.py:294-304 and routers/book_instances.py:47-57) passes the `crud` module instead of the request body as the update data. It is not modelled as a data-carrying update.
- The create, update and delete functions of `sql/crud.py` are not part of this model. Their effect on the tables is modelled by the `Models.Tables` methods, an update overwriting only the fields present.
- The duplicated handlers of main.py and the boilerplate routers for users, authors, genres and languages: plain delegation with a 404, the same pattern as `Http.NotFoundOr`.
- Crud.FilterBooksByLanguageAndGenre: the source returns an unevaluated query (no `.all()`); the model returns the rows that query yields.
- Crud.GetGenres: `skip` and `limit` are non-negative in this model, as in every listing here; negative values passed to the database are not modelled.
- Models.Tables.InsertUser: column lengths (100 for usernames, 150 for emails, 50 for names) are not enforced.
- BookInstancesRouter.Return: foreign keys are assumed unenforced, as SQLite leaves them by default. A return writes borrower id 0 into a column that references users.id, and no user has id 0. With foreign keys enforced, that commit would fail with an uncaught IntegrityError (a 500, nothing written), where the model's return succeeds. For the same reason every insert and update accepts author, genre, language, book and borrower ids that name no row.
- BooksRouter.GetBooks: the model stops at the handler's return value. The route declares a list response, so the framework's response validation turns a `None` (an unresolved genre or language name) into a 500, and depending on the pydantic version it may also reject the unevaluated query the combined branch returns.
- Dependencies.TokenSubject: a `sub` claim that is present but not a string is modelled as naming no user, so the request gets the 401. The code passes whatever `sub` holds to the username lookup. Whether a number could then match a username depends on the database's comparison rules and on the PyJWT version, and neither is part of this model.
- Dependencies.CheckPassword: the `utf-8` encoding of passwords and hashes is not modelled; strings are passed as they are.
