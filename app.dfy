/** The application's own endpoints: password login that issues a bearer token, and the
    get-by-id handlers that answer 404 when the lookup finds nothing. */
module App {
  import opened Wrappers
  import opened Http
  import opened Seqs
  import opened Models
  import opened Dependencies
  import Crud

  /** authenticate_user: the stored user of that name, if the password checks against its hash;
      None stands for the False the source returns. */
  function AuthenticateUser(users: seq<User>, b: Bcrypt, username: string, password: string): (r: Option<User>)
    ensures Crud.GetUserByUsername(users, username).None? ==> r.None?
    ensures Crud.GetUserByUsername(users, username).Some? ==>
      r == if CheckPassword(b, password, Crud.GetUserByUsername(users, username).value.hashedPassword)
           then Crud.GetUserByUsername(users, username) else None
    ensures r.Some? ==> r.value in users && r.value.username == username
                        && CheckPassword(b, password, r.value.hashedPassword)
  {
    var user := Crud.GetUserByUsername(users, username);
    if user.None? then None
    else if !CheckPassword(b, password, user.value.hashedPassword) then None
    else user
  }

  /** With a sound bcrypt and unique usernames, a user who gives the password whose hash is
      stored is authenticated as exactly that stored user. */
  lemma AuthenticateStoredCredentials(users: seq<User>, b: Bcrypt, u: User, password: string, salt: string)
    requires Sound(b)
    requires UniqueKey(users, Username) && u in users
    requires u.hashedPassword == HashPassword(b, password, salt)
    ensures AuthenticateUser(users, b, u.username, password) == Some(u)
  {
    Crud.GetUserByUsernameFinds(users, u);
    CheckHashedPassword(b, password, salt);
  }

  /** The body of a successful login response. */
  datatype TokenResponse = TokenResponse(accessToken: string, tokenType: string)

  const LOGIN_ERROR := HttpError(401, "Incorrect username or password", BEARER_CHALLENGE)

  /** The claims a login token carries: just the subject, and its expiry 30 minutes on. */
  function LoginPayload(username: string, now: int): (p: Payload)
    ensures p == map["sub" := Str(username), "exp" := Num(now + ACCESS_TOKEN_EXPIRE_MINUTES)]
  {
    var p := TokenPayload(map["sub" := Str(username)], Some(ACCESS_TOKEN_EXPIRE_MINUTES), now);
    assert p.Keys == {"sub", "exp"};
    p
  }

  /** login_for_access_token: authenticate, then sign a token for the user's name. */
  function LoginForAccessToken(users: seq<User>, b: Bcrypt, j: Jwt, username: string, password: string, now: int)
    : (r: Result<TokenResponse, HttpError>)
    ensures r.Failure? <==> AuthenticateUser(users, b, username, password).None?
    ensures r.Failure? ==> r.error == LOGIN_ERROR
    ensures r.Success? ==> r.value.tokenType == "bearer"
    ensures r.Success? ==> r.value.accessToken == j.encode(LoginPayload(username, now))
  {
    var user := AuthenticateUser(users, b, username, password);
    if user.None? then
      Failure(LOGIN_ERROR)
    else
      var data := map["sub" := Str(user.value.username)];
      Success(TokenResponse(j.encode(TokenPayload(data, Some(ACCESS_TOKEN_EXPIRE_MINUTES), now)), "bearer"))
  }

  /** A token issued at login, presented while it still verifies (decode yields the payload that
      was signed), resolves to the very user the login authenticated; it passes the active-user
      guard exactly when that user is active. */
  lemma LoginThenResolve(users: seq<User>, b: Bcrypt, j: Jwt, username: string, password: string, now: int, later: int)
    requires LoginForAccessToken(users, b, j, username, password, now).Success?
    requires j.decode(LoginForAccessToken(users, b, j, username, password, now).value.accessToken, later)
             == Some(LoginPayload(username, now))
    ensures var token := LoginForAccessToken(users, b, j, username, password, now).value.accessToken;
            var user := AuthenticateUser(users, b, username, password).value;
            && GetCurrentUser(j, users, token, later) == Success(user)
            && (ActiveUserFromToken(j, users, token, later).Success? <==> user.isActive)
  {
    var token := LoginForAccessToken(users, b, j, username, password, now).value.accessToken;
    assert TokenSubject(j, token, later) == Some(username);
  }

  const AUTHOR_NOT_FOUND := "Author deos not exist"
  const INSTANCE_NOT_FOUND := "Book instance deos not exist"

  /** get_author: the author with that id, or 404. */
  function GetAuthor(authors: seq<Author>, authorId: int): (r: Result<Author, HttpError>)
    ensures r.Failure? <==> forall a :: a in authors ==> a.id != authorId
    ensures r.Failure? ==> r.error == HttpError(404, AUTHOR_NOT_FOUND, map[])
    ensures r.Success? ==> r.value in authors && r.value.id == authorId
  {
    NotFoundOr(Crud.GetAuthor(authors, authorId), AUTHOR_NOT_FOUND)
  }

  /** get_bookinstance: the instance with that id, or 404. */
  function GetBookInstance(instances: seq<BookInstance>, instanceId: string): (r: Result<BookInstance, HttpError>)
    ensures r.Failure? <==> forall i :: i in instances ==> i.id != instanceId
    ensures r.Failure? ==> r.error == HttpError(404, INSTANCE_NOT_FOUND, map[])
    ensures r.Success? ==> r.value in instances && r.value.id == instanceId
  {
    NotFoundOr(Crud.GetBookInstance(instances, instanceId), INSTANCE_NOT_FOUND)
  }

  /** create_bookinstance: insert the instance, answering 400 when its id is already taken. */
  method CreateBookInstance(db: Tables, id: string, bookId: Option<int>, imprint: Option<string>,
                            dueBack: Option<int>, borrowerId: Option<int>, status: Option<Status>)
    returns (r: Result<BookInstance, HttpError>)
    requires db.Valid()
    modifies db`instances
    ensures db.Valid()
    ensures r.Failure? <==> exists i :: i in old(db.instances) && i.id == id
    ensures r.Failure? ==> r.error == HttpError(400, "Failed to create book instance", map[]) && db.instances == old(db.instances)
    ensures r.Success? ==> r.value == BookInstance(id, bookId, imprint, dueBack, borrowerId,
                                                  if status.Some? then status.value else Maintenance)
    ensures r.Success? ==> db.instances == old(db.instances) + [r.value]
  {
    var inserted := db.InsertBookInstance(id, bookId, imprint, dueBack, borrowerId, status);
    if inserted.None? {
      r := Failure(HttpError(400, "Failed to create book instance", map[]));
    } else {
      r := Success(inserted.value);
    }
  }
}
