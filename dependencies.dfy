/** Credentials and bearer tokens: password hashing, token issuance with its expiry rule, and the
    guard chain that turns a token into the current (active) user. bcrypt and PyJWT are foreign
    libraries; they enter as parameters whose behaviour is not interpreted. */
module Dependencies {
  import opened Wrappers
  import opened Http
  import opened Models
  import Crud

  /** Lifetime of the tokens the login endpoint issues, in minutes. */
  const ACCESS_TOKEN_EXPIRE_MINUTES: int := 30

  /** Lifetime create_access_token falls back to, in minutes. */
  const DEFAULT_EXPIRE_MINUTES: int := 15

  /** bcrypt as the application calls it: hashpw(password, salt) and checkpw(password, hashed). */
  datatype Bcrypt = Bcrypt(hashpw: (string, string) -> string, checkpw: (string, string) -> bool)

  /** The one property of bcrypt the application relies on: a password checks against a hash of it. */
  ghost predicate Sound(b: Bcrypt) {
    forall password, salt :: b.checkpw(password, b.hashpw(password, salt))
  }

  /** hash_password, with the salt that gensalt() draws passed in. */
  function HashPassword(b: Bcrypt, password: string, salt: string): (hashed: string)
    ensures Sound(b) ==> b.checkpw(password, hashed)
  {
    b.hashpw(password, salt)
  }

  /** check_password: true for every password whose hash (under any salt) is the stored one. */
  function CheckPassword(b: Bcrypt, password: string, hashed: string): (ok: bool)
    ensures Sound(b) && (exists salt :: hashed == b.hashpw(password, salt)) ==> ok
  {
    b.checkpw(password, hashed)
  }

  lemma CheckHashedPassword(b: Bcrypt, password: string, salt: string)
    requires Sound(b)
    ensures CheckPassword(b, password, HashPassword(b, password, salt))
  {
  }

  /** A JSON value in a token payload. */
  datatype Claim = Str(s: string) | Num(n: int) | Null

  type Payload = map<string, Claim>

  /** PyJWT with the process-wide secret key and the HS256 algorithm. encode signs a payload; decode, at a given
      time, either rejects the token (bad signature, malformed, expired) or yields its payload. */
  datatype Jwt = Jwt(encode: Payload -> string, decode: (string, int) -> Option<Payload>)

  /** An optional timedelta in minutes; Python reads None and a zero timedelta as false. */
  predicate Truthy(delta: Option<int>) {
    delta.Some? && delta.value != 0
  }

  /** The absolute expiry time of a token issued at now. */
  function Expiry(expiresDelta: Option<int>, now: int): (exp: int)
    ensures Truthy(expiresDelta) ==> exp == now + expiresDelta.value
    ensures !Truthy(expiresDelta) ==> exp == now + DEFAULT_EXPIRE_MINUTES
  {
    if Truthy(expiresDelta) then now + expiresDelta.value else now + DEFAULT_EXPIRE_MINUTES
  }

  /** What create_access_token signs: the caller's claims, with "exp" set (or overwritten). */
  function TokenPayload(data: Payload, expiresDelta: Option<int>, now: int): (p: Payload)
    ensures p.Keys == data.Keys + {"exp"}
    ensures p["exp"] == Num(Expiry(expiresDelta, now))
    ensures forall k :: k in data && k != "exp" ==> p[k] == data[k]
  {
    data["exp" := Num(Expiry(expiresDelta, now))]
  }

  /** create_access_token: copy the claims, add the expiry, sign. The caller's map is a value and
      is not changed. */
  method CreateAccessToken(j: Jwt, data: Payload, expiresDelta: Option<int>, now: int) returns (token: string)
    ensures token == j.encode(TokenPayload(data, expiresDelta, now))
  {
    var toEncode := data;
    var expire: int;
    if Truthy(expiresDelta) {
      expire := now + expiresDelta.value;
    } else {
      expire := now + DEFAULT_EXPIRE_MINUTES;
    }
    toEncode := toEncode["exp" := Num(expire)];
    token := j.encode(toEncode);
  }

  /** A zero lifetime is not honoured: it falls back to 15 minutes like an absent one. */
  lemma ZeroDeltaFallsBack(data: Payload, now: int)
    ensures TokenPayload(data, Some(0), now) == TokenPayload(data, None, now)
    ensures TokenPayload(data, None, now)["exp"] == Num(now + 15)
  {
  }

  /** payload.get("sub"): the subject claim, or None when it is missing or null. */
  function Subject(payload: Payload): (r: Option<Claim>)
    ensures r.Some? <==> "sub" in payload && payload["sub"] != Null
    ensures r.Some? ==> r.value == payload["sub"]
  {
    if "sub" in payload && payload["sub"] != Null then Some(payload["sub"]) else None
  }

  /** The 401 every failure of get_current_user raises. */
  const CREDENTIALS_ERROR := HttpError(401, "Could not validate credentials", BEARER_CHALLENGE)

  const INACTIVE_ERROR := HttpError(400, "Inactive user", map[])

  /** The username a token names at time now: it decodes and its subject is a string. */
  function TokenSubject(j: Jwt, token: string, now: int): (r: Option<string>)
    ensures r.Some? <==> j.decode(token, now).Some? && Subject(j.decode(token, now).value).Some?
                         && Subject(j.decode(token, now).value).value.Str?
    ensures r.Some? ==> Subject(j.decode(token, now).value) == Some(Str(r.value))
  {
    match j.decode(token, now)
    case None => None
    case Some(payload) =>
      match Subject(payload)
      case Some(Str(name)) => Some(name)
      case _ => None
  }

  /** get_current_user: the token must decode, carry a subject, and name a stored user; every
      failure is the same 401. */
  function GetCurrentUser(j: Jwt, users: seq<User>, token: string, now: int): (r: Result<User, HttpError>)
    ensures r.Failure? ==> r.error == CREDENTIALS_ERROR
    ensures r.Success? <==> TokenSubject(j, token, now).Some?
                            && exists u :: u in users && u.username == TokenSubject(j, token, now).value
    ensures r.Success? ==> r.value in users && TokenSubject(j, token, now) == Some(r.value.username)
    ensures r.Success? ==> r == Success(Crud.GetUserByUsername(users, TokenSubject(j, token, now).value).value)
  {
    match j.decode(token, now)
    case None => Failure(CREDENTIALS_ERROR)
    case Some(payload) =>
      match Subject(payload)
      case None => Failure(CREDENTIALS_ERROR)
      case Some(sub) =>
        if sub.Str? then
          match Crud.GetUserByUsername(users, sub.s)
          case None => Failure(CREDENTIALS_ERROR)
          case Some(user) => Success(user)
        else
          Failure(CREDENTIALS_ERROR)
  }

  /** get_current_active_user: an inactive user is refused, an active one passes unchanged. */
  function GetCurrentActiveUser(currentUser: User): (r: Result<User, HttpError>)
    ensures r.Success? <==> currentUser.isActive
    ensures r.Success? ==> r.value == currentUser
    ensures r.Failure? ==> r.error == INACTIVE_ERROR
  {
    if !currentUser.isActive then Failure(INACTIVE_ERROR) else Success(currentUser)
  }

  /** The dependency chain a protected handler runs before its body: resolve the token to a
      stored user, then require that user to be active. */
  function ActiveUserFromToken(j: Jwt, users: seq<User>, token: string, now: int): (r: Result<User, HttpError>)
    ensures r.Success? ==> r.value in users && r.value.isActive
    ensures r.Success? ==> TokenSubject(j, token, now) == Some(r.value.username)
    ensures r.Failure? ==> r.error == CREDENTIALS_ERROR || r.error == INACTIVE_ERROR
    ensures r.Success? <==> GetCurrentUser(j, users, token, now).Success? && GetCurrentUser(j, users, token, now).value.isActive
    ensures (r.Failure? && r.error == INACTIVE_ERROR) <==> (GetCurrentUser(j, users, token, now).Success? && !GetCurrentUser(j, users, token, now).value.isActive)
  {
    match GetCurrentUser(j, users, token, now)
    case Failure(e) => Failure(e)
    case Success(user) => GetCurrentActiveUser(user)
  }
}
