/**
 The HTTP side of the chat backend (backend/server.js:57-180): registration,
 login, the bearer-token middleware `authenticateToken`, and the two routes
 it guards, `GET /api/messages/:recipient` and `GET /api/users`.

 bcrypt, `jwt.sign` and `jwt.verify` are foreign calls and appear as function
 parameters; the collections are sequences; `available` is false when the
 database call throws, which every route turns into `500 Server error`.
 */
module HttpApi {
  import opened JsValues
  import opened Schema
  import History
  import Seqs

  /** What a route sends back: `res.status(code).json(...)`. */
  datatype Response =
    | Status(code: nat, message: string)
    | Issued(code: nat, message: string, token: Token, username: string)
    | MessageList(messages: seq<Message>)
    | UserList(usernames: seq<string>)

  /** The verdict of `authenticateToken`: continue with the claims as `req.user`, or answer now. */
  datatype Gate = Admit(claims: Claims) | Refuse(response: Response)

  const ServerError := Status(500, "Server error")
  const AccessDenied := Status(401, "Access denied")
  const InvalidToken := Status(403, "Invalid token")
  const UsernameTaken := Status(400, "Username already taken")
  const BadCredentials := Status(400, "Invalid username or password")

  /**
   `authHeader && authHeader.split(' ')[1]` treated as a truth value: the
   second space-separated field of the `Authorization` header. The scheme
   word in front of it is not inspected.
   */
  function BearerToken(header: Option<string>): (r: Option<Token>)
    ensures r.Some? ==> r.value != "" && ' ' !in r.value
    ensures r.Some? ==> Truthy(header)
    ensures r.Some? ==>
      exists k :: 0 <= k && k + 1 + |r.value| <= |header.value| && ' ' !in header.value[..k] && header.value[k] == ' '
        && header.value[k + 1..k + 1 + |r.value|] == r.value
        && (k + 1 + |r.value| == |header.value| || header.value[k + 1 + |r.value|] == ' ')
  {
    if !Truthy(header) then None
    else
      var parts := Split(header.value, ' ');
      if |parts| >= 2 && parts[1] != "" then
        SplitSecond(header.value, ' ');
        assert ' ' !in header.value[..|parts[0]|];
        Some(parts[1])
      else None
  }

  /**
   The header the client builds, `Bearer ${token}` (frontendApp/src/components/Chat.js:105),
   or any other one-word scheme in front of the token, yields that token
   back, whatever further space-separated fields follow it.
   */
  lemma BearerTokenRoundTrip(scheme: string, t: Token, rest: string)
    requires ' ' !in scheme && ' ' !in t && t != ""
    requires rest == "" || rest[0] == ' '
    ensures BearerToken(Some(scheme + " " + t + rest)) == Some(t)
  {
    SplitSecondOf(scheme, t, rest, ' ');
  }

  /** An empty second field, as in `Bearer ` or `Bearer  token`, is no token. */
  lemma BearerTokenEmptyField(scheme: string, rest: string)
    requires ' ' !in scheme
    requires rest == "" || rest[0] == ' '
    ensures BearerToken(Some(scheme + " " + rest)) == None
  {
    var h := scheme + " " + rest;
    assert h == scheme + [' '] + rest;
    assert [] + rest == rest;
    SplitCons(scheme, rest, ' ');
    SplitFirst([], rest, ' ');
  }

  /** A header without a space has no second field and so no token. */
  lemma BearerTokenNoSpace(header: string)
    requires ' ' !in header
    ensures BearerToken(Some(header)) == None
  {
  }

  /** `authenticateToken`: 401 without a token, 403 when it does not verify, otherwise admit with its claims. */
  function AuthenticateToken(header: Option<string>, verify: Verifier): (r: Gate)
    ensures r == Refuse(AccessDenied) <==> BearerToken(header).None?
    ensures r == Refuse(InvalidToken) <==> BearerToken(header).Some? && verify(BearerToken(header).value).None?
    ensures r.Admit? <==> BearerToken(header).Some? && verify(BearerToken(header).value).Some?
    ensures r.Admit? ==> Some(r.claims) == verify(BearerToken(header).value)
  {
    match BearerToken(header)
    case None => Refuse(AccessDenied)
    case Some(token) =>
      match verify(token)
      case None => Refuse(InvalidToken)
      case Some(claims) => Admit(claims)
  }

  /**
   `GET /api/messages/:recipient`: for an admitted requester, the whole
   conversation between the requester and `recipient`, and nothing else,
   oldest first.
   */
  function GetMessages(header: Option<string>, recipient: string, verify: Verifier,
                       log: seq<Message>, available: bool): (r: Response)
    ensures AuthenticateToken(header, verify).Refuse? ==> r == AuthenticateToken(header, verify).response
    ensures AuthenticateToken(header, verify).Admit? && !available ==> r == ServerError
    ensures r.MessageList? <==> AuthenticateToken(header, verify).Admit? && available
    ensures r.MessageList? ==>
      var me := AuthenticateToken(header, verify).claims.username;
      && Seqs.SortedBy(Timestamp, r.messages)
      && (forall m :: multiset(r.messages)[m] == if History.Between(m, me, recipient) then multiset(log)[m] else 0)
      && (forall m :: m in r.messages <==> m in log && History.Between(m, me, recipient))
  {
    match AuthenticateToken(header, verify)
    case Refuse(response) => response
    case Admit(claims) =>
      if !available then ServerError
      else MessageList(History.Query(log, claims.username, recipient))
  }

  /** The `username` field of every account, in collection order. */
  function Usernames(users: seq<User>): (r: seq<string>)
    ensures |r| == |users|
    ensures forall i :: 0 <= i < |users| ==> r[i] == users[i].username
  {
    seq(|users|, i requires 0 <= i < |users| => users[i].username)
  }

  /** `GET /api/users`: every registered username in collection order, for an admitted requester only. */
  function GetUsers(header: Option<string>, verify: Verifier, users: seq<User>, available: bool): (r: Response)
    ensures AuthenticateToken(header, verify).Refuse? ==> r == AuthenticateToken(header, verify).response
    ensures AuthenticateToken(header, verify).Admit? && !available ==> r == ServerError
    ensures r.UserList? <==> AuthenticateToken(header, verify).Admit? && available
    ensures r.UserList? ==> |r.usernames| == |users| && forall i :: 0 <= i < |users| ==> r.usernames[i] == users[i].username
    ensures r.UserList? ==> forall name :: name in r.usernames <==> exists i :: 0 <= i < |users| && users[i].username == name
  {
    match AuthenticateToken(header, verify)
    case Refuse(response) => response
    case Admit(_) => if available then UserList(Usernames(users)) else ServerError
  }

  /** The accounts after a request together with the response sent. */
  datatype Outcome = Outcome(users: seq<User>, response: Response)

  /**
   `POST /api/register`: a taken username is refused with 400 and nothing
   added; otherwise the account is stored with the hashed password and a
   token for it is issued with 201.
   */
  function Register(users: seq<User>, username: string, password: string,
                    hash: string -> string, sign: Claims -> Token, available: bool): (r: Outcome)
    ensures !available ==> r == Outcome(users, ServerError)
    ensures available && FindUser(users, username).Some? ==> r == Outcome(users, UsernameTaken)
    ensures available && FindUser(users, username).None? && (username == "" || hash(password) == "") ==>
      r == Outcome(users, ServerError)
    ensures r.users == users || (|r.users| == |users| + 1 && r.users[..|users|] == users)
    ensures r.users != users <==> r.response.Issued?
    ensures r.response.Issued? <==>
      available && username != "" && hash(password) != "" && FindUser(users, username).None?
    ensures r.response.Issued? ==>
      && r.response.code == 201 && r.response.username == username
      && r.users[|users|].username == username && r.users[|users|].password == hash(password)
      && r.response.token == sign(Claims(r.users[|users|].id, username))
    ensures ValidUsers(users) ==> ValidUsers(r.users)
  {
    if !available then Outcome(users, ServerError)
    else if FindUser(users, username).Some? then Outcome(users, UsernameTaken)
    else
      match SaveUser(users, username, hash(password), available)
      case None => Outcome(users, ServerError)
      case Some(u) =>
        Outcome(users + [u], Issued(201, "User registered successfully", sign(Claims(u.id, u.username)), u.username))
  }

  /**
   `POST /api/login`: an unknown username and a wrong password get the same
   400 answer; a match issues a token for the stored account.
   */
  function Login(users: seq<User>, username: string, password: string,
                 compare: (string, string) -> bool, sign: Claims -> Token, available: bool): (r: Response)
    ensures !available ==> r == ServerError
    ensures available && FindUser(users, username).None? ==> r == BadCredentials
    ensures available && FindUser(users, username).Some? && !compare(password, FindUser(users, username).value.password) ==>
      r == BadCredentials
    ensures r.Issued? <==>
      available && FindUser(users, username).Some? && compare(password, FindUser(users, username).value.password)
    ensures r.Issued? ==>
      && r.code == 200 && r.username == username
      && r.token == sign(Claims(FindUser(users, username).value.id, username))
    ensures !r.Issued? ==> r == BadCredentials || r == ServerError
    ensures r == ServerError <==> !available
  {
    if !available then ServerError
    else
      match FindUser(users, username)
      case None => BadCredentials
      case Some(u) =>
        if !compare(password, u.password) then BadCredentials
        else Issued(200, "Login successful", sign(Claims(u.id, u.username)), u.username)
  }

  /** A username absent from `users` is found at the account appended for it. */
  lemma {:induction false} FindAppended(users: seq<User>, u: User)
    requires FindUser(users, u.username).None?
    ensures FindUser(users + [u], u.username) == Some(u)
    decreases |users|
  {
    if users == [] {
      assert users + [u] == [u];
    } else {
      assert (users + [u])[1..] == users[1..] + [u];
      assert FindUser(users[1..], u.username).None? by {
        assert forall i :: 0 <= i < |users[1..]| ==> users[1..][i] == users[i + 1];
      }
      FindAppended(users[1..], u);
    }
  }

  /**
   Registering and then logging in with the same password succeeds whenever
   `compare` accepts every password against its own hash (bcrypt's contract).
   Each request signs its own token (`jwt.sign` stamps the time it runs), so
   the login token is the one the login request signs for the new account.
   */
  lemma RegisterThenLogin(users: seq<User>, username: string, password: string,
                          hash: string -> string, compare: (string, string) -> bool,
                          signRegister: Claims -> Token, signLogin: Claims -> Token)
    requires forall p :: compare(p, hash(p))
    requires Register(users, username, password, hash, signRegister, true).response.Issued?
    ensures
      var reg := Register(users, username, password, hash, signRegister, true);
      Login(reg.users, username, password, compare, signLogin, true) ==
        Issued(200, "Login successful", signLogin(Claims(reg.users[|users|].id, username)), username)
  {
    var reg := Register(users, username, password, hash, signRegister, true);
    FindAppended(users, reg.users[|users|]);
  }
}
