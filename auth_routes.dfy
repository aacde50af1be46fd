/** The authentication endpoints: the current login (user in the body,
    token in the `jwt` header), registration, and the older login built on
    the older `authenticate`. */
module AuthRoutes {
  import opened Wrappers
  import opened Schema
  import Authentication
  import Users
  import Http

  /** `routes::auth::login::handle`: 200 with the user as JSON and the
      token in the `jwt` header, or 401 with no body, whatever the failure. */
  function Login(users: Load<User>, email: string, password: string,
                 bcrypt: Authentication.Bcrypt, generateJwt: User -> string): (r: Http.Response)
    ensures var a := Authentication.Authenticate(users, email, password, bcrypt, generateJwt);
      && (a.Ok? ==> r == Http.Response(Http.StatusOk, Http.UserJson(a.value.0), Some(a.value.1)))
      && (a.Err? ==> r == Http.Finish(Http.StatusUnauthorized))
    ensures r.status == Http.StatusOk || r == Http.Finish(Http.StatusUnauthorized)
  {
    match Authentication.Authenticate(users, email, password, bcrypt, generateJwt)
    case Ok((authenticated, token)) => Http.Response(Http.StatusOk, Http.UserJson(authenticated), Some(token))
    case Err(_) => Http.Finish(Http.StatusUnauthorized)
  }

  /** Login does not tell an unknown email from a wrong password: both get
      the very same 401 response. */
  lemma LoginFailuresIdentical(rows: seq<User>, unknown: string, known: string, p1: string, p2: string,
                               bcrypt: Authentication.Bcrypt, generateJwt: User -> string)
    requires forall i :: 0 <= i < |rows| ==> rows[i].email != unknown
    requires Authentication.FindByEmail(rows, known).Some?
    requires bcrypt.verify(p2, Authentication.FindByEmail(rows, known).value.password) != Ok(true)
    ensures Login(Ok(rows), unknown, p1, bcrypt, generateJwt)
         == Login(Ok(rows), known, p2, bcrypt, generateJwt)
         == Http.Finish(Http.StatusUnauthorized)
  {
    Authentication.FailuresLookAlike(rows, unknown, known, p1, p2, bcrypt, generateJwt);
  }

  /** The JSON body of a registration. */
  datatype NewUser = NewUser(email: string, password: string)

  /** `routes::auth::register` (and the identical `routes::auth::register::handle`):
      the created user as JSON, or, on any failure, status 200 all the same
      with the text "Error". */
  method Register(users: Users.UserTable, body: NewUser, bcrypt: Authentication.Bcrypt,
                  newId: string, fault: Option<DbError>) returns (resp: Http.Response)
    modifies users
    ensures resp.status == Http.StatusOk && resp.jwt == None
    ensures bcrypt.hash(body.password).Err? || fault.Some? ==>
      resp.body == Http.Plain("Error") && users.rows == old(users.rows)
    ensures bcrypt.hash(body.password).Ok? && fault.None? ==>
      var created := User(newId, body.email, bcrypt.hash(body.password).value);
      && resp.body == Http.UserJson(created)
      && users.rows == old(users.rows) + [created]
  {
    var created := users.Create(body.email, body.password, bcrypt, newId, fault);
    match created {
      case Ok(user) => resp := Http.Response(Http.StatusOk, Http.UserJson(user), None);
      case Err(_) => resp := Http.Response(Http.StatusOk, Http.Plain("Error"), None);
    }
  }

  /** Someone who has just registered can log in with the same email and
      password, whatever users with that email were registered before, and
      receives their own token. */
  lemma RegisteredUserLogsIn(rows: seq<User>, body: NewUser, bcrypt: Authentication.Bcrypt,
                             newId: string, generateJwt: User -> string)
    requires Authentication.HashVerifies(bcrypt)
    requires bcrypt.hash(body.password).Ok?
    ensures var created := User(newId, body.email, bcrypt.hash(body.password).value);
      Login(Ok(rows + [created]), body.email, body.password, bcrypt, generateJwt)
        == Http.Response(Http.StatusOk, Http.UserJson(created), Some(generateJwt(created)))
  {
    Authentication.NewestUserAuthenticates(rows, newId, body.email, body.password, bcrypt, generateJwt);
  }

  /** `routes::auth::login`: the older login, on the older `authenticate`;
      200 with the user and no token, or 401 with no body. */
  function LegacyLogin(users: Load<User>, email: string, password: string,
                       bcrypt: Authentication.Bcrypt): (r: Http.Response)
    ensures var a := Users.OldAuthenticate(users, email, password, bcrypt);
      && (a.Ok? ==> r == Http.Response(Http.StatusOk, Http.UserJson(a.value), None))
      && (a.Err? ==> r == Http.Finish(Http.StatusUnauthorized))
    ensures r.jwt == None
  {
    match Users.OldAuthenticate(users, email, password, bcrypt)
    case Ok(authenticated) => Http.Response(Http.StatusOk, Http.UserJson(authenticated), None)
    case Err(_) => Http.Finish(Http.StatusUnauthorized)
  }

  /** A password bcrypt rejects with `Ok(false)` is let in by the older
      login, while the current login answers 401. */
  lemma LegacyLoginAcceptsWrongPassword(rows: seq<User>, email: string, password: string,
                                        bcrypt: Authentication.Bcrypt, generateJwt: User -> string)
    requires Authentication.FindByEmail(rows, email).Some?
    requires bcrypt.verify(password, Authentication.FindByEmail(rows, email).value.password) == Ok(false)
    ensures LegacyLogin(Ok(rows), email, password, bcrypt)
         == Http.Response(Http.StatusOk, Http.UserJson(Authentication.FindByEmail(rows, email).value), None)
    ensures Login(Ok(rows), email, password, bcrypt, generateJwt) == Http.Finish(Http.StatusUnauthorized)
  {
    Users.OldAuthenticateAcceptsWrongPassword(rows, email, password, bcrypt, generateJwt);
  }
}
