/** The authorization gate wrapped around the protected routes: it reads
    the `Authorization` header, resolves a `Bearer` token or `Basic`
    credentials to a user, and either attaches that user to the request and
    calls the wrapped service, or answers 401 without calling it. */
module Gate {
  import opened Wrappers
  import opened Schema
  import opened Text
  import Jwt
  import Authentication
  import Http

  /** What the gate consults beyond the header: the JWT configuration and
      library, `User::from_jwt`, the base64 and UTF-8 decoders, bcrypt and
      `generate_jwt`. */
  datatype Environment = Environment(
    config: Jwt.Config,
    signer: Jwt.Signer,
    fromJwt: Jwt.Claims -> User,
    base64Decode: string -> Option<seq<Byte>>,
    utf8Decode: seq<Byte> -> Option<string>,
    bcrypt: Authentication.Bcrypt,
    generateJwt: User -> string)

  const NoHeader: string := "Couldn't retrieve header"
  const UnreadableHeader: string := "Couldn't parse the header"
  const UnknownScheme: string := "Not valid authentication method"
  const BadSignature: string := "Something wrong with the signature"
  const NotUtf8: string := "Could not parse the authentication header"
  const NotBase64: string := "Could not decode base64 header"
  const BadCredentials: string := "Invalid credentials for basic auth"

  /** `match split.next() { Some(v) => v, None => "" }` on what follows the
      scheme. */
  function SecondToken(rest: string): (w: string)
    ensures AllWhitespace(rest) ==> w == ""
    ensures !AllWhitespace(rest) ==> w != [] && NoWhitespace(w)
    ensures NextToken(rest).Some? ==> w == NextToken(rest).value.0
  {
    match NextToken(rest)
    case Some((w, _)) => w
    case None => ""
  }

  /** `bearer_auth`: the user `jwt::verify` yields, or an error whatever
      the verifier's complaint. */
  function BearerAuth(env: Environment, now: int, data: string): (r: Result<User, string>)
    ensures var v := Jwt.Verify(env.config, data, now, env.signer, env.fromJwt);
      && (r.Ok? <==> v.Ok?)
      && (r.Ok? ==> r.value == v.value)
      && (r.Err? ==> r.error == BadSignature)
  {
    match Jwt.Verify(env.config, data, now, env.signer, env.fromJwt)
    case Ok(user) => Ok(user)
    case Err(_) => Err(BadSignature)
  }

  /** Email and password of `Basic` credentials: the first and the second
      piece of `split(":")`, the second being "" when there is no colon;
      any further pieces are dropped. */
  function Credentials(decoded: string): (string, string) {
    var parts := Split(decoded, ':');
    (parts[0], if |parts| > 1 then parts[1] else "")
  }

  /** Credentials read the email up to the first colon and the password up
      to the next one: a password that itself holds a colon is cut there
      (section 2 of RFC 7617 would keep it whole). */
  lemma CredentialsOf(email: string, password: string)
    requires ':' !in email
    ensures Credentials(email + ":" + password) == (email, Split(password, ':')[0])
    ensures ':' !in password ==> Credentials(email + ":" + password) == (email, password)
  {
    SplitPiece(email, ":" + password, ':');
    assert email + ":" + password == email + (":" + password);
    assert (":" + password)[1..] == password;
    var after := Split(":" + password, ':');
    assert after == [[]] + Split(password, ':');
    assert email + after[0] == email;
    if ':' !in password {
      SplitJoin([password], ':');
    }
  }

  /** Text without any colon is all email, with an empty password. */
  lemma CredentialsWithoutColon(decoded: string)
    requires ':' !in decoded
    ensures Credentials(decoded) == (decoded, "")
  {
    SplitJoin([decoded], ':');
  }

  /** `basic_auth`: base64-decode, check UTF-8, split into email and
      password, and authenticate; the token is discarded. */
  function BasicAuth(env: Environment, users: Load<User>, data: string): (r: Result<User, string>)
    ensures env.base64Decode(data).None? ==> r == Err(NotBase64)
    ensures env.base64Decode(data).Some? && env.utf8Decode(env.base64Decode(data).value).None?
            ==> r == Err(NotUtf8)
    ensures env.base64Decode(data).Some? && env.utf8Decode(env.base64Decode(data).value).Some? ==>
      var (email, password) := Credentials(env.utf8Decode(env.base64Decode(data).value).value);
      var a := Authentication.Authenticate(users, email, password, env.bcrypt, env.generateJwt);
      && (a.Ok? ==> r == Ok(a.value.0))
      && (a.Err? ==> r == Err(BadCredentials))
    ensures r.Ok? ==> env.base64Decode(data).Some? && env.utf8Decode(env.base64Decode(data).value).Some?
  {
    match env.base64Decode(data)
    case None => Err(NotBase64)
    case Some(bytes) =>
      match env.utf8Decode(bytes)
      case None => Err(NotUtf8)
      case Some(text) =>
        var (email, password) := Credentials(text);
        match Authentication.Authenticate(users, email, password, env.bcrypt, env.generateJwt)
        case Ok((user, _)) => Ok(user)
        case Err(_) => Err(BadCredentials)
  }

  /** `is_logged`: the decision on one request's `Authorization` header. */
  function IsLogged(env: Environment, now: int, users: Load<User>, header: Option<seq<Byte>>)
    : (r: Result<User, string>)
    ensures header.None? ==> r == Err(NoHeader)
    ensures header.Some? && HeaderToStr(header.value).None? ==> r == Err(UnreadableHeader)
    ensures header.Some? && HeaderToStr(header.value).Some? && AllWhitespace(HeaderToStr(header.value).value)
            ==> r == Err(UnknownScheme)
  {
    match header
    case None => Err(NoHeader)
    case Some(raw) =>
      match HeaderToStr(raw)
      case None => Err(UnreadableHeader)
      case Some(text) =>
        match NextToken(text)
        case None => Err(UnknownScheme)
        case Some((scheme, rest)) =>
          if scheme == "Bearer" then BearerAuth(env, now, SecondToken(rest))
          else if scheme == "Basic" then BasicAuth(env, users, SecondToken(rest))
          else Err(UnknownScheme)
  }

  /** A header `Bearer <token> ...` (any blank before, between and after)
      hands exactly `<token>` to the JWT verifier; later tokens are
      ignored. */
  lemma BearerHeader(env: Environment, now: int, users: Load<User>, raw: seq<Byte>,
                     lead: string, gap: string, token: string, tail: string)
    requires HeaderToStr(raw) == Some(lead + "Bearer" + gap + token + tail)
    requires AllWhitespace(lead) && gap != [] && AllWhitespace(gap)
    requires token != [] && NoWhitespace(token)
    requires tail == [] || IsWhitespace(tail[0])
    ensures IsLogged(env, now, users, Some(raw)) == BearerAuth(env, now, token)
  {
    SchemeThen(lead, "Bearer", gap, token, tail);
  }

  /** A header `Basic <value> ...` hands exactly `<value>` to `basic_auth`. */
  lemma BasicHeader(env: Environment, now: int, users: Load<User>, raw: seq<Byte>,
                    lead: string, gap: string, value: string, tail: string)
    requires HeaderToStr(raw) == Some(lead + "Basic" + gap + value + tail)
    requires AllWhitespace(lead) && gap != [] && AllWhitespace(gap)
    requires value != [] && NoWhitespace(value)
    requires tail == [] || IsWhitespace(tail[0])
    ensures IsLogged(env, now, users, Some(raw)) == BasicAuth(env, users, value)
  {
    SchemeThen(lead, "Basic", gap, value, tail);
  }

  /** Valid `Basic` credentials let the request through: a header
      `Basic <value>` whose value decodes to `email:password` (neither
      holding a colon) resolves to the user `authenticate` accepts for
      them. */
  lemma BasicLoginAccepted(env: Environment, now: int, users: Load<User>, raw: seq<Byte>,
                           value: string, email: string, password: string)
    requires HeaderToStr(raw) == Some("Basic " + value)
    requires value != [] && NoWhitespace(value)
    requires env.base64Decode(value).Some?
    requires env.utf8Decode(env.base64Decode(value).value) == Some(email + ":" + password)
    requires ':' !in email && ':' !in password
    requires Authentication.Authenticate(users, email, password, env.bcrypt, env.generateJwt).Ok?
    ensures IsLogged(env, now, users, Some(raw))
         == Ok(Authentication.Authenticate(users, email, password, env.bcrypt, env.generateJwt).value.0)
  {
    assert "Basic " + value == [] + "Basic" + " " + value + [];
    BasicHeader(env, now, users, raw, [], " ", value, []);
    CredentialsOf(email, password);
  }

  /** A scheme with nothing after it hands "" on. */
  lemma SchemeAlone(env: Environment, now: int, users: Load<User>, raw: seq<Byte>,
                    lead: string, scheme: string, tail: string)
    requires HeaderToStr(raw) == Some(lead + scheme + tail)
    requires AllWhitespace(lead) && AllWhitespace(tail)
    requires scheme == "Bearer" || scheme == "Basic"
    ensures scheme == "Bearer" ==> IsLogged(env, now, users, Some(raw)) == BearerAuth(env, now, "")
    ensures scheme == "Basic" ==> IsLogged(env, now, users, Some(raw)) == BasicAuth(env, users, "")
  {
    assert tail == [] || IsWhitespace(tail[0]);
    NextTokenOf(lead, scheme, tail);
    var text := HeaderToStr(raw).value;
    assert NextToken(text) == Some((scheme, tail));
    assert SecondToken(tail) == "";
  }

  /** Any first token other than exactly `Bearer` or `Basic` is refused;
      the comparison is case-sensitive, unlike section 2.1 of RFC 7235. */
  lemma OtherSchemeRefused(env: Environment, now: int, users: Load<User>, raw: seq<Byte>,
                           lead: string, scheme: string, tail: string)
    requires HeaderToStr(raw) == Some(lead + scheme + tail)
    requires AllWhitespace(lead) && scheme != [] && NoWhitespace(scheme)
    requires tail == [] || IsWhitespace(tail[0])
    requires scheme != "Bearer" && scheme != "Basic"
    ensures IsLogged(env, now, users, Some(raw)) == Err(UnknownScheme)
  {
    NextTokenOf(lead, scheme, tail);
  }

  lemma LowercaseBearerRefused(env: Environment, now: int, users: Load<User>, raw: seq<Byte>, token: string)
    requires HeaderToStr(raw) == Some("bearer " + token)
    ensures IsLogged(env, now, users, Some(raw)) == Err(UnknownScheme)
  {
    assert "bearer " + token == [] + "bearer" + (" " + token);
    OtherSchemeRefused(env, now, users, raw, [], "bearer", " " + token);
  }

  lemma SchemeThen(lead: string, scheme: string, gap: string, token: string, tail: string)
    requires AllWhitespace(lead) && scheme != [] && NoWhitespace(scheme)
    requires gap != [] && AllWhitespace(gap)
    requires token != [] && NoWhitespace(token)
    requires tail == [] || IsWhitespace(tail[0])
    ensures NextToken(lead + scheme + gap + token + tail) == Some((scheme, gap + token + tail))
    ensures SecondToken(gap + token + tail) == token
  {
    assert lead + scheme + gap + token + tail == lead + scheme + (gap + token + tail);
    NextTokenOf(lead, scheme, gap + token + tail);
    NextTokenOf(gap, token, tail);
  }

  /** The wrapped service, observed: each call records the principal the
      request carries at that moment, and the reply depends on it alone. */
  class Service {
    var seen: seq<Option<User>>
    const reply: Option<User> -> Http.Response

    constructor (reply: Option<User> -> Http.Response)
      ensures seen == [] && this.reply == reply
    {
      seen := [];
      this.reply := reply;
    }

    method Call(req: Http.Request) returns (resp: Http.Response)
      modifies this
      ensures seen == old(seen) + [req.principal]
      ensures resp == reply(req.principal)
    {
      seen := seen + [req.principal];
      resp := reply(req.principal);
    }
  }

  /** `LoggedGuardMiddleware::call`: on success the user is put in the
      request and the service is called once, its response passed on
      unchanged; on failure the service is not called and the answer is
      401 with an empty body. */
  method Call(env: Environment, now: int, users: Load<User>, req: Http.Request, service: Service)
    returns (resp: Http.Response)
    modifies req, service
    ensures var decision := IsLogged(env, now, users, req.authorization);
      && (decision.Ok? ==>
            && req.principal == Some(decision.value)
            && service.seen == old(service.seen) + [Some(decision.value)]
            && resp == service.reply(Some(decision.value)))
      && (decision.Err? ==>
            && req.principal == old(req.principal)
            && service.seen == old(service.seen)
            && resp == Http.Finish(Http.StatusUnauthorized))
  {
    match IsLogged(env, now, users, req.authorization) {
      case Ok(user) =>
        req.Attach(user);
        resp := service.Call(req);
      case Err(_) =>
        resp := Http.Finish(Http.StatusUnauthorized);
    }
  }
}
