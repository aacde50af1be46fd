/** Credential authentication (`AuthenticableUser::authenticate` and
    `verify`): find the user by exact email, check the bcrypt hash, and pair
    the user with a token. Every failure is the same opaque error. */
module Authentication {
  import opened Wrappers
  import opened Schema
  import Rows

  /** An error reported by the bcrypt library (a malformed hash, an invalid
      cost, ...). */
  datatype BcryptError = BcryptError(reason: string)

  /** The bcrypt library: `hash` with the default cost (its salt is part of
      the function), and `verify` of a plaintext against a stored hash. */
  datatype Bcrypt = Bcrypt(
    hash: string -> Result<string, BcryptError>,
    verify: (string, string) -> Result<bool, BcryptError>)

  /** The one error authentication reports, whatever went wrong. */
  datatype AuthenticationError = AuthenticationError {
    function Display(): string { "Unauthorized" }
  }

  function HasEmail(email: string): User -> bool {
    (u: User) => u.email == email
  }

  /** The row `users.filter(email == email).load()` then `pop()` selects. */
  function FindByEmail(rows: seq<User>, email: string): Option<User> {
    Rows.Pop(Rows.Filter(rows, HasEmail(email)))
  }

  /** `verify`: succeeds only when bcrypt answers `Ok(true)`. */
  function VerifyPassword(bcrypt: Bcrypt, password: string, user: User): (r: Result<(), AuthenticationError>)
    ensures r.Ok? <==> bcrypt.verify(password, user.password) == Ok(true)
  {
    match bcrypt.verify(password, user.password)
    case Ok(res) => if res == true then Ok(()) else Err(AuthenticationError)
    case Err(_) => Err(AuthenticationError)
  }

  /** `authenticate`: the last user loaded with exactly that email, if its
      password verifies, paired with `generateJwt` of that user. */
  function Authenticate(users: Load<User>, email: string, password: string,
                        bcrypt: Bcrypt, generateJwt: User -> string)
    : (r: Result<(User, string), AuthenticationError>)
    ensures users.Err? ==> r == Err(AuthenticationError)
    ensures users.Ok? && FindByEmail(users.value, email).None? ==> r == Err(AuthenticationError)
    ensures r.Ok? ==>
      && users.Ok? && FindByEmail(users.value, email) == Some(r.value.0)
      && bcrypt.verify(password, r.value.0.password) == Ok(true)
      && r.value.1 == generateJwt(r.value.0)
    ensures users.Ok? && FindByEmail(users.value, email).Some? ==>
      var u := FindByEmail(users.value, email).value;
      r.Ok? <==> bcrypt.verify(password, u.password) == Ok(true)
  {
    match users
    case Err(_) => Err(AuthenticationError)
    case Ok(results) =>
      match FindByEmail(results, email)
      case None => Err(AuthenticationError)
      case Some(user) =>
        match VerifyPassword(bcrypt, password, user)
        case Err(e) => Err(e)
        case Ok(_) => Ok((user, generateJwt(user)))
  }

  /** Among several users with the same email, the one authenticated is the
      last in query order, and it does carry that email. */
  lemma AuthenticatesLastMatch(rows: seq<User>, email: string, password: string,
                               bcrypt: Bcrypt, generateJwt: User -> string)
    requires Authenticate(Ok(rows), email, password, bcrypt, generateJwt).Ok?
    ensures var u := Authenticate(Ok(rows), email, password, bcrypt, generateJwt).value.0;
      exists i :: 0 <= i < |rows| && rows[i] == u && u.email == email
        && forall j :: i < j < |rows| ==> rows[j].email != email
  {
    Rows.PopFilter(rows, HasEmail(email));
    var i := Rows.LastIndex(rows, HasEmail(email)).value;
    assert HasEmail(email)(rows[i]);
    forall j | i < j < |rows| ensures rows[j].email != email {
      assert !HasEmail(email)(rows[j]);
    }
  }

  /** An unknown email and a wrong password for a known one fail with the
      same error, which displays as "Unauthorized". */
  lemma FailuresLookAlike(rows: seq<User>, unknown: string, known: string, p1: string, p2: string,
                          bcrypt: Bcrypt, generateJwt: User -> string)
    requires forall i :: 0 <= i < |rows| ==> rows[i].email != unknown
    requires FindByEmail(rows, known).Some?
    requires bcrypt.verify(p2, FindByEmail(rows, known).value.password) != Ok(true)
    ensures Authenticate(Ok(rows), unknown, p1, bcrypt, generateJwt)
         == Authenticate(Ok(rows), known, p2, bcrypt, generateJwt)
         == Err(AuthenticationError)
    ensures Authenticate(Ok(rows), unknown, p1, bcrypt, generateJwt).error.Display() == "Unauthorized"
  {
    Rows.PopFilter(rows, HasEmail(unknown));
  }

  /** What the bcrypt library promises: a plaintext verifies against its own
      hash (the property the source's unit test checks). */
  ghost predicate HashVerifies(bcrypt: Bcrypt) {
    forall p: string {:trigger bcrypt.hash(p)} ::
      bcrypt.hash(p).Ok? ==> bcrypt.verify(p, bcrypt.hash(p).value) == Ok(true)
  }

  /** The source's unit test: verifying a plaintext against its own bcrypt
      hash succeeds. */
  lemma VerifyOwnHash(bcrypt: Bcrypt, user: User, password: string)
    requires HashVerifies(bcrypt)
    requires bcrypt.hash(password) == Ok(user.password)
    ensures VerifyPassword(bcrypt, password, user) == Ok(())
  {
    assert bcrypt.verify(password, bcrypt.hash(password).value) == Ok(true);
  }

  /** A user appended with the bcrypt hash of `password` is the one
      authenticated by that email and password, with its own token, even if
      older rows carry the same email. */
  lemma NewestUserAuthenticates(rows: seq<User>, id: string, email: string, password: string,
                                bcrypt: Bcrypt, generateJwt: User -> string)
    requires HashVerifies(bcrypt)
    requires bcrypt.hash(password).Ok?
    ensures var u := User(id, email, bcrypt.hash(password).value);
      Authenticate(Ok(rows + [u]), email, password, bcrypt, generateJwt) == Ok((u, generateJwt(u)))
  {
    var u := User(id, email, bcrypt.hash(password).value);
    Rows.FilterAppend(rows, u, HasEmail(email));
  }
}
