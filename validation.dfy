/** The constraints on a registration request: a well-formed email that no
    user has yet, and a password of at least three characters. */
module UserValidation {
  import opened Wrappers
  import opened Schema

  datatype NewUserRequest = NewUserRequest(email: string, password: string)

  /** A failed constraint, identified by its code. */
  datatype ValidationError = ValidationError(code: string)

  /** One failed constraint of one field. */
  datatype FieldError = FieldError(field: string, code: string)

  const MinPasswordLength: nat := 3

  /** `unique`, given what `User::find_by_email` answered for the email:
      a user found is `invalid_email`; no user, or a failing lookup, passes. */
  function Unique(lookup: Result<Option<User>, DbError>): (r: Result<(), ValidationError>)
    ensures r.Err? <==> lookup.Ok? && lookup.value.Some?
    ensures r.Err? ==> r.error == ValidationError("invalid_email")
  {
    match lookup
    case Ok(res) =>
      (match res
       case Some(_) => Err(ValidationError("invalid_email"))
       case None => Ok(()))
    case Err(_) => Ok(())
  }

  /** The lookup fails open: when the store cannot be queried, the email
      counts as unused even if a user holds it. */
  lemma UniqueFailsOpen(e: DbError, holder: User)
    ensures Unique(Err(e)) == Ok(())
    ensures Unique(Ok(Some(holder))) != Unique(Err(e))
  {
  }

  /** Every constraint of `NewUserRequest` checked, each failure reported:
      the email format check (`isEmail`), `unique` on the email with
      `findByEmail` as the lookup, and the password length in characters. */
  function Validate(req: NewUserRequest, isEmail: string -> bool,
                    findByEmail: string -> Result<Option<User>, DbError>): (errors: seq<FieldError>)
    ensures FieldError("email", "email") in errors <==> !isEmail(req.email)
    ensures FieldError("email", "invalid_email") in errors <==> Unique(findByEmail(req.email)).Err?
    ensures FieldError("password", "length") in errors <==> |req.password| < MinPasswordLength
    ensures errors == [] <==>
      isEmail(req.email) && Unique(findByEmail(req.email)).Ok? && |req.password| >= MinPasswordLength
    ensures |errors| <= 3
  {
    var format := if isEmail(req.email) then [] else [FieldError("email", "email")];
    var unique := match Unique(findByEmail(req.email))
      case Ok(_) => []
      case Err(e) => [FieldError("email", e.code)];
    var length := if |req.password| >= MinPasswordLength then [] else [FieldError("password", "length")];
    format + unique + length
  }
}
