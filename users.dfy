/** The user model: lookups by id, the older `authenticate` (which does not
    look at bcrypt's answer), registration with a bcrypt hash, and adding a
    todo for a user. */
module Users {
  import opened Wrappers
  import opened Schema
  import Rows
  import Authentication
  import Todos

  /** The same columns as `User`, loaded as the record returned with a
      user's todos. */
  datatype UserWithTodo = UserWithTodo(id: string, email: string, password: string)

  /** The older authentication error, whose text is spelled "Unathorized". */
  datatype AuthenticationError = AuthenticationError {
    function Display(): string { "Unathorized" }
  }

  function HasId(id: string): User -> bool {
    (u: User) => u.id == id
  }

  /** `User::show`: the last user loaded with that id, `NotFound` when there
      is none; a failing query passes its error on. */
  function Show(users: Load<User>, id: string): (r: Result<User, DbError>)
    ensures users.Err? ==> r == Err(users.error)
    ensures users.Ok? ==> r == match Rows.LastIndex(users.value, HasId(id))
                               case Some(i) => Ok(users.value[i])
                               case None => Err(NotFound)
  {
    match users
    case Err(e) => Err(e)
    case Ok(results) =>
      Rows.PopFilter(results, HasId(id));
      match Rows.Pop(Rows.Filter(results, HasId(id)))
      case Some(user) => Ok(user)
      case None => Err(NotFound)
  }

  /** `UserWithTodo::show`: the same last-match-or-`NotFound` lookup. */
  function ShowWithTodo(users: Load<User>, id: string): (r: Result<UserWithTodo, DbError>)
    ensures users.Err? ==> r == Err(users.error)
    ensures users.Ok? ==> r == match Rows.LastIndex(users.value, HasId(id))
                               case Some(i) => Ok(AsUserWithTodo(users.value[i]))
                               case None => Err(NotFound)
  {
    match users
    case Err(e) => Err(e)
    case Ok(results) =>
      Rows.PopFilter(results, HasId(id));
      match Rows.Pop(Rows.Filter(results, HasId(id)))
      case Some(user) => Ok(AsUserWithTodo(user))
      case None => Err(NotFound)
  }

  function AsUserWithTodo(u: User): UserWithTodo {
    UserWithTodo(u.id, u.email, u.password)
  }

  /** The older `authenticate`: the last user with that email, accepted
      whenever bcrypt answers at all; only a bcrypt error rejects. */
  function OldAuthenticate(users: Load<User>, email: string, password: string,
                           bcrypt: Authentication.Bcrypt)
    : (r: Result<User, AuthenticationError>)
    ensures r.Ok? <==>
      && users.Ok? && Authentication.FindByEmail(users.value, email).Some?
      && bcrypt.verify(password, Authentication.FindByEmail(users.value, email).value.password).Ok?
    ensures r.Ok? ==> Authentication.FindByEmail(users.value, email) == Some(r.value)
  {
    match users
    case Err(_) => Err(AuthenticationError)
    case Ok(results) =>
      match Authentication.FindByEmail(results, email)
      case None => Err(AuthenticationError)
      case Some(user) =>
        match bcrypt.verify(password, user.password)
        case Ok(_) => Ok(user)
        case Err(_) => Err(AuthenticationError)
  }

  /** The older `authenticate` lets a wrong password in: when bcrypt says
      the password does not match, it still returns the user, while the
      current `authenticate` refuses. */
  lemma OldAuthenticateAcceptsWrongPassword(rows: seq<User>, email: string, password: string,
                                            bcrypt: Authentication.Bcrypt, generateJwt: User -> string)
    requires Authentication.FindByEmail(rows, email).Some?
    requires bcrypt.verify(password, Authentication.FindByEmail(rows, email).value.password) == Ok(false)
    ensures OldAuthenticate(Ok(rows), email, password, bcrypt) == Ok(Authentication.FindByEmail(rows, email).value)
    ensures Authentication.Authenticate(Ok(rows), email, password, bcrypt, generateJwt).Err?
  {
  }

  /** `add_todo`: a todo owned by this user with the given content. */
  method AddTodo(user: User, content: string, todos: Todos.TodoTable, newId: string,
                 defaultChecked: bool, fault: Option<DbError>) returns (r: Result<Todo, DbError>)
    modifies todos
    ensures fault.Some? ==> r == Err(fault.value) && todos.rows == old(todos.rows)
    ensures fault.None? ==> r.Ok? && r.value.userId == user.id && r.value.content == content
    ensures fault.None? ==> todos.rows == old(todos.rows) + [r.value]
  {
    r := todos.Create(user.id, content, newId, defaultChecked, fault);
  }

  /** The `users` table, which registration appends to. */
  class UserTable {
    var rows: seq<User>

    constructor (rows: seq<User>)
      ensures this.rows == rows
    {
      this.rows := rows;
    }

    /** `NewUser::create`: hash the password; if hashing fails, return the
        catch-all error and insert nothing; otherwise insert the email as
        given with the hash (never the plaintext) and return the new row. */
    method Create(email: string, password: string, bcrypt: Authentication.Bcrypt,
                  newId: string, fault: Option<DbError>) returns (r: Result<User, DbError>)
      modifies this
      ensures bcrypt.hash(password).Err? ==> r == Err(Nonexhaustive) && rows == old(rows)
      ensures bcrypt.hash(password).Ok? && fault.Some? ==> r == Err(fault.value) && rows == old(rows)
      ensures bcrypt.hash(password).Ok? && fault.None? ==>
        && r == Ok(User(newId, email, bcrypt.hash(password).value))
        && rows == old(rows) + [r.value]
    {
      var hashed;
      match bcrypt.hash(password) {
        case Ok(h) => hashed := h;
        case Err(_) =>
          r := Err(Nonexhaustive);
          return;
      }
      if fault.Some? {
        r := Err(fault.value);
        return;
      }
      var row := User(newId, email, hashed);
      rows := rows + [row];
      r := Ok(row);
    }
  }
}
