/** The HTTP surface the handlers and the gate touch: a request with its
    `Authorization` header and the `User` slot of its extensions, and the
    responses they build. */
module Http {
  import opened Wrappers
  import opened Schema
  import opened Text

  const StatusOk: int := 200
  const StatusBadRequest: int := 400
  const StatusUnauthorized: int := 401
  const StatusForbidden: int := 403
  const StatusNotFound: int := 404

  /** One page of todos as `Todo::paginated` returns it. */
  datatype Paginated = Paginated(page: int, perPage: int, total: int, lastPage: int, data: seq<Todo>)

  /** A response body: nothing (`finish()`), a JSON value, or plain text. */
  datatype Body = Empty | UserJson(user: User) | TodoJson(todo: Todo) | PageJson(page: Paginated) | Plain(text: string)

  /** Status, body and the `jwt` header when one is set. */
  datatype Response = Response(status: int, body: Body, jwt: Option<string>)

  /** A response with a status and no body (`HttpResponse::...().finish()`). */
  function Finish(status: int): Response {
    Response(status, Empty, None)
  }

  /** An incoming request: the raw `Authorization` header, if any, and the
      `User` entry of its extensions, which the gate fills and the handlers
      take out. */
  class Request {
    const authorization: Option<seq<Byte>>
    var principal: Option<User>

    constructor (authorization: Option<seq<Byte>>)
      ensures this.authorization == authorization && principal == None
    {
      this.authorization := authorization;
      principal := None;
    }

    /** `extensions_mut().insert(user)`. */
    method Attach(user: User)
      modifies this
      ensures principal == Some(user)
    {
      principal := Some(user);
    }

    /** `extensions_mut().remove::<User>()`: the user, which is no longer in
        the extensions afterwards. */
    method TakePrincipal() returns (user: Option<User>)
      modifies this
      ensures user == old(principal) && principal == None
    {
      user := principal;
      principal := None;
    }
  }
}
