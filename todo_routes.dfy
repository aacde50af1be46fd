/** The todo handlers. Check, uncheck and store take the principal out of
    the request, then (check, uncheck) look the todo up, refuse a todo the
    principal does not own, and only then update the store. Index fills in
    the query defaults and hands over to pagination. */
module TodoRoutes {
  import opened Wrappers
  import opened Schema
  import Todos
  import Http

  type U32 = x: int | 0 <= x < 0x1_0000_0000

  /** `crate::DEFAULT_PER_PAGE`. */
  const DefaultPerPage: U32 := 15

  /** The looked-up todo belongs to the principal. */
  predicate Owns(principal: User, todo: Todo) {
    todo.userId == principal.id
  }

  /** The response and the new `todos` rows of the chain shared by `check`
      and `uncheck`: principal → lookup → ownership → update with `value`.
      `shown` is what `Todo::show` answers for the path's todo id; `fault`
      is the failure, if any, of the update query. Every refusal leaves
      the rows as they were. */
  function Toggled(principal: Option<User>, shown: Result<Todo, DbError>, rows: seq<Todo>,
                   value: bool, fault: Option<DbError>): (r: (Http.Response, seq<Todo>))
    ensures principal.None? ==> r == (Http.Finish(Http.StatusBadRequest), rows)
    ensures principal.Some? && shown.Err? ==> r == (Http.Finish(Http.StatusNotFound), rows)
    ensures principal.Some? && shown.Ok? && !Owns(principal.value, shown.value) ==>
      r == (Http.Finish(Http.StatusForbidden), rows)
    ensures principal.Some? && shown.Ok? && Owns(principal.value, shown.value) && fault.Some? ==>
      r == (Http.Finish(Http.StatusBadRequest), rows)
    ensures principal.Some? && shown.Ok? && Owns(principal.value, shown.value) && fault.None? ==>
      && r.1 == Todos.Marked(rows, shown.value.id, value)
      && (Todos.UpdatedCount(rows, shown.value.id) > 0 ==>
            r.0 == Http.Response(Http.StatusOk, Http.TodoJson(shown.value.(checked := value)), None))
      && (Todos.UpdatedCount(rows, shown.value.id) == 0 ==> r.0 == Http.Finish(Http.StatusBadRequest))
  {
    match (principal, shown)
    case (None, _) => (Http.Finish(Http.StatusBadRequest), rows)
    case (Some(_), Err(_)) => (Http.Finish(Http.StatusNotFound), rows)
    case (Some(auth), Ok(todo)) =>
      if todo.userId != auth.id then (Http.Finish(Http.StatusForbidden), rows)
      else if fault.Some? then (Http.Finish(Http.StatusBadRequest), rows)
      else if Todos.UpdatedCount(rows, todo.id) == 0 then
        (Http.Finish(Http.StatusBadRequest), Todos.Marked(rows, todo.id, value))
      else
        (Http.Response(Http.StatusOk, Http.TodoJson(todo.(checked := value)), None),
         Todos.Marked(rows, todo.id, value))
  }

  /** A principal can only change their own todos, and only their
      `checked` column: provided every row carrying the looked-up id
      belongs to the looked-up todo's owner (ids are the table's key), each
      row afterwards is either as before or one of the principal's rows
      with `checked` set to `value`. */
  lemma {:induction false} ToggledOnlyOwnRows(principal: Option<User>, shown: Result<Todo, DbError>,
                                              rows: seq<Todo>, value: bool, fault: Option<DbError>, k: nat)
    requires k < |rows|
    requires shown.Ok? ==> forall j :: 0 <= j < |rows| && rows[j].id == shown.value.id ==> rows[j].userId == shown.value.userId
    ensures |Toggled(principal, shown, rows, value, fault).1| == |rows|
    ensures var after := Toggled(principal, shown, rows, value, fault).1[k];
      || after == rows[k]
      || (principal.Some? && rows[k].userId == principal.value.id && after == rows[k].(checked := value))
  {
    var after := Toggled(principal, shown, rows, value, fault).1;
    if after != rows {
      Todos.MarkedAt(rows, shown.value.id, value, k);
    }
  }

  /** A 200 answer shows the todo as the table now holds it: at least one
      row carries its id, and every such row has `checked` equal to
      `value`, as the returned todo does. */
  lemma {:induction false} ToggledReplyMatchesTable(principal: Option<User>, shown: Result<Todo, DbError>,
                                                    rows: seq<Todo>, value: bool, fault: Option<DbError>)
    requires Toggled(principal, shown, rows, value, fault).0.status == Http.StatusOk
    ensures shown.Ok? && Toggled(principal, shown, rows, value, fault).0.body == Http.TodoJson(shown.value.(checked := value))
    ensures var after := Toggled(principal, shown, rows, value, fault).1;
      && (exists k :: 0 <= k < |after| && after[k].id == shown.value.id)
      && forall k :: 0 <= k < |after| && after[k].id == shown.value.id ==> after[k].checked == value
  {
    var after := Toggled(principal, shown, rows, value, fault).1;
    var id := shown.value.id;
    assert after == Todos.Marked(rows, id, value);
    Todos.MarkedLength(rows, id, value);
    var k0 :| 0 <= k0 < |rows| && rows[k0].id == id;
    Todos.MarkedAt(rows, id, value, k0);
    forall k | 0 <= k < |after| && after[k].id == id
      ensures after[k].checked == value
    {
      Todos.MarkedAt(rows, id, value, k);
    }
  }

  /** `routes::todos::check::handle`: the principal is taken out of the
      request and the chain runs with `value` true. */
  method Check(req: Http.Request, todos: Todos.TodoTable, shown: Result<Todo, DbError>,
               fault: Option<DbError>) returns (resp: Http.Response)
    modifies req, todos
    ensures req.principal == None
    ensures (resp, todos.rows) == Toggled(old(req.principal), shown, old(todos.rows), true, fault)
  {
    var auth := req.TakePrincipal();
    if auth.None? {
      return Http.Finish(Http.StatusBadRequest);
    }
    if shown.Err? {
      return Http.Finish(Http.StatusNotFound);
    }
    var todo := shown.value;
    if todo.userId != auth.value.id {
      return Http.Finish(Http.StatusForbidden);
    }
    var updated := todos.Check(todo, fault);
    match updated {
      case Ok(_) =>
        todo := todo.(checked := true);
        resp := Http.Response(Http.StatusOk, Http.TodoJson(todo), None);
      case Err(_) =>
        resp := Http.Finish(Http.StatusBadRequest);
    }
  }

  /** `routes::todos::uncheck::handle`: the same chain with `value`
      false. */
  method Uncheck(req: Http.Request, todos: Todos.TodoTable, shown: Result<Todo, DbError>,
                 fault: Option<DbError>) returns (resp: Http.Response)
    modifies req, todos
    ensures req.principal == None
    ensures (resp, todos.rows) == Toggled(old(req.principal), shown, old(todos.rows), false, fault)
  {
    var auth := req.TakePrincipal();
    if auth.None? {
      return Http.Finish(Http.StatusBadRequest);
    }
    if shown.Err? {
      return Http.Finish(Http.StatusNotFound);
    }
    var todo := shown.value;
    if todo.userId != auth.value.id {
      return Http.Finish(Http.StatusForbidden);
    }
    var updated := todos.Uncheck(todo, fault);
    match updated {
      case Ok(_) =>
        todo := todo.(checked := false);
        resp := Http.Response(Http.StatusOk, Http.TodoJson(todo), None);
      case Err(_) =>
        resp := Http.Finish(Http.StatusBadRequest);
    }
  }

  /** The body of `POST /todos`: `content` may be absent. */
  datatype NewTodoRequest = NewTodoRequest(content: Option<string>)

  /** `routes::todos::store::handle`: the new todo belongs to the principal
      (the body has no say in it) and holds the given content or "". */
  method Store(req: Http.Request, todos: Todos.TodoTable, body: NewTodoRequest,
               newId: string, defaultChecked: bool, fault: Option<DbError>) returns (resp: Http.Response)
    modifies req, todos
    ensures req.principal == None
    ensures old(req.principal).None? ==>
      resp == Http.Finish(Http.StatusBadRequest) && todos.rows == old(todos.rows)
    ensures old(req.principal).Some? && fault.Some? ==>
      resp == Http.Finish(Http.StatusBadRequest) && todos.rows == old(todos.rows)
    ensures old(req.principal).Some? && fault.None? ==>
      var created := Todo(newId, old(req.principal).value.id, body.content.GetOr(""), defaultChecked);
      && todos.rows == old(todos.rows) + [created]
      && resp == Http.Response(Http.StatusOk, Http.TodoJson(created), None)
  {
    var auth := req.TakePrincipal();
    if auth.None? {
      return Http.Finish(Http.StatusBadRequest);
    }
    var content := match body.content
      case Some(c) => c
      case None => "";
    var created := todos.Create(auth.value.id, content, newId, defaultChecked, fault);
    match created {
      case Ok(todo) => resp := Http.Response(Http.StatusOk, Http.TodoJson(todo), None);
      case Err(_) => resp := Http.Finish(Http.StatusBadRequest);
    }
  }

  /** The query of `GET /todos`: every field may be absent. */
  datatype PaginatedTodoRequest = PaginatedTodoRequest(page: Option<U32>, perPage: Option<U32>, checked: Option<bool>)

  /** The page, page size and `checked` filter the handler asks for. */
  datatype PageRequest = PageRequest(page: U32, perPage: U32, userId: string, checked: bool)

  /** `routes::todos::index::handle`. `userIdSegment` is the route's
      `user_id` segment, if the route has one; `paginate` is
      `Todo::paginated`. Without the segment, `unwrap` panics. */
  function Index(query: PaginatedTodoRequest, userIdSegment: Option<string>,
                 paginate: PageRequest -> Result<Http.Paginated, DbError>): (r: MayPanic<Http.Response>)
    ensures userIdSegment.None? ==> r.Panicked?
    ensures userIdSegment.Some? ==>
      var asked := PageRequest(query.page.GetOr(1), query.perPage.GetOr(DefaultPerPage),
                               userIdSegment.value, query.checked.GetOr(false));
      && r.Returned?
      && (paginate(asked).Ok? ==> r.value == Http.Response(Http.StatusOk, Http.PageJson(paginate(asked).value), None))
      && (paginate(asked).Err? ==> r.value == Http.Finish(Http.StatusBadRequest))
  {
    var page := match query.page case Some(n) => n case None => 1;
    var perPage := match query.perPage case Some(n) => n case None => DefaultPerPage;
    var checked := match query.checked case Some(c) => c case None => false;
    match userIdSegment
    case None => Panicked("called `Option::unwrap()` on a `None` value")
    case Some(userId) =>
      match paginate(PageRequest(page, perPage, userId, checked))
      case Ok(p) => Returned(Http.Response(Http.StatusOk, Http.PageJson(p), None))
      case Err(_) => Returned(Http.Finish(Http.StatusBadRequest))
  }

  /** With an empty query the handler asks for page 1 of 15 unchecked
      todos. */
  lemma IndexDefaults(userId: string, paginate: PageRequest -> Result<Http.Paginated, DbError>)
    ensures var r := Index(PaginatedTodoRequest(None, None, None), Some(userId), paginate);
      r.Returned? && (r.value.status == Http.StatusOk <==> paginate(PageRequest(1, 15, userId, false)).Ok?)
  {
  }
}
