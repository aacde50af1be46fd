/** Record shapes of the two tables (`users`, `todos`) and the errors the
    store reports. */
module Schema {
  import opened Wrappers

  /** A row of `users`: the stored password is the bcrypt hash. */
  datatype User = User(id: string, email: string, password: string)

  /** A row of `todos`, owned by the user whose id is `userId`. */
  datatype Todo = Todo(id: string, userId: string, content: string, checked: bool)

  /** The store's errors: `NotFound`, the catch-all the user model returns
      when hashing fails, and any other failure of a query. */
  datatype DbError = NotFound | Nonexhaustive | QueryFailed

  /** The outcome of loading a table: its rows in query order, or the
      error the query failed with. */
  type Load<T> = Result<seq<T>, DbError>
}
