# Authentication and authorization core of rust-todo-app

This project models the part of the todo backend that decides who a request
belongs to and what that principal may do:

- the `LoggedGuard` middleware, which reads the `Authorization` header,
  dispatches on the `Bearer` or `Basic` scheme, and either attaches a `User`
  to the request and calls the wrapped service or answers 401;
- credential authentication (`AuthenticableUser::authenticate` and `verify`),
  the older `authenticate` beside it, `User::show`, `UserWithTodo::show`,
  `NewUser::create` and `User::add_todo`;
- token claims, with the secret and lifetime defaults, built around an
  HS256 signer;
- the `todos` table (`Todo::all`, `Todo::users`, `check`, `uncheck`,
  `check_as`, `NewTodo::create`);
- the handlers built on these: check, uncheck, store and index for todos,
  login, register and the older login, and the registration constraints.

Each module follows one source file:

| module | file |
|---|---|
| `Rows` | how a filtered diesel `load` and `pop()` select rows |
| `Text` | the header text: visible-ASCII conversion, `split_whitespace`, `split(":")` |
| `Jwt` | `src/services/jwt.rs` |
| `Authentication` | `src/models/auth.rs` |
| `Users` | `src/models/user.rs` |
| `Todos` | `src/models/todo.rs` |
| `Http` | the request extensions slot and the responses |
| `Gate` | `src/middleware/auth.rs` |
| `TodoRoutes` | `src/routes/todos/*.rs` |
| `AuthRoutes` | `src/routes/auth/login.rs`, `src/routes/auth.rs` |
| `UserValidation` | `src/validation/new_user_request.rs` |

How the outside world appears in the model:

- Libraries and unshown functions are parameters. These include bcrypt,
  the JWT encoder and decoder, base64 and UTF-8 decoding, `generate_jwt`,
  `User::from_jwt`, `Todo::show`, `Todo::paginated`, `find_by_email` and
  the email format check.
- A table read is a snapshot: `Load<T>` is `Ok(rows)` in query order, or
  the query's error.
- The two tables the source writes to are classes whose `rows` the methods
  reassign: `Todos.TodoTable` and `Users.UserTable`.
- A per-call `fault` stands for a failing write.
- The clock is a `now` parameter. The configuration is a `Jwt.Config`
  value.

Two behaviours of the gate depart from the standards it follows. The model
keeps them as written and proves them:

- The scheme is compared case-sensitively (`Gate.LowercaseBearerRefused`).
  Section 2.1 of RFC 7235 says schemes are case-insensitive.
- `Basic` credentials keep only the text between the first and the second
  colon as the password (`Gate.CredentialsOf`). Section 2 of RFC 7617
  allows colons in the password.

The older `authenticate` in `src/models/user.rs` accepts any answer bcrypt
gives, including `Ok(false)`. The older login route is built on it, so a
wrong password is let in there: see `Users.OldAuthenticateAcceptsWrongPassword`
and `AuthRoutes.LegacyLoginAcceptsWrongPassword`.

## Model

| member | source | states |
|---|---|---|
| `Rows.Filter` | src/models/auth.rs:21-24 | a filtered load holds exactly the rows satisfying the filter and is no longer than the table |
| `Rows.PopFilter` | src/models/auth.rs:25-31 | `pop()` of a filtered load is the last row of the table that satisfies the filter, and None when no row does |
| `Rows.FilterInOrder` | src/models/todo.rs:23-27 | a filtered load is the table read at the increasing positions of the rows that satisfy the filter, so table order is kept |
| `Rows.FilterIndicesOrdered` | src/models/todo.rs:23-27 | the reference list of positions of the rows satisfying the filter increases, holds only such positions, and misses none |
| `Rows.FilterMultiplicity` | src/models/todo.rs:23-27 | a filtered load keeps every copy of an accepted row and no copy of a rejected one |
| `Text.HeaderToStr` | src/middleware/auth.rs:72-78 | a header converts to text iff every byte is visible ASCII or tab, and the text has the same characters |
| `Text.NextToken` | src/middleware/auth.rs:80-82 | the first whitespace-separated word: None iff the text is blank; otherwise the text is blank lead + a nonempty word without whitespace + a rest that is empty or starts with whitespace |
| `Text.NextTokenOf` | src/middleware/auth.rs:80-82 | conversely, blank lead + word + such a rest always yields that word and that rest |
| `Text.Split` | src/middleware/auth.rs:125 | `split(":")` yields at least one piece and no piece holds the separator |
| `Text.JoinSplit` | src/middleware/auth.rs:125 | joining the pieces of a split with the separator gives back the text |
| `Text.SplitJoin` | src/middleware/auth.rs:125 | splitting pieces joined by a separator they do not contain gives back the pieces |
| `Jwt.Secret` | src/services/jwt.rs:14-17 | the secret is `JWT_SECRET`, or "" when unset |
| `Jwt.ParseI64` | src/services/jwt.rs:24 | `parse::<i64>` fails on "" and on a bare sign; a value it returns is within the i64 range, was written with digits only after the optional sign, and has that sign |
| `Jwt.ParseRejectsNonDigit` | src/services/jwt.rs:24 | any character other than a digit after the optional sign makes the parse fail |
| `Jwt.ParseRejectsOverflow` | src/services/jwt.rs:24 | a number above the i64 maximum, or a negative one below its minimum, makes the parse fail |
| `Jwt.ParseDecimal` | src/services/jwt.rs:24 | every i64 written in decimal, with or without a minus sign, parses back to itself |
| `Jwt.DefaultLifetimeIs300` | src/services/jwt.rs:19-24 | with `JWT_LIFETIME_IN_SECONDS` unset the lifetime is 300 seconds |
| `Jwt.NonIntegerLifetimePanics` | src/services/jwt.rs:19-24 | a configured lifetime holding a non-digit after the optional sign makes `generate` panic |
| `Jwt.IssuedClaims` | src/services/jwt.rs:19-32 | claims carry the user's id and email, `created == now` and `exp == now + lifetime`; the lifetime `unwrap` panics iff the setting does not parse |
| `Jwt.Generate` | src/services/jwt.rs:13-40 | the token is the claims signed with the defaulted secret, or "" when signing fails; it panics iff the lifetime does not parse |
| `Jwt.Verify` | src/services/jwt.rs:43-56 | decoding uses the defaulted secret; a decode error is passed on unchanged, and a success is the user built from the decoded claims |
| `Jwt.IssuedTokenVerifies` | src/services/jwt.rs:13-56 | with a correct signer, a token generated at `now` verifies at any time up to `now + lifetime` to the user built from the issued claims |
| `Authentication.VerifyPassword` | src/models/auth.rs:49-67 | verification succeeds iff bcrypt answers `Ok(true)`; `Ok(false)` and errors both fail |
| `Authentication.Authenticate` | src/models/auth.rs:16-46 | a failing query or an unknown email fails; otherwise success iff bcrypt accepts the password for the last user with that email; success pairs that user with its `generate_jwt` token |
| `Authentication.AuthenticatesLastMatch` | src/models/auth.rs:21-31 | the user authenticated is a row with that email and no later row has that email |
| `Authentication.FailuresLookAlike` | src/models/auth.rs:70-85 | an unknown email and a wrong password give the identical error, displayed "Unauthorized" |
| `Authentication.VerifyOwnHash` | src/models/auth.rs:90-106 | the unit test: a plaintext verifies against its own bcrypt hash |
| `Authentication.NewestUserAuthenticates` | src/models/auth.rs:16-46 | a user appended with the hash of a password is authenticated by its email and that password, even when older rows share the email |
| `Users.Show` | src/models/user.rs:30-39 | the last row with that id, `NotFound` when there is none, and a failing query's own error |
| `Users.ShowWithTodo` | src/models/user.rs:58-77 | the same last-match-or-`NotFound` lookup, as a `UserWithTodo` |
| `Users.OldAuthenticate` | src/models/user.rs:106-137 | success iff the query works, a user has that email, and bcrypt answers anything but an error; the user returned is the last with that email |
| `Users.OldAuthenticateAcceptsWrongPassword` | src/models/user.rs:127-136 | when bcrypt answers `Ok(false)` the older `authenticate` returns the user while the current one fails |
| `Users.AddTodo` | src/models/user.rs:42-44 | the new todo is owned by the user, holds the given content and is appended to the table |
| `Users.UserTable.Create` | src/models/user.rs:152-169 | a hashing failure returns an error and inserts nothing; otherwise the row holds the email as given and the bcrypt hash, never the plaintext, and is appended |
| `Todos.MarkedAt` | src/models/todo.rs:40-44 | the update keeps every row in place and changes only `checked`, and only on rows with the id |
| `Todos.MarkedIdempotent` | src/models/todo.rs:40-44 | applying the same update twice equals applying it once |
| `Todos.MarkedPerOwner` | src/models/todo.rs:40-44 | each owner's rows after the update are that owner's rows before it, updated: no row changes owner |
| `Todos.UpdatedCount` | src/models/todo.rs:41-46 | the count of updated rows is zero iff no row has the id |
| `Todos.TodoTable.All` | src/models/todo.rs:18-20 | every row, or the query's error |
| `Todos.TodoTable.Users` | src/models/todo.rs:23-27 | exactly the rows owned by the user, each as often as in the table and in table order |
| `Todos.TodoTable.CheckAs` | src/models/todo.rs:40-51 | on a working query the table becomes the update of the old table; `NotFound` iff no row had the id, `Ok(true)` otherwise; a failing query changes nothing |
| `Todos.TodoTable.Check` | src/models/todo.rs:30-32 | `check_as(true)` on the todo's id |
| `Todos.TodoTable.Uncheck` | src/models/todo.rs:35-37 | `check_as(false)` on the todo's id |
| `Todos.TodoTable.Create` | src/models/todo.rs:63-72 | one row with the given owner and content is appended and returned; a failing insert changes nothing |
| `Http.Request.TakePrincipal` | src/routes/todos/check.rs:21-24 | the principal is removed from the extensions, not just read |
| `Http.Request.Attach` | src/middleware/auth.rs:50 | the user is put into the extensions |
| `Gate.SecondToken` | src/middleware/auth.rs:85-88 | the first word of what follows the scheme, that is the header's second word, or "" when there is none |
| `Gate.BearerAuth` | src/middleware/auth.rs:103-111 | the user the JWT verifier yields; every verifier error becomes the one signature error |
| `Gate.CredentialsOf` | src/middleware/auth.rs:125-135 | the email is the text before the first colon and the password the text up to the next colon |
| `Gate.CredentialsWithoutColon` | src/middleware/auth.rs:125-135 | text without a colon is all email with an empty password |
| `Gate.BasicAuth` | src/middleware/auth.rs:114-148 | bad base64 and then bad UTF-8 fail before any lookup; otherwise the user `authenticate` accepts for the split credentials, without the token, and the credentials error when it refuses |
| `Gate.IsLogged` | src/middleware/auth.rs:71-100 | a missing header, an unreadable header and a blank header each fail with their own message |
| `Gate.BearerHeader` | src/middleware/auth.rs:80-88 | `Bearer <token> ...` hands exactly `<token>` to the JWT check; later words are ignored |
| `Gate.BasicHeader` | src/middleware/auth.rs:89-96 | `Basic <value> ...` hands exactly `<value>` to `basic_auth` |
| `Gate.BasicLoginAccepted` | src/middleware/auth.rs:89-96 | a header `Basic <value>` whose value decodes to `email:password` resolves to the user `authenticate` accepts for them |
| `Gate.SchemeAlone` | src/middleware/auth.rs:84-96 | a scheme with nothing after it hands "" on |
| `Gate.OtherSchemeRefused` | src/middleware/auth.rs:97-99 | any first word other than exactly `Bearer` or `Basic` is refused |
| `Gate.LowercaseBearerRefused` | src/middleware/auth.rs:84 | `bearer` in lower case is refused |
| `Gate.Call` | src/middleware/auth.rs:47-67 | on success the user is attached and the service is called exactly once, its response passed on unchanged; on failure the service is not called, the request is untouched, and the answer is 401 with no body |
| `TodoRoutes.Toggled` | src/routes/todos/check.rs:20-43 | no principal → 400, no todo → 404, someone else's todo → 403, and failed update → 400, each leaving the rows as they were; otherwise the rows are updated and a 200 carries the todo with the new value |
| `TodoRoutes.ToggledOnlyOwnRows` | src/routes/todos/check.rs:31-36 | when ids are the key, every row afterwards is as before or is one of the principal's rows with only `checked` changed |
| `TodoRoutes.ToggledReplyMatchesTable` | src/routes/todos/check.rs:36-40 | a 200 carries the looked-up todo with the new value, and the table holds that id with that value in every such row |
| `TodoRoutes.Check` | src/routes/todos/check.rs:20-43 | the principal is taken out of the request, and the response and new rows are those of the chain with `true` |
| `TodoRoutes.Uncheck` | src/routes/todos/uncheck.rs:21-50 | the principal is taken out of the request, and the response and new rows are those of the chain with `false` |
| `TodoRoutes.Store` | src/routes/todos/store.rs:26-45 | no principal → 400 and nothing inserted; otherwise the new row is owned by the principal and holds the content or ""; 200 with it, or 400 and no insert when the insert fails |
| `TodoRoutes.Index` | src/routes/todos/index.rs:29-55 | without a `user_id` route segment it panics; otherwise it asks for the given page, page size and filter, defaulting to 1, `DEFAULT_PER_PAGE` and false; a page gives 200 and an error gives 400 |
| `TodoRoutes.IndexDefaults` | src/routes/todos/index.rs:33-46 | an empty query asks for page 1 of 15 (`DEFAULT_PER_PAGE`, src/main.rs line 19) unchecked todos |
| `AuthRoutes.Login` | src/routes/auth/login.rs:18-23 | success gives 200 with the user as JSON and the token in the `jwt` header; any failure gives 401 with no body |
| `AuthRoutes.LoginFailuresIdentical` | src/routes/auth/login.rs:21 | an unknown email and a wrong password get the very same 401 |
| `AuthRoutes.Register` | src/routes/auth.rs:18-23 | always status 200: the created user as JSON, or the text "Error" with nothing inserted when hashing or the insert fails |
| `AuthRoutes.RegisteredUserLogsIn` | src/routes/auth/login.rs:18-23 | after registering, login with the same email and password gives 200 with the new user and its own token |
| `AuthRoutes.LegacyLogin` | src/routes/auth.rs:39-44 | the older `authenticate`'s user with 200 and no token, or 401 with no body |
| `AuthRoutes.LegacyLoginAcceptsWrongPassword` | src/routes/auth.rs:39-44 | a password bcrypt answers `Ok(false)` for gets 200 from the older login and 401 from the current one |
| `UserValidation.Unique` | src/validation/new_user_request.rs:15-25 | `invalid_email` iff the lookup found a user; no user and a failing lookup both pass |
| `UserValidation.UniqueFailsOpen` | src/validation/new_user_request.rs:23 | a failing lookup passes although a found holder would be refused |
| `UserValidation.Validate` | src/validation/new_user_request.rs:6-12 | each constraint's error is reported iff it fails (email format, unique email, password of at least 3 characters), so no error iff all hold |

## Left out

- Cryptography is not modelled. bcrypt hashing and verification, HS256
  signing and decoding, and the expiry check of the JWT library are
  parameters. The laws they are expected to obey are stated as predicates
  (`Authentication.HashVerifies`, `Jwt.RoundTrips`) that lemmas assume as
  preconditions.
- Base64 and UTF-8 decoding are parameters.
- `User::from_jwt`, `User::new`, `generate_jwt`, `find_by_email`,
  `Todo::show` and `Todo::paginated` are not shown in the source. They are
  parameters, and the model gives them no behaviour.
- `TodoRoutes.Uncheck` and `TodoRoutes.Store` call `todo.uncheck(connection)`
  and `NewTodo::create` with a connection. Those versions are not shown;
  only versions without a connection are (src/models/todo.rs lines 35-37
  and 63-72). The model assumes the connection-taking versions behave like
  the shown ones, so `Uncheck` uses `Todos.TodoTable.Uncheck` and `Store`
  uses `Todos.TodoTable.Create`. In the same way, the login route calls
  `authenticate` without a connection while the shown version takes one;
  `AuthRoutes.Login` uses the shown version.
- The column defaults the database supplies on insert (a new row's id and
  a todo's `checked`) are parameters.
- Serialization is not modelled. Response bodies are values such as
  `UserJson(user)`, not JSON text.
- `Jwt.IssuedClaims`: the source reads the clock twice; the model reads it
  once, as `now`. Overflow panics of the chrono duration and timestamp
  arithmetic are not modelled.
- `Gate.BasicAuth`: the `app_data::<AppState>().unwrap()` panic is not
  modelled. The application state is taken to be present.
- `Gate.Call`: async futures, `poll_ready` and `println!` logging are not
  modelled. Only the synchronous accept/reject decision is.
- `UserValidation.Validate`: the validator crate's error map and the
  422/400 response adapter are not modelled. The errors form a list of
  (field, code) pairs.
- Table order is taken to be query order. The source relies on `pop()`
  taking the last row the database returns.
- `User::all` (src/models/user.rs lines 24-27) is not part of this model.
  It is a plain load that no modelled route calls.
- `src/routes/auth/register.rs` is identical to `register` in
  `src/routes/auth.rs` and is covered by `AuthRoutes.Register`.
- `src/routes/users/index.rs` is not part of this model. It is a single
  lookup behind the same principal-absent 400.
- Server start-up, routing, CORS, connection pooling and the cron runner
  are not part of this model.
