# crud.api user directory, modelled in Dafny

This project models the request-decision logic of a small token-authenticated user
directory: an Express service over one PostgreSQL table `users(id, name, email, password)`.

- `POST /auth/signup` validates the body, refuses an email already in the table and
  inserts a row whose password column holds a bcrypt digest.
- `POST /auth/login` looks the email up, checks the password with bcrypt and signs a JWT
  over the row's id, email and name, valid for one hour.
- `GET`, `POST`, `PUT /:id` and `DELETE /:id` on `/users` list, create (without a password),
  update and delete rows.
- Every `/users` route sits behind the `authenticateToken` middleware. It takes the second
  space-separated field of the `Authorization` header as the token and answers 401 when
  there is none, or 403 when `jwt.verify` rejects it. Otherwise it calls the handler with
  the decoded claims.

The model is sequential. Each handler is a function from the table before the request
to the reply and the table after it (`AuthRoutes`, `UsersRoutes`). The class
`Table.UserTable` holds the table as a `map` from id to row plus the id sequence's
next value. Its methods run the handlers' steps imperatively, with early returns, and
each method is proved equal to its function. The invariant "at most one row per
email" (`Store.Valid`) is preserved by every handler.

Files:
- `wrappers.dfy`: the Option type.
- `foreign.dfy`: the libraries as abstract functions (bcryptjs, jsonwebtoken, validator).
- `store.dfy`: rows, the table invariant and the INSERT.
- `http.dfy`: replies.
- `auth_routes.dfy`: signup and login.
- `users_routes.dfy`: the `/users` handlers of both routers.
- `middleware.dfy`: the token gate.
- `table.dfy`: the table class.
- `app.dfy`: the gate in front of the handlers, and end-to-end lemmas.

Modelling choices:
- Library calls become fields of a `Foreign.Libraries` value that every handler is given:
  `validator.isEmail`, `bcrypt.hash`, `bcrypt.compare`, `jwt.sign` and `jwt.verify`. The
  random salt of `bcrypt.hash` becomes a parameter of signup. The only property assumed of
  bcrypt is that a password matches its own digest (`Foreign.HashVerifies`). It is a
  precondition of the lemmas that need it.
- A JSON body field is `Option<string>`: `None` means absent or null. The source's `!x`
  test on a string field is `AuthRoutes.Present`.
- `validator.isEmail` throws when its argument is not a string. In `POST /users` and
  `PUT /users/:id` that call sits before the `try` block. So a request with no `email` gets
  no reply from the handler, and the table is unchanged. This is the `NoResponse` reply.
- `POST /users` and `PUT /users/:id` never check `name`. A missing name is stored as NULL,
  so a row's `name` is an `Option`.
- Login takes `rows[0]` of its lookup. Under the invariant there is at most one such row,
  so the model picks "the" row with that email.
- `GET /users` returns the rows in no specified order, so the listing is a set of
  `PublicUser` values. That type has no password field.
- `routes/users.js` is an older variant of the users router and is not mounted by
  `app.js`. Its GET is the same query as in `routes/users.routes.js` and is modelled by the
  same `UsersRoutes.List`. Its POST differs only in its texts, which
  `UsersRoutes.Router` selects.
- `app.js` holds inlined copies of `middleware/auth.js` (lines 15-29), `routes/auth.routes.js`
  (lines 32-86) and `routes/users.routes.js` (lines 89-154). They match the route files and
  are modelled once.

Behaviour kept as the code has it, where a hardened design would differ:
- `DELETE /users/:id` answers 200 "User deleted" whether or not a row was removed.
  Deleting a missing id twice gives 200 both times, not 404.
- Login answers "User not found" and "Wrong password" differently, which lets a caller
  find out which emails are registered.
- The gate never checks the scheme word: `Token abc` passes `abc` to verification. A
  header without a space, or with an empty second field (`Bearer  x`), is answered 401
  like a missing header, not 403.
- Email uniqueness is only the application's check-then-write. No database constraint is
  visible in the code.

## Model

| member | source | states |
|---|---|---|
| Store.Insert | routes/auth.routes.js:23 | the INSERT adds exactly one row under the sequence's next id and leaves every existing row as it was; it keeps the one-row-per-email invariant when the email was not taken |
| AuthRoutes.Signup | routes/auth.routes.js:10-30 | a missing or empty field gives 400 "All fields required" before the email format is looked at; then a malformed email gives 400 "Invalid email" and a taken email 409; any failure leaves the table unchanged; success (201) happens exactly when all checks pass and inserts one row whose password column holds `hash(password)`; the invariant is preserved |
| AuthRoutes.Login | routes/auth.routes.js:32-52 | a missing email or password gives 400; an unknown email gives 401 "User not found"; a failed compare on the found row gives 401 "Wrong password"; otherwise 200 with a token signed over exactly that row's id, email and name for 3600 seconds; it yields no new table, so it never changes one |
| AuthRoutes.SignupThenLogin | routes/auth.routes.js:22-47 | after a successful signup, logging in with the same email and password succeeds and the token carries the new row's id, email and name |
| AuthRoutes.SignupTwiceConflicts | routes/auth.routes.js:18-20 | a second signup with an email that signup just registered is answered 409 and leaves the table unchanged |
| UsersRoutes.List | routes/users.routes.js:8-15 | the listing holds, for every row, its id, name and email, and nothing that does not come from a row; there is no password field to hold |
| UsersRoutes.Create | routes/users.routes.js:17-32 | no email gives no reply; a malformed email gives 400 and a taken email gives 409, both with the table unchanged; success (201) happens exactly when the email is well-formed and free, and inserts one row with no password; the invariant is preserved |
| UsersRoutes.CreateIgnoresName | routes/users.routes.js:18-20 | the reply to POST /users does not depend on the name at all |
| UsersRoutes.RoutersAgree | routes/users.js:18-36 | the older router takes the same decisions, with the same statuses, and leaves the same table as the mounted one; only its texts differ |
| UsersRoutes.CreateThenList | routes/users.js:9-32 | a row created by POST /users appears in GET /users with the name and email it was given |
| UsersRoutes.Update | routes/users.routes.js:34-53 | a malformed email gives 400; an email held by another row gives 409 even when the id does not exist; only then does a missing id give 404; success (200) changes only the target's name and email, keeping its id and password and every other row; failures leave the table unchanged; the invariant is preserved |
| UsersRoutes.UpdateKeepingOwnEmail | routes/users.routes.js:41-43 | updating a row with the email it already holds is not a conflict and succeeds |
| UsersRoutes.UpdateMissingIdConflicts | routes/users.routes.js:41-47 | a missing id combined with an email another row holds is answered 409, not 404 |
| UsersRoutes.Delete | routes/users.routes.js:55-63 | the reply is always 200 "User deleted"; the row with that id is gone and every other row is unchanged; the invariant is preserved |
| UsersRoutes.DeleteIdempotent | routes/users.routes.js:58-59 | deleting the same id again gives the same reply and the same table |
| Middleware.Split | app.js:21 | JavaScript's `split(" ")` yields at least one field and no field holds a space |
| Middleware.JoinSplit | app.js:21 | joining the fields with single spaces gives back the header |
| Middleware.SplitJoin | app.js:21 | splitting space-free fields joined by single spaces gives back the fields |
| Middleware.BearerToken | app.js:20-22 | a token found in the header is non-empty and holds no space |
| Middleware.TokenAfterAnyWord | app.js:21 | whatever the first word, a space-free token as the second field is the token taken, and anything after a further space is ignored |
| Middleware.TokenShape | app.js:21 | conversely, a token taken from a header is exactly the text between its first space and the next space or the end |
| Middleware.NoSpaceNoToken | app.js:21-22 | a header without a space holds no token |
| Middleware.HeaderExamples | app.js:21-22 | `Token abc` yields `abc`; `Bearer` and `Bearer  x` yield no token |
| Middleware.Authenticate | app.js:19-29 | no token gives 401 "Access denied, token missing"; a token that verification rejects gives 403 "Invalid token"; otherwise the request passes with exactly the decoded claims; the decision reads only the header |
| Middleware.BearerHeaderPasses | app.js:24-27 | a `Bearer <token>` header passes exactly with the claims verification decodes |
| App.Serve | app.js:97-152 | a request without a token is answered 401 and one with a rejected token 403, both with the table unchanged; a request that passes reaches its handler; the invariant is preserved |
| App.ServeUsers | routes/users.routes.js:8-63 | the imperative dispatch runs the gate, then at most one handler, and its reply and new table are those of `App.Serve` |
| App.DeniedRequestsChangeNothing | app.js:19-25 | a request the gate turns away gets 401 or 403 and never changes the table |
| App.SignupLoginPassesGate | routes/auth.routes.js:46-47 | the token issued at login, sent back as `Bearer <token>` while verification still accepts it, lets requests through with the new row's claims |
| App.AnnScenario | app.js:42-152 | signup, login, listing, an update keeping the same email and two deletes give 201, 200, a listing with the row, 200, 200 and 200, and the second delete changes nothing |
| Table.UserTable.Signup | routes/auth.routes.js:10-30 | the method's reply and new table are those of `AuthRoutes.Signup`, and the table invariant is kept |
| Table.UserTable.Login | routes/auth.routes.js:32-52 | the method changes nothing and its reply is that of `AuthRoutes.Login` |
| Table.UserTable.List | routes/users.routes.js:8-15 | the method changes nothing and its reply is that of `UsersRoutes.List` |
| Table.UserTable.Create | routes/users.routes.js:17-32 | the method's reply and new table are those of `UsersRoutes.Create`, and the table invariant is kept |
| Table.UserTable.Update | routes/users.routes.js:34-53 | the method's reply and new table are those of `UsersRoutes.Update`, and the table invariant is kept |
| Table.UserTable.Delete | routes/users.routes.js:55-63 | the method's reply and new table are those of `UsersRoutes.Delete`, and the table invariant is kept |

## Left out

- Store failures: every `catch` that answers 500 ("Server error", "Database error") is not modelled.
- A non-numeric `:id` makes PostgreSQL's integer cast fail, which also ends in 500. Ids are integers here.
- Concurrency: two simultaneous check-then-insert requests with the same email could both insert. The email invariant is proved for sequential execution only.
- bcrypt internals (salt generation, cost factor 10, constant-time comparison) are not modelled; `hash` and `compare` are abstract.
- What `bcrypt.compare` does with the NULL password of a row created by `POST /users` is not pinned down. `compare` receives the `Option` and its verdict is left abstract; the library may instead throw, which would end in 500.
- JWT signing and verification, the secret read from the environment, and the clock are not modelled. `sign` and `verify` are abstract. The `iat` and `exp` claims jsonwebtoken adds, and expiry itself, appear only as the 3600-second lifetime passed to `sign`. The end-to-end lemmas take "verification accepts the token" as a precondition.
- `validator.isEmail` is an abstract predicate; the email grammar is not modelled.
- JSON body values that are not strings (numbers, booleans, objects) and JavaScript truthiness on them are not modelled. A field is a string or absent.
- AuthRoutes.Login: requires the table invariant. On a table with two rows holding one email, the source would take whichever row the database returns first; the model does not say which.
- `db.js` (pool construction, SSL options), Express bootstrap, CORS configuration, `app.listen` and console logging are framework and connection wiring.
- Express's default answer for routes `routes/users.js` does not declare (PUT and DELETE) is not modelled. `App.Declares` restricts requests to the declared routes.
