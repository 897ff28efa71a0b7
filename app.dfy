/**
 The /users routes behind the `authenticateToken` middleware: the handler runs only when
 the middleware calls `next()`, and a request it turns away leaves the table as it was.
 */
module App {
  import opened Wrappers
  import opened Foreign
  import opened Store
  import opened Http
  import opened Middleware
  import AuthRoutes
  import UsersRoutes
  import Table

  datatype UsersRequest =
    | ListUsers
    | CreateUser(name: Option<string>, email: Option<string>)
    | UpdateUser(id: int, name: Option<string>, email: Option<string>)
    | DeleteUser(id: int)

  /** The routes each router declares: `routes/users.js` has only GET and POST. */
  predicate Declares(router: UsersRoutes.Router, req: UsersRequest)
  {
    router.UsersRouter? || req.ListUsers? || req.CreateUser?
  }

  /** The route handler a request reaches once `next()` is called. */
  function Handle(db: Db, lib: Libraries, req: UsersRequest, router: UsersRoutes.Router): Outcome
    requires Declares(router, req)
  {
    match req
    case ListUsers => Outcome(UsersRoutes.List(db), db)
    case CreateUser(name, email) => UsersRoutes.Create(db, lib, name, email, router)
    case UpdateUser(id, name, email) => UsersRoutes.Update(db, lib, id, name, email)
    case DeleteUser(id) => UsersRoutes.Delete(db, id)
  }

  function Serve(db: Db, lib: Libraries, header: Option<string>, req: UsersRequest,
                 router: UsersRoutes.Router): (o: Outcome)
    requires Declares(router, req)
    ensures BearerToken(header).None? ==> o == Outcome(MissingToken, db)
    ensures BearerToken(header).Some? && lib.verify(BearerToken(header).value).None? ==>
              o == Outcome(InvalidToken, db)
    ensures Authenticate(header, lib.verify).Pass? ==> o == Handle(db, lib, req, router)
    ensures Valid(db) ==> Valid(o.db)
  {
    match Authenticate(header, lib.verify)
    case Deny(reply) => Outcome(reply, db)
    case Pass(_) => Handle(db, lib, req, router)
  }

  /** A request to /users: the middleware, then at most one call of the handler. */
  method ServeUsers(table: Table.UserTable, lib: Libraries, header: Option<string>,
                    req: UsersRequest, router: UsersRoutes.Router) returns (reply: Reply)
    requires table.Valid() && Declares(router, req)
    modifies table
    ensures table.Valid()
    ensures Outcome(reply, table.State()) == Serve(old(table.State()), lib, header, req, router)
  {
    var verdict := Authenticate(header, lib.verify);
    if verdict.Deny? {
      return verdict.reply;
    }
    match req
    case ListUsers =>
      reply := table.List();
    case CreateUser(name, email) =>
      reply := table.Create(lib, name, email, router);
    case UpdateUser(id, name, email) =>
      reply := table.Update(lib, id, name, email);
    case DeleteUser(id) =>
      reply := table.Delete(id);
  }

  /** Signing up, logging in with the same credentials and sending the token back as
      `Bearer <token>` lets the request through with the new row's claims, provided
      `jwt.verify` still accepts the token (it is within its hour) and it has no space. */
  lemma SignupLoginPassesGate(db: Db, lib: Libraries, name: string, email: string, password: string, salt: nat)
    requires Valid(db) && HashVerifies(lib)
    requires Answered(AuthRoutes.Signup(db, lib, Some(name), Some(email), Some(password), salt).reply, 201)
    requires var token := lib.sign(Claims(db.nextId, email, Some(name)), AuthRoutes.ExpiresIn);
             token != "" && ' ' !in token && lib.verify(token) == Some(Claims(db.nextId, email, Some(name)))
    ensures var after := AuthRoutes.Signup(db, lib, Some(name), Some(email), Some(password), salt).db;
            var claims := Claims(db.nextId, email, Some(name));
            var token := lib.sign(claims, AuthRoutes.ExpiresIn);
            && AuthRoutes.Login(after, lib, Some(email), Some(password)) == Reply(200, LoggedIn("Login successful", token))
            && Authenticate(Some("Bearer " + token), lib.verify) == Pass(claims)
  {
    AuthRoutes.SignupThenLogin(db, lib, name, email, password, salt);
    var claims := Claims(db.nextId, email, Some(name));
    BearerHeaderPasses(lib.sign(claims, AuthRoutes.ExpiresIn), lib.verify, claims);
  }

  /** A request turned away by the middleware never reaches the table, whatever it asked for. */
  lemma DeniedRequestsChangeNothing(db: Db, lib: Libraries, header: Option<string>,
                                    req: UsersRequest, router: UsersRoutes.Router)
    requires Declares(router, req)
    requires Authenticate(header, lib.verify).Deny?
    ensures Serve(db, lib, header, req, router).db == db
    ensures Answered(Serve(db, lib, header, req, router).reply, 401) || Answered(Serve(db, lib, header, req, router).reply, 403)
  {
  }

  /** Ann registers, logs in, is listed, is updated with her own email, and is deleted twice:
      201, 200, listed, 200, 200, 200, and the second delete leaves the table as the first. */
  lemma AnnScenario(db: Db, lib: Libraries, salt: nat)
    requires Valid(db) && HashVerifies(lib)
    requires lib.isEmail("ann@x.com") && !EmailTaken(db.rows, "ann@x.com")
    ensures var id := db.nextId;
            var signedUp := AuthRoutes.Signup(db, lib, Some("Ann"), Some("ann@x.com"), Some("p1"), salt);
            var updated := UsersRoutes.Update(signedUp.db, lib, id, Some("Ann B"), Some("ann@x.com"));
            var deleted := UsersRoutes.Delete(updated.db, id);
            var again := UsersRoutes.Delete(deleted.db, id);
            && Answered(signedUp.reply, 201)
            && Valid(signedUp.db)
            && Answered(AuthRoutes.Login(signedUp.db, lib, Some("ann@x.com"), Some("p1")), 200)
            && PublicUser(id, Some("Ann"), "ann@x.com") in UsersRoutes.List(signedUp.db).body.users
            && Answered(updated.reply, 200)
            && updated.db.rows[id].name == Some("Ann B")
            && Answered(deleted.reply, 200) && id !in deleted.db.rows
            && again == deleted
  {
    var id := db.nextId;
    var signedUp := AuthRoutes.Signup(db, lib, Some("Ann"), Some("ann@x.com"), Some("p1"), salt);
    AuthRoutes.SignupThenLogin(db, lib, "Ann", "ann@x.com", "p1", salt);
    assert id in signedUp.db.rows && signedUp.db.rows[id].email == "ann@x.com";
    assert UsersRoutes.View(id, signedUp.db.rows[id]) == PublicUser(id, Some("Ann"), "ann@x.com");
    UsersRoutes.UpdateKeepingOwnEmail(signedUp.db, lib, id, Some("Ann B"));
    var updated := UsersRoutes.Update(signedUp.db, lib, id, Some("Ann B"), Some("ann@x.com"));
    UsersRoutes.DeleteIdempotent(updated.db, id);
  }
}
