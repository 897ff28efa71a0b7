/**
 GET, POST, PUT and DELETE on /users, as functions from the table before the request
 to the reply and the table after it. Two routers serve POST /users: the mounted
 `routes/users.routes.js` and the older `routes/users.js`; they differ only in the
 texts they answer with, which `Router` selects.
 */
module UsersRoutes {
  import opened Wrappers
  import opened Foreign
  import opened Store
  import opened Http

  datatype Router =
    | UsersRouter        // routes/users.routes.js
    | LegacyUsersRouter  // routes/users.js

  /** The texts of POST /users' three replies. */
  datatype CreateTexts = CreateTexts(invalid: string, conflict: string, created: string)

  function Texts(router: Router): CreateTexts
  {
    match router
    case UsersRouter => CreateTexts("Invalid email", "Email in use", "User created")
    case LegacyUsersRouter => CreateTexts("Invalid email format", "Email already in use", "User added successfully")
  }

  /** A row as GET /users shows it: id, name and email, nothing else. */
  function View(id: int, u: User): PublicUser
  {
    PublicUser(id, u.name, u.email)
  }

  /** GET /users (both routers): every row, projected. */
  function List(db: Db): (r: Reply)
    ensures r.Reply? && r.status == 200 && r.body.Listing?
    ensures forall id :: id in db.rows ==> View(id, db.rows[id]) in r.body.users
    ensures forall v :: v in r.body.users ==>
              v.id in db.rows && v.name == db.rows[v.id].name && v.email == db.rows[v.id].email
  {
    Reply(200, Listing(set id | id in db.rows :: View(id, db.rows[id])))
  }

  /** POST /users. `name` is never looked at; a missing email makes `validator.isEmail`
      throw before the handler's `try`, so no reply is sent. */
  function Create(db: Db, lib: Libraries, name: Option<string>, email: Option<string>, router: Router): (o: Outcome)
    ensures email.None? ==> o == Outcome(NoResponse, db)
    ensures email.Some? && !lib.isEmail(email.value) ==>
              o == Outcome(Reply(400, Error(Texts(router).invalid)), db)
    ensures email.Some? && lib.isEmail(email.value) && EmailTaken(db.rows, email.value) ==>
              o == Outcome(Reply(409, Error(Texts(router).conflict)), db)
    ensures Answered(o.reply, 201) <==>
              email.Some? && lib.isEmail(email.value) && !EmailTaken(db.rows, email.value)
    // the new row has no password, so it cannot log in through bcrypt's usual path
    ensures Answered(o.reply, 201) ==> o.db == Insert(db, User(name, email.value, None))
    ensures !Answered(o.reply, 201) ==> o.db == db
    ensures Valid(db) ==> Valid(o.db)
  {
    if email.None? then
      Outcome(NoResponse, db)
    else if !lib.isEmail(email.value) then
      Outcome(Reply(400, Error(Texts(router).invalid)), db)
    else if EmailTaken(db.rows, email.value) then
      Outcome(Reply(409, Error(Texts(router).conflict)), db)
    else
      Outcome(Reply(201, Message(Texts(router).created)), Insert(db, User(name, email.value, None)))
  }

  /** PUT /users/:id. The conflict check excludes the target's own id and runs before
      the existence check. */
  function Update(db: Db, lib: Libraries, id: int, name: Option<string>, email: Option<string>): (o: Outcome)
    ensures email.None? ==> o == Outcome(NoResponse, db)
    ensures email.Some? && !lib.isEmail(email.value) ==> o == Outcome(Reply(400, Error("Invalid email")), db)
    ensures email.Some? && lib.isEmail(email.value) && TakenByOther(db.rows, email.value, id) ==>
              o == Outcome(Reply(409, Error("Email in use")), db)
    ensures email.Some? && lib.isEmail(email.value) && !TakenByOther(db.rows, email.value, id) && id !in db.rows ==>
              o == Outcome(Reply(404, Error("User not found")), db)
    ensures Answered(o.reply, 200) <==>
              email.Some? && lib.isEmail(email.value) && !TakenByOther(db.rows, email.value, id) && id in db.rows
    // only the target's name and email change; its id and password, and every other row, stay
    ensures Answered(o.reply, 200) ==>
              && o.db.nextId == db.nextId
              && o.db.rows.Keys == db.rows.Keys
              && o.db.rows[id] == User(name, email.value, db.rows[id].password)
              && forall other :: other in db.rows && other != id ==> o.db.rows[other] == db.rows[other]
    ensures !Answered(o.reply, 200) ==> o.db == db
    ensures Valid(db) ==> Valid(o.db)
  {
    if email.None? then
      Outcome(NoResponse, db)
    else if !lib.isEmail(email.value) then
      Outcome(Reply(400, Error("Invalid email")), db)
    else if TakenByOther(db.rows, email.value, id) then
      Outcome(Reply(409, Error("Email in use")), db)
    else if id !in db.rows then
      Outcome(Reply(404, Error("User not found")), db)
    else
      var updated := db.rows[id].(name := name, email := email.value);
      Outcome(Reply(200, Message("User updated")), Db(db.rows[id := updated], db.nextId))
  }

  /** DELETE /users/:id: removes the row if there is one, and answers 200 either way. */
  function Delete(db: Db, id: int): (o: Outcome)
    ensures o.reply == Reply(200, Message("User deleted"))
    ensures id !in o.db.rows && o.db.nextId == db.nextId
    ensures forall other :: other != id ==>
              (other in o.db.rows <==> other in db.rows) &&
              (other in db.rows ==> o.db.rows[other] == db.rows[other])
    ensures Valid(db) ==> Valid(o.db)
  {
    Outcome(Reply(200, Message("User deleted")), Db(db.rows - {id}, db.nextId))
  }

  /** Deleting twice answers the same and leaves the same table as deleting once. */
  lemma DeleteIdempotent(db: Db, id: int)
    ensures Delete(Delete(db, id).db, id) == Delete(db, id)
  {
  }

  /** POST /users decides on the email alone: any two names get the same reply. */
  lemma CreateIgnoresName(db: Db, lib: Libraries, name1: Option<string>, name2: Option<string>,
                          email: Option<string>, router: Router)
    ensures Create(db, lib, name1, email, router).reply == Create(db, lib, name2, email, router).reply
  {
  }

  /** The two routers take the same decisions and leave the same table; only texts differ. */
  lemma RoutersAgree(db: Db, lib: Libraries, name: Option<string>, email: Option<string>)
    ensures var a := Create(db, lib, name, email, UsersRouter);
            var b := Create(db, lib, name, email, LegacyUsersRouter);
            a.db == b.db && (a.reply.Reply? <==> b.reply.Reply?) &&
            (a.reply.Reply? ==> a.reply.status == b.reply.status)
  {
  }

  /** A row created by POST /users shows up in GET /users with the name and email it was given. */
  lemma CreateThenList(db: Db, lib: Libraries, name: Option<string>, email: string, router: Router)
    requires Valid(db)
    requires Answered(Create(db, lib, name, Some(email), router).reply, 201)
    ensures PublicUser(db.nextId, name, email) in List(Create(db, lib, name, Some(email), router).db).body.users
  {
  }

  /** Updating a row with the email it already holds is not a conflict. */
  lemma UpdateKeepingOwnEmail(db: Db, lib: Libraries, id: int, name: Option<string>)
    requires Valid(db) && id in db.rows && lib.isEmail(db.rows[id].email)
    ensures Answered(Update(db, lib, id, name, Some(db.rows[id].email)).reply, 200)
  {
  }

  /** The conflict check comes first: a missing id with someone else's email is a 409, not a 404. */
  lemma UpdateMissingIdConflicts(db: Db, lib: Libraries, id: int, name: Option<string>, email: string)
    requires id !in db.rows && lib.isEmail(email) && EmailTaken(db.rows, email)
    ensures Update(db, lib, id, name, Some(email)).reply == Reply(409, Error("Email in use"))
  {
  }
}
