/**
 The shared `users` table as one object, and the six handlers as its methods. Each method
 validates, looks up, checks for a conflict and only then writes, returning early on the
 first failed check; its postcondition equates the reply and the new table with the
 handler's function in `AuthRoutes` or `UsersRoutes`, whose properties are proved there.
 */
module Table {
  import opened Wrappers
  import opened Foreign
  import opened Store
  import opened Http
  import AuthRoutes
  import UsersRoutes

  class UserTable {
    var rows: map<int, User>
    var nextId: int

    /** The table as a value. */
    function State(): Db
      reads this
    {
      Db(rows, nextId)
    }

    ghost predicate Valid()
      reads this
    {
      Store.Valid(State())
    }

    /** An empty table whose id sequence starts at 1. */
    constructor ()
      ensures Valid() && rows == map[] && nextId == 1
    {
      rows := map[];
      nextId := 1;
    }

    /** The INSERT: the row takes the sequence's next value. */
    method Append(u: User)
      modifies this
      ensures State() == Insert(old(State()), u)
    {
      rows := rows[nextId := u];
      nextId := nextId + 1;
    }

    /** POST /auth/signup */
    method Signup(lib: Libraries, name: Option<string>, email: Option<string>,
                  password: Option<string>, salt: nat) returns (reply: Reply)
      requires Valid()
      modifies this
      ensures Valid()
      ensures Outcome(reply, State()) == AuthRoutes.Signup(old(State()), lib, name, email, password, salt)
    {
      if !AuthRoutes.Present(name) || !AuthRoutes.Present(email) || !AuthRoutes.Present(password) {
        return Reply(400, Error("All fields required"));
      }
      if !lib.isEmail(email.value) {
        return Reply(400, Error("Invalid email"));
      }
      if EmailTaken(rows, email.value) {
        return Reply(409, Error("Email already registered"));
      }
      var hashed := lib.hash(password.value, salt);
      Append(User(name, email.value, Some(hashed)));
      reply := Reply(201, Message("User registered"));
    }

    /** POST /auth/login: reads the table and changes nothing. */
    method Login(lib: Libraries, email: Option<string>, password: Option<string>) returns (reply: Reply)
      requires Valid()
      ensures reply == AuthRoutes.Login(State(), lib, email, password)
    {
      if !AuthRoutes.Present(email) || !AuthRoutes.Present(password) {
        return Reply(400, Error("Missing credentials"));
      }
      if !EmailTaken(rows, email.value) {
        return Reply(401, Error("User not found"));
      }
      var id :| id in rows && rows[id].email == email.value;
      var user := rows[id];
      var matched := lib.compare(password.value, user.password);
      if !matched {
        return Reply(401, Error("Wrong password"));
      }
      var token := lib.sign(Claims(id, user.email, user.name), AuthRoutes.ExpiresIn);
      reply := Reply(200, LoggedIn("Login successful", token));
    }

    /** GET /users: reads the table and changes nothing. */
    method List() returns (reply: Reply)
      ensures reply == UsersRoutes.List(State())
    {
      var listed := set id | id in rows :: PublicUser(id, rows[id].name, rows[id].email);
      reply := Reply(200, Listing(listed));
    }

    /** POST /users, under either router. */
    method Create(lib: Libraries, name: Option<string>, email: Option<string>, router: UsersRoutes.Router)
      returns (reply: Reply)
      requires Valid()
      modifies this
      ensures Valid()
      ensures Outcome(reply, State()) == UsersRoutes.Create(old(State()), lib, name, email, router)
    {
      var texts := UsersRoutes.Texts(router);
      if email.None? {
        return NoResponse;
      }
      if !lib.isEmail(email.value) {
        return Reply(400, Error(texts.invalid));
      }
      if EmailTaken(rows, email.value) {
        return Reply(409, Error(texts.conflict));
      }
      Append(User(name, email.value, None));
      reply := Reply(201, Message(texts.created));
    }

    /** PUT /users/:id */
    method Update(lib: Libraries, id: int, name: Option<string>, email: Option<string>) returns (reply: Reply)
      requires Valid()
      modifies this
      ensures Valid()
      ensures Outcome(reply, State()) == UsersRoutes.Update(old(State()), lib, id, name, email)
    {
      if email.None? {
        return NoResponse;
      }
      if !lib.isEmail(email.value) {
        return Reply(400, Error("Invalid email"));
      }
      if TakenByOther(rows, email.value, id) {
        return Reply(409, Error("Email in use"));
      }
      if id !in rows {
        return Reply(404, Error("User not found"));
      }
      rows := rows[id := rows[id].(name := name, email := email.value)];
      reply := Reply(200, Message("User updated"));
    }

    /** DELETE /users/:id */
    method Delete(id: int) returns (reply: Reply)
      requires Valid()
      modifies this
      ensures Valid()
      ensures Outcome(reply, State()) == UsersRoutes.Delete(old(State()), id)
    {
      rows := rows - {id};
      reply := Reply(200, Message("User deleted"));
    }
  }
}
