/**
 POST /auth/signup and POST /auth/login, as functions from the table before the
 request to the reply and the table after it. The class `Table.UserTable` runs the
 same steps imperatively and is proved equal to these.
 */
module AuthRoutes {
  import opened Wrappers
  import opened Foreign
  import opened Store
  import opened Http

  /** `expiresIn: "1h"`, in seconds. */
  const ExpiresIn: nat := 3600

  /** A body field is truthy in JavaScript: present, not null, not the empty string. */
  predicate Present(field: Option<string>)
  {
    field.Some? && field.value != ""
  }

  /** The row signup inserts: the password column holds the digest, not the password. */
  function Registered(lib: Libraries, name: string, email: string, password: string, salt: nat): User
  {
    User(Some(name), email, Some(lib.hash(password, salt)))
  }

  function Signup(db: Db, lib: Libraries, name: Option<string>, email: Option<string>,
                  password: Option<string>, salt: nat): (o: Outcome)
    // the missing-field check comes first, whatever the email looks like
    ensures !(Present(name) && Present(email) && Present(password)) ==>
              o == Outcome(Reply(400, Error("All fields required")), db)
    ensures Present(name) && Present(email) && Present(password) && !lib.isEmail(email.value) ==>
              o == Outcome(Reply(400, Error("Invalid email")), db)
    ensures Present(name) && Present(email) && Present(password) && lib.isEmail(email.value) &&
            EmailTaken(db.rows, email.value) ==>
              o == Outcome(Reply(409, Error("Email already registered")), db)
    // success exactly when every check passes, and then one hashed row is added
    ensures Answered(o.reply, 201) <==>
              Present(name) && Present(email) && Present(password) && lib.isEmail(email.value) &&
              !EmailTaken(db.rows, email.value)
    ensures Answered(o.reply, 201) ==>
              o.db == Insert(db, Registered(lib, name.value, email.value, password.value, salt))
    ensures !Answered(o.reply, 201) ==> o.db == db
    ensures Valid(db) ==> Valid(o.db)
  {
    if !Present(name) || !Present(email) || !Present(password) then
      Outcome(Reply(400, Error("All fields required")), db)
    else if !lib.isEmail(email.value) then
      Outcome(Reply(400, Error("Invalid email")), db)
    else if EmailTaken(db.rows, email.value) then
      Outcome(Reply(409, Error("Email already registered")), db)
    else
      Outcome(Reply(201, Message("User registered")),
              Insert(db, Registered(lib, name.value, email.value, password.value, salt)))
  }

  /** The claims signed for a row found by email. */
  function ClaimsOf(id: int, u: User): Claims
  {
    Claims(id, u.email, u.name)
  }

  /** The reply to a successful login: the token signed over the row's claims, valid one hour. */
  function Granted(lib: Libraries, id: int, u: User): Reply
  {
    Reply(200, LoggedIn("Login successful", lib.sign(ClaimsOf(id, u), ExpiresIn)))
  }

  /** Login only reads the table, so it yields a reply and no new table. The row is the
      one `SELECT ... WHERE email = $1` finds; under the invariant there is at most one. */
  ghost function Login(db: Db, lib: Libraries, email: Option<string>, password: Option<string>): (r: Reply)
    requires Valid(db)
    ensures !(Present(email) && Present(password)) ==> r == Reply(400, Error("Missing credentials"))
    ensures Present(email) && Present(password) && !EmailTaken(db.rows, email.value) ==>
              r == Reply(401, Error("User not found"))
    ensures forall id :: id in db.rows && Present(email) && Present(password) && db.rows[id].email == email.value ==>
              r == (if lib.compare(password.value, db.rows[id].password) then Granted(lib, id, db.rows[id])
                    else Reply(401, Error("Wrong password")))
  {
    if !Present(email) || !Present(password) then
      Reply(400, Error("Missing credentials"))
    else
      if !EmailTaken(db.rows, email.value) then
        Reply(401, Error("User not found"))
      else
        var id :| id in db.rows && db.rows[id].email == email.value;
        var user := db.rows[id];
        if !lib.compare(password.value, user.password) then Reply(401, Error("Wrong password"))
        else Granted(lib, id, user)
  }

  /** A fresh signup followed by a login with the same credentials succeeds, and the token
      carries the new row's id, email and name. */
  lemma SignupThenLogin(db: Db, lib: Libraries, name: string, email: string, password: string, salt: nat)
    requires Valid(db) && HashVerifies(lib)
    requires Answered(Signup(db, lib, Some(name), Some(email), Some(password), salt).reply, 201)
    ensures var after := Signup(db, lib, Some(name), Some(email), Some(password), salt).db;
            Valid(after) &&
            Login(after, lib, Some(email), Some(password)) ==
              Reply(200, LoggedIn("Login successful", lib.sign(Claims(db.nextId, email, Some(name)), ExpiresIn)))
  {
  }

  /** Registering the same email twice: the second attempt is a conflict and changes nothing. */
  lemma SignupTwiceConflicts(db: Db, lib: Libraries, name: string, email: string, password: string,
                             salt: nat, name2: string, password2: string, salt2: nat)
    requires Answered(Signup(db, lib, Some(name), Some(email), Some(password), salt).reply, 201)
    requires name2 != "" && password2 != ""
    ensures var after := Signup(db, lib, Some(name), Some(email), Some(password), salt).db;
            Signup(after, lib, Some(name2), Some(email), Some(password2), salt2) ==
              Outcome(Reply(409, Error("Email already registered")), after)
  {
  }
}
