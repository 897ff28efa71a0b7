/**
 The `users` table: rows keyed by a store-assigned serial id, and the queries
 the handlers issue against it.
 */
module Store {
  import opened Wrappers
  import opened Foreign

  /** One row. `name` is NULL when POST or PUT /users was sent without one;
      `password` is NULL for every row not created by signup. */
  datatype User = User(name: Option<string>, email: string, password: Option<Hash>)

  /** What GET /users shows of a row: `SELECT id, name, email`. There is no password field. */
  datatype PublicUser = PublicUser(id: int, name: Option<string>, email: string)

  /** The table and the next value of its id sequence. */
  datatype Db = Db(rows: map<int, User>, nextId: int)

  /** At most one row holds each email. */
  ghost predicate UniqueEmails(rows: map<int, User>)
  {
    forall i, j :: i in rows && j in rows && rows[i].email == rows[j].email ==> i == j
  }

  /** The table invariant: unique emails, and every id was handed out by the sequence. */
  ghost predicate Valid(db: Db)
  {
    && UniqueEmails(db.rows)
    && 1 <= db.nextId
    && forall id :: id in db.rows ==> 1 <= id < db.nextId
  }

  /** `SELECT * FROM users WHERE email = $1` returns a row. */
  predicate EmailTaken(rows: map<int, User>, email: string)
  {
    exists id :: id in rows && rows[id].email == email
  }

  /** `SELECT * FROM users WHERE email = $1 AND id != $2` returns a row. */
  predicate TakenByOther(rows: map<int, User>, email: string, self: int)
  {
    exists id :: id in rows && id != self && rows[id].email == email
  }

  /** `INSERT INTO users ...`: the row gets the next id of the sequence. */
  function Insert(db: Db, u: User): (r: Db)
    ensures r.rows.Keys == db.rows.Keys + {db.nextId} && r.rows[db.nextId] == u
    ensures r.nextId == db.nextId + 1
    // under the invariant the id is fresh: one row more, and every earlier row as it was
    ensures Valid(db) ==> db.nextId !in db.rows && |r.rows| == |db.rows| + 1
    ensures Valid(db) ==> forall id :: id in db.rows ==> r.rows[id] == db.rows[id]
    ensures Valid(db) && !EmailTaken(db.rows, u.email) ==> Valid(r)
  {
    Db(db.rows[db.nextId := u], db.nextId + 1)
  }
}
