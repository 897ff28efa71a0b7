/** What a handler sends back, and what it leaves in the table. */
module Http {
  import opened Store

  /** The JSON body: `{ message }`, `{ error }`, the login `{ message, token }`,
      or the array of rows GET /users returns (in no particular order). */
  datatype Body =
    | Message(text: string)
    | Error(text: string)
    | LoggedIn(text: string, token: string)
    | Listing(users: set<PublicUser>)

  /** `NoResponse`: the handler threw before its `try` block, so nothing is sent. */
  datatype Reply = Reply(status: int, body: Body) | NoResponse

  /** A handler's reply together with the table it leaves behind. */
  datatype Outcome = Outcome(reply: Reply, db: Db)

  /** The reply was sent with this status. */
  predicate Answered(r: Reply, status: int)
  {
    r.Reply? && r.status == status
  }
}
