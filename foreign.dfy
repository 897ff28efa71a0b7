/**
 The libraries the directory calls but does not implement: bcryptjs, jsonwebtoken
 and validator. Their behaviour is not modelled; each is an abstract function held
 in a `Libraries` value that every handler receives, the way the modules import them.
 */
module Foreign {
  import opened Wrappers

  /** A bcrypt digest, as the string `bcrypt.hash` produces. It is a type of its own,
      so a row's `password` column can only ever hold a digest, never a plaintext. */
  datatype Hash = Digest(text: string)

  /** The payload `jwt.sign` is given at login: the row's id, email and name. */
  datatype Claims = Claims(id: int, email: string, name: Option<string>)

  datatype Libraries = Libraries(
    /** `validator.isEmail` on a string argument */
    isEmail: string -> bool,
    /** `bcrypt.hash(password, 10)`; the second argument is the random salt drawn for the call */
    hash: (string, nat) -> Hash,
    /** `bcrypt.compare(password, stored)`; `stored` is the row's password column, possibly NULL */
    compare: (string, Option<Hash>) -> bool,
    /** `jwt.sign(claims, secret, { expiresIn })`, with the lifetime in seconds */
    sign: (Claims, nat) -> string,
    /** `jwt.verify(token, secret)`: the decoded claims, or None on any verification error */
    verify: string -> Option<Claims>
  )

  /** The one property of bcrypt the model relies on: a password matches its own digest,
      whatever salt was drawn. */
  ghost predicate HashVerifies(lib: Libraries)
  {
    forall password: string, salt: nat :: lib.compare(password, Some(lib.hash(password, salt)))
  }
}
