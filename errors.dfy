/** Go's `error` values as the core produces them, and the two wrappers the model
    uses for nil-able pointers and `(value, error)` pairs. */
module Errors {

  /** A Go pointer that may be nil (`*string`, `*bool`). */
  datatype Option<+T> = None | Some(value: T)

  /** A Go `(value, error)` result whose value is meaningless on error. */
  datatype Result<+T> = Ok(value: T) | Err(error: Error)

  /** The errors the core returns or passes through. */
  datatype Error =
    | NoRows                     // sql.ErrNoRows: QueryRow(...).Scan found no row
    | SqlState(code: string)     // an error the database server reports, by SQLSTATE
    | Msg(text: string)          // errors.New(text)
    | TokenMalformed             // the JWT library could not decode the token text
    | TokenInvalid(expired: bool, usedBeforeIssued: bool, signatureInvalid: bool)
                                 // jwt.ValidationError with its flag bits

  /** The outcome a caller injects for one SQL statement or driver step:
      `None` when it succeeds, `Some(e)` when the driver returns `e`. */
  type Fault = Option<Error>

  /** SQLSTATE 42601, what PostgreSQL reports for `UPDATE ... SET  FROM ...`. */
  const SyntaxError := SqlState("42601")

  /** SQLSTATE 08P01, what PostgreSQL reports when the bound arguments do not fit the placeholders. */
  const BindMismatch := SqlState("08P01")
}
