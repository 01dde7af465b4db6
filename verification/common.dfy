/** Failure-carrying results, the error taxonomy of the HTTP handlers, and the
    truthiness test the handlers apply to request fields. */
module Common {

  datatype Option<+T> = None | Some(value: T)

  /** What a handler reports as "not found". */
  datatype Missing =
    | UserRecord   // "User not found"
    | CartEntry    // "Product not in cart"

  /** Why a credential or session was refused. */
  datatype AuthFailure =
    | NoToken
    | InvalidToken
    | UnknownEmail
    | WrongPassword

  /** The kinds of failure a handler answers with (status codes in comments). */
  datatype Error =
    | ValidationError              // 400, a required field is missing
    | AuthError(reason: AuthFailure)  // 401
    | ConflictError                // 401, the email is already registered
    | ForbiddenError               // 403, the protected admin account
    | NotFoundError(what: Missing) // 404
    | StoreError                   // 500, the store or a library call threw

  datatype Result<+T> = Ok(value: T) | Err(error: Error)

  /** A request-body field as the handlers test it with `!field`: absent
      (undefined) and the empty string are both falsy. */
  predicate Truthy(field: Option<string>)
  {
    field.Some? && field.value != ""
  }
}
