/** Optional values and the failure-carrying results every service returns. */
module Wrappers {

  /** A value that may be absent (JavaScript's `null` or `undefined`). */
  datatype Option<+T> = None | Some(value: T) {

    /** The value, or `default` when absent (JavaScript's `??`). */
    function GetOr(default: T): T {
      match this
      case Some(v) => v
      case None => default
    }

    /** This value when present, else `other` (a spread: a supplied key wins). */
    function OrElse(other: Option<T>): Option<T> {
      if this.Some? then this else other
    }
  }

  /** The errors the services throw, one constructor per kind. */
  datatype Failure =
    | NotFound(resource: string)          // AppError 404
    | BadRequest(reason: string)          // AppError 400
    | Conflict(reason: string)            // AppError 409
    | InvalidCredentials                  // vendor login answered 422
    | LoginFailed(status: int)            // vendor login answered another non-2xx
    | NoToken                             // vendor login body carried no token
    | SyncFailed(status: int)             // a vendor sync page answered non-2xx
    | UniqueViolation(index: string)      // the store refused an insert
    | TamperedCredential                  // the stored ciphertext did not decrypt
    | KeyMissing                          // no credentials key is configured
    | BadKey                              // the credentials key is not 32 bytes long
    | NegativePaging                      // the store refused a negative LIMIT/OFFSET
    | ForeignKeyViolation(column: string) // the store refused a link to a missing row
    | NoValuesToSet                       // the query builder refused an UPDATE setting no column

  /** Either a value or the error a call threw. */
  datatype Result<+T> = Ok(value: T) | Err(error: Failure)
}
