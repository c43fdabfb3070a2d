/** Failure-compatible wrappers shared by every module of the model. */
module Common {

  datatype Option<+T> = None | Some(value: T)

  /** The outcome of a schema check: the parsed value, or the reason it was refused. */
  datatype Result<+T> = Ok(value: T) | Err(reason: string) {
    predicate IsFailure() {
      Err?
    }

    function PropagateFailure<U>(): Result<U>
      requires Err?
    {
      Err(reason)
    }

    function Extract(): T
      requires Ok?
    {
      value
    }
  }

  /** Identifiers of rows (UUID strings in the database). */
  type Id = string

  /** HTTP status codes the route handlers answer with. */
  const OK: int := 200
  const CREATED: int := 201
  const BAD_REQUEST: int := 400
  const FORBIDDEN: int := 403
  const NOT_FOUND: int := 404
  const SERVER_ERROR: int := 500
}
