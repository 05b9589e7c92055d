/** Failure-compatible wrappers and the error taxonomy of the backend.

    Every operation of the model that can fail returns a `Result`; its error
    says how the failure reaches the HTTP client:
    - `Http(status, detail)`: an `HTTPException` the code raises itself
      (400 for bad filter/sort fields and duplicate pivots, 404, 409);
    - `Validation(message)`: a `ValueError` raised inside a schema validator,
      which the validation library turns into a 422 response;
    - `Crash(reason)`: any other exception (an attribute read on `None`, a
      `TypeError`, a failed tuple unpack), which surfaces as a 500;
    - `Rejected(reason)`: a statement the database refuses (a negative
      OFFSET/LIMIT as PostgreSQL reads it, a missing value in a column that may not be null). */
module Wrappers {

  datatype Option<+T> = None | Some(value: T) {
    predicate IsFailure() { None? }

    function PropagateFailure<U>(): Option<U>
      requires None?
    {
      None
    }

    function Extract(): T
      requires Some?
    {
      value
    }

    function GetOr(default: T): T {
      match this
      case Some(v) => v
      case None => default
    }
  }

  datatype Error =
    | Http(status: int, detail: string)
    | Validation(message: string)
    | Crash(reason: string)
    | Rejected(reason: string)
  {
    /** The HTTP status the client sees. */
    function Status(): int {
      match this
      case Http(s, _) => s
      case Validation(_) => 422
      case Crash(_) => 500
      case Rejected(_) => 500
    }
  }

  datatype Result<+T> = Ok(value: T) | Err(error: Error) {
    predicate IsFailure() { Err? }

    function PropagateFailure<U>(): Result<U>
      requires Err?
    {
      Err(error)
    }

    function Extract(): T
      requires Ok?
    {
      value
    }
  }

  /** `HTTPException(404, detail)`. */
  function NotFound<T>(detail: string): Result<T> {
    Err(Http(404, detail))
  }
}
