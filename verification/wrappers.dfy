/** Failure-compatible wrappers shared by every module of the model: an optional
    value (a document field that may be null or absent) and the error answer a
    controller sends back (an HTTP status code and its error text). */
module Wrappers {

  /** A value that may be missing: a null field, an absent request key, a lookup that found nothing. */
  datatype Option<+T> = None | Some(value: T) {

    predicate IsFailure() {
      None?
    }

    function PropagateFailure<U>(): Option<U>
      requires None?
    {
      None
    }

    function Extract(): T
      requires Some?
    {
      value
    }

    /** The value, or `default` when there is none (the `x || default` idiom of the controllers). */
    function GetOr(default: T): T {
      match this
      case Some(v) => v
      case None => default
    }
  }

  /** The error answer of a controller: `res.status(status).json({ error: message })`. */
  datatype Failure = Failure(status: int, message: string)

  function BadRequest(message: string): Failure { Failure(400, message) }
  function Unauthorized(message: string): Failure { Failure(401, message) }
  function Forbidden(message: string): Failure { Failure(403, message) }
  function NotFound(message: string): Failure { Failure(404, message) }
  function ServerError(message: string): Failure { Failure(500, message) }

  /** A value or the failure that replaced it. */
  datatype Result<+T> = Ok(value: T) | Err(failure: Failure) {

    predicate IsFailure() {
      Err?
    }

    function PropagateFailure<U>(): Result<U>
      requires Err?
    {
      Err(failure)
    }

    function Extract(): T
      requires Ok?
    {
      value
    }
  }
}
