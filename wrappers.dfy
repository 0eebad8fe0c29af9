/** Option and Result types shared by every module of the model.
    A failing operation of the service throws a JavaScript value; `Thrown`
    distinguishes an `Error` object (which carries a message) from any other
    thrown value, because the controllers treat the two differently. */
module Wrappers {

  datatype Option<+T> = None | Some(value: T) {
    /** JavaScript's `x ?? d` for a value that may be null or undefined. */
    function GetOr(default: T): T {
      match this
      case Some(v) => v
      case None => default
    }
  }

  /** A thrown JavaScript value. */
  datatype Thrown = ErrorObject(message: string) | OtherValue

  /** The outcome of an operation that either returns a value or throws. */
  datatype Result<+T> = Ok(value: T) | Err(thrown: Thrown)

  /** `throw new Error(message)` */
  function Throw<T>(message: string): Result<T> {
    Err(ErrorObject(message))
  }
}
