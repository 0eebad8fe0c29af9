/** The HTTP status codes the handlers choose between, the two response
    envelopes `{ success: true, data }` and `{ success: false, error }`, and
    what a handler's `catch` block reads from what was thrown. */
module Http {
  import opened Wrappers

  datatype Status = OK | Created | BadRequest | Unauthorized | NotFound | InternalServerError {
    function Code(): nat {
      match this
      case OK => 200
      case Created => 201
      case BadRequest => 400
      case Unauthorized => 401
      case NotFound => 404
      case InternalServerError => 500
    }
  }

  datatype Response<+D> = Success(status: Status, data: D) | Failure(status: Status, error: string)

  /** A `{ message }` body. */
  datatype Note = Note(message: string)

  /** `e instanceof Error ? e.message : fallback` */
  function ErrorMessage(e: Thrown, fallback: string): (m: string)
    ensures e.ErrorObject? ==> m == e.message
    ensures e.OtherValue? ==> m == fallback
  {
    match e
    case ErrorObject(message) => message
    case OtherValue => fallback
  }

  /** The `!userId` guard: a missing or empty user id is refused. */
  predicate SignedIn(userId: Option<string>): (b: bool)
    ensures !b <==> userId == None || userId == Some("")
  {
    userId.Some? && userId.value != ""
  }

  const UnauthorizedMessage: string := "Unauthorized"
}
