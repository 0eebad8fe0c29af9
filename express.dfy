/** The parts of an Express request and response the middlewares read and
    write: the four validation targets (the `Authorization` header lives
    inside the headers), the two fields the authentication middleware sets,
    how often `next()` has been called, and the error response sent, if
    any. */
module Express {
  import opened Wrappers
  import opened Json
  import opened Http

  /** `ValidationTarget` */
  datatype Target = Body | Query | Params | Headers

  /** The verified token's payload, as far as the handlers use it. */
  datatype Claims = Claims(sub: Option<string>)

  /** `headers.authorization`: the header's text when the headers object
      holds one under that key. */
  function AuthorizationOf(headers: Json): (r: Option<string>)
    ensures r.Some? <==>
      (headers.JObject? && "authorization" in headers.members && headers.members["authorization"].JString?)
    ensures r.Some? ==> headers.members["authorization"] == JString(r.value)
  {
    if headers.JObject? && "authorization" in headers.members && headers.members["authorization"].JString?
    then Some(headers.members["authorization"].s)
    else None
  }

  class Request {
    var body: Json
    var query: Json
    var params: Json
    var headers: Json
    var userId: Option<string>
    var tokenPayload: Option<Claims>
    var nextCalls: nat
    var sent: Option<Response<()>>

    /** A request as it reaches the first middleware: nothing set, nothing
        sent, `next` not yet called. */
    constructor (body: Json, query: Json, params: Json, headers: Json)
      ensures this.body == body && this.query == query && this.params == params && this.headers == headers
      ensures userId == None && tokenPayload == None && nextCalls == 0 && sent == None
    {
      this.body := body;
      this.query := query;
      this.params := params;
      this.headers := headers;
      userId := None;
      tokenPayload := None;
      nextCalls := 0;
      sent := None;
    }

    /** `req.headers.authorization` */
    function Authorization(): Option<string>
      reads this`headers
    {
      AuthorizationOf(headers)
    }

    /** `req[target]` */
    function Get(t: Target): Json
      reads this
    {
      match t
      case Body => body
      case Query => query
      case Params => params
      case Headers => headers
    }

    /** `req[target] = v`: that target now holds `v`, and nothing else of the
        request changes. Assigning the headers replaces the `Authorization`
        header with whatever the new headers hold. */
    method Set(t: Target, v: Json)
      modifies this
      ensures Get(t) == v
      ensures forall u | u != t :: Get(u) == old(Get(u))
      ensures t == Headers ==> Authorization() == AuthorizationOf(v)
      ensures t != Headers ==> Authorization() == old(Authorization())
      ensures userId == old(userId) && tokenPayload == old(tokenPayload)
      ensures nextCalls == old(nextCalls) && sent == old(sent)
    {
      match t
      case Body => body := v;
      case Query => query := v;
      case Params => params := v;
      case Headers => headers := v;
    }

    /** `next()` */
    method Next()
      modifies this
      ensures nextCalls == old(nextCalls) + 1
      ensures forall u :: Get(u) == old(Get(u))
      ensures Authorization() == old(Authorization())
      ensures userId == old(userId) && tokenPayload == old(tokenPayload)
      ensures sent == old(sent)
    {
      nextCalls := nextCalls + 1;
    }

    /** `sendError(res, message, status)` */
    method SendError(message: string, status: Status)
      modifies this
      ensures sent == Some(Failure(status, message))
      ensures forall u :: Get(u) == old(Get(u))
      ensures Authorization() == old(Authorization())
      ensures userId == old(userId) && tokenPayload == old(tokenPayload)
      ensures nextCalls == old(nextCalls)
    {
      sent := Some(Failure(status, message));
    }
  }
}
