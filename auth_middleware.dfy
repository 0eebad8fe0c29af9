/** The authentication middleware: the bearer token is taken from the
    `Authorization` header and verified with the access secret; a verified
    token's subject becomes the request's user id. Token verification is
    foreign code, taken as an oracle. */
module AuthMiddleware {
  import opened Wrappers
  import opened Strings
  import opened Http
  import opened Express

  const BearerPrefix: string := "Bearer "
  const InvalidToken: string := "Invalid or expired token"

  /** `jwt.verify(token, secret)`: the payload's subject, or a throw. */
  type Verify = (string, string) -> Result<Option<string>>

  /** `authHeader?.startsWith("Bearer ") ? authHeader.slice(7) : undefined`:
      the header after the exact, case-sensitive prefix. */
  function HeaderToken(header: Option<string>): (r: Option<string>)
    ensures r.Some? <==> header.Some? && StartsWith(header.value, BearerPrefix)
    ensures r.Some? ==> header.value == BearerPrefix + r.value
  {
    if header.Some? && StartsWith(header.value, BearerPrefix) then Some(header.value[7..]) else None
  }

  /** Prefixing a token gives it back. */
  lemma HeaderTokenOfBearer(token: string)
    ensures HeaderToken(Some(BearerPrefix + token)) == Some(token)
  {
    assert (BearerPrefix + token)[7..] == token;
  }

  /** What the middleware decides. */
  datatype Outcome = Refused(message: string) | Admitted(sub: Option<string>)

  function Decide(header: Option<string>, verify: Verify, secret: string): (r: Outcome)
    ensures r.Refused? && r.message == UnauthorizedMessage <==>
      forall token | header == Some(BearerPrefix + token) :: token == ""
    ensures r.Admitted? <==> exists token | header == Some(BearerPrefix + token) ::
      token != "" && verify(token, secret).Ok?
    ensures r.Admitted? ==> r.sub == verify(HeaderToken(header).value, secret).value
    ensures r.Refused? ==> r.message == UnauthorizedMessage || r.message == InvalidToken
  {
    var token := HeaderToken(header);
    if token.None? || token.value == "" then Refused(UnauthorizedMessage)
    else
      match verify(token.value, secret)
      case Err(_) => Refused(InvalidToken)
      case Ok(sub) => Admitted(sub)
  }

  /** `authMiddleware`: a refused request is answered 401 and not passed on;
      an admitted one carries the token's subject as its user id and the
      payload, and `next` is called once. */
  method Authenticate(req: Request, verify: Verify, secret: string)
    modifies req
    ensures var d := Decide(old(req.Authorization()), verify, secret);
      d.Refused? ==>
        && req.sent == Some(Failure(Unauthorized, d.message))
        && req.nextCalls == old(req.nextCalls)
        && req.userId == old(req.userId) && req.tokenPayload == old(req.tokenPayload)
    ensures var d := Decide(old(req.Authorization()), verify, secret);
      d.Admitted? ==>
        && req.userId == d.sub && req.tokenPayload == Some(Claims(d.sub))
        && req.nextCalls == old(req.nextCalls) + 1
        && req.sent == old(req.sent)
    ensures forall u :: req.Get(u) == old(req.Get(u))
    ensures req.Authorization() == old(req.Authorization())
  {
    var token := HeaderToken(req.Authorization());
    if token.None? || token.value == "" {
      req.SendError(UnauthorizedMessage, Unauthorized);
      return;
    }
    match verify(token.value, secret)
    case Err(_) =>
      req.SendError(InvalidToken, Unauthorized);
    case Ok(sub) =>
      req.userId := sub;
      req.tokenPayload := Some(Claims(sub));
      req.Next();
  }

  /** A verified token without a subject gets past the middleware, but its
      request is then refused by every guarded handler. */
  lemma SubjectlessTokenIsNotSignedIn(header: Option<string>, verify: Verify, secret: string)
    requires Decide(header, verify, secret) == Admitted(None)
    ensures !SignedIn(Decide(header, verify, secret).sub)
  {
  }
}
