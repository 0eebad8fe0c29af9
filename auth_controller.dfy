/** The sign-up, sign-in and refresh handlers: none is guarded, and each
    chooses the failure status from the error message. */
module AuthController {
  import opened Wrappers
  import opened Http
  import opened AuthService

  /** `register`'s rule: exactly the taken-email message is 400. */
  function RegisterStatus(msg: string): (s: Status)
    ensures s == BadRequest <==> msg == EmailTaken
    ensures s != BadRequest ==> s == InternalServerError
  {
    if msg == EmailTaken then BadRequest else InternalServerError
  }

  /** POST `/register` */
  function Register(outcome: Result<PublicUser>): (r: Response<PublicUser>)
    ensures outcome.Ok? ==> r == Success(Created, outcome.value)
    ensures outcome.Err? ==>
      var msg := ErrorMessage(outcome.thrown, "Registration failed");
      r == Failure(RegisterStatus(msg), msg)
  {
    match outcome
    case Ok(user) => Success(Created, user)
    case Err(e) =>
      var msg := ErrorMessage(e, "Registration failed");
      Failure(RegisterStatus(msg), msg)
  }

  /** POST `/login`: every failure is 401. The handler maps "Invalid
      credentials" to itself, so the message always passes through. */
  function Login(outcome: Result<Session>): (r: Response<Session>)
    ensures outcome.Ok? ==> r == Success(OK, outcome.value)
    ensures outcome.Err? ==> r == Failure(Unauthorized, ErrorMessage(outcome.thrown, "Login failed"))
  {
    match outcome
    case Ok(session) => Success(OK, session)
    case Err(e) =>
      var msg := ErrorMessage(e, "Login failed");
      Failure(Unauthorized, if msg == InvalidCredentials then InvalidCredentials else msg)
  }

  /** POST `/refresh`: every failure is 401. */
  function Refresh(outcome: Result<Session>): (r: Response<Session>)
    ensures outcome.Ok? ==> r == Success(OK, outcome.value)
    ensures outcome.Err? ==> r == Failure(Unauthorized, ErrorMessage(outcome.thrown, "Refresh failed"))
  {
    match outcome
    case Ok(session) => Success(OK, session)
    case Err(e) => Failure(Unauthorized, ErrorMessage(e, "Refresh failed"))
  }

  /** A registration with a taken email answers 400 and leaves the table as
      it was. */
  lemma RegisterTakenEmailIsBadRequest()
    ensures Register(Throw(EmailTaken)) == Failure(BadRequest, EmailTaken)
  {
  }

  /** Whatever the email and password, a failed login answers the same 401:
      the response does not tell an unknown email from a wrong password. */
  lemma LoginFailureIsUniform(users: seq<Database.User>, hasher: Hasher, jwt: Jwt, secrets: Secrets,
                              e1: string, p1: string, e2: string, p2: string)
    requires LoginUser(users, hasher, jwt, secrets, e1, p1).Err?
    requires LoginUser(users, hasher, jwt, secrets, e2, p2).Err?
    ensures Login(LoginUser(users, hasher, jwt, secrets, e1, p1)) == Login(LoginUser(users, hasher, jwt, secrets, e2, p2))
    ensures Login(LoginUser(users, hasher, jwt, secrets, e1, p1)) == Failure(Unauthorized, InvalidCredentials)
  {
  }

  /** A refresh token naming no stored user answers 401 "User not found". */
  lemma RefreshUnknownUser(users: seq<Database.User>, jwt: Jwt, secrets: Secrets, token: string, sub: string)
    requires jwt.verify(token, secrets.refresh) == Ok(Some(sub))
    requires forall k | 0 <= k < |users| :: users[k].id != sub
    ensures Refresh(RefreshTokens(users, jwt, secrets, token)) == Failure(Unauthorized, UserNotFound)
  {
  }
}
