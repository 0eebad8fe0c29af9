/** The authentication service over the user table: registration refuses a
    taken email, login answers unknown emails and wrong passwords alike, and
    refresh re-issues a token pair for a subject that still exists. Password
    hashing and token signing are oracles. */
module AuthService {
  import opened Wrappers
  import opened Collections
  import opened Database

  const SaltRounds: nat := 10
  const AccessTokenExpiry: string := "1h"
  const RefreshTokenExpiry: string := "7d"
  const EmailTaken: string := "Email already registered"
  const InvalidCredentials: string := "Invalid credentials"
  const UserNotFound: string := "User not found"

  /** bcrypt: the hash of a password at a cost, and the check of a password
      against a stored hash. */
  datatype Hasher = Hasher(hash: (string, nat) -> string, compare: (string, string) -> bool)

  /** jsonwebtoken: `sign(payload, secret, expiresIn)` and `verify(token,
      secret)`, which throws on a bad signature or an expired token and
      otherwise yields the payload's `sub`, which may be missing. */
  datatype Jwt = Jwt(sign: (string, string, string) -> string, verify: (string, string) -> Result<Option<string>>)

  datatype Secrets = Secrets(access: string, refresh: string)

  /** What the service hands back about a user: never the hash. */
  datatype PublicUser = PublicUser(id: string, email: string)

  datatype Session = Session(accessToken: string, refreshToken: string, user: PublicUser)

  function WithEmail(email: string): User -> bool {
    (u: User) => u.email == email
  }

  function WithId(id: string): User -> bool {
    (u: User) => u.id == id
  }

  /** `registerUser`: a taken email is refused and nothing is stored;
      otherwise one user is stored with the hash of the password, and only
      the id and the email are returned. */
  method RegisterUser(db: Db, hasher: Hasher, email: string, password: string, newId: string)
    returns (r: Result<PublicUser>)
    requires db.Valid()
    requires forall k | 0 <= k < |db.users| :: db.users[k].id != newId
    modifies db
    ensures db.Valid()
    ensures db.repositories == old(db.repositories) && db.analyses == old(db.analyses) && db.clock == old(db.clock)
    ensures (exists k | 0 <= k < |old(db.users)| :: old(db.users)[k].email == email) ==>
      r == Throw(EmailTaken) && db.users == old(db.users)
    ensures (forall k | 0 <= k < |old(db.users)| :: old(db.users)[k].email != email) ==>
      r == Ok(PublicUser(newId, email)) && db.users == old(db.users) + [User(newId, email, hasher.hash(password, SaltRounds))]
  {
    var existing := FindOne(db.users, WithEmail(email));
    if existing.Some? {
      return Throw(EmailTaken);
    }
    var user := User(newId, email, hasher.hash(password, SaltRounds));
    assert forall k | 0 <= k < |db.users| :: db.users[k].email != email by {
      assert forall k | 0 <= k < |db.users| :: !WithEmail(email)(db.users[k]);
    }
    var users := db.users + [user];
    assert forall k | 0 <= k < |db.users| :: users[k] == db.users[k];
    db.users := users;
    r := Ok(PublicUser(newId, email));
  }

  /** The two tokens issued for a user: an access token signed with the
      access secret for one hour and a refresh token signed with the refresh
      secret for seven days, both with the user's id as subject. */
  function IssueSession(jwt: Jwt, secrets: Secrets, user: User): (s: Session)
    ensures s.accessToken == jwt.sign(user.id, secrets.access, AccessTokenExpiry)
    ensures s.refreshToken == jwt.sign(user.id, secrets.refresh, RefreshTokenExpiry)
    ensures s.user == PublicUser(user.id, user.email)
  {
    Session(
      jwt.sign(user.id, secrets.access, AccessTokenExpiry),
      jwt.sign(user.id, secrets.refresh, RefreshTokenExpiry),
      PublicUser(user.id, user.email))
  }

  /** `loginUser`: the first user with the email, if the password checks
      against its hash; an unknown email and a wrong password give the same
      error. */
  function LoginUser(users: seq<User>, hasher: Hasher, jwt: Jwt, secrets: Secrets, email: string, password: string)
    : (r: Result<Session>)
    ensures (forall k | 0 <= k < |users| :: users[k].email != email) ==> r == Throw(InvalidCredentials)
    ensures r.Err? ==> r == Throw(InvalidCredentials)
    ensures r.Ok? <==> exists k | 0 <= k < |users| ::
      && users[k].email == email && hasher.compare(password, users[k].passwordHash)
      && forall j | 0 <= j < k :: users[j].email != email
    ensures r.Ok? ==> exists k | 0 <= k < |users| ::
      users[k].email == email && r.value == IssueSession(jwt, secrets, users[k])
  {
    var i := FirstIndex(users, WithEmail(email));
    if i < 0 || !hasher.compare(password, users[i].passwordHash) then Throw(InvalidCredentials)
    else
      Ok(IssueSession(jwt, secrets, users[i]))
  }

  /** With distinct emails, a user who registered can log in with the same
      password, provided the hash checks against the password it was made
      from. */
  lemma RegisterThenLogin(users: seq<User>, hasher: Hasher, jwt: Jwt, secrets: Secrets, user: User, password: string)
    requires ValidUsers(users)
    requires user.passwordHash == hasher.hash(password, SaltRounds)
    requires hasher.compare(password, hasher.hash(password, SaltRounds))
    requires forall k | 0 <= k < |users| :: users[k].email != user.email
    ensures LoginUser(users + [user], hasher, jwt, secrets, user.email, password) == Ok(IssueSession(jwt, secrets, user))
  {
    var t := users + [user];
    assert forall k | 0 <= k < |users| :: t[k] == users[k];
    var i := FirstIndex(t, WithEmail(user.email));
    assert WithEmail(user.email)(t[|users|]);
    assert i == |users|;
  }

  /** `refreshTokens`: the refresh token must verify with the refresh secret
      and name a stored user; a new pair is issued for that user. */
  function RefreshTokens(users: seq<User>, jwt: Jwt, secrets: Secrets, refreshToken: string): (r: Result<Session>)
    ensures jwt.verify(refreshToken, secrets.refresh).Err? ==> r == Err(jwt.verify(refreshToken, secrets.refresh).thrown)
    ensures jwt.verify(refreshToken, secrets.refresh).Ok? ==>
      var sub := jwt.verify(refreshToken, secrets.refresh).value;
      && (r.Ok? <==> sub.Some? && exists k | 0 <= k < |users| :: users[k].id == sub.value)
      && (r.Err? ==> r == Throw(UserNotFound))
      && (r.Ok? ==> r.value.user.id == sub.value && r.value.accessToken == jwt.sign(sub.value, secrets.access, AccessTokenExpiry)
                    && r.value.refreshToken == jwt.sign(sub.value, secrets.refresh, RefreshTokenExpiry))
      && (r.Ok? ==> exists k | 0 <= k < |users| :: users[k].id == sub.value && r.value == IssueSession(jwt, secrets, users[k]))
  {
    match jwt.verify(refreshToken, secrets.refresh)
    case Err(e) => Err(e)
    case Ok(sub) =>
      if sub.None? then Throw(UserNotFound)
      else
        var user := FindOne(users, WithId(sub.value));
        if user.None? then Throw(UserNotFound) else Ok(IssueSession(jwt, secrets, user.value))
  }
}
