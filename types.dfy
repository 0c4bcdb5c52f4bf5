/** Values shared by every route of the authentication core: user records and
    their public projections, token claims, HTTP responses, and the external
    collaborators (token codec, password hasher) taken as parameters. */
module Types {

  datatype Option<+T> = None | Some(value: T)

  /** The outcome of a call into a collaborator that may throw. */
  datatype Reply<+T> = Done(value: T) | Threw

  type UserId = string
  type PasswordHash = string
  type Token = string

  /** A string field of a parsed JSON request body; None stands for a key that
      is absent or null. JavaScript's `!x` is true exactly when the field is
      not Truthy. */
  predicate Truthy(s: Option<string>)
    ensures !Truthy(s) <==> s == None || s == Some("")
  {
    s.Some? && s.value != ""
  }

  /** One row of the user table. */
  datatype UserRecord = UserRecord(
    username: string,
    email: string,
    password: PasswordHash,
    address: Option<string>,
    city: Option<string>,
    state: Option<string>,
    zipCode: Option<string>,
    country: Option<string>)

  type UserTable = map<UserId, UserRecord>

  /** The projection returned by login and signup. */
  datatype PublicUser = PublicUser(id: UserId, username: string, email: string)

  /** The `select` projection returned by the current-user and profile routes. */
  datatype Profile = Profile(
    id: UserId,
    username: string,
    email: string,
    address: Option<string>,
    city: Option<string>,
    state: Option<string>,
    zipCode: Option<string>,
    country: Option<string>)

  /** The claim set embedded in a session token. */
  datatype Claims = Claims(id: UserId, username: string, email: string)

  function PublicOf(id: UserId, u: UserRecord): (p: PublicUser)
    ensures p.id == id && p.username == u.username && p.email == u.email
  {
    PublicUser(id, u.username, u.email)
  }

  function ProfileOf(id: UserId, u: UserRecord): (p: Profile)
    ensures p.id == id && p.username == u.username && p.email == u.email
    ensures p.address == u.address && p.city == u.city && p.state == u.state
    ensures p.zipCode == u.zipCode && p.country == u.country
  {
    Profile(id, u.username, u.email, u.address, u.city, u.state, u.zipCode, u.country)
  }

  function ClaimsOf(id: UserId, u: UserRecord): (c: Claims)
    ensures c.id == id && c.username == u.username && c.email == u.email
  {
    Claims(id, u.username, u.email)
  }

  /** JSON bodies of the responses. None of them has a place for a password
      hash. */
  datatype Body =
    | Message(message: string)
    | UserWithMessage(message: string, account: PublicUser)
    | UserProfile(user: Profile)

  /** `NextResponse.json(body, { status })`; the status defaults to 200. */
  datatype Response = Response(status: int, body: Body)

  /** Process-wide configuration: the signing secret (`JWT_SECRET` or its
      fallback) and whether `NODE_ENV` is "production". */
  datatype Config = Config(secret: string, production: bool)

  /** `jwt.sign(claims, secret, { expiresIn })` at clock `issuedAt`, and
      `jwt.verify(token, secret)` at clock `now`, which either decodes the
      claims or throws (None). A decoded payload is taken to hold the three
      string claims the routes cast it to. */
  datatype Codec = Codec(
    sign: (string, int, Claims, string) -> Token,
    verify: (string, int, Token) -> Option<Claims>)

  /** `bcrypt.hash(plaintext, 10)` and `bcrypt.compare(plaintext, hash)`. */
  datatype Hasher = Hasher(
    hash: string -> PasswordHash,
    compare: (string, PasswordHash) -> bool)

  /** Everything a request handler draws on besides the store and the cookies. */
  datatype Env = Env(config: Config, codec: Codec, hasher: Hasher, now: int)
}
