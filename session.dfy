/** The cookie transport: the `auth_token` cookie as the routes set and read
    it, the two lifetimes of a session, and the client's cookie jar. */
module Session {
  import opened Types
  import opened Decimal

  const AuthCookie := "auth_token"
  const SecondsPerDay := 24 * 60 * 60

  /** `maxAge` in seconds, or an absolute `expires` date in milliseconds since
      the epoch. */
  datatype Expiry = MaxAge(seconds: int) | Expires(epochMillis: int)

  datatype Cookie = Cookie(
    name: string,
    value: string,
    httpOnly: bool,
    path: string,
    secure: bool,
    sameSite: string,
    expiry: Expiry)

  /** The cookies a client holds, by name. */
  type Jar = map<string, Cookie>

  /** `cookies().get("auth_token")?.value` */
  function TokenOf(jar: Jar): (t: Option<Token>)
    ensures t.Some? <==> AuthCookie in jar
    ensures t.Some? ==> t.value == jar[AuthCookie].value
  {
    if AuthCookie in jar then Some(jar[AuthCookie].value) else None
  }

  /** The request presents a session token: the `!token` check passes. */
  predicate Presented(jar: Jar)
  {
    Truthy(TokenOf(jar))
  }

  /** The claims `jwt.verify` decodes from a presented token, or None when no
      token is presented or verification throws. */
  function Decoded(jar: Jar, env: Env): (c: Option<Claims>)
    ensures c.Some? ==> Presented(jar)
    ensures Presented(jar) ==> c == env.codec.verify(env.config.secret, env.now, TokenOf(jar).value)
  {
    var token := TokenOf(jar);
    if Truthy(token) then env.codec.verify(env.config.secret, env.now, token.value) else None
  }

  /** The `expiresIn` string handed to `jwt.sign` at login: a whole number
      of days. */
  function ExpiresIn(rememberMe: bool): (span: string)
    ensures |span| >= 2 && span[|span| - 1] == 'd'
    ensures forall i :: 0 <= i < |span| - 1 ==> IsDigit(span[i])
  {
    if rememberMe then "30d" else "1d"
  }

  /** The `maxAge` of the login cookie, in seconds: 30 days or 1 day. */
  function MaxAgeSeconds(rememberMe: bool): (seconds: int)
    ensures seconds % SecondsPerDay == 0
    ensures seconds / SecondsPerDay == if rememberMe then 30 else 1
  {
    if rememberMe then 30 * 24 * 60 * 60 else 24 * 60 * 60
  }

  /** The number of seconds a duration string of the form `<n>d` stands for
      when token expiry is computed; None for any other string. */
  function SpanSeconds(span: string): (r: Option<int>)
    ensures r.Some? ==> r.value >= 0
  {
    if |span| >= 2 && span[|span| - 1] == 'd' then
      match ParseNat(span[..|span| - 1])
      case None => None
      case Some(days) => Some(days * SecondsPerDay)
    else None
  }

  /** The token's lifetime and the cookie's lifetime agree: 30 days with
      "remember me", 1 day without. */
  lemma LifetimesAgree(rememberMe: bool)
    ensures SpanSeconds(ExpiresIn(rememberMe)) == Some(MaxAgeSeconds(rememberMe))
    ensures MaxAgeSeconds(rememberMe) == if rememberMe then 2592000 else 86400
  {
    var span := ExpiresIn(rememberMe);
    var days := span[..|span| - 1];
    if rememberMe {
      assert days == "30";
      assert days[..1] == "3";
      assert ParseNat("3") == Some(3);
      assert ParseNat(days) == Some(30);
    } else {
      assert days == "1";
      assert ParseNat(days) == Some(1);
    }
  }

  /** The cookie login sets. */
  function SessionCookie(token: Token, rememberMe: bool, production: bool): (c: Cookie)
    ensures c.name == AuthCookie && c.value == token
    ensures c.httpOnly && c.path == "/" && c.sameSite == "strict" && c.secure == production
    ensures c.expiry.MaxAge? && SpanSeconds(ExpiresIn(rememberMe)) == Some(c.expiry.seconds)
  {
    LifetimesAgree(rememberMe);
    Cookie(AuthCookie, token, true, "/", production, "strict", MaxAge(MaxAgeSeconds(rememberMe)))
  }

  /** The cookie logout and the failed current-user read set: empty, and
      expired at the epoch. */
  function ClearedCookie(production: bool): (c: Cookie)
    ensures c.name == AuthCookie && c.value == "" && c.expiry == Expires(0)
    ensures c.httpOnly && c.path == "/" && c.sameSite == "strict" && c.secure == production
  {
    Cookie(AuthCookie, "", true, "/", production, "strict", Expires(0))
  }

  /** Once the cleared cookie is set, no request presents a session token. */
  lemma ClearedIsAbsent(jar: Jar, production: bool)
    ensures !Presented(jar[AuthCookie := ClearedCookie(production)])
  {
  }

  /** A handler's answer together with the cookies the client holds after it. */
  datatype CookieStep = CookieStep(response: Response, jar: Jar)

  /** The client's cookie jar, which `cookies().set(...)` writes. */
  class CookieJar {
    var cookies: Jar

    constructor (initial: Jar)
      ensures cookies == initial
    {
      cookies := initial;
    }

    /** `cookies().set(c)`: replaces the cookie of the same name. */
    method Set(c: Cookie)
      modifies this
      ensures cookies == old(cookies)[c.name := c]
    {
      cookies := cookies[c.name := c];
    }
  }

  /** The clock `t` lies within the lifetime `span` of a token issued at
      `issuedAt`. */
  ghost predicate LiveAt(span: string, issuedAt: int, t: int)
  {
    SpanSeconds(span).Some? && issuedAt <= t < issuedAt + SpanSeconds(span).value
  }

  /** Hypothesis about the token library, never assumed by a route: a signed
      token is a non-empty string, and it verifies, with the same secret, to
      the claims it was signed with until its lifetime runs out. */
  ghost predicate SignThenVerify(codec: Codec)
  {
    && (forall secret: string, issuedAt: int, c: Claims, span: string ::
          codec.sign(secret, issuedAt, c, span) != "")
    && (forall secret: string, issuedAt: int, t: int, c: Claims, span: string ::
          LiveAt(span, issuedAt, t) ==> codec.verify(secret, t, codec.sign(secret, issuedAt, c, span)) == Some(c))
  }
}
