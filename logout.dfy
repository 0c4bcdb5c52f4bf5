/** `POST` of app/api/auth/logout/route.ts: unconditionally replace the
    session cookie with an empty, expired one. */
module LogoutRoute {
  import opened Types
  import opened Session

  const LoggedOut := "Logged out successfully"

  /** The answer and the client's cookies after a logout. */
  ghost function LogoutSpec(jar: Jar, config: Config): (o: CookieStep)
    ensures o.response == Response(200, Message(LoggedOut))
    ensures o.jar.Keys == jar.Keys + {AuthCookie}
    ensures forall n :: n in jar && n != AuthCookie ==> o.jar[n] == jar[n]
    ensures o.jar[AuthCookie] == ClearedCookie(config.production)
    ensures !Presented(o.jar)
  {
    CookieStep(Response(200, Message(LoggedOut)), jar[AuthCookie := ClearedCookie(config.production)])
  }

  /** The route handler. It touches nothing but the cookie jar. */
  method Post(jar: CookieJar, config: Config) returns (resp: Response)
    modifies jar
    ensures CookieStep(resp, jar.cookies) == LogoutSpec(old(jar.cookies), config)
  {
    jar.Set(ClearedCookie(config.production));
    resp := Response(200, Message(LoggedOut));
  }

  /** Logging out twice leaves the same cookies and gives the same answer as
      logging out once. */
  lemma LogoutIdempotent(jar: Jar, config: Config)
    ensures LogoutSpec(LogoutSpec(jar, config).jar, config) == LogoutSpec(jar, config)
  {
  }

  /** The same, for the handler itself: a second call changes nothing. */
  method LogoutTwice(jar: CookieJar, config: Config) returns (first: Response, second: Response)
    modifies jar
    ensures first == second == Response(200, Message(LoggedOut))
    ensures jar.cookies == LogoutSpec(old(jar.cookies), config).jar
  {
    first := Post(jar, config);
    second := Post(jar, config);
    LogoutIdempotent(old(jar.cookies), config);
  }
}
