/** `GET` of app/api/auth/current/route.ts: who holds the session, read back
    from the store; a rejected session cookie is cleared. */
module CurrentRoute {
  import opened Types
  import opened Session
  import opened Users

  const NotAuthenticated := "Not authenticated"
  const UserNotFound := "User not found"

  /** The answer and the client's cookies after a current-user request.
      `storeFault` stands for a store lookup that throws. */
  ghost function CurrentSpec(users: UserTable, jar: Jar, storeFault: bool, env: Env): (o: CookieStep)
    ensures o.response.status in {200, 401}
    ensures !Presented(jar) ==> o == CookieStep(Response(401, Message(NotAuthenticated)), jar)
    ensures Presented(jar) && o.response.status == 401 ==> o.jar == jar[AuthCookie := ClearedCookie(env.config.production)]
    ensures o.response.status == 401 ==> !Presented(o.jar)
    ensures o.response.status == 401 ==> o.response.body in {Message(NotAuthenticated), Message(UserNotFound)}
    ensures o.response.body == Message(UserNotFound) <==>
      Decoded(jar, env).Some? && !storeFault && Decoded(jar, env).value.id !in users
    ensures o.response.status == 200 <==>
      Decoded(jar, env).Some? && !storeFault && Decoded(jar, env).value.id in users
    ensures o.response.status == 200 ==>
      var id := Decoded(jar, env).value.id;
      o.jar == jar && o.response.body == UserProfile(ProfileOf(id, users[id]))
  {
    var token := TokenOf(jar);
    if !Truthy(token) then CookieStep(Response(401, Message(NotAuthenticated)), jar)
    else
      var cleared := jar[AuthCookie := ClearedCookie(env.config.production)];
      match env.codec.verify(env.config.secret, env.now, token.value)
      case None => CookieStep(Response(401, Message(NotAuthenticated)), cleared)
      case Some(decoded) =>
        if storeFault then CookieStep(Response(401, Message(NotAuthenticated)), cleared)
        else if decoded.id !in users then CookieStep(Response(401, Message(UserNotFound)), cleared)
        else CookieStep(Response(200, UserProfile(ProfileOf(decoded.id, users[decoded.id]))), jar)
  }

  /** The route handler. It reads the store and writes only the cookie jar. */
  method Get(store: UserStore, jar: CookieJar, storeFault: bool, env: Env) returns (resp: Response)
    modifies jar
    ensures CookieStep(resp, jar.cookies) == CurrentSpec(store.users, old(jar.cookies), storeFault, env)
  {
    var token := TokenOf(jar.cookies);
    if !Truthy(token) {
      return Response(401, Message(NotAuthenticated));
    }
    var decoded := env.codec.verify(env.config.secret, env.now, token.value);
    if decoded.None? {
      // jwt.verify threw: the catch clears the cookie
      jar.Set(ClearedCookie(env.config.production));
      return Response(401, Message(NotAuthenticated));
    }
    var user := store.FindById(decoded.value.id, storeFault);
    if user.Threw? {
      jar.Set(ClearedCookie(env.config.production));
      return Response(401, Message(NotAuthenticated));
    }
    if user.value.None? {
      jar.Set(ClearedCookie(env.config.production));
      return Response(401, Message(UserNotFound));
    }
    resp := Response(200, UserProfile(user.value.value));
  }

  /** Self-healing: once a presented cookie is rejected, the next request
      presents none, and is answered "Not authenticated" without a further
      cookie change. */
  lemma RejectedCookieStaysCleared(users: UserTable, jar: Jar, storeFault: bool, env: Env,
                                   users': UserTable, storeFault': bool, env': Env)
    requires Presented(jar)
    requires CurrentSpec(users, jar, storeFault, env).response.status == 401
    ensures var after := CurrentSpec(users, jar, storeFault, env).jar;
            CurrentSpec(users', after, storeFault', env') == CookieStep(Response(401, Message(NotAuthenticated)), after)
  {
  }
}
