/** `POST` of app/api/auth/login/route.ts: check the credentials, mint a
    session token and set it in the `auth_token` cookie. */
module LoginRoute {
  import opened Types
  import opened Session
  import opened Users

  const CredentialsRequired := "Email and password are required"
  const InvalidCredentials := "Invalid email or password"
  const LoginSucceeded := "Login successful"
  const LoginFailed := "An error occurred during login"

  /** The parsed request body; `rememberMe` is its truthiness. */
  datatype LoginBody = LoginBody(email: Option<string>, password: Option<string>, rememberMe: bool)

  /** The body passes the `!email` and `!password` tests. */
  predicate HasCredentials(b: LoginBody)
  {
    Truthy(b.email) && Truthy(b.password)
  }

  /** The credentials check out: the email belongs to a record whose stored
      hash matches the password. */
  ghost predicate Authentic(users: UserTable, b: LoginBody, hasher: Hasher)
    requires HasCredentials(b)
  {
    var found := UserWithEmail(users, b.email.value);
    found.Some? && hasher.compare(b.password.value, users[found.value].password)
  }

  /** The answer and the client's cookies after a login request. `body` None
      stands for a body that is not JSON; `storeFault` for a store that throws. */
  ghost function LoginSpec(users: UserTable, jar: Jar, body: Option<LoginBody>, storeFault: bool, env: Env): (o: CookieStep)
    ensures o.response.status in {200, 400, 401, 500}
    ensures o.response.status != 200 ==> o.jar == jar
    ensures o.response.status == 400 <==> body.Some? && !HasCredentials(body.value)
    ensures o.response.status == 400 ==> o.response.body == Message(CredentialsRequired)
    ensures o.response.status == 500 <==> body.None? || (HasCredentials(body.value) && storeFault)
    ensures o.response.status == 500 ==> o.response.body == Message(LoginFailed)
    ensures o.response.status == 401 <==>
      body.Some? && HasCredentials(body.value) && !storeFault && !Authentic(users, body.value, env.hasher)
    ensures o.response.status == 401 ==> o.response.body == Message(InvalidCredentials)
    ensures o.response.status == 200 ==>
      body.Some? && HasCredentials(body.value) && Authentic(users, body.value, env.hasher) &&
      var id := UserWithEmail(users, body.value.email.value).value;
      var remember := body.value.rememberMe;
      && o.response.body == UserWithMessage(LoginSucceeded, PublicOf(id, users[id]))
      && o.jar.Keys == jar.Keys + {AuthCookie}
      && (forall n :: n in jar && n != AuthCookie ==> o.jar[n] == jar[n])
      && o.jar[AuthCookie] == SessionCookie(
           env.codec.sign(env.config.secret, env.now, ClaimsOf(id, users[id]), ExpiresIn(remember)),
           remember, env.config.production)
  {
    if body.None? then CookieStep(Response(500, Message(LoginFailed)), jar)
    else
      var b := body.value;
      if !HasCredentials(b) then
        CookieStep(Response(400, Message(CredentialsRequired)), jar)
      else if storeFault then
        CookieStep(Response(500, Message(LoginFailed)), jar)
      else
        var found := UserWithEmail(users, b.email.value);
        if found.None? then
          CookieStep(Response(401, Message(InvalidCredentials)), jar)
        else
          var user := users[found.value];
          if !env.hasher.compare(b.password.value, user.password) then
            CookieStep(Response(401, Message(InvalidCredentials)), jar)
          else
            var token := env.codec.sign(env.config.secret, env.now, ClaimsOf(found.value, user), ExpiresIn(b.rememberMe));
            var cookie := SessionCookie(token, b.rememberMe, env.config.production);
            CookieStep(Response(200, UserWithMessage(LoginSucceeded, PublicOf(found.value, user))), jar[AuthCookie := cookie])
  }

  /** The route handler. It reads the store and writes only the cookie jar. */
  method Post(store: UserStore, jar: CookieJar, body: Option<LoginBody>, storeFault: bool, env: Env)
    returns (resp: Response)
    requires store.Valid()
    modifies jar
    ensures CookieStep(resp, jar.cookies) == LoginSpec(store.users, old(jar.cookies), body, storeFault, env)
  {
    if body.None? {
      return Response(500, Message(LoginFailed));
    }
    var b := body.value;
    if !HasCredentials(b) {
      return Response(400, Message(CredentialsRequired));
    }
    var found := store.FindByEmail(b.email.value, storeFault);
    if found.Threw? {
      return Response(500, Message(LoginFailed));
    }
    if found.value.None? {
      return Response(401, Message(InvalidCredentials));
    }
    var (id, user) := found.value.value;
    var passwordMatch := env.hasher.compare(b.password.value, user.password);
    if !passwordMatch {
      return Response(401, Message(InvalidCredentials));
    }
    var token := env.codec.sign(env.config.secret, env.now, ClaimsOf(id, user), ExpiresIn(b.rememberMe));
    jar.Set(SessionCookie(token, b.rememberMe, env.config.production));
    resp := Response(200, UserWithMessage(LoginSucceeded, PublicOf(id, user)));
  }

  /** An unknown email and a known email with the wrong password get the
      same response, and neither sets a cookie. */
  lemma UnknownEmailLooksLikeWrongPassword(
    usersA: UserTable, usersB: UserTable, jar: Jar, bodyA: LoginBody, bodyB: LoginBody, env: Env)
    requires HasCredentials(bodyA) && HasCredentials(bodyB)
    requires !EmailInUse(usersA, bodyA.email.value)
    requires EmailInUse(usersB, bodyB.email.value)
    requires !Authentic(usersB, bodyB, env.hasher)
    ensures LoginSpec(usersA, jar, Some(bodyA), false, env) == LoginSpec(usersB, jar, Some(bodyB), false, env)
    ensures LoginSpec(usersA, jar, Some(bodyA), false, env) == CookieStep(Response(401, Message(InvalidCredentials)), jar)
  {
  }
}
