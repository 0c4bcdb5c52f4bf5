/** Properties that relate several requests: a session as it is opened, used,
    updated and closed across the routes. */
module Scenarios {
  import opened Types
  import opened Session
  import opened Users
  import opened ApiHelpers
  import LoginRoute
  import CurrentRoute
  import SignupRoute
  import ProfileRoute
  import LogoutRoute

  /** A login is honoured by the current-user route until the token's
      lifetime runs out, and the profile it answers with is the store's record
      of the user who logged in. */
  lemma LoginThenCurrent(users: UserTable, jar: Jar, body: LoginRoute.LoginBody, env: Env, later: int)
    requires LoginRoute.LoginSpec(users, jar, Some(body), false, env).response.status == 200
    requires SignThenVerify(env.codec)
    requires env.now <= later < env.now + MaxAgeSeconds(body.rememberMe)
    ensures
      var login := LoginRoute.LoginSpec(users, jar, Some(body), false, env);
      var id := login.response.body.account.id;
      && id in users
      && CurrentRoute.CurrentSpec(users, login.jar, false, env.(now := later))
         == CookieStep(Response(200, UserProfile(ProfileOf(id, users[id]))), login.jar)
  {
    // the session cookie's token is live at `later`
    assert LiveAt(ExpiresIn(body.rememberMe), env.now, later);
  }

  /** A whole session: a signup, then a login with the same email and
      password, then a current-user read with the cookie the login set. */
  lemma SignupLoginCurrent(users: UserTable, jar: Jar, username: string, email: string, password: string,
                           newId: UserId, rememberMe: bool, env: Env, later: int)
    requires EmailsUnique(users)
    requires username != "" && email != "" && password != ""
    requires !EmailInUse(users, email) && newId !in users
    requires HashThenCompare(env.hasher) && SignThenVerify(env.codec)
    requires env.now <= later < env.now + MaxAgeSeconds(rememberMe)
    ensures
      var signup := SignupRoute.SignupSpec(users, Some(SignupRoute.SignupBody(Some(username), Some(email), Some(password))),
                                           newId, false, env.hasher);
      var login := LoginRoute.LoginSpec(signup.users, jar, Some(LoginRoute.LoginBody(Some(email), Some(password), rememberMe)),
                                        false, env);
      && signup.response == Response(201, UserWithMessage(SignupRoute.UserCreated, PublicUser(newId, username, email)))
      && login.response == Response(200, UserWithMessage(LoginRoute.LoginSucceeded, PublicUser(newId, username, email)))
      && CurrentRoute.CurrentSpec(signup.users, login.jar, false, env.(now := later)).response
         == Response(200, UserProfile(Profile(newId, username, email, None, None, None, None, None)))
  {
    var sbody := SignupRoute.SignupBody(Some(username), Some(email), Some(password));
    var signup := SignupRoute.SignupSpec(users, Some(sbody), newId, false, env.hasher);
    assert signup.users == users[newId := SignupRoute.RegisteredRecord(sbody, env.hasher)];
    UserWithEmailUnique(signup.users, email, newId);
    var lbody := LoginRoute.LoginBody(Some(email), Some(password), rememberMe);
    LoginThenCurrent(signup.users, jar, lbody, env, later);
  }

  /** After a logout no route sees a session: the current-user route answers
      "Not authenticated" without touching the cookies, the profile route
      answers 401 without touching the store, and `getAuthUser` gives null. */
  lemma LogoutEndsSession(users: UserTable, jar: Jar, env: Env, storeFault: bool, body: Option<ProfileRoute.ProfileBody>)
    ensures
      var out := LogoutRoute.LogoutSpec(jar, env.config).jar;
      && CurrentRoute.CurrentSpec(users, out, storeFault, env)
         == CookieStep(Response(401, Message(CurrentRoute.NotAuthenticated)), out)
      && ProfileRoute.ProfileSpec(users, out, body, storeFault, env)
         == StoreStep(Response(401, Message(ProfileRoute.NotAuthenticated)), users)
      && GetAuthUser(out, env).None?
  {
  }

  /** `getAuthUser` and the current-user route agree on who is signed in:
      when the helper finds no session the route refuses, and when the route
      answers with a user it is the helper's user. */
  lemma AuthUserAgreesWithCurrent(users: UserTable, jar: Jar, storeFault: bool, env: Env)
    ensures GetAuthUser(jar, env).None? ==> CurrentRoute.CurrentSpec(users, jar, storeFault, env).response.status == 401
    ensures
      var current := CurrentRoute.CurrentSpec(users, jar, storeFault, env);
      current.response.status == 200 ==>
        GetAuthUser(jar, env).Some? && GetAuthUser(jar, env).value.id == current.response.body.user.id
  {
  }

  /** After a profile update the current-user route answers with the updated
      record, read from the store, although the session token, and with it
      the claims `getAuthUser` reports, are unchanged. */
  lemma CurrentReflectsProfileUpdate(users: UserTable, jar: Jar, body: ProfileRoute.ProfileBody, env: Env)
    requires ProfileRoute.ProfileSpec(users, jar, Some(body), false, env).response.status == 200
    ensures
      var update := ProfileRoute.ProfileSpec(users, jar, Some(body), false, env);
      CurrentRoute.CurrentSpec(update.users, jar, false, env) == CookieStep(update.response, jar)
  {
  }
}
