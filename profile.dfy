/** `PUT` of app/api/auth/profile/route.ts: update the record of the session's
    user. The token is verified before the body is read, and the cookie is
    never written. */
module ProfileRoute {
  import opened Types
  import opened Session
  import opened Users

  const NotAuthenticated := "Not authenticated"
  const FieldsRequired := "Username and email are required"
  const UpdateFailed := "Failed to update profile"

  /** The parsed request body. A profile field that is absent from the body is
      undefined and leaves the stored value as it is. */
  datatype ProfileBody = ProfileBody(
    username: Option<string>,
    email: Option<string>,
    address: FieldUpdate,
    city: FieldUpdate,
    state: FieldUpdate,
    zipCode: FieldUpdate,
    country: FieldUpdate)

  function EditOf(b: ProfileBody): (e: ProfileEdit)
    requires Truthy(b.username) && Truthy(b.email)
    ensures e.username == b.username.value && e.email == b.email.value
    ensures e.address == b.address && e.city == b.city && e.state == b.state
    ensures e.zipCode == b.zipCode && e.country == b.country
  {
    ProfileEdit(b.username.value, b.email.value, b.address, b.city, b.state, b.zipCode, b.country)
  }

  /** The answer and the user table after a profile update. `body` None stands
      for a body that is not JSON; `storeFault` for a store that throws. */
  ghost function ProfileSpec(users: UserTable, jar: Jar, body: Option<ProfileBody>, storeFault: bool, env: Env): (o: StoreStep)
    ensures o.response.status in {200, 400, 401, 500}
    ensures o.response.status != 200 ==> o.users == users
    ensures o.response.status == 401 <==> !Presented(jar)
    ensures o.response.status == 401 ==> o.response.body == Message(NotAuthenticated)
    ensures Presented(jar) && Decoded(jar, env).None? ==> o.response == Response(500, Message(UpdateFailed))
    ensures o.response.status == 400 <==>
      Decoded(jar, env).Some? && body.Some? && !(Truthy(body.value.username) && Truthy(body.value.email))
    ensures o.response.status == 400 ==> o.response.body == Message(FieldsRequired)
    ensures o.response.status == 500 ==> o.response.body == Message(UpdateFailed)
    ensures o.response.status == 200 <==>
      && Decoded(jar, env).Some? && body.Some? && Truthy(body.value.username) && Truthy(body.value.email)
      && !storeFault && Decoded(jar, env).value.id in users
      && !EmailTakenByOther(users, Decoded(jar, env).value.id, body.value.email.value)
    ensures o.response.status == 200 ==>
      var id := Decoded(jar, env).value.id;
      && o.users.Keys == users.Keys
      && (forall other :: other in users && other != id ==> o.users[other] == users[other])
      && o.users[id] == Edited(users[id], EditOf(body.value))
      && o.response.body == UserProfile(ProfileOf(id, o.users[id]))
    ensures EmailsUnique(users) ==> EmailsUnique(o.users)
  {
    var token := TokenOf(jar);
    if !Truthy(token) then StoreStep(Response(401, Message(NotAuthenticated)), users)
    else match env.codec.verify(env.config.secret, env.now, token.value)
      case None => StoreStep(Response(500, Message(UpdateFailed)), users)
      case Some(decoded) =>
        if body.None? then StoreStep(Response(500, Message(UpdateFailed)), users)
        else
          var b := body.value;
          if !Truthy(b.username) || !Truthy(b.email) then
            StoreStep(Response(400, Message(FieldsRequired)), users)
          else if storeFault || decoded.id !in users || EmailTakenByOther(users, decoded.id, b.email.value) then
            StoreStep(Response(500, Message(UpdateFailed)), users)
          else
            var u := Edited(users[decoded.id], EditOf(b));
            assert EmailsUnique(users) ==> EmailsUnique(users[decoded.id := u]) by {
              if EmailsUnique(users) {
                UpdateKeepsUnique(users, decoded.id, u);
              }
            }
            StoreStep(Response(200, UserProfile(ProfileOf(decoded.id, u))), users[decoded.id := u])
  }

  /** The route handler. It writes only the store, never the cookie jar. */
  method Put(store: UserStore, jar: CookieJar, body: Option<ProfileBody>, storeFault: bool, env: Env)
    returns (resp: Response)
    requires store.Valid()
    modifies store
    ensures store.Valid()
    ensures StoreStep(resp, store.users) == ProfileSpec(old(store.users), jar.cookies, body, storeFault, env)
  {
    var token := TokenOf(jar.cookies);
    if !Truthy(token) {
      return Response(401, Message(NotAuthenticated));
    }
    var decoded := env.codec.verify(env.config.secret, env.now, token.value);
    if decoded.None? {
      // jwt.verify threw: the catch answers 500
      return Response(500, Message(UpdateFailed));
    }
    if body.None? {
      return Response(500, Message(UpdateFailed));
    }
    var b := body.value;
    if !Truthy(b.username) || !Truthy(b.email) {
      return Response(400, Message(FieldsRequired));
    }
    var updatedUser := store.Update(decoded.value.id, EditOf(b), storeFault);
    if updatedUser.Threw? {
      return Response(500, Message(UpdateFailed));
    }
    resp := Response(200, UserProfile(updatedUser.value));
  }
}
