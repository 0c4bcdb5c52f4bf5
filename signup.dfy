/** `POST` of app/api/auth/signup/route.ts: register a new user with a hashed
    password. It does not log the user in. */
module SignupRoute {
  import opened Types
  import opened Users

  const MissingFields := "Missing required fields"
  const DuplicateEmail := "User with this email already exists"
  const UserCreated := "User created successfully"
  const SignupFailed := "An error occurred while creating the user"

  datatype SignupBody = SignupBody(username: Option<string>, email: Option<string>, password: Option<string>)

  /** The body passes the `!username`, `!email` and `!password` tests. */
  predicate Complete(b: SignupBody)
  {
    Truthy(b.username) && Truthy(b.email) && Truthy(b.password)
  }

  /** The record a complete signup body creates. */
  function RegisteredRecord(b: SignupBody, hasher: Hasher): (u: UserRecord)
    requires Complete(b)
    ensures u.username == b.username.value && u.email == b.email.value
    ensures u.password == hasher.hash(b.password.value)
  {
    NewRecord(b.username.value, b.email.value, hasher.hash(b.password.value))
  }

  /** The answer and the user table after a signup request. `newId` is the id
      the store generates for a new record; `storeFault` stands for a store
      that throws. */
  ghost function SignupSpec(users: UserTable, body: Option<SignupBody>, newId: UserId, storeFault: bool, hasher: Hasher): (o: StoreStep)
    ensures o.response.status in {201, 400, 500}
    ensures o.response.status != 201 ==> o.users == users
    ensures o.response == Response(400, Message(MissingFields)) <==> body.Some? && !Complete(body.value)
    ensures o.response == Response(400, Message(DuplicateEmail)) <==>
      body.Some? && Complete(body.value) && !storeFault && EmailInUse(users, body.value.email.value)
    ensures o.response.status == 400 ==> o.response.body in {Message(MissingFields), Message(DuplicateEmail)}
    ensures o.response.status == 500 ==> o.response.body == Message(SignupFailed)
    ensures o.response.status == 201 <==>
      body.Some? && Complete(body.value) && !storeFault && !EmailInUse(users, body.value.email.value) && newId !in users
    ensures o.response.status == 201 ==>
      && newId !in users
      && o.users.Keys == users.Keys + {newId}
      && (forall id :: id in users ==> o.users[id] == users[id])
      && o.users[newId] == RegisteredRecord(body.value, hasher)
      && o.response.body == UserWithMessage(UserCreated, PublicOf(newId, o.users[newId]))
    ensures EmailsUnique(users) ==> EmailsUnique(o.users)
  {
    if body.None? then StoreStep(Response(500, Message(SignupFailed)), users)
    else
      var b := body.value;
      if !Complete(b) then
        StoreStep(Response(400, Message(MissingFields)), users)
      else if storeFault then
        StoreStep(Response(500, Message(SignupFailed)), users)
      else if EmailInUse(users, b.email.value) then
        StoreStep(Response(400, Message(DuplicateEmail)), users)
      else if newId in users then
        StoreStep(Response(500, Message(SignupFailed)), users)
      else
        var u := RegisteredRecord(b, hasher);
        assert EmailsUnique(users) ==> EmailsUnique(users[newId := u]) by {
          if EmailsUnique(users) {
            InsertKeepsUnique(users, newId, u);
          }
        }
        StoreStep(Response(201, UserWithMessage(UserCreated, PublicOf(newId, u))), users[newId := u])
  }

  /** The route handler. It writes only the store. */
  method Post(store: UserStore, body: Option<SignupBody>, newId: UserId, storeFault: bool, hasher: Hasher)
    returns (resp: Response)
    requires store.Valid()
    modifies store
    ensures store.Valid()
    ensures StoreStep(resp, store.users) == SignupSpec(old(store.users), body, newId, storeFault, hasher)
  {
    if body.None? {
      return Response(500, Message(SignupFailed));
    }
    var b := body.value;
    if !Complete(b) {
      return Response(400, Message(MissingFields));
    }
    var existingUser := store.FindByEmail(b.email.value, storeFault);
    if existingUser.Threw? {
      return Response(500, Message(SignupFailed));
    }
    if existingUser.value.Some? {
      return Response(400, Message(DuplicateEmail));
    }
    var hashedPassword := hasher.hash(b.password.value);
    var newUser := store.Create(newId, NewRecord(b.username.value, b.email.value, hashedPassword), storeFault);
    if newUser.Threw? {
      return Response(500, Message(SignupFailed));
    }
    var (id, u) := newUser.value;
    resp := Response(201, UserWithMessage(UserCreated, PublicOf(id, u)));
  }
}
