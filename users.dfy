/** The credential store: the user table, looked up by id or by email, with a
    unique index on email. Each operation may throw; `fault` stands for a store
    that is unavailable for the current request. */
module Users {
  import opened Types

  /** The unique index on email holds. */
  ghost predicate EmailsUnique(users: UserTable)
  {
    forall a, b :: a in users && b in users && users[a].email == users[b].email ==> a == b
  }

  ghost predicate EmailInUse(users: UserTable, email: string)
  {
    exists id :: id in users && users[id].email == email
  }

  /** Some record other than `id` holds `email`. */
  ghost predicate EmailTakenByOther(users: UserTable, id: UserId, email: string)
  {
    exists other :: other in users && other != id && users[other].email == email
  }

  /** The id `findUnique({ where: { email } })` finds. */
  ghost function UserWithEmail(users: UserTable, email: string): (r: Option<UserId>)
    ensures r.Some? <==> EmailInUse(users, email)
    ensures r.Some? ==> r.value in users && users[r.value].email == email
  {
    if EmailInUse(users, email) then
      Some(var id :| id in users && users[id].email == email; id)
    else None
  }

  /** Under the unique index, the record found by email is the only one. */
  lemma UserWithEmailUnique(users: UserTable, email: string, id: UserId)
    requires EmailsUnique(users)
    requires id in users && users[id].email == email
    ensures UserWithEmail(users, email) == Some(id)
  {
  }

  /** The record `db.user.create` makes from a signup: the optional profile
      fields start out null. */
  function NewRecord(username: string, email: string, password: PasswordHash): (u: UserRecord)
    ensures u.username == username && u.email == email && u.password == password
    ensures u.address.None? && u.city.None? && u.state.None? && u.zipCode.None? && u.country.None?
  {
    UserRecord(username, email, password, None, None, None, None, None)
  }

  /** One optional field of an update: an undefined field is left as it is,
      null clears it, a string sets it. */
  datatype FieldUpdate = Keep | SetNull | SetText(text: string)

  function ApplyField(current: Option<string>, f: FieldUpdate): (r: Option<string>)
    ensures f.Keep? ==> r == current
    ensures f.SetNull? ==> r.None?
    ensures f.SetText? ==> r == Some(f.text)
  {
    match f
    case Keep => current
    case SetNull => None
    case SetText(t) => Some(t)
  }

  /** The `data` of `db.user.update` in the profile route. */
  datatype ProfileEdit = ProfileEdit(
    username: string,
    email: string,
    address: FieldUpdate,
    city: FieldUpdate,
    state: FieldUpdate,
    zipCode: FieldUpdate,
    country: FieldUpdate)

  function Edited(u: UserRecord, e: ProfileEdit): (r: UserRecord)
    ensures r.username == e.username && r.email == e.email && r.password == u.password
    ensures r.address == ApplyField(u.address, e.address) && r.city == ApplyField(u.city, e.city)
    ensures r.state == ApplyField(u.state, e.state) && r.zipCode == ApplyField(u.zipCode, e.zipCode)
    ensures r.country == ApplyField(u.country, e.country)
  {
    UserRecord(e.username, e.email, u.password,
      ApplyField(u.address, e.address), ApplyField(u.city, e.city),
      ApplyField(u.state, e.state), ApplyField(u.zipCode, e.zipCode),
      ApplyField(u.country, e.country))
  }

  /** Inserting a record whose id and email are both new keeps the index. */
  lemma InsertKeepsUnique(users: UserTable, id: UserId, u: UserRecord)
    requires EmailsUnique(users)
    requires id !in users && !EmailInUse(users, u.email)
    ensures EmailsUnique(users[id := u])
  {
  }

  /** Rewriting a record with an email no other record holds keeps the index. */
  lemma UpdateKeepsUnique(users: UserTable, id: UserId, u: UserRecord)
    requires EmailsUnique(users)
    requires !EmailTakenByOther(users, id, u.email)
    ensures EmailsUnique(users[id := u])
  {
  }

  /** Hypothesis about the password hasher, never assumed by a route: a
      password matches its own hash. */
  ghost predicate HashThenCompare(hasher: Hasher)
  {
    forall p :: hasher.compare(p, hasher.hash(p))
  }

  /** A handler's answer together with the user table after it. */
  datatype StoreStep = StoreStep(response: Response, users: UserTable)

  class UserStore {
    var users: UserTable

    ghost predicate Valid()
      reads this
    {
      EmailsUnique(users)
    }

    constructor ()
      ensures Valid() && users == map[]
    {
      users := map[];
    }

    /** `findUnique({ where: { email } })`, returning the whole record. */
    method FindByEmail(email: string, fault: bool) returns (r: Reply<Option<(UserId, UserRecord)>>)
      requires Valid()
      ensures fault <==> r.Threw?
      ensures r.Done? && r.value.Some? ==>
        r.value.value.0 in users && users[r.value.value.0] == r.value.value.1 && r.value.value.1.email == email
      ensures r.Done? ==> (r.value.Some? <==> EmailInUse(users, email))
      ensures r.Done? && r.value.Some? ==> UserWithEmail(users, email) == Some(r.value.value.0)
    {
      if fault {
        return Threw;
      }
      if exists id :: id in users && users[id].email == email {
        var id :| id in users && users[id].email == email;
        UserWithEmailUnique(users, email, id);
        r := Done(Some((id, users[id])));
      } else {
        r := Done(None);
      }
    }

    /** `findUnique({ where: { id }, select: { ... } })`. */
    method FindById(id: UserId, fault: bool) returns (r: Reply<Option<Profile>>)
      ensures fault <==> r.Threw?
      ensures r.Done? ==> (r.value.Some? <==> id in users)
      ensures r.Done? && r.value.Some? ==> r.value.value == ProfileOf(id, users[id])
    {
      if fault {
        return Threw;
      }
      if id in users {
        r := Done(Some(ProfileOf(id, users[id])));
      } else {
        r := Done(None);
      }
    }

    /** `create({ data })`: throws on an id or an email already present. */
    method Create(id: UserId, u: UserRecord, fault: bool) returns (r: Reply<(UserId, UserRecord)>)
      requires Valid()
      modifies this
      ensures Valid()
      ensures r.Done? <==> !fault && id !in old(users) && !EmailInUse(old(users), u.email)
      ensures r.Done? ==> r.value == (id, u) && users == old(users)[id := u]
      ensures r.Threw? ==> users == old(users)
    {
      if fault || id in users || exists other :: other in users && users[other].email == u.email {
        return Threw;
      }
      InsertKeepsUnique(users, id, u);
      users := users[id := u];
      r := Done((id, u));
    }

    /** `update({ where: { id }, data, select })`: throws when no record has
        the id, or when another record holds the new email. */
    method Update(id: UserId, e: ProfileEdit, fault: bool) returns (r: Reply<Profile>)
      requires Valid()
      modifies this
      ensures Valid()
      ensures r.Done? <==> !fault && id in old(users) && !EmailTakenByOther(old(users), id, e.email)
      ensures r.Done? ==> users == old(users)[id := Edited(old(users)[id], e)]
      ensures r.Done? ==> r.value == ProfileOf(id, users[id])
      ensures r.Threw? ==> users == old(users)
    {
      if fault || id !in users || exists other :: other in users && other != id && users[other].email == e.email {
        return Threw;
      }
      UpdateKeepsUnique(users, id, Edited(users[id], e));
      users := users[id := Edited(users[id], e)];
      r := Done(ProfileOf(id, users[id]));
    }
  }
}
