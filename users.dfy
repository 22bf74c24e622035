/** The user table, reduced to what the authentication flows read and write:
    look-ups by e-mail and by id, and creation. */
module Users {
  import opened Common

  datatype Profile = Profile(name: Option<string>, surname: Option<string>, phone: Option<string>)

  const NO_PROFILE: Profile := Profile(None, None, None)

  datatype User = User(
    id: nat,
    email: string,
    roles: seq<Role>,
    passwordHash: Option<Hash>,
    provider: Option<Provider>,
    profile: Profile)

  /** A user whose e-mail is the configured administrator address gets both roles. */
  function RolesFor(email: string, adminMail: string): (roles: seq<Role>)
    ensures USER in roles
    ensures ADMIN in roles <==> email == adminMail
  {
    if email == adminMail then [USER, ADMIN] else [USER]
  }

  /** The first user with the given e-mail, as a unique look-up returns it. */
  function FindByEmail(users: seq<User>, email: string): (r: Option<User>)
    ensures r.Some? ==> r.value in users && r.value.email == email
    ensures r.None? ==> forall u :: u in users ==> u.email != email
  {
    if |users| == 0 then None
    else if users[0].email == email then Some(users[0])
    else FindByEmail(users[1..], email)
  }

  function FindById(users: seq<User>, id: nat): (r: Option<User>)
    ensures r.Some? ==> r.value in users && r.value.id == id
    ensures r.None? ==> forall u :: u in users ==> u.id != id
  {
    if |users| == 0 then None
    else if users[0].id == id then Some(users[0])
    else FindById(users[1..], id)
  }

  class UserStore {
    var users: seq<User>
    var nextId: nat
    const adminMail: string

    /** Ids and e-mails are unique, as the database's unique indexes enforce. */
    ghost predicate Valid()
      reads this
    {
      && (forall i, j :: 0 <= i < j < |users| ==> users[i].id != users[j].id && users[i].email != users[j].email)
      && (forall i :: 0 <= i < |users| ==> users[i].id < nextId)
    }

    constructor (adminMail: string)
      ensures Valid() && users == [] && this.adminMail == adminMail
    {
      users := [];
      nextId := 0;
      this.adminMail := adminMail;
    }

    function GetByEmail(email: string): Option<User>
      reads this
    {
      FindByEmail(users, email)
    }

    function GetById(id: nat): Option<User>
      reads this
    {
      FindById(users, id)
    }

    /** `create(dto)`: a new user with the roles its e-mail earns. The e-mail
        must be free; the database rejects a duplicate. */
    method Create(email: string, profile: Profile, passwordHash: Option<Hash>) returns (u: User)
      requires Valid() && GetByEmail(email).None?
      modifies this
      ensures Valid()
      ensures u == User(old(nextId), email, RolesFor(email, adminMail), passwordHash, None, profile)
      ensures users == old(users) + [u]
      ensures GetByEmail(email) == Some(u)
    {
      u := User(nextId, email, RolesFor(email, adminMail), passwordHash, None, profile);
      users := users + [u];
      nextId := nextId + 1;
      FoundAfterAppend(old(users), u);
    }

    /** `createByOAuth(...)`. `accepted` is the database's answer: when it
        returns nothing, no user is stored. */
    method CreateByOAuth(email: string, provider: Provider, profile: Profile, accepted: bool)
      returns (r: Option<User>)
      requires Valid() && GetByEmail(email).None?
      modifies this
      ensures Valid()
      ensures !accepted ==> r.None? && users == old(users) && nextId == old(nextId)
      ensures accepted ==> r == Some(User(old(nextId), email, RolesFor(email, adminMail), None, Some(provider), profile))
                           && users == old(users) + [r.value]
    {
      if !accepted {
        return None;
      }
      var u := User(nextId, email, RolesFor(email, adminMail), None, Some(provider), profile);
      users := users + [u];
      nextId := nextId + 1;
      r := Some(u);
    }
  }

  /** A user appended under a fresh e-mail is what the look-up then finds. */
  lemma {:induction false} FoundAfterAppend(users: seq<User>, u: User)
    requires FindByEmail(users, u.email).None?
    ensures FindByEmail(users + [u], u.email) == Some(u)
  {
    if |users| == 0 {
    } else {
      assert (users + [u])[1..] == users[1..] + [u];
      FoundAfterAppend(users[1..], u);
    }
  }
}
