/** The account service (backend/src/services/authService.js): sign-up,
    sign-in, reading and editing one's own profile. Token issuing and
    password hashing are foreign and stay outside the model; the password
    check is a parameter. */
module AuthService {
  import opened Domain
  import opened Query
  import opened Db

  const EmailRegisteredMsg: string := "Email already registered"
  const BadCredentialsMsg: string := "Invalid email or password"
  const DeactivatedMsg: string := "Account is deactivated"
  const ProfileNotFoundMsg: string := "User not found"
  const EmailInUseMsg: string := "Email already in use"

  predicate HasEmail(email: string, u: User) { u.email == email }

  /** Some stored user has this email. */
  predicate EmailTaken(users: map<Id, User>, email: string)
  {
    exists id :: id in users && users[id].email == email
  }

  /** Some user other than `self` has this email. */
  predicate HeldByOther(users: map<Id, User>, email: string, self: Id)
  {
    exists id :: id in users && id != self && users[id].email == email
  }

  /** No two users share an email (the unique index on `email`). */
  predicate EmailUnique(users: map<Id, User>)
  {
    forall a, b :: a in users && b in users && users[a].email == users[b].email ==> a == b
  }

  /** `User.findOne({ email })`: a user with that email, if there is one;
      with unique emails, the one. */
  function FindByEmail(db: Store, email: string): (r: Option<Id>)
    reads db
    requires db.Valid()
    ensures r.None? <==> !EmailTaken(db.users, email)
    ensures r.Some? ==> r.value in db.users && db.users[r.value].email == email
    ensures EmailUnique(db.users) ==>
              forall id :: id in db.users && db.users[id].email == email ==> r == Some(id)
  {
    var ids := IdsWhere(db.users, email, HasEmail, db.nextId);
    if ids == [] then
      assert forall id :: id in db.users && db.users[id].email == email ==> id in ids;
      None
    else
      assert ids[0] in ids;
      Some(ids[0])
  }

  /** `role || 'user'`: an absent or empty role falls back to a plain user. */
  function RoleOrDefault(role: Option<string>): (r: string)
    ensures Supplied(role) ==> r == role.value
    ensures !Supplied(role) ==> r == UserRole
  {
    if Supplied(role) then role.value else UserRole
  }

  /** Sign-up. `password` is the value the user model stores (its hashing
      hook is not part of this model) and `now` the creation time. New
      accounts are active. */
  method Register(db: Store, name: string, email: string, password: string, role: Option<string>, now: int)
    returns (r: Result<Id>)
    requires db.Valid()
    modifies db
    ensures db.Valid() && db.tasks == old(db.tasks)
    ensures r.Err? <==> EmailTaken(old(db.users), email)
    ensures r.Err? ==> && r.error == Conflict(EmailRegisteredMsg)
                       && db.users == old(db.users) && db.nextId == old(db.nextId)
    ensures r.Ok? ==> && r.value !in old(db.users)
                      && db.users == old(db.users)[r.value := User(name, email, password, RoleOrDefault(role), true, now)]
    ensures EmailUnique(old(db.users)) ==> EmailUnique(db.users)
  {
    var existing := FindByEmail(db, email);
    if existing.Some? {
      return Err(Conflict(EmailRegisteredMsg));
    }
    var id := db.NewId();
    var user := User(name, email, password, RoleOrDefault(role), true, now);
    db.users := db.users[id := user];
    r := Ok(id);
  }

  /** Sign-in. `matches(candidate, hash)` is the stored-hash comparison.
      An unknown email and a wrong password give the same message, and
      both are reported before a deactivated account. */
  function Login(db: Store, email: string, password: string, matches: (string, string) -> bool): (r: Result<Id>)
    reads db
    requires db.Valid()
    ensures !EmailTaken(db.users, email) ==> r == Err(Authentication(BadCredentialsMsg))
    ensures EmailUnique(db.users) ==>
              forall id :: id in db.users && db.users[id].email == email ==>
                && (!matches(password, db.users[id].password) ==> r == Err(Authentication(BadCredentialsMsg)))
                && (matches(password, db.users[id].password) && !db.users[id].isActive ==>
                      r == Err(Authentication(DeactivatedMsg)))
                && (matches(password, db.users[id].password) && db.users[id].isActive ==> r == Ok(id))
    ensures r.Err? ==> r.error in {Authentication(BadCredentialsMsg), Authentication(DeactivatedMsg)}
    ensures r.Ok? ==> && r.value in db.users && db.users[r.value].email == email
                      && matches(password, db.users[r.value].password) && db.users[r.value].isActive
  {
    var found := FindByEmail(db, email);
    if found.None? || !matches(password, db.users[found.value].password) then
      Err(Authentication(BadCredentialsMsg))
    else if !db.users[found.value].isActive then
      Err(Authentication(DeactivatedMsg))
    else
      Ok(found.value)
  }

  /** An absent profile is an authentication failure, not a missing
      resource. */
  function GetProfile(db: Store, userId: Id): (r: Result<User>)
    reads db
    ensures r.Err? <==> userId !in db.users
    ensures r.Err? ==> r.error == Authentication(ProfileNotFoundMsg)
    ensures r.Ok? ==> r.value == db.users[userId]
  {
    if userId in db.users then Ok(db.users[userId]) else Err(Authentication(ProfileNotFoundMsg))
  }

  /** The `{ name, email }` update of `findByIdAndUpdate`: a field the body
      leaves out keeps its value, and nothing else of the user changes. */
  function ApplyProfile(u: User, name: Option<string>, email: Option<string>): (r: User)
    ensures r.name == (if name.Some? then name.value else u.name)
    ensures r.email == (if email.Some? then email.value else u.email)
    ensures && r.password == u.password && r.role == u.role
            && r.isActive == u.isActive && r.createdAt == u.createdAt
  {
    u.(name := if name.Some? then name.value else u.name,
       email := if email.Some? then email.value else u.email)
  }

  /** Editing one's own profile. A supplied email held by another user is a
      conflict, checked before the caller is looked up; keeping one's own
      email is not. An absent caller changes nothing and gets no user. */
  method UpdateProfile(db: Store, userId: Id, name: Option<string>, email: Option<string>)
    returns (r: Result<Option<User>>)
    requires db.Valid()
    modifies db
    ensures db.Valid() && db.tasks == old(db.tasks) && db.nextId == old(db.nextId)
    ensures r.Err? <==> Supplied(email) && HeldByOther(old(db.users), email.value, userId)
    ensures r.Err? ==> r.error == Conflict(EmailInUseMsg)
    ensures (r.Err? || r == Ok(None)) ==> db.users == old(db.users)
    ensures r == Ok(None) <==> r.Ok? && userId !in old(db.users)
    ensures r.Ok? && r.value.Some? ==>
              && userId in old(db.users)
              && r.value.value == ApplyProfile(old(db.users)[userId], name, email)
              && db.users == old(db.users)[userId := r.value.value]
    ensures EmailUnique(old(db.users)) && email != Some("") ==> EmailUnique(db.users)
  {
    if Supplied(email) {
      var taken := HeldByOther(db.users, email.value, userId);
      if taken {
        return Err(Conflict(EmailInUseMsg));
      }
    }
    if userId !in db.users {
      return Ok(None);
    }
    var user := ApplyProfile(db.users[userId], name, email);
    db.users := db.users[userId := user];
    r := Ok(Some(user));
  }
}
