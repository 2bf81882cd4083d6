/**
 * auth.py: login, registration, password change and user deletion over the
 * users table. The password digest (`_hash_password`, SHA-256 in hex) is the
 * parameter `hash`; nothing about it is assumed, so two passwords may share
 * a digest.
 */
module Auth {
  import opened Common
  import opened Schema
  import Tables
  import Store

  // ---------------------------------------------------------------------
  // login
  // ---------------------------------------------------------------------

  /** User `id` has this username and this stored digest. */
  predicate Matches(users: map<nat, User>, id: nat, username: string, digest: string) {
    id in users && users[id].username == username && users[id].digest == digest
  }

  /** The first user (in id order) below `n` that matches: `fetchone()` of the table scan. */
  function FirstMatch(users: map<nat, User>, n: nat, username: string, digest: string): (r: Option<nat>)
    ensures r.Some? ==> r.value < n && Matches(users, r.value, username, digest)
    ensures forall id: nat :: id < n && Matches(users, id, username, digest) ==> r.Some? && r.value <= id
  {
    if n == 0 then None
    else
      var r := FirstMatch(users, n - 1, username, digest);
      if r.Some? then r
      else if Matches(users, n - 1, username, digest) then Some(n - 1)
      else None
  }

  /** `login(u, p)`: the record of a user named `u` whose stored digest is `hash(p)`, if there is one. */
  function Login(db: Db, hash: string -> string, username: string, password: string): (r: Option<(nat, User)>)
    requires IdsBelow(db.users, db.nextUser)
    ensures r.Some? <==> exists id :: Matches(db.users, id, username, hash(password))
    ensures r.Some? ==> Matches(db.users, r.value.0, username, hash(password)) && r.value.1 == db.users[r.value.0]
  {
    match FirstMatch(db.users, db.nextUser, username, hash(password))
    case None => None
    case Some(id) => Some((id, db.users[id]))
  }

  /** With unique usernames a successful login names the one user with that username. */
  lemma LoginUnique(db: Db, hash: string -> string, username: string, password: string, id: nat)
    requires WellFormed(db) && Matches(db.users, id, username, hash(password))
    ensures Login(db, hash, username, password) == Some((id, db.users[id]))
  {
  }

  // ---------------------------------------------------------------------
  // register
  // ---------------------------------------------------------------------

  const ShortUsername := "Username must be at least 3 characters."
  const ShortPassword := "Password must be at least 6 characters."
  const WrongPassword := "Current password is incorrect."
  const ShortNewPassword := "New password must be at least 6 characters."

  function UsernameTaken(username: string): string {
    "Username '" + username + "' already exists."
  }

  /** Some user has exactly this (untrimmed) username. */
  predicate HasUsername(db: Db, username: string) {
    exists id :: id in db.users && db.users[id].username == username
  }

  /**
   * `register`: the trimmed username must have at least 3 characters, then
   * the password at least 6; the untrimmed username must be new. On success
   * the user is stored under a fresh id with the digest of the password.
   */
  function Registered(db: Db, hash: string -> string, username: string, password: string, role: string,
                      fullName: string, now: int): (r: Tables.Step<Result<nat, string>>)
    requires WellFormed(db)
    ensures WellFormed(r.db)
    ensures |Trim(username)| < 3 ==> r == Tables.Step(db, Err(ShortUsername))
    ensures |Trim(username)| >= 3 && |password| < 6 ==> r == Tables.Step(db, Err(ShortPassword))
    ensures |Trim(username)| >= 3 && |password| >= 6 && HasUsername(db, username) ==>
      r == Tables.Step(db, Err(UsernameTaken(username)))
    ensures r.value.Ok? <==> |Trim(username)| >= 3 && |password| >= 6 && !HasUsername(db, username)
    ensures r.value.Ok? ==>
      && r.value.value !in db.users && r.value.value > 0
      && r.db == db.(users := db.users[r.value.value := User(username, hash(password), role, fullName, now)],
                     nextUser := r.value.value + 1)
  {
    if |Trim(username)| < 3 then Tables.Step(db, Err(ShortUsername))
    else if |password| < 6 then Tables.Step(db, Err(ShortPassword))
    else if HasUsername(db, username) then Tables.Step(db, Err(UsernameTaken(username)))
    else
      var user := User(username, hash(password), role, fullName, now);
      UserInserted(db, user);
      Tables.Step(db.(users := db.users[db.nextUser := user], nextUser := db.nextUser + 1), Ok(db.nextUser))
  }

  /** After a successful registration the new user can log in with the password given. */
  lemma RegisterThenLogin(db: Db, hash: string -> string, username: string, password: string, role: string,
                          fullName: string, now: int)
    requires WellFormed(db)
    requires Registered(db, hash, username, password, role, fullName, now).value.Ok?
    ensures var r := Registered(db, hash, username, password, role, fullName, now);
      Login(r.db, hash, username, password) == Some((r.value.value, User(username, hash(password), role, fullName, now)))
  {
    var r := Registered(db, hash, username, password, role, fullName, now);
    LoginUnique(r.db, hash, username, password, r.value.value);
  }

  // ---------------------------------------------------------------------
  // change_password
  // ---------------------------------------------------------------------

  /** `UPDATE users SET password = digest WHERE username = u`. */
  function SetDigest(users: map<nat, User>, username: string, digest: string): (r: map<nat, User>)
    ensures r.Keys == users.Keys
    ensures forall id :: id in users ==>
      r[id] == if users[id].username == username then users[id].(digest := digest) else users[id]
  {
    map id | id in users :: if users[id].username == username then users[id].(digest := digest) else users[id]
  }

  /**
   * `change_password`: the old password must log in, then the new one must
   * have at least 6 characters; on success every user with that username
   * gets the digest of the new password.
   */
  function PasswordChanged(db: Db, hash: string -> string, username: string, oldPassword: string,
                           newPassword: string): (r: Tables.Step<Result<(), string>>)
    requires WellFormed(db)
    ensures WellFormed(r.db)
    ensures Login(db, hash, username, oldPassword).None? ==> r == Tables.Step(db, Err(WrongPassword))
    ensures Login(db, hash, username, oldPassword).Some? && |newPassword| < 6 ==>
      r == Tables.Step(db, Err(ShortNewPassword))
    ensures r.value.Ok? <==> Login(db, hash, username, oldPassword).Some? && |newPassword| >= 6
    ensures r.value.Ok? ==> r.db == db.(users := SetDigest(db.users, username, hash(newPassword)))
  {
    if Login(db, hash, username, oldPassword).None? then Tables.Step(db, Err(WrongPassword))
    else if |newPassword| < 6 then Tables.Step(db, Err(ShortNewPassword))
    else
      var users := SetDigest(db.users, username, hash(newPassword));
      assert UniqueUsernames(users) by {
        forall a, b | a in users && b in users && users[a].username == users[b].username ensures a == b {
          assert db.users[a].username == users[a].username && db.users[b].username == users[b].username;
        }
      }
      Tables.Step(db.(users := users), Ok(()))
  }

  /** After a successful change the new password logs in, and the old one no longer does unless it has the same digest. */
  lemma ChangePasswordThenLogin(db: Db, hash: string -> string, username: string, oldPassword: string,
                                newPassword: string)
    requires WellFormed(db)
    requires PasswordChanged(db, hash, username, oldPassword, newPassword).value.Ok?
    ensures var r := PasswordChanged(db, hash, username, oldPassword, newPassword);
      && Login(r.db, hash, username, newPassword).Some?
      && Login(r.db, hash, username, newPassword).value.0 == Login(db, hash, username, oldPassword).value.0
      && (hash(oldPassword) != hash(newPassword) ==> Login(r.db, hash, username, oldPassword).None?)
  {
    var r := PasswordChanged(db, hash, username, oldPassword, newPassword);
    var id := Login(db, hash, username, oldPassword).value.0;
    assert Matches(r.db.users, id, username, hash(newPassword));
    LoginUnique(r.db, hash, username, newPassword, id);
  }

  // ---------------------------------------------------------------------
  // delete_user
  // ---------------------------------------------------------------------

  /** `delete_user(id)`: exactly that row goes; an unknown id changes nothing. */
  function UserDeleted(db: Db, userId: nat): (r: Db)
    requires WellFormed(db)
    ensures WellFormed(r)
    ensures userId !in r.users && r.users.Keys == db.users.Keys - {userId}
    ensures forall id :: id in r.users ==> r.users[id] == db.users[id]
    ensures r == db.(users := r.users)
  {
    UserRemoved(db, userId);
    db.(users := db.users - {userId})
  }

  /** A deleted user can no longer log in, whatever the password. */
  lemma DeletedCannotLogin(db: Db, hash: string -> string, userId: nat, password: string)
    requires WellFormed(db) && userId in db.users
    ensures Login(UserDeleted(db, userId), hash, db.users[userId].username, password).None?
  {
    var r := UserDeleted(db, userId);
    var username := db.users[userId].username;
    forall id | id in r.users ensures r.users[id].username != username {
      assert r.users[id] == db.users[id] && id != userId;
    }
  }

  // ---------------------------------------------------------------------
  // The functions of auth.py on the database
  // ---------------------------------------------------------------------

  /** `register`, returning the new id or the message shown. */
  method Register(h: Store.Hotel, hash: string -> string, username: string, password: string, role: string,
                  fullName: string, now: int) returns (r: Result<nat, string>)
    requires h.Valid()
    modifies h
    ensures Registered(old(h.State()), hash, username, password, role, fullName, now) == Tables.Step(h.State(), r)
    ensures h.Valid()
  {
    if |Trim(username)| < 3 {
      return Err(ShortUsername);
    }
    if |password| < 6 {
      return Err(ShortPassword);
    }
    if HasUsername(h.State(), username) {
      return Err(UsernameTaken(username));
    }
    var id := h.nextUser;
    h.users := h.users[id := User(username, hash(password), role, fullName, now)];
    h.nextUser := h.nextUser + 1;
    r := Ok(id);
  }

  /** `change_password`, returning the message shown on failure. */
  method ChangePassword(h: Store.Hotel, hash: string -> string, username: string, oldPassword: string,
                        newPassword: string) returns (r: Result<(), string>)
    requires h.Valid()
    modifies h
    ensures PasswordChanged(old(h.State()), hash, username, oldPassword, newPassword) == Tables.Step(h.State(), r)
    ensures h.Valid()
  {
    if Login(h.State(), hash, username, oldPassword).None? {
      return Err(WrongPassword);
    }
    if |newPassword| < 6 {
      return Err(ShortNewPassword);
    }
    h.users := SetDigest(h.users, username, hash(newPassword));
    r := Ok(());
  }

  /** `delete_user`. */
  method DeleteUser(h: Store.Hotel, userId: nat)
    requires h.Valid()
    modifies h
    ensures h.State() == UserDeleted(old(h.State()), userId)
    ensures h.Valid()
  {
    h.users := h.users - {userId};
  }
}
