/**
 * The users table behind `UserService` (front/services/UserService.ts):
 * `createUser` hashes the password and inserts a row, mapping a UNIQUE
 * collision on username or email to the error "Usuario o email ya existe";
 * `getUserByEmail`/`getUserById` look a row up; `validatePassword` is
 * bcrypt's compare.
 */
module UserService {
  import opened Wrappers
  import Bcrypt

  /** The bcrypt cost factor `createUser` hashes with. */
  const HashRounds: nat := 10

  /** The message `createUser` throws on a duplicate username or email. */
  const DuplicateMessage := "Usuario o email ya existe"

  /** A row of `users`; `password` holds the bcrypt digest. */
  datatype User = User(id: nat, username: string, email: string, password: Bcrypt.Digest, createdAt: nat, updatedAt: nat)

  /** A user as the controllers' responses show it: no password. */
  datatype UserView = UserView(id: nat, username: string, email: string)

  function View(u: User): (v: UserView)
    ensures v.id == u.id && v.username == u.username && v.email == u.email
  {
    UserView(u.id, u.username, u.email)
  }

  datatype CreateUserData = CreateUserData(username: string, email: string, password: string)

  predicate EmailsUnique(users: map<int, User>) {
    forall a, b :: a in users && b in users && users[a].email == users[b].email ==> a == b
  }

  predicate UsernamesUnique(users: map<int, User>) {
    forall a, b :: a in users && b in users && users[a].username == users[b].username ==> a == b
  }

  /**
   * What the table guarantees: every row sits under its own id, ids are
   * below the next AUTO_INCREMENT value, and usernames and emails are UNIQUE.
   */
  predicate TableInvariant(users: map<int, User>, nextId: nat) {
    && 1 <= nextId
    && (forall k :: k in users ==> users[k].id == k && 1 <= k < nextId)
    && UsernamesUnique(users)
    && EmailsUnique(users)
  }

  /** A row already holds this username or this email. */
  predicate Taken(users: map<int, User>, username: string, email: string) {
    exists k :: k in users && (users[k].username == username || users[k].email == email)
  }

  /** The row `createUser` inserts under `id`: the password column gets the hash, never the plaintext. */
  function NewUser(id: nat, data: CreateUserData, salt: string, now: nat): (u: User)
    ensures u.password == Bcrypt.Hash(data.password, HashRounds, salt)
    ensures u.id == id && u.username == data.username && u.email == data.email
  {
    User(id, data.username, data.email, Bcrypt.Hash(data.password, HashRounds, salt), now, now)
  }

  /** `SELECT * FROM users WHERE email = ?`, first row or null. */
  function FindByEmail(users: map<int, User>, email: string): (r: Option<User>)
    requires EmailsUnique(users)
    ensures r.None? <==> forall k :: k in users ==> users[k].email != email
    ensures r.Some? ==> r.value.email == email && exists k :: k in users && users[k] == r.value
  {
    if exists k :: k in users && users[k].email == email then
      var k :| k in users && users[k].email == email;
      Some(users[k])
    else None
  }

  /** `SELECT * FROM users WHERE id = ?`, first row or null. */
  function FindById(users: map<int, User>, id: int): (r: Option<User>)
    ensures r.Some? <==> id in users
    ensures r.Some? ==> r.value == users[id]
  {
    if id in users then Some(users[id]) else None
  }

  /** `validatePassword`: bcrypt's compare of a plaintext against a stored digest. */
  function ValidatePassword(plain: string, hashed: Bcrypt.Digest): (ok: bool)
    ensures ok <==> Bcrypt.Compare(plain, hashed)
  {
    Bcrypt.Compare(plain, hashed)
  }

  /** A user's own password validates against the digest `createUser` stored for it. */
  lemma StoredPasswordValidates(id: nat, data: CreateUserData, salt: string, now: nat)
    ensures ValidatePassword(data.password, NewUser(id, data, salt, now).password)
  {
    Bcrypt.CompareOwnHash(data.password, HashRounds, salt);
  }

  /**
   * Inserting a user whose username and email are both free keeps the
   * invariant, and the new row is what the lookups by id and by email find.
   */
  lemma {:induction false} InsertFresh(users: map<int, User>, nextId: nat, data: CreateUserData, salt: string, now: nat)
    requires TableInvariant(users, nextId)
    requires !Taken(users, data.username, data.email)
    ensures nextId !in users
    ensures TableInvariant(users[nextId := NewUser(nextId, data, salt, now)], nextId + 1)
    ensures FindById(users[nextId := NewUser(nextId, data, salt, now)], nextId) == Some(NewUser(nextId, data, salt, now))
    ensures FindByEmail(users[nextId := NewUser(nextId, data, salt, now)], data.email) == Some(NewUser(nextId, data, salt, now))
  {
    var u := NewUser(nextId, data, salt, now);
    var users' := users[nextId := u];
    forall a, b | a in users' && b in users' && users'[a].email == users'[b].email
      ensures a == b
    {
      if a != b && (a == nextId || b == nextId) {
        assert false;
      }
    }
    forall a, b | a in users' && b in users' && users'[a].username == users'[b].username
      ensures a == b
    {
      if a != b && (a == nextId || b == nextId) {
        assert false;
      }
    }
    assert users'[nextId].email == data.email;
  }

  class UserStore {
    var users: map<int, User>
    var nextId: nat

    ghost predicate Valid()
      reads this
    {
      TableInvariant(users, nextId)
    }

    constructor ()
      ensures Valid() && users == map[] && nextId == 1
    {
      users := map[];
      nextId := 1;
    }

    /**
     * `createUser`: the password is hashed (cost 10; the salt is an input),
     * then the row is inserted. A taken username or email leaves the rows as
     * they were and fails with `DuplicateMessage`. The AUTO_INCREMENT value
     * is used up either way, as InnoDB does.
     */
    method CreateUser(data: CreateUserData, salt: string, now: nat) returns (r: Result<User, string>)
      requires Valid()
      modifies this
      ensures Valid()
      ensures nextId == old(nextId) + 1
      ensures Taken(old(users), data.username, data.email) ==> r == Err(DuplicateMessage) && users == old(users)
      ensures !Taken(old(users), data.username, data.email) ==>
        && r == Ok(NewUser(old(nextId), data, salt, now))
        && old(nextId) !in old(users)
        && users == old(users)[old(nextId) := r.value]
    {
      var hashed := Bcrypt.Hash(data.password, HashRounds, salt);
      var id := nextId;
      nextId := nextId + 1;
      if Taken(users, data.username, data.email) {
        r := Err(DuplicateMessage);
      } else {
        InsertFresh(users, id, data, salt, now);
        var row := User(id, data.username, data.email, hashed, now, now);
        users := users[id := row];
        r := Ok(row);
      }
    }

    /** `getUserByEmail`. */
    function GetUserByEmail(email: string): Option<User>
      reads this
      requires Valid()
    {
      FindByEmail(users, email)
    }

    /** `getUserById`. */
    function GetUserById(id: int): Option<User>
      reads this
    {
      FindById(users, id)
    }
  }
}
