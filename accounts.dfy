/** The user table that apps/api/src/auth/auth.service.ts and
    apps/api/src/users/users.service.ts share (through their Prisma
    repositories), and the password hashing both rely on. bcrypt is not
    modelled: `Hasher` is its `hash` with the random salt as an argument,
    and its `compare`. */
module Accounts {
  import opened Wrappers

  /** A user row: the password column holds a bcrypt hash, and the
      refresh-token column is null or the last refresh token issued. */
  datatype User = User(id: string, username: string, password: string, refreshToken: Option<string>)

  datatype Hasher = Hasher(hash: (string, nat) -> string, compare: (string, string) -> bool)

  /** bcrypt's promise: a password matches its own hash, whatever the salt. */
  ghost predicate MatchesOwnHash(h: Hasher)
  {
    forall p, salt {:trigger h.hash(p, salt)} :: h.compare(p, h.hash(p, salt))
  }

  /** Every row sits under its own id, and `username` is a unique column. */
  ghost predicate WellFormed(users: map<string, User>)
  {
    && (forall id :: id in users ==> users[id].id == id)
    && (forall a, b :: a in users && b in users && users[a].username == users[b].username ==> a == b)
  }

  datatype TableError = RecordMissing | UniqueViolation

  class UserTable {
    var users: map<string, User>

    ghost predicate Valid()
      reads this
    {
      WellFormed(users)
    }

    constructor (users: map<string, User>)
      requires WellFormed(users)
      ensures Valid() && this.users == users
    {
      this.users := users;
    }

    /** `findUnique({ where: { username } })`: the one user with that name. */
    method FindByUsername(username: string) returns (r: Option<User>)
      requires Valid()
      ensures r.Some? ==> r.value.id in users && users[r.value.id] == r.value && r.value.username == username
      ensures r.None? <==> forall id :: id in users ==> users[id].username != username
    {
      if id :| id in users && users[id].username == username {
        r := Some(users[id]);
      } else {
        r := None;
      }
    }

    /** `updateRefreshToken`: overwrites one user's refresh-token column; an
        absent id is an error (Prisma's record-not-found) and changes
        nothing. */
    method SetRefreshToken(id: string, token: Option<string>) returns (ok: bool)
      requires Valid()
      modifies this
      ensures Valid()
      ensures ok <==> id in old(users)
      ensures ok ==> users == old(users)[id := old(users)[id].(refreshToken := token)]
      ensures !ok ==> users == old(users)
    {
      if id !in users {
        return false;
      }
      users := users[id := users[id].(refreshToken := token)];
      ok := true;
    }

    /** `update(id, { password })`: overwrites one user's password hash; an
        absent id changes nothing. */
    method SetPassword(id: string, hash: string) returns (ok: bool)
      requires Valid()
      modifies this
      ensures Valid()
      ensures ok <==> id in old(users)
      ensures ok ==> users == old(users)[id := old(users)[id].(password := hash)]
      ensures !ok ==> users == old(users)
    {
      if id !in users {
        return false;
      }
      users := users[id := users[id].(password := hash)];
      ok := true;
    }

    /** `update(id, { username })`: renames one user. An absent id is
        Prisma's record-not-found; a name another user holds violates the
        unique column. Either way nothing changes. */
    method SetUsername(id: string, username: string) returns (r: Result<User, TableError>)
      requires Valid()
      modifies this
      ensures Valid()
      ensures id !in old(users) ==> r == Err(RecordMissing) && users == old(users)
      ensures id in old(users) && (exists other :: other in old(users) && other != id && old(users)[other].username == username)
        ==> r == Err(UniqueViolation) && users == old(users)
      ensures id in old(users) && (forall other :: other in old(users) && other != id ==> old(users)[other].username != username)
        ==> r == Ok(old(users)[id].(username := username)) && users == old(users)[id := r.value]
    {
      if id !in users {
        return Err(RecordMissing);
      }
      if other :| other in users && other != id && users[other].username == username {
        return Err(UniqueViolation);
      }
      var renamed := users[id].(username := username);
      users := users[id := renamed];
      r := Ok(renamed);
    }
  }
}
