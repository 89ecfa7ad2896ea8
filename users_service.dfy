/** The account operations of apps/api/src/users/users.service.ts: a lookup,
    and the password and username changes with their ordered guard
    cascades. bcrypt is `Accounts.Hasher`; its random salt is the parameter
    `salt`. */
module UsersService {
  import opened Wrappers
  import opened Accounts

  datatype Error =
    | BadRequest     // confirmation mismatch, or the new password equals the old
    | NotFound       // no user with that id
    | Unauthorized   // the current password does not match
    | Conflict       // another user holds the name
    | RecordMissing  // the table's update found no row

  /** The table after one user's password hash is overwritten. */
  function WithPassword(users: map<string, User>, id: string, hash: string): (m: map<string, User>)
    requires id in users
    ensures m.Keys == users.Keys && m[id].password == hash
    ensures m[id].username == users[id].username && m[id].refreshToken == users[id].refreshToken
    ensures forall k :: k in users && k != id ==> m[k] == users[k]
  {
    users[id := users[id].(password := hash)]
  }

  /** With bcrypt's promise, the password just set is the one that matches
      afterwards, so the next login with it passes the comparison. */
  lemma NewPasswordMatches(h: Hasher, users: map<string, User>, id: string, pw: string, salt: nat)
    requires MatchesOwnHash(h) && id in users
    ensures h.compare(pw, WithPassword(users, id, h.hash(pw, salt))[id].password)
  {
  }

  /** A username change can only succeed for a name nobody else holds, so
      it keeps the column unique. */
  lemma RenameKeepsWellFormed(users: map<string, User>, id: string, username: string)
    requires WellFormed(users) && id in users
    requires forall other :: other in users && other != id ==> users[other].username != username
    ensures WellFormed(users[id := users[id].(username := username)])
  {
    var m := users[id := users[id].(username := username)];
    forall a, b | a in m && b in m && m[a].username == m[b].username ensures a == b {
      if a != id && b != id {
        assert m[a] == users[a] && m[b] == users[b];
      }
    }
  }

  class Service {
    const table: UserTable
    const hasher: Hasher

    ghost predicate Valid()
      reads this, table
    {
      table.Valid()
    }

    constructor (table: UserTable, hasher: Hasher)
      requires table.Valid()
      ensures Valid() && this.table == table && this.hasher == hasher
    {
      this.table := table;
      this.hasher := hasher;
    }

    /** `findById`: the stored user, or NotFound. */
    method FindById(id: string) returns (r: Result<User, Error>)
      ensures id !in table.users ==> r == Err(NotFound)
      ensures id in table.users ==> r == Ok(table.users[id])
    {
      if id !in table.users {
        return Err(NotFound);
      }
      r := Ok(table.users[id]);
    }

    /** `updatePassword`, guard by guard: a confirmation mismatch before any
        lookup, then NotFound, then a current password that does not match,
        then a new password that matches the stored hash; only then is the
        password column, and nothing else, replaced by the new hash. Every
        failure leaves the table as it was. */
    method UpdatePassword(userId: string, currentPassword: string, newPassword: string,
                          confirmPassword: string, salt: nat)
      returns (err: Option<Error>)
      requires Valid()
      modifies table
      ensures Valid()
      ensures err.Some? ==> table.users == old(table.users)
      ensures newPassword != confirmPassword ==> err == Some(BadRequest)
      ensures newPassword == confirmPassword && userId !in old(table.users) ==> err == Some(NotFound)
      ensures newPassword == confirmPassword && userId in old(table.users) ==>
        var stored := old(table.users)[userId].password;
        if !hasher.compare(currentPassword, stored) then err == Some(Unauthorized)
        else if hasher.compare(newPassword, stored) then err == Some(BadRequest)
        else err == None && table.users == WithPassword(old(table.users), userId, hasher.hash(newPassword, salt))
    {
      if newPassword != confirmPassword {
        return Some(BadRequest);
      }
      if userId !in table.users {
        return Some(NotFound);
      }
      var user := table.users[userId];
      if !hasher.compare(currentPassword, user.password) {
        return Some(Unauthorized);
      }
      if hasher.compare(newPassword, user.password) {
        return Some(BadRequest);
      }
      var hashed := hasher.hash(newPassword, salt);
      var _ := table.SetPassword(userId, hashed);
      err := None;
    }

    /** `updateUsername`: Conflict only when another user holds the name
        (one's own name is accepted again); then the username column alone
        changes, or the update fails for an absent id. */
    method UpdateUsername(userId: string, username: string) returns (r: Result<User, Error>)
      requires Valid()
      modifies table
      ensures Valid()
      ensures r.Err? ==> table.users == old(table.users)
      ensures (exists other :: other in old(table.users) && other != userId && old(table.users)[other].username == username)
        ==> r == Err(Conflict)
      ensures (forall other :: other in old(table.users) && other != userId ==> old(table.users)[other].username != username)
        ==> if userId !in old(table.users) then r == Err(Error.RecordMissing)
            else r == Ok(old(table.users)[userId].(username := username))
                 && table.users == old(table.users)[userId := r.value]
    {
      var existing := table.FindByUsername(username);
      if existing.Some? && existing.value.id != userId {
        return Err(Conflict);
      }
      var renamed := table.SetUsername(userId, username);
      if renamed.Err? {
        return Err(Error.RecordMissing);
      }
      r := Ok(renamed.value);
    }
  }
}
