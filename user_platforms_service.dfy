/** The binding operations of apps/api/src/user-platforms/user-platforms.service.ts.
    Every operation on an existing binding first runs the ownership guard of
    `findById` (NotFound, then Forbidden) and only then reads the secret or
    writes the table. The one-time code comes from speakeasy, modelled by
    `Totp.Generator`; the clock is the parameter `t` (Unix seconds), read
    once. */
module UserPlatformsService {
  import opened Wrappers
  import Hex
  import Totp
  import SecretBlob
  import opened UserPlatformsRepository

  datatype Error =
    | UserIdRequired           // `create` called without a user id
    | NotFound                 // no binding with that id
    | Forbidden                // the binding belongs to another user
    | Conflict                 // the (user, platform, account) triple is taken
    | Store(cause: RepoError)  // an error raised by the repository

  /** No two rows share a (user, platform, account) triple. */
  ghost predicate TriplesUnique(rows: map<string, UserPlatform>)
  {
    forall a, b :: a in rows && b in rows && a != b ==>
      !Matches(rows[b], rows[a].userId, rows[a].platformId, rows[a].accountName)
  }

  /** A row whose triple is not yet taken can be added without breaking
      uniqueness. */
  lemma InsertKeepsTriplesUnique(rows: map<string, UserPlatform>, freshId: string, row: UserPlatform)
    requires TriplesUnique(rows) && freshId !in rows
    requires forall id :: id in rows ==> !Matches(rows[id], row.userId, row.platformId, row.accountName)
    ensures TriplesUnique(rows[freshId := row])
  {
    var m := rows[freshId := row];
    forall a, b | a in m && b in m && a != b
      ensures !Matches(m[b], m[a].userId, m[a].platformId, m[a].accountName)
    {
      if a == freshId {
        assert m[b] == rows[b];
      } else if b == freshId {
        assert m[a] == rows[a];
      }
    }
  }

  /** `update` does not check the triple: renaming an account can give two
      rows the same triple. */
  lemma UpdateCanBreakTriplesUnique()
    ensures var rows := map[
        "a" := UserPlatform("a", "u", "p", "x", "", 0),
        "b" := UserPlatform("b", "u", "p", "y", "", 0)];
      TriplesUnique(rows) && !TriplesUnique(rows["b" := rows["b"].(accountName := "x")])
  {
    var rows := map[
        "a" := UserPlatform("a", "u", "p", "x", "", 0),
        "b" := UserPlatform("b", "u", "p", "y", "", 0)];
    assert rows.Keys == {"a", "b"};
    var renamed := rows["b" := rows["b"].(accountName := "x")];
    assert Matches(renamed["b"], renamed["a"].userId, renamed["a"].platformId, renamed["a"].accountName);
  }

  class Service {
    const repo: Repository
    const totp: Totp.Generator

    ghost predicate Valid()
      reads this, repo
    {
      repo.Valid()
    }

    constructor (repo: Repository, totp: Totp.Generator)
      requires repo.Valid()
      ensures Valid() && this.repo == repo && this.totp == totp
    {
      this.repo := repo;
      this.totp := totp;
    }

    /** `findById`: NotFound for an absent id, Forbidden for another user's
        binding, and otherwise the binding itself. */
    method FindById(id: string, userId: string) returns (r: Result<UserPlatform, Error>)
      ensures id !in repo.rows ==> r == Err(NotFound)
      ensures id in repo.rows && repo.rows[id].userId != userId ==> r == Err(Forbidden)
      ensures id in repo.rows && repo.rows[id].userId == userId ==> r == Ok(repo.rows[id])
    {
      if id !in repo.rows {
        return Err(NotFound);
      }
      var row := repo.rows[id];
      if row.userId != userId {
        return Err(Forbidden);
      }
      r := Ok(row);
    }

    /** `create`: an empty user id is refused before any lookup; a taken
        triple is a Conflict; otherwise exactly one row is added. */
    method Create(userId: string, platformId: string, accountName: string, secret: string,
                  iv: seq<Hex.byte>, freshId: string, now: int)
      returns (r: Result<UserPlatform, Error>)
      requires Valid()
      requires |iv| == SecretBlob.IvLength && freshId !in repo.rows
      modifies repo
      ensures Valid()
      ensures userId == "" ==> r == Err(Error.UserIdRequired) && repo.rows == old(repo.rows)
      ensures userId != "" && (exists id :: id in old(repo.rows) && Matches(old(repo.rows)[id], userId, platformId, accountName))
        ==> r == Err(Conflict) && repo.rows == old(repo.rows)
      ensures userId != "" && (forall id :: id in old(repo.rows) ==> !Matches(old(repo.rows)[id], userId, platformId, accountName))
        ==> && r == Ok(UserPlatform(freshId, userId, platformId, accountName,
                                    SecretBlob.EncryptSecret(repo.cipher, repo.key, secret, iv), now))
            && repo.rows == old(repo.rows)[freshId := r.value]
      ensures TriplesUnique(old(repo.rows)) ==> TriplesUnique(repo.rows)
    {
      if userId == "" {
        return Err(Error.UserIdRequired);
      }
      var existing := repo.FindByUserPlatformAndAccount(userId, platformId, accountName);
      if existing.Some? {
        return Err(Conflict);
      }
      ghost var before := repo.rows;
      var created := repo.Create(userId, platformId, accountName, secret, iv, freshId, now);
      if TriplesUnique(before) {
        InsertKeepsTriplesUnique(before, freshId, created.value);
      }
      r := Ok(created.value);
    }

    /** `update`: the guard runs first; then the repository update, which
        does not re-check the triple. */
    method Update(id: string, userId: string, accountName: Option<string>, secret: Option<string>,
                  iv: seq<Hex.byte>)
      returns (r: Result<UserPlatform, Error>)
      requires Valid()
      requires |iv| == SecretBlob.IvLength
      modifies repo
      ensures Valid()
      ensures id !in old(repo.rows) ==> r == Err(NotFound) && repo.rows == old(repo.rows)
      ensures id in old(repo.rows) && old(repo.rows)[id].userId != userId
        ==> r == Err(Forbidden) && repo.rows == old(repo.rows)
      ensures id in old(repo.rows) && old(repo.rows)[id].userId == userId ==>
        && r.Ok?
        && r.value.accountName == (if Given(accountName) then accountName.value else old(repo.rows)[id].accountName)
        && r.value.encryptedSecret == (if Given(secret) then SecretBlob.EncryptSecret(repo.cipher, repo.key, secret.value, iv)
                                       else old(repo.rows)[id].encryptedSecret)
        && r.value == old(repo.rows)[id].(accountName := r.value.accountName, encryptedSecret := r.value.encryptedSecret)
        && repo.rows == old(repo.rows)[id := r.value]
    {
      var found := FindById(id, userId);
      if found.Err? {
        return Err(found.error);
      }
      var updated := repo.Update(id, accountName, secret, iv);
      r := Ok(updated.value);
    }

    /** `delete`: the guard runs first; then exactly the addressed binding
        is removed. The result is the guard's error, if any. */
    method Delete(id: string, userId: string) returns (err: Option<Error>)
      requires Valid()
      modifies repo
      ensures Valid()
      ensures id !in old(repo.rows) ==> err == Some(NotFound) && repo.rows == old(repo.rows)
      ensures id in old(repo.rows) && old(repo.rows)[id].userId != userId
        ==> err == Some(Forbidden) && repo.rows == old(repo.rows)
      ensures id in old(repo.rows) && old(repo.rows)[id].userId == userId
        ==> err == None && repo.rows == old(repo.rows) - {id}
    {
      var found := FindById(id, userId);
      if found.Err? {
        return Some(found.error);
      }
      var _ := repo.Delete(id);
      err := None;
    }

    /** `generateOTP`: the guard runs before the secret is decrypted; the
        code is the token of the current step and `expiresIn` the seconds
        left in it. */
    method GenerateOtp(id: string, userId: string, t: nat) returns (r: Result<Totp.Otp, Error>)
      ensures id !in repo.rows ==> r == Err(NotFound)
      ensures id in repo.rows && repo.rows[id].userId != userId ==> r == Err(Forbidden)
      ensures id in repo.rows && repo.rows[id].userId == userId ==>
        match SecretBlob.DecryptSecret(repo.cipher, repo.key, repo.rows[id].encryptedSecret)
        case Ok(s) => r == Ok(Totp.Otp(totp.token(s, Totp.Counter(t)), Totp.ExpiresIn(t)))
        case Err(e) => r == Err(Store(SecretUnreadable(e)))
      ensures r.Ok? ==> 1 <= r.value.expiresIn <= Totp.TimeStep
    {
      var found := FindById(id, userId);
      if found.Err? {
        return Err(found.error);
      }
      var secret := repo.GetDecryptedSecret(id);
      if secret.Err? {
        return Err(Store(secret.error));
      }
      r := Ok(Totp.Generate(totp, secret.value, t));
    }

    /** `verifyOTP`: the same guard, then the library's check of the
        candidate code at the current step. */
    method VerifyOtp(id: string, userId: string, candidate: string, t: nat) returns (r: Result<bool, Error>)
      ensures id !in repo.rows ==> r == Err(NotFound)
      ensures id in repo.rows && repo.rows[id].userId != userId ==> r == Err(Forbidden)
      ensures id in repo.rows && repo.rows[id].userId == userId ==>
        match SecretBlob.DecryptSecret(repo.cipher, repo.key, repo.rows[id].encryptedSecret)
        case Ok(s) => r == Ok(totp.verify(s, candidate, Totp.Counter(t)))
        case Err(e) => r == Err(Store(SecretUnreadable(e)))
    {
      var found := FindById(id, userId);
      if found.Err? {
        return Err(found.error);
      }
      var secret := repo.GetDecryptedSecret(id);
      if secret.Err? {
        return Err(Store(secret.error));
      }
      r := Ok(totp.verify(secret.value, candidate, Totp.Counter(t)));
    }
  }
}
