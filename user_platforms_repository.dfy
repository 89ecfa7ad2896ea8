/** The binding table of apps/api/src/user-platforms/user-platforms.repository.ts:
    each row binds a user's account on a platform to an encrypted TOTP
    secret. The Prisma table becomes a map from row id to record; the store's
    fresh ids, the clock and the random nonce are parameters of the methods
    that need them. */
module UserPlatformsRepository {
  import opened Wrappers
  import Hex
  import Listing
  import SecretBlob

  /** A row, as packages/shared/types/index.ts describes it (the `updatedAt`
      column is not modelled). */
  datatype UserPlatform = UserPlatform(
    id: string,
    userId: string,
    platformId: string,
    accountName: string,
    encryptedSecret: string,
    createdAt: int)

  /** The ordering key of `orderBy: { createdAt: "desc" }`. */
  const ByCreatedAt: UserPlatform -> int := (row: UserPlatform) => row.createdAt

  datatype RepoError =
    | UserIdRequired                                    // `create` without a user id
    | RecordMissing                                     // no row with that id
    | SecretUnreadable(reason: SecretBlob.DecryptError) // `decryptSecret` throws

  /** An optional update field that JavaScript treats as present: given and
      not the empty string. */
  predicate Given(field: Option<string>)
  {
    field.Some? && field.value != ""
  }

  /** The row matches a (user, platform, account) triple. */
  predicate Matches(row: UserPlatform, userId: string, platformId: string, accountName: string)
  {
    row.userId == userId && row.platformId == platformId && row.accountName == accountName
  }

  /** `list` holds each of the user's rows exactly once. */
  ghost predicate RowsOfUser(list: seq<UserPlatform>, rows: map<string, UserPlatform>, userId: string)
  {
    && (forall i :: 0 <= i < |list| ==>
          list[i].id in rows && rows[list[i].id] == list[i] && list[i].userId == userId)
    && (forall id :: id in rows && rows[id].userId == userId ==> rows[id] in list)
    && Listing.Distinct(list)
  }

  /** `listing` holds each of the user's rows exactly once, newest first. */
  ghost predicate NewestFirst(listing: seq<UserPlatform>, rows: map<string, UserPlatform>, userId: string)
  {
    RowsOfUser(listing, rows, userId) && Listing.NonIncreasing(listing, ByCreatedAt)
  }

  class Repository {
    var rows: map<string, UserPlatform>
    const key: string
    const cipher: SecretBlob.Aead

    ghost predicate Valid()
      reads this
    {
      && |key| >= SecretBlob.MinKeyLength
      && forall id :: id in rows ==> rows[id].id == id
    }

    /** The repository only exists once the key initializer has accepted
        `ENCRYPTION_KEY`. */
    constructor (key: string, cipher: SecretBlob.Aead)
      requires SecretBlob.LoadKey(Some(key)) == Ok(key)
      ensures Valid() && rows == map[] && this.key == key && this.cipher == cipher
    {
      this.key := key;
      this.cipher := cipher;
      rows := map[];
    }

    /** The user's rows, each once, in the order the table yields them
        (the `where: { userId }` filter). */
    method RowsOf(userId: string) returns (mine: seq<UserPlatform>)
      requires Valid()
      ensures RowsOfUser(mine, rows, userId)
    {
      mine := [];
      var rest := rows.Keys;
      while rest != {}
        invariant rest <= rows.Keys
        invariant forall i :: 0 <= i < |mine| ==>
          mine[i].id in rows && rows[mine[i].id] == mine[i] && mine[i].userId == userId
        invariant forall i :: 0 <= i < |mine| ==> mine[i].id !in rest
        invariant forall id :: id in rows && id !in rest && rows[id].userId == userId ==> rows[id] in mine
        invariant Listing.Distinct(mine)
        decreases |rest|
      {
        var id :| id in rest;
        var row := rows[id];
        if row.userId == userId {
          assert row !in mine by {
            forall i | 0 <= i < |mine| ensures mine[i] != row {
              assert mine[i].id !in rest;
            }
          }
          Listing.DistinctAppend(mine, row);
          mine := mine + [row];
        }
        rest := rest - {id};
      }
    }

    /** `findAllByUserId`: the page of the user's rows, newest first, that
        starts at offset `(page - 1) * limit`, and the number of all of the
        user's rows. */
    method FindAllByUserId(userId: string, page: int, limit: int)
      returns (data: seq<UserPlatform>, total: nat, ghost listing: seq<UserPlatform>)
      requires Valid()
      requires page >= 1 && limit >= 0
      ensures NewestFirst(listing, rows, userId)
      ensures data == Listing.Window(listing, (page - 1) * limit, limit)
      ensures total == |listing|
      ensures |data| <= limit
      ensures forall i :: 0 <= i < |data| ==>
        data[i].id in rows && rows[data[i].id] == data[i] && data[i].userId == userId
      ensures forall i, j :: 0 <= i < j < |data| ==> data[i].createdAt >= data[j].createdAt
    {
      var mine := RowsOf(userId);
      var sorted := Listing.SortDesc(mine, ByCreatedAt);
      SortedRowsAreNewestFirst(mine, sorted, rows, userId);
      listing := sorted;
      data := Listing.Window(sorted, (page - 1) * limit, limit);
      total := |sorted|;
    }

    /** `findByUserPlatformAndAccount`: some row for the triple, if any. */
    method FindByUserPlatformAndAccount(userId: string, platformId: string, accountName: string)
      returns (r: Option<UserPlatform>)
      ensures r.Some? ==> r.value in rows.Values && Matches(r.value, userId, platformId, accountName)
      ensures r.None? <==> forall id :: id in rows ==> !Matches(rows[id], userId, platformId, accountName)
    {
      if id :| id in rows && Matches(rows[id], userId, platformId, accountName) {
        r := Some(rows[id]);
      } else {
        r := None;
      }
    }

    /** `create`: an empty user id is refused; otherwise one row is added
        under a fresh id, holding the secret sealed under the nonce `iv`. */
    method Create(userId: string, platformId: string, accountName: string, secret: string,
                  iv: seq<Hex.byte>, freshId: string, now: int)
      returns (r: Result<UserPlatform, RepoError>)
      requires Valid()
      requires |iv| == SecretBlob.IvLength && freshId !in rows
      modifies this
      ensures Valid()
      ensures userId == "" ==> r == Err(UserIdRequired) && rows == old(rows)
      ensures userId != "" ==>
        && r == Ok(UserPlatform(freshId, userId, platformId, accountName,
                                SecretBlob.EncryptSecret(cipher, key, secret, iv), now))
        && rows == old(rows)[freshId := r.value]
    {
      if userId == "" {
        return Err(UserIdRequired);
      }
      var encryptedSecret := SecretBlob.EncryptSecret(cipher, key, secret, iv);
      var row := UserPlatform(freshId, userId, platformId, accountName, encryptedSecret, now);
      rows := rows[freshId := row];
      r := Ok(row);
    }

    /** `update`: the account name is replaced only when given and
        non-empty, the secret is re-encrypted only when given and non-empty,
        and nothing else about the row changes. */
    method Update(id: string, accountName: Option<string>, secret: Option<string>, iv: seq<Hex.byte>)
      returns (r: Result<UserPlatform, RepoError>)
      requires Valid()
      requires |iv| == SecretBlob.IvLength
      modifies this
      ensures Valid()
      ensures id !in old(rows) ==> r == Err(RecordMissing) && rows == old(rows)
      ensures id in old(rows) ==>
        && r.Ok?
        && r.value.accountName == (if Given(accountName) then accountName.value else old(rows)[id].accountName)
        && r.value.encryptedSecret == (if Given(secret) then SecretBlob.EncryptSecret(cipher, key, secret.value, iv)
                                       else old(rows)[id].encryptedSecret)
        && r.value == old(rows)[id].(accountName := r.value.accountName, encryptedSecret := r.value.encryptedSecret)
        && rows == old(rows)[id := r.value]
    {
      if id !in rows {
        return Err(RecordMissing);
      }
      var row := rows[id];
      if Given(accountName) {
        row := row.(accountName := accountName.value);
      }
      if Given(secret) {
        row := row.(encryptedSecret := SecretBlob.EncryptSecret(cipher, key, secret.value, iv));
      }
      rows := rows[id := row];
      r := Ok(row);
    }

    /** `delete`: removes the row with that id and no other. */
    method Delete(id: string) returns (r: Result<UserPlatform, RepoError>)
      requires Valid()
      modifies this
      ensures Valid()
      ensures id !in old(rows) ==> r == Err(RecordMissing) && rows == old(rows)
      ensures id in old(rows) ==> r == Ok(old(rows)[id]) && rows == old(rows) - {id}
    {
      if id !in rows {
        return Err(RecordMissing);
      }
      r := Ok(rows[id]);
      rows := rows - {id};
    }

    /** `getDecryptedSecret`: fails for an absent id, and otherwise is the
        decryption of the stored blob. */
    method GetDecryptedSecret(id: string) returns (r: Result<string, RepoError>)
      ensures id !in rows ==> r == Err(RecordMissing)
      ensures id in rows ==> match SecretBlob.DecryptSecret(cipher, key, rows[id].encryptedSecret)
        case Ok(s) => r == Ok(s)
        case Err(e) => r == Err(SecretUnreadable(e))
    {
      if id !in rows {
        return Err(RecordMissing);
      }
      var d := SecretBlob.DecryptSecret(cipher, key, rows[id].encryptedSecret);
      match d
      case Ok(s) => r := Ok(s);
      case Err(e) => r := Err(SecretUnreadable(e));
    }
  }

  /** Sorting the user's rows by creation time, newest first, gives the
      listing `findAllByUserId` pages through. */
  lemma SortedRowsAreNewestFirst(mine: seq<UserPlatform>, sorted: seq<UserPlatform>,
                                 rows: map<string, UserPlatform>, userId: string)
    requires RowsOfUser(mine, rows, userId)
    requires sorted == Listing.SortDesc(mine, ByCreatedAt)
    ensures NewestFirst(sorted, rows, userId)
  {
    Listing.DistinctPermutation(mine, sorted);
    forall i | 0 <= i < |sorted|
      ensures sorted[i].id in rows && rows[sorted[i].id] == sorted[i] && sorted[i].userId == userId
    {
      assert sorted[i] in multiset(mine);
    }
    forall id | id in rows && rows[id].userId == userId ensures rows[id] in sorted {
      assert rows[id] in multiset(mine);
    }
  }
}
