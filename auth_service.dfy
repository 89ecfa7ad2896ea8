/** The refresh-token state machine of apps/api/src/auth/auth.service.ts.
    Each user's stored `refreshToken` is the only state: login sets it,
    refresh replaces it only when the presented token is the stored one,
    and logout clears it (or, for a token that does not verify, does nothing
    and raises nothing). JWT signing and verification are not modelled:
    `Jwt` bundles them, with the issue time as an argument of signing so
    that tokens issued at different times may differ. */
module AuthService {
  import opened Wrappers
  import opened Accounts

  /** The token payload `{ sub, username }`. */
  datatype Claims = Claims(sub: string, username: string)

  datatype Tokens = Tokens(accessToken: string, refreshToken: string)

  /** `verifyRefresh` is `jwtService.verify` with the refresh secret: None
      when it throws (bad signature, expired, malformed). */
  datatype Jwt = Jwt(
    signAccess: (Claims, nat) -> string,
    signRefresh: (Claims, nat) -> string,
    verifyRefresh: string -> Option<Claims>)

  /** A refresh token verifies to the claims it was signed with (within its
      lifetime, which is not modelled). */
  ghost predicate RefreshVerifies(j: Jwt)
  {
    forall c, t {:trigger j.signRefresh(c, t)} :: j.verifyRefresh(j.signRefresh(c, t)) == Some(c)
  }

  datatype AuthError = Unauthorized

  /** `generateTokens`: an access and a refresh token for the user's id and
      name, issued at time `now`; the refresh token verifies to exactly
      those claims. */
  function IssueTokens(j: Jwt, u: User, now: nat): (t: Tokens)
    ensures RefreshVerifies(j) ==> j.verifyRefresh(t.refreshToken) == Some(Claims(u.id, u.username))
  {
    var c := Claims(u.id, u.username);
    Tokens(j.signAccess(c, now), j.signRefresh(c, now))
  }

  /** The table after one user's stored refresh token is overwritten. */
  function WithRefreshToken(users: map<string, User>, id: string, token: Option<string>): (m: map<string, User>)
    requires id in users
    ensures m.Keys == users.Keys && m[id].refreshToken == token
    ensures m[id].id == users[id].id && m[id].username == users[id].username && m[id].password == users[id].password
    ensures forall k :: k in users && k != id ==> m[k] == users[k]
  {
    users[id := users[id].(refreshToken := token)]
  }

  /** `refreshToken` succeeds for `token`: it verifies, its subject exists,
      and it is the token stored for that subject. */
  ghost predicate Accepts(users: map<string, User>, j: Jwt, token: string)
  {
    && j.verifyRefresh(token).Some?
    && j.verifyRefresh(token).value.sub in users
    && users[j.verifyRefresh(token).value.sub].refreshToken == Some(token)
  }

  /** After a rotation to a different token, the old token is refused. */
  lemma ReplayAfterRotationRejected(users: map<string, User>, j: Jwt, token: string, next: string)
    requires Accepts(users, j, token) && next != token
    ensures !Accepts(WithRefreshToken(users, j.verifyRefresh(token).value.sub, Some(next)), j, token)
  {
  }

  /** The refresh token a login issues is accepted by the next refresh. */
  lemma IssuedTokenAccepted(users: map<string, User>, j: Jwt, id: string, now: nat)
    requires RefreshVerifies(j) && id in users && users[id].id == id
    ensures var t := IssueTokens(j, users[id], now).refreshToken;
      Accepts(WithRefreshToken(users, id, Some(t)), j, t)
  {
    var t := IssueTokens(j, users[id], now).refreshToken;
    assert j.verifyRefresh(j.signRefresh(Claims(id, users[id].username), now)) == Some(Claims(id, users[id].username));
  }

  /** After logout no token of that user is accepted. */
  lemma LoggedOutRejected(users: map<string, User>, j: Jwt, id: string, token: string)
    requires id in users
    requires j.verifyRefresh(token).Some? && j.verifyRefresh(token).value.sub == id
    ensures !Accepts(WithRefreshToken(users, id, None), j, token)
  {
  }

  class Service {
    const table: UserTable
    const hasher: Hasher
    const jwt: Jwt

    ghost predicate Valid()
      reads this, table
    {
      table.Valid()
    }

    constructor (table: UserTable, hasher: Hasher, jwt: Jwt)
      requires table.Valid()
      ensures Valid() && this.table == table && this.hasher == hasher && this.jwt == jwt
    {
      this.table := table;
      this.hasher := hasher;
      this.jwt := jwt;
    }

    /** `login`: an unknown name fails whatever the hasher says; a password
        that does not match fails and stores nothing; otherwise fresh
        tokens are issued and the refresh token is stored on that user. */
    method Login(username: string, password: string, now: nat) returns (r: Result<Tokens, AuthError>)
      requires Valid()
      modifies table
      ensures Valid()
      ensures (forall id :: id in old(table.users) ==> old(table.users)[id].username != username)
        ==> r == Err(Unauthorized) && table.users == old(table.users)
      ensures forall id :: id in old(table.users) && old(table.users)[id].username == username ==>
        var u := old(table.users)[id];
        if hasher.compare(password, u.password) then
          r == Ok(IssueTokens(jwt, u, now)) && table.users == WithRefreshToken(old(table.users), id, Some(r.value.refreshToken))
        else
          r == Err(Unauthorized) && table.users == old(table.users)
    {
      var user := table.FindByUsername(username);
      if user.None? {
        return Err(Unauthorized);
      }
      var u := user.value;
      if !hasher.compare(password, u.password) {
        return Err(Unauthorized);
      }
      var tokens := IssueTokens(jwt, u, now);
      var _ := table.SetRefreshToken(u.id, Some(tokens.refreshToken));
      r := Ok(tokens);
    }

    /** `refreshToken`: every failure is Unauthorized and changes nothing;
        on success the stored token is replaced by the new one. */
    method Refresh(token: string, now: nat) returns (r: Result<Tokens, AuthError>)
      requires Valid()
      modifies table
      ensures Valid()
      ensures !Accepts(old(table.users), jwt, token) ==> r == Err(Unauthorized) && table.users == old(table.users)
      ensures Accepts(old(table.users), jwt, token) ==>
        var id := jwt.verifyRefresh(token).value.sub;
        && r == Ok(IssueTokens(jwt, old(table.users)[id], now))
        && table.users == WithRefreshToken(old(table.users), id, Some(r.value.refreshToken))
    {
      var claims := jwt.verifyRefresh(token);
      if claims.None? {
        return Err(Unauthorized);
      }
      var id := claims.value.sub;
      if id !in table.users || table.users[id].refreshToken != Some(token) {
        return Err(Unauthorized);
      }
      var tokens := IssueTokens(jwt, table.users[id], now);
      var _ := table.SetRefreshToken(id, Some(tokens.refreshToken));
      r := Ok(tokens);
    }

    /** `logout`: a verifiable token clears its subject's stored token; any
        failure (a token that does not verify, a subject that is gone) is
        swallowed and changes nothing. */
    method Logout(token: string)
      requires Valid()
      modifies table
      ensures Valid()
      ensures match jwt.verifyRefresh(token)
        case Some(c) =>
          table.users == (if c.sub in old(table.users) then WithRefreshToken(old(table.users), c.sub, None)
                          else old(table.users))
        case None => table.users == old(table.users)
    {
      var claims := jwt.verifyRefresh(token);
      if claims.Some? {
        var _ := table.SetRefreshToken(claims.value.sub, None);
      }
    }
  }
}
