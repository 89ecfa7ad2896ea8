/** The static token helpers of apps/web/src/services/api/auth.ts over the
    browser's `localStorage`, modelled as a map from keys to strings. The
    HTTP methods of the same class only send requests and are not part of
    this model. */
module TokenStorage {
  import opened Wrappers
  import opened WebApi

  const AccessTokenKey := "accessToken"
  const RefreshTokenKey := "refreshToken"

  /** `localStorage.getItem(key)`: null for a missing key. */
  function GetItem(items: map<string, string>, key: string): (r: Option<string>)
    ensures r.Some? <==> key in items
    ensures r.Some? ==> r.value == items[key]
  {
    if key in items then Some(items[key]) else None
  }

  /** The store after `setTokens`. */
  function WithTokens(items: map<string, string>, tokens: Tokens): map<string, string>
  {
    items[AccessTokenKey := tokens.accessToken][RefreshTokenKey := tokens.refreshToken]
  }

  /** The store after `clearTokens`. */
  function WithoutTokens(items: map<string, string>): map<string, string>
  {
    items - {AccessTokenKey, RefreshTokenKey}
  }

  /** `getTokens`: both tokens, or null unless both are stored and neither
      is empty. */
  function TokensIn(items: map<string, string>): (r: Option<Tokens>)
    ensures r.Some? <==> Truthy(GetItem(items, AccessTokenKey)) && Truthy(GetItem(items, RefreshTokenKey))
    ensures r.Some? ==> r.value == Tokens(items[AccessTokenKey], items[RefreshTokenKey])
  {
    var accessToken := GetItem(items, AccessTokenKey);
    var refreshToken := GetItem(items, RefreshTokenKey);
    if !Truthy(accessToken) || !Truthy(refreshToken) then None
    else Some(Tokens(accessToken.value, refreshToken.value))
  }

  /** `isAuthenticated`: a non-empty access token is stored. */
  predicate AuthenticatedIn(items: map<string, string>)
  {
    Truthy(GetItem(items, AccessTokenKey))
  }

  /** Reading back what was stored gives the same pair when neither token
      is empty, and null otherwise. Other keys are untouched. */
  lemma SetThenGet(items: map<string, string>, tokens: Tokens)
    ensures tokens.accessToken != "" && tokens.refreshToken != "" ==> TokensIn(WithTokens(items, tokens)) == Some(tokens)
    ensures tokens.accessToken == "" || tokens.refreshToken == "" ==> TokensIn(WithTokens(items, tokens)).None?
    ensures forall k :: k != AccessTokenKey && k != RefreshTokenKey ==>
      GetItem(WithTokens(items, tokens), k) == GetItem(items, k)
  {
  }

  /** After clearing, there are no tokens and no session; other keys are
      untouched. */
  lemma ClearThenGet(items: map<string, string>)
    ensures TokensIn(WithoutTokens(items)).None?
    ensures !AuthenticatedIn(WithoutTokens(items))
    ensures forall k :: k != AccessTokenKey && k != RefreshTokenKey ==>
      GetItem(WithoutTokens(items), k) == GetItem(items, k)
  {
  }

  /** The session check looks at the access token alone: a stored access
      token without a refresh token counts as signed in, though `getTokens`
      gives null. */
  lemma AuthenticatedIgnoresRefresh(items: map<string, string>, accessToken: string)
    requires accessToken != ""
    ensures AuthenticatedIn(items[AccessTokenKey := accessToken] - {RefreshTokenKey})
    ensures TokensIn(items[AccessTokenKey := accessToken] - {RefreshTokenKey}).None?
  {
  }

  /** Whenever `getTokens` gives tokens, `isAuthenticated` holds. */
  lemma TokensImplyAuthenticated(items: map<string, string>)
    ensures TokensIn(items).Some? ==> AuthenticatedIn(items)
  {
  }

  class LocalStorage {
    var items: map<string, string>

    constructor (items: map<string, string>)
      ensures this.items == items
    {
      this.items := items;
    }

    /** `AuthService.setTokens`: both `setItem` calls. */
    method SetTokens(tokens: Tokens)
      modifies this
      ensures items == WithTokens(old(items), tokens)
    {
      items := items[AccessTokenKey := tokens.accessToken];
      items := items[RefreshTokenKey := tokens.refreshToken];
    }

    /** `AuthService.getTokens`. */
    function GetTokens(): Option<Tokens>
      reads this
    {
      TokensIn(items)
    }

    /** `AuthService.clearTokens`: both `removeItem` calls. */
    method ClearTokens()
      modifies this
      ensures items == WithoutTokens(old(items))
    {
      items := items - {AccessTokenKey};
      items := items - {RefreshTokenKey};
    }

    /** `AuthService.isAuthenticated`. */
    predicate IsAuthenticated()
      reads this
    {
      AuthenticatedIn(items)
    }
  }
}
