/** The web session store of apps/web/src/stores/auth.store.ts, and the
    once-per-page-load `initializeAuthState`. Each async action is a
    `Begin…` method and a `Complete…` method given the outcome of the
    request it awaited. The store reaches `localStorage` through the token
    helpers. */
module AuthStore {
  import opened Wrappers
  import opened WebApi
  import TokenStorage

  const LoginFailed := "Login failed"
  const PasswordUpdateFailed := "Password update failed"
  const UsernameUpdateFailed := "Username update failed"

  /** What `persist` writes: the `partialize` projection. */
  datatype Persisted = Persisted(tokens: Option<Tokens>, isAuthenticated: bool)

  class Store {
    var isAuthenticated: bool
    var isLoading: bool
    var error: Option<string>
    var tokens: Option<Tokens>
    var user: Option<Profile>
    var updatePasswordLoading: bool
    var updatePasswordError: Option<string>
    var updatePasswordSuccess: bool
    var updateUsernameLoading: bool
    var updateUsernameError: Option<string>
    var updateUsernameSuccess: bool

    /** The initial state: signed out, no flags set. */
    constructor ()
      ensures !isAuthenticated && !isLoading && error.None? && tokens.None? && user.None?
      ensures !updatePasswordLoading && updatePasswordError.None? && !updatePasswordSuccess
      ensures !updateUsernameLoading && updateUsernameError.None? && !updateUsernameSuccess
    {
      isAuthenticated := false;
      isLoading := false;
      error := None;
      tokens := None;
      user := None;
      updatePasswordLoading := false;
      updatePasswordError := None;
      updatePasswordSuccess := false;
      updateUsernameLoading := false;
      updateUsernameError := None;
      updateUsernameSuccess := false;
    }

    /** The state on a page load: the initial state with what `persist`
        saved merged in. */
    constructor Rehydrated(saved: Persisted)
      ensures Saved() == saved
      ensures !isLoading && error.None? && user.None?
      ensures !updatePasswordLoading && updatePasswordError.None? && !updatePasswordSuccess
      ensures !updateUsernameLoading && updateUsernameError.None? && !updateUsernameSuccess
    {
      isAuthenticated := saved.isAuthenticated;
      isLoading := false;
      error := None;
      tokens := saved.tokens;
      user := None;
      updatePasswordLoading := false;
      updatePasswordError := None;
      updatePasswordSuccess := false;
      updateUsernameLoading := false;
      updateUsernameError := None;
      updateUsernameSuccess := false;
    }

    /** `partialize`: only the tokens and the session flag are persisted. */
    function Saved(): Persisted
      reads this
    {
      Persisted(tokens, isAuthenticated)
    }

    /** `login`, up to the request. */
    method BeginLogin()
      modifies this
      ensures isLoading && error.None?
      ensures isAuthenticated == old(isAuthenticated) && tokens == old(tokens) && user == old(user)
      ensures updatePasswordLoading == old(updatePasswordLoading) && updatePasswordError == old(updatePasswordError)
      ensures updatePasswordSuccess == old(updatePasswordSuccess) && updateUsernameLoading == old(updateUsernameLoading)
      ensures updateUsernameError == old(updateUsernameError) && updateUsernameSuccess == old(updateUsernameSuccess)
    {
      isLoading := true;
      error := None;
    }

    /** `login`, after the request: the tokens are stored and the session
        starts; a failure sets the error, leaves the session as it was, and
        is rethrown. */
    method CompleteLogin(outcome: Outcome<Tokens>, storage: TokenStorage.LocalStorage) returns (rethrown: bool)
      modifies this, storage
      ensures !isLoading
      ensures rethrown <==> outcome.Failure?
      ensures outcome.Success? ==>
        && storage.items == TokenStorage.WithTokens(old(storage.items), outcome.value)
        && tokens == Some(outcome.value) && isAuthenticated && error == old(error)
      ensures outcome.Failure? ==>
        && storage.items == old(storage.items)
        && tokens == old(tokens) && isAuthenticated == old(isAuthenticated)
        && error == Some(ErrorText(outcome.message, LoginFailed))
      ensures user == old(user)
      ensures updatePasswordLoading == old(updatePasswordLoading) && updatePasswordError == old(updatePasswordError)
      ensures updatePasswordSuccess == old(updatePasswordSuccess) && updateUsernameLoading == old(updateUsernameLoading)
      ensures updateUsernameError == old(updateUsernameError) && updateUsernameSuccess == old(updateUsernameSuccess)
    {
      match outcome {
        case Success(issued) =>
          storage.SetTokens(issued);
          tokens := Some(issued);
          isAuthenticated := true;
          isLoading := false;
          rethrown := false;
        case Failure(message) =>
          error := Some(ErrorText(message, LoginFailed));
          isLoading := false;
          rethrown := true;
      }
    }

    /** `loadCurrentUser`, up to the request: nothing is asked for when a
        user is already loaded. Nothing changes either way. */
    method BeginLoadCurrentUser() returns (requested: bool)
      ensures requested <==> user.None?
    {
      requested := user.None?;
    }

    /** `loadCurrentUser`, after the request: the profile is kept; a failure
        is only logged. */
    method CompleteLoadCurrentUser(outcome: Outcome<Profile>)
      modifies this
      ensures user == if outcome.Success? then Some(outcome.value) else old(user)
      ensures isAuthenticated == old(isAuthenticated) && isLoading == old(isLoading)
      ensures error == old(error) && tokens == old(tokens)
      ensures updatePasswordLoading == old(updatePasswordLoading) && updatePasswordError == old(updatePasswordError)
      ensures updatePasswordSuccess == old(updatePasswordSuccess) && updateUsernameLoading == old(updateUsernameLoading)
      ensures updateUsernameError == old(updateUsernameError) && updateUsernameSuccess == old(updateUsernameSuccess)
    {
      if outcome.Success? {
        user := Some(outcome.value);
      }
    }

    /** `logout`, up to the request: the server is told only when a
        non-empty refresh token is held, and that token is what it is
        sent. */
    method BeginLogout() returns (request: Option<string>)
      ensures request.Some? <==> tokens.Some? && tokens.value.refreshToken != ""
      ensures request.Some? ==> request.value == tokens.value.refreshToken
    {
      if tokens.Some? && tokens.value.refreshToken != "" {
        request := Some(tokens.value.refreshToken);
      } else {
        request := None;
      }
    }

    /** `logout`, after the request or without one: whether or not the
        server call failed, the stored tokens are removed and the session
        ends. */
    method CompleteLogout(storage: TokenStorage.LocalStorage)
      modifies this, storage
      ensures storage.items == TokenStorage.WithoutTokens(old(storage.items))
      ensures tokens.None? && !isAuthenticated && user.None?
      ensures isLoading == old(isLoading) && error == old(error)
      ensures updatePasswordLoading == old(updatePasswordLoading) && updatePasswordError == old(updatePasswordError)
      ensures updatePasswordSuccess == old(updatePasswordSuccess) && updateUsernameLoading == old(updateUsernameLoading)
      ensures updateUsernameError == old(updateUsernameError) && updateUsernameSuccess == old(updateUsernameSuccess)
    {
      storage.ClearTokens();
      tokens := None;
      isAuthenticated := false;
      user := None;
    }

    /** `updatePassword`, up to the request. */
    method BeginUpdatePassword()
      modifies this
      ensures updatePasswordLoading && updatePasswordError.None? && !updatePasswordSuccess
      ensures isAuthenticated == old(isAuthenticated) && isLoading == old(isLoading) && error == old(error)
      ensures tokens == old(tokens) && user == old(user)
      ensures updateUsernameLoading == old(updateUsernameLoading)
      ensures updateUsernameError == old(updateUsernameError) && updateUsernameSuccess == old(updateUsernameSuccess)
    {
      updatePasswordLoading := true;
      updatePasswordError := None;
      updatePasswordSuccess := false;
    }

    /** `updatePassword`, after the request. */
    method CompleteUpdatePassword(outcome: Outcome<()>) returns (rethrown: bool)
      modifies this
      ensures !updatePasswordLoading
      ensures rethrown <==> outcome.Failure?
      ensures outcome.Success? ==> updatePasswordSuccess && updatePasswordError == old(updatePasswordError)
      ensures outcome.Failure? ==>
        && updatePasswordSuccess == old(updatePasswordSuccess)
        && updatePasswordError == Some(ErrorText(outcome.message, PasswordUpdateFailed))
      ensures isAuthenticated == old(isAuthenticated) && isLoading == old(isLoading) && error == old(error)
      ensures tokens == old(tokens) && user == old(user)
      ensures updateUsernameLoading == old(updateUsernameLoading)
      ensures updateUsernameError == old(updateUsernameError) && updateUsernameSuccess == old(updateUsernameSuccess)
    {
      match outcome {
        case Success(_) =>
          updatePasswordLoading := false;
          updatePasswordSuccess := true;
          rethrown := false;
        case Failure(message) =>
          updatePasswordError := Some(ErrorText(message, PasswordUpdateFailed));
          updatePasswordLoading := false;
          rethrown := true;
      }
    }

    /** `updateUsername`, up to the request. */
    method BeginUpdateUsername()
      modifies this
      ensures updateUsernameLoading && updateUsernameError.None? && !updateUsernameSuccess
      ensures isAuthenticated == old(isAuthenticated) && isLoading == old(isLoading) && error == old(error)
      ensures tokens == old(tokens) && user == old(user)
      ensures updatePasswordLoading == old(updatePasswordLoading)
      ensures updatePasswordError == old(updatePasswordError) && updatePasswordSuccess == old(updatePasswordSuccess)
    {
      updateUsernameLoading := true;
      updateUsernameError := None;
      updateUsernameSuccess := false;
    }

    /** `updateUsername(username)`, after the request: the loaded user, if
        any, takes the new name; no user stays no user. */
    method CompleteUpdateUsername(username: string, outcome: Outcome<()>) returns (rethrown: bool)
      modifies this
      ensures !updateUsernameLoading
      ensures rethrown <==> outcome.Failure?
      ensures outcome.Success? ==>
        && updateUsernameSuccess && updateUsernameError == old(updateUsernameError)
        && user == (if old(user).Some? then Some(old(user).value.(username := username)) else None)
      ensures outcome.Failure? ==>
        && updateUsernameSuccess == old(updateUsernameSuccess) && user == old(user)
        && updateUsernameError == Some(ErrorText(outcome.message, UsernameUpdateFailed))
      ensures isAuthenticated == old(isAuthenticated) && isLoading == old(isLoading) && error == old(error)
      ensures tokens == old(tokens)
      ensures updatePasswordLoading == old(updatePasswordLoading)
      ensures updatePasswordError == old(updatePasswordError) && updatePasswordSuccess == old(updatePasswordSuccess)
    {
      match outcome {
        case Success(_) =>
          if user.Some? {
            user := Some(user.value.(username := username));
          }
          updateUsernameLoading := false;
          updateUsernameSuccess := true;
          rethrown := false;
        case Failure(message) =>
          updateUsernameError := Some(ErrorText(message, UsernameUpdateFailed));
          updateUsernameLoading := false;
          rethrown := true;
      }
    }

    /** `clearUpdatePasswordState`: only the password error and success
        flag. */
    method ClearUpdatePasswordState()
      modifies this
      ensures updatePasswordError.None? && !updatePasswordSuccess
      ensures updatePasswordLoading == old(updatePasswordLoading)
      ensures isAuthenticated == old(isAuthenticated) && isLoading == old(isLoading) && error == old(error)
      ensures tokens == old(tokens) && user == old(user)
      ensures updateUsernameLoading == old(updateUsernameLoading)
      ensures updateUsernameError == old(updateUsernameError) && updateUsernameSuccess == old(updateUsernameSuccess)
    {
      updatePasswordError := None;
      updatePasswordSuccess := false;
    }

    /** `clearUpdateUsernameState`: only the username error and success
        flag. */
    method ClearUpdateUsernameState()
      modifies this
      ensures updateUsernameError.None? && !updateUsernameSuccess
      ensures updateUsernameLoading == old(updateUsernameLoading)
      ensures isAuthenticated == old(isAuthenticated) && isLoading == old(isLoading) && error == old(error)
      ensures tokens == old(tokens) && user == old(user)
      ensures updatePasswordLoading == old(updatePasswordLoading)
      ensures updatePasswordError == old(updatePasswordError) && updatePasswordSuccess == old(updatePasswordSuccess)
    {
      updateUsernameError := None;
      updateUsernameSuccess := false;
    }

    /** The `setState` of `initializeAuthState`: the session fields only. */
    method SetSession(tokens: Option<Tokens>, user: Option<Profile>, isAuthenticated: bool)
      modifies this
      ensures this.tokens == tokens && this.user == user && this.isAuthenticated == isAuthenticated
      ensures isLoading == old(isLoading) && error == old(error)
      ensures updatePasswordLoading == old(updatePasswordLoading) && updatePasswordError == old(updatePasswordError)
      ensures updatePasswordSuccess == old(updatePasswordSuccess) && updateUsernameLoading == old(updateUsernameLoading)
      ensures updateUsernameError == old(updateUsernameError) && updateUsernameSuccess == old(updateUsernameSuccess)
    {
      this.tokens := tokens;
      this.user := user;
      this.isAuthenticated := isAuthenticated;
    }
  }

  /** The module-level `authInitialized` flag, with a count of how often
      the body of `initializeAuthState` has been entered. */
  class Initializer {
    var initialized: bool
    ghost var runs: nat

    /** The body runs at most once, and the flag says whether it has. */
    ghost predicate Valid()
      reads this
    {
      runs == if initialized then 1 else 0
    }

    /** The flag as a page load leaves it. */
    constructor ()
      ensures Valid() && !initialized && runs == 0
    {
      initialized := false;
      runs := 0;
    }

    /** `initializeAuthState`, up to the request: without a window, or once
        the flag is set, nothing happens; otherwise the flag is set and the
        stored tokens, if both are there, are returned for the profile
        request. */
    method BeginInitialize(hasWindow: bool, storage: TokenStorage.LocalStorage) returns (request: Option<Tokens>)
      requires Valid()
      modifies this
      ensures Valid() && runs <= 1
      ensures !hasWindow || old(initialized) ==> request.None? && initialized == old(initialized) && runs == old(runs)
      ensures hasWindow && !old(initialized) ==> initialized && runs == 1 && request == storage.GetTokens()
    {
      if !hasWindow {
        return None;
      }
      if initialized {
        return None;
      }
      initialized := true;
      runs := runs + 1;
      request := storage.GetTokens();
    }

    /** `initializeAuthState`, after the profile request: the session is
        installed, or, when the request failed, the stored tokens are
        removed and the session cleared. */
    method CompleteInitialize(tokens: Tokens, outcome: Outcome<Profile>, store: Store, storage: TokenStorage.LocalStorage)
      modifies store, storage
      ensures outcome.Success? ==>
        && store.tokens == Some(tokens) && store.user == Some(outcome.value) && store.isAuthenticated
        && storage.items == old(storage.items)
      ensures outcome.Failure? ==>
        && store.tokens.None? && store.user.None? && !store.isAuthenticated
        && storage.items == TokenStorage.WithoutTokens(old(storage.items))
      ensures store.isLoading == old(store.isLoading) && store.error == old(store.error)
      ensures store.updatePasswordLoading == old(store.updatePasswordLoading)
      ensures store.updatePasswordError == old(store.updatePasswordError)
      ensures store.updatePasswordSuccess == old(store.updatePasswordSuccess)
      ensures store.updateUsernameLoading == old(store.updateUsernameLoading)
      ensures store.updateUsernameError == old(store.updateUsernameError)
      ensures store.updateUsernameSuccess == old(store.updateUsernameSuccess)
    {
      match outcome {
        case Success(profile) =>
          store.SetSession(Some(tokens), Some(profile), true);
        case Failure(_) =>
          storage.ClearTokens();
          store.SetSession(None, None, false);
      }
    }
  }
}
