/**
  * The authentication provider: the session state a page shares, updated in
  * place by its operations, with the browser's local storage as a map field.
  * Every method is proved to perform the matching transition of `Session` and
  * to keep `Session.Valid`, the agreement between memory and the store.
  */
module AuthContext {
  import opened Wrappers
  import opened AuthTypes
  import opened Auth
  import opened ApiTest
  import Session

  class AuthProvider {
    var user: Option<User>
    var tokens: Option<AuthTokens>
    var loading: bool
    var storage: Session.Storage

    /** The provider's state as a value. */
    function State(): Session.AuthState
      reads this
    {
      Session.AuthState(user, tokens, loading, storage)
    }

    ghost predicate Valid()
      reads this
    {
      Session.Valid(State())
    }

    /** `isAuthenticated` */
    predicate IsAuthenticated()
      reads this
    {
      user.Some?
    }

    /** A provider over the browser's current store: signed out and loading. */
    constructor (persisted: Session.Storage)
      ensures State() == Session.AuthState(None, None, true, persisted)
      ensures Valid()
    {
      user := None;
      tokens := None;
      loading := true;
      storage := persisted;
    }

    /** `updateTokens`, also exposed as `setTokens` */
    method UpdateTokens(newTokens: AuthTokens)
      requires Valid()
      modifies this
      ensures State() == Session.UpdateTokens(old(State()), newTokens)
      ensures Valid()
    {
      Session.UpdateTokensValid(State(), newTokens);
      tokens := Some(newTokens);
      storage := storage[Session.AccessTokenKey := newTokens.accessToken];
      storage := storage[Session.RefreshTokenKey := newTokens.refreshToken];
      var payload := DecodeJwt(newTokens.accessToken);
      if payload.Success? {
        var userData := Session.UserFromPayload(payload.value);
        user := Some(userData);
        storage := storage[Session.UserKey := Session.UserText(userData)];
      }
    }

    /** `clearAuthState` */
    method ClearAuthState()
      requires Valid()
      modifies this
      ensures State() == Session.ClearAuthState(old(State()))
      ensures Valid()
    {
      user := None;
      tokens := None;
      storage := storage - {Session.AccessTokenKey};
      storage := storage - {Session.RefreshTokenKey};
      storage := storage - {Session.UserKey};
    }

    /** `logout` */
    method Logout()
      requires Valid()
      modifies this
      ensures State() == Session.ClearAuthState(old(State()))
      ensures Valid()
    {
      ClearAuthState();
    }

    /** `refreshTokens` */
    method RefreshTokens(refreshToken: string, now: int) returns (ok: bool)
      requires Valid()
      modifies this
      ensures (State(), ok) == Session.RefreshTokens(old(State()), refreshToken, now)
      ensures Valid()
    {
      var newTokens := RefreshTestToken(refreshToken, now);
      if newTokens.Success? {
        UpdateTokens(newTokens.value);
        ok := true;
      } else {
        ClearAuthState();
        ok := false;
      }
    }

    /** `loadAuthState` */
    method LoadAuthState(now: int) returns (restored: bool)
      requires Valid()
      modifies this
      ensures (State(), restored) == Session.LoadAuthState(old(State()), now)
      ensures Valid()
    {
      Session.LoadAuthStateValid(State(), now);
      var accessToken := Session.Slot(storage, Session.AccessTokenKey);
      var refreshToken := Session.Slot(storage, Session.RefreshTokenKey);
      var savedUser := Session.Slot(storage, Session.UserKey);
      if Session.Present(accessToken) && VerifyJwt(accessToken.value, now) && Session.Present(savedUser) {
        tokens := Some(AuthTokens(accessToken.value, if Session.Present(refreshToken) then refreshToken.value else ""));
        var parsed := Session.ParseUser(savedUser.value);
        if parsed.None? {
          return false;
        }
        user := parsed;
        return true;
      } else if Session.Present(refreshToken) && VerifyJwt(refreshToken.value, now) {
        var _ := RefreshTokens(refreshToken.value, now);
        return true;
      }
      return false;
    }

    /** `login`: `None` when it resolves, the rethrown error otherwise. */
    method Login(email: string, password: string, now: int) returns (error: Option<string>)
      requires Valid()
      modifies this
      ensures (State(), error) == Session.Login(old(State()), email, password, now)
      ensures Valid()
    {
      loading := true;
      var response := LoginTest(LoginCredentials(email, password), now);
      if response.Success? {
        UpdateTokens(response.value.tokens);
        error := None;
      } else {
        error := Some(response.error);
      }
      loading := false;
    }

    /** `checkTokenStatus`, one tick of the periodic check. */
    method CheckTokenStatus(now: int)
      requires Valid()
      modifies this
      ensures State() == Session.CheckTokenStatus(old(State()), now)
      ensures Valid()
    {
      if tokens.Some? && tokens.value.accessToken != "" {
        var accessRemaining := GetRemainingTime(tokens.value.accessToken, now);
        if accessRemaining < Session.RefreshThreshold && tokens.value.refreshToken != "" {
          var _ := RefreshTokens(tokens.value.refreshToken, now);
        }
      }
    }

    /** The API test panel's commit of a response's refreshed tokens. */
    method CommitApiResponse(response: ApiResponse)
      requires Valid()
      modifies this
      ensures State() == Session.CommitApiResponse(old(State()), response)
      ensures Valid()
    {
      if response.tokenRefreshed == Some(true) && response.newTokens.Some? {
        UpdateTokens(response.newTokens.value);
      }
    }

    /** The mount effect; the result says whether the periodic check would be started. */
    method Mount(now: int) returns (startTimer: bool)
      requires Valid()
      modifies this
      ensures (State(), startTimer) == Session.Mount(old(State()), now)
      ensures Valid()
    {
      startTimer := LoadAuthState(now);
      loading := false;
    }
  }
}
