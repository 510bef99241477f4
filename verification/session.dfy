/**
  * The client session of the authentication provider as a value: the
  * in-memory `user`, `tokens` and `loading` flag, and the browser's key-value
  * store, of which three slots belong to the session. Each transition of the
  * provider is a function from the old snapshot to the new one; the class
  * `AuthContext.AuthProvider` is proved to perform exactly these transitions.
  */
module Session {
  import opened Wrappers
  import opened AuthTypes
  import opened Json
  import opened Auth
  import opened ApiTest

  const AccessTokenKey := "access_token"
  const RefreshTokenKey := "refresh_token"
  const UserKey := "auth_user"

  /** A periodic check refreshes once fewer than this many seconds of access remain. */
  const RefreshThreshold := 10

  /** The browser's local storage. */
  type Storage = map<string, string>

  datatype AuthState = AuthState(user: Option<User>, tokens: Option<AuthTokens>, loading: bool, storage: Storage)

  /** `getItem`: the slot's text, or `None` (JavaScript's null) for an absent key. */
  function Slot(storage: Storage, key: string): Option<string>
  {
    if key in storage then Some(storage[key]) else None
  }

  /** A slot JavaScript treats as true: present and non-empty. */
  predicate Present(v: Option<string>)
  {
    v.Some? && v.value != ""
  }

  /** `isAuthenticated` is `!!user`. */
  predicate IsAuthenticated(s: AuthState)
  {
    s.user.Some?
  }

  // ---------------------------------------------------------------------------
  // The user slot

  function UserJson(u: User): Json
  {
    JObject([("id", JString(u.id)), ("email", JString(u.email)), ("name", JString(u.name)), ("role", JString(u.role))])
  }

  /** `JSON.stringify(userData)` */
  function UserText(u: User): string
  {
    Stringify(UserJson(u))
  }

  /** `JSON.parse(savedUser)` read as a user; text that is not such an object fails. */
  function ParseUser(text: string): Option<User>
  {
    var j := Parse(text);
    if j.None? then None
    else
      var id, email, name, role := GetString(j.value, "id"), GetString(j.value, "email"),
                                   GetString(j.value, "name"), GetString(j.value, "role");
      if id.Some? && email.Some? && name.Some? && role.Some? then
        Some(User(id.value, email.value, name.value, role.value))
      else None
  }

  /** The user named by a token's claims. */
  function UserFromPayload(p: JwtPayload): User
  {
    User(p.sub, p.email, p.name, p.role)
  }

  // ---------------------------------------------------------------------------
  // Transitions

  /** `updateTokens`: store both tokens; if the access token decodes, take the user from its claims
      and store it too, else leave the user and its slot alone. */
  function UpdateTokens(s: AuthState, t: AuthTokens): AuthState
  {
    var stored := s.storage[AccessTokenKey := t.accessToken][RefreshTokenKey := t.refreshToken];
    var payload := DecodeJwt(t.accessToken);
    if payload.Failure? then s.(tokens := Some(t), storage := stored)
    else
      var u := UserFromPayload(payload.value);
      s.(user := Some(u), tokens := Some(t), storage := stored[UserKey := UserText(u)])
  }

  /** `clearAuthState` (and `logout`, which only calls it). */
  function ClearAuthState(s: AuthState): AuthState
  {
    s.(user := None, tokens := None, storage := s.storage - {AccessTokenKey, RefreshTokenKey, UserKey})
  }

  /** `refreshTokens`: the new state and whether the refresh succeeded. */
  function RefreshTokens(s: AuthState, refreshToken: string, now: int): (AuthState, bool)
  {
    var r := RefreshTestToken(refreshToken, now);
    if r.Success? then (UpdateTokens(s, r.value), true) else (ClearAuthState(s), false)
  }

  /** `loadAuthState`: the new state and its boolean result. A stored user that does not parse is
      the caught exception: the tokens are already set, the user is not, and the result is false. */
  function LoadAuthState(s: AuthState, now: int): (AuthState, bool)
  {
    var accessToken, refreshToken, savedUser := Slot(s.storage, AccessTokenKey), Slot(s.storage, RefreshTokenKey), Slot(s.storage, UserKey);
    if Present(accessToken) && VerifyJwt(accessToken.value, now) && Present(savedUser) then
      var restored := s.(tokens := Some(AuthTokens(accessToken.value, if Present(refreshToken) then refreshToken.value else "")));
      var u := ParseUser(savedUser.value);
      if u.None? then (restored, false) else (restored.(user := u), true)
    else if Present(refreshToken) && VerifyJwt(refreshToken.value, now) then
      (RefreshTokens(s, refreshToken.value, now).0, true)
    else (s, false)
  }

  /** `login`: the new state and the rethrown error, if any; `loading` ends false either way. */
  function Login(s: AuthState, email: string, password: string, now: int): (AuthState, Option<string>)
  {
    var r := LoginTest(LoginCredentials(email, password), now);
    if r.Success? then (UpdateTokens(s.(loading := true), r.value.tokens).(loading := false), None)
    else (s.(loading := false), Some(r.error))
  }

  /** The condition under which `checkTokenStatus` refreshes. */
  predicate ShouldRefresh(tokens: Option<AuthTokens>, now: int)
  {
    && tokens.Some?
    && tokens.value.accessToken != ""
    && GetRemainingTime(tokens.value.accessToken, now) < RefreshThreshold
    && tokens.value.refreshToken != ""
  }

  /** `checkTokenStatus` */
  function CheckTokenStatus(s: AuthState, now: int): AuthState
  {
    if ShouldRefresh(s.tokens, now) then RefreshTokens(s, s.tokens.value.refreshToken, now).0 else s
  }

  /** The API test panel's commit: a response carrying refreshed tokens is pushed through `setTokens`. */
  function CommitApiResponse(s: AuthState, response: ApiResponse): AuthState
  {
    if response.tokenRefreshed == Some(true) && response.newTokens.Some? then UpdateTokens(s, response.newTokens.value)
    else s
  }

  /** The mount effect: load, then clear `loading`; the flag says whether the periodic check is started. */
  function Mount(s: AuthState, now: int): (AuthState, bool)
  {
    var loaded := LoadAuthState(s, now);
    (loaded.0.(loading := false), loaded.1)
  }

  // ---------------------------------------------------------------------------
  // The invariant: memory mirrors the store

  /** In-memory tokens are the ones in their slots (an absent refresh slot read as ""), and an
      in-memory user is the one its slot parses to and comes with tokens. */
  ghost predicate Valid(s: AuthState)
  {
    && (s.tokens.Some? ==>
          && Slot(s.storage, AccessTokenKey) == Some(s.tokens.value.accessToken)
          && (if RefreshTokenKey in s.storage then s.storage[RefreshTokenKey] else "") == s.tokens.value.refreshToken)
    && (s.user.Some? ==>
          && s.tokens.Some?
          && UserKey in s.storage
          && ParseUser(s.storage[UserKey]) == s.user)
  }

  // ---------------------------------------------------------------------------
  // Proofs: the user slot

  /** A stored user parses back to itself. */
  lemma ParseUserText(u: User)
    ensures ParseUser(UserText(u)) == Some(u)
  {
    var ms := UserJson(u).members;
    ParseStringify(UserJson(u));
    LookupFind(ms, 0);
    LookupFind(ms, 1);
    LookupFind(ms, 2);
    LookupFind(ms, 3);
  }

  /** In a consistent state, a signed-in session holds tokens whose access token is in its slot,
      and its user is the one the user slot parses to. */
  lemma AuthenticatedIsStored(s: AuthState)
    requires Valid(s)
    ensures IsAuthenticated(s) ==>
      && s.tokens.Some? && Slot(s.storage, AccessTokenKey) == Some(s.tokens.value.accessToken)
      && UserKey in s.storage && ParseUser(s.storage[UserKey]) == s.user
  {
  }

  // ---------------------------------------------------------------------------
  // Proofs: updateTokens

  /** Both tokens land in their slots. A decodable access token also sets the user from its
      `sub`, `email`, `name` and `role` and stores that user; an undecodable one leaves the user
      and the user slot as they were. No other slot and not `loading` changes. */
  lemma UpdateTokensEffect(s: AuthState, t: AuthTokens)
    ensures var s' := UpdateTokens(s, t);
      && s'.tokens == Some(t) && s'.loading == s.loading
      && Slot(s'.storage, AccessTokenKey) == Some(t.accessToken)
      && Slot(s'.storage, RefreshTokenKey) == Some(t.refreshToken)
      && (forall k :: k !in {AccessTokenKey, RefreshTokenKey, UserKey} ==> Slot(s'.storage, k) == Slot(s.storage, k))
    ensures var s' := UpdateTokens(s, t);
      DecodeJwt(t.accessToken).Success? ==>
        var u := UserFromPayload(DecodeJwt(t.accessToken).value);
        && s'.user == Some(u) && u.id == DecodeJwt(t.accessToken).value.sub
        && Slot(s'.storage, UserKey) == Some(UserText(u))
        && ParseUser(s'.storage[UserKey]) == Some(u)
    ensures var s' := UpdateTokens(s, t);
      DecodeJwt(t.accessToken).Failure? ==>
        s'.user == s.user && Slot(s'.storage, UserKey) == Slot(s.storage, UserKey)
  {
    if DecodeJwt(t.accessToken).Success? {
      ParseUserText(UserFromPayload(DecodeJwt(t.accessToken).value));
    }
  }

  /** Storing an issued pair signs in the test user. */
  lemma UpdateTokensIssued(s: AuthState, now: int)
    ensures UpdateTokens(s, GenerateTestJwt(now)).user == Some(TestUser)
    ensures IsAuthenticated(UpdateTokens(s, GenerateTestJwt(now)))
  {
    GenerateTestJwtClaims(now);
  }

  lemma UpdateTokensValid(s: AuthState, t: AuthTokens)
    requires Valid(s)
    ensures Valid(UpdateTokens(s, t))
  {
    UpdateTokensEffect(s, t);
  }

  // ---------------------------------------------------------------------------
  // Proofs: clearAuthState

  /** Clearing signs out and empties the three slots, keeps every other slot, and a second
      clear changes nothing. */
  lemma ClearAuthStateEffect(s: AuthState)
    ensures var c := ClearAuthState(s);
      && c.user.None? && c.tokens.None? && !IsAuthenticated(c) && c.loading == s.loading
      && AccessTokenKey !in c.storage && RefreshTokenKey !in c.storage && UserKey !in c.storage
      && (forall k :: k !in {AccessTokenKey, RefreshTokenKey, UserKey} ==> Slot(c.storage, k) == Slot(s.storage, k))
      && Valid(c)
    ensures ClearAuthState(ClearAuthState(s)) == ClearAuthState(s)
  {
  }

  // ---------------------------------------------------------------------------
  // Proofs: refreshTokens

  /** A refresh succeeds exactly when the presented token verifies; it then stores the pair issued
      at `now` and signs in the test user, and otherwise signs out completely. */
  lemma RefreshTokensOutcome(s: AuthState, refreshToken: string, now: int)
    ensures RefreshTokens(s, refreshToken, now).1 <==> VerifyJwt(refreshToken, now)
    ensures VerifyJwt(refreshToken, now) ==>
      && RefreshTokens(s, refreshToken, now).0 == UpdateTokens(s, GenerateTestJwt(now))
      && RefreshTokens(s, refreshToken, now).0.user == Some(TestUser)
    ensures !VerifyJwt(refreshToken, now) ==> RefreshTokens(s, refreshToken, now).0 == ClearAuthState(s)
  {
    UpdateTokensIssued(s, now);
  }

  lemma RefreshTokensValid(s: AuthState, refreshToken: string, now: int)
    requires Valid(s)
    ensures Valid(RefreshTokens(s, refreshToken, now).0)
  {
    if VerifyJwt(refreshToken, now) {
      UpdateTokensValid(s, GenerateTestJwt(now));
    }
  }

  // ---------------------------------------------------------------------------
  // Proofs: loadAuthState

  /** With a verifying access token and a user slot that parses, the session is restored from the
      store: the user is the stored one, whatever the token's claims say, and a missing refresh slot
      becomes "". Nothing is written. */
  lemma LoadRestores(s: AuthState, now: int, u: User)
    requires Present(Slot(s.storage, AccessTokenKey)) && VerifyJwt(s.storage[AccessTokenKey], now)
    requires Present(Slot(s.storage, UserKey)) && ParseUser(s.storage[UserKey]) == Some(u)
    ensures var r := LoadAuthState(s, now); var s', ok := r.0, r.1;
      && ok
      && s' == s.(user := Some(u), tokens := Some(AuthTokens(s.storage[AccessTokenKey],
                                                                if RefreshTokenKey in s.storage then s.storage[RefreshTokenKey] else "")))
  {
  }

  /** With a verifying access token and a user slot that does not parse, the exception is caught
      after the tokens were set: the tokens come from the store, the user and the store are left
      as they were, and the result is false; the refresh path is not tried. */
  lemma LoadUserUnreadable(s: AuthState, now: int)
    requires Present(Slot(s.storage, AccessTokenKey)) && VerifyJwt(s.storage[AccessTokenKey], now)
    requires Present(Slot(s.storage, UserKey)) && ParseUser(s.storage[UserKey]).None?
    ensures var r := LoadAuthState(s, now); var s', ok := r.0, r.1;
      && !ok
      && s' == s.(tokens := Some(AuthTokens(s.storage[AccessTokenKey],
                                             if RefreshTokenKey in s.storage then s.storage[RefreshTokenKey] else "")))
      && s'.user == s.user && s'.storage == s.storage
  {
  }

  /** A user slot holding a user as it was written always parses, so after a verifying access
      token it restores that user. */
  lemma LoadRestoresWritten(s: AuthState, now: int, u: User)
    requires Present(Slot(s.storage, AccessTokenKey)) && VerifyJwt(s.storage[AccessTokenKey], now)
    requires Slot(s.storage, UserKey) == Some(UserText(u))
    ensures LoadAuthState(s, now).1 && LoadAuthState(s, now).0.user == Some(u)
  {
    ParseUserText(u);
    assert UserText(u) != "" by { assert UserText(u)[0] == '{'; }
    LoadRestores(s, now, u);
  }

  /** Otherwise, a verifying refresh slot takes the refresh path and the result is true. */
  lemma LoadRefreshes(s: AuthState, now: int)
    requires !(Present(Slot(s.storage, AccessTokenKey)) && VerifyJwt(s.storage[AccessTokenKey], now)
               && Present(Slot(s.storage, UserKey)))
    requires Present(Slot(s.storage, RefreshTokenKey)) && VerifyJwt(s.storage[RefreshTokenKey], now)
    ensures var r := LoadAuthState(s, now); var s', ok := r.0, r.1;
      && ok && s' == UpdateTokens(s, GenerateTestJwt(now)) && s'.user == Some(TestUser)
  {
    RefreshTokensOutcome(s, s.storage[RefreshTokenKey], now);
  }

  /** When neither branch applies, the result is false and nothing changes. */
  lemma LoadFindsNothing(s: AuthState, now: int)
    requires !(Present(Slot(s.storage, AccessTokenKey)) && VerifyJwt(s.storage[AccessTokenKey], now)
               && Present(Slot(s.storage, UserKey)))
    requires !(Present(Slot(s.storage, RefreshTokenKey)) && VerifyJwt(s.storage[RefreshTokenKey], now))
    ensures LoadAuthState(s, now) == (s, false)
  {
  }

  lemma LoadAuthStateValid(s: AuthState, now: int)
    requires Valid(s)
    ensures Valid(LoadAuthState(s, now).0)
  {
    var accessToken, refreshToken := Slot(s.storage, AccessTokenKey), Slot(s.storage, RefreshTokenKey);
    if Present(accessToken) && VerifyJwt(accessToken.value, now) && Present(Slot(s.storage, UserKey)) {
    } else if Present(refreshToken) && VerifyJwt(refreshToken.value, now) {
      RefreshTokensValid(s, refreshToken.value, now);
    }
  }

  // ---------------------------------------------------------------------------
  // Proofs: login

  /** Login succeeds exactly for the test credentials, then stores the pair issued at `now` and
      signs in the test user; otherwise it reports "Invalid credentials" and changes nothing but
      `loading`. `loading` is false afterwards either way. */
  lemma LoginOutcome(s: AuthState, email: string, password: string, now: int)
    ensures var r := Login(s, email, password, now); var s', error := r.0, r.1;
      && !s'.loading
      && (error.None? <==> email == "test@example.com" && password == "password")
      && (error.None? ==> s' == UpdateTokens(s, GenerateTestJwt(now)).(loading := false)
                          && s'.user == Some(TestUser) && IsAuthenticated(s'))
      && (error.Some? ==> error == Some("Invalid credentials") && s' == s.(loading := false)
                          && (IsAuthenticated(s') <==> IsAuthenticated(s)))
  {
    UpdateTokensIssued(s.(loading := true), now);
  }

  lemma LoginValid(s: AuthState, email: string, password: string, now: int)
    requires Valid(s)
    ensures Valid(Login(s, email, password, now).0)
  {
    var r := LoginTest(LoginCredentials(email, password), now);
    if r.Success? {
      UpdateTokensValid(s.(loading := true), r.value.tokens);
    }
  }

  // ---------------------------------------------------------------------------
  // Proofs: checkTokenStatus and the commit of refreshed tokens

  /** The periodic check refreshes only with an access token that has fewer than 10 seconds left
      and a non-empty refresh token; otherwise it changes nothing. */
  lemma CheckTokenStatusOutcome(s: AuthState, now: int)
    ensures !ShouldRefresh(s.tokens, now) ==> CheckTokenStatus(s, now) == s
    ensures ShouldRefresh(s.tokens, now) ==>
      && s.tokens.Some? && s.tokens.value.accessToken != "" && s.tokens.value.refreshToken != ""
      && GetRemainingTime(s.tokens.value.accessToken, now) < 10
      && CheckTokenStatus(s, now) == RefreshTokens(s, s.tokens.value.refreshToken, now).0
  {
  }

  /** Holding the pair issued at `t0`: up to `t0 + 20` the check does nothing; from `t0 + 21`
      through `t0 + 60` it replaces the pair with one issued at `now`; after `t0 + 60` the refresh
      token has expired too and the check signs out. */
  lemma ProactiveRefresh(s: AuthState, t0: int, now: int)
    requires s.tokens == Some(GenerateTestJwt(t0))
    ensures now <= t0 + 20 ==> CheckTokenStatus(s, now) == s
    ensures t0 + 20 < now <= t0 + 60 ==> CheckTokenStatus(s, now) == UpdateTokens(s, GenerateTestJwt(now))
    ensures t0 + 60 < now ==> CheckTokenStatus(s, now) == ClearAuthState(s)
  {
    GenerateTestJwtClaims(t0);
    IssuedTokensLifetime(t0, now);
    assert s.tokens.value.accessToken != "" && s.tokens.value.refreshToken != "";
    RefreshTokensOutcome(s, s.tokens.value.refreshToken, now);
  }

  lemma CheckTokenStatusValid(s: AuthState, now: int)
    requires Valid(s)
    ensures Valid(CheckTokenStatus(s, now))
  {
    if ShouldRefresh(s.tokens, now) {
      RefreshTokensValid(s, s.tokens.value.refreshToken, now);
    }
  }

  /** Committing the response of an API call stores new tokens exactly when the call refreshed,
      and then they are the pair issued at `now`. */
  lemma CommitAfterCall(s: AuthState, endpoint: ApiEndpoint, accessToken: Option<string>, refreshToken: Option<string>,
                        now: int, randomAboveHalf: bool)
    ensures var r := CallTestApi(endpoint, accessToken, refreshToken, now, randomAboveHalf);
      && (r.tokenRefreshed.Some? ==> CommitApiResponse(s, r) == UpdateTokens(s, GenerateTestJwt(now)))
      && (r.tokenRefreshed.None? ==> CommitApiResponse(s, r) == s)
  {
    var r := CallTestApi(endpoint, accessToken, refreshToken, now, randomAboveHalf);
    if r.tokenRefreshed.Some? {
      assert endpoint != Public && !Missing(accessToken) && !VerifyJwt(accessToken.value, now);
      assert !Missing(refreshToken) && VerifyJwt(refreshToken.value, now);
      RefreshAndRetry(endpoint, accessToken.value, refreshToken.value, now, randomAboveHalf);
    }
  }

  lemma CommitApiResponseValid(s: AuthState, response: ApiResponse)
    requires Valid(s)
    ensures Valid(CommitApiResponse(s, response))
  {
    if response.tokenRefreshed == Some(true) && response.newTokens.Some? {
      UpdateTokensValid(s, response.newTokens.value);
    }
  }

  lemma MountValid(s: AuthState, now: int)
    requires Valid(s)
    ensures Valid(Mount(s, now).0)
    ensures !Mount(s, now).0.loading
  {
    LoadAuthStateValid(s, now);
  }

  // ---------------------------------------------------------------------------
  // Proofs: a session survives a reload

  /** A successful login at `t0` leaves the pair issued at `t0` and the test user in their slots. */
  lemma LoginStores(s: AuthState, t0: int)
    ensures var stored := Login(s, "test@example.com", "password", t0).0.storage;
      && Slot(stored, AccessTokenKey) == Some(GenerateTestJwt(t0).accessToken)
      && Slot(stored, RefreshTokenKey) == Some(GenerateTestJwt(t0).refreshToken)
      && Slot(stored, UserKey) == Some(UserText(TestUser))
  {
    var t := GenerateTestJwt(t0);
    LoginOutcome(s, "test@example.com", "password", t0);
    UpdateTokensEffect(s, t);
    UpdateTokensIssued(s, t0);
    GenerateTestJwtClaims(t0);
  }

  /** A new provider mounted over a store holding a verifying access token, a refresh token and a
      user as written restores all three, untouched, and ends loading. */
  lemma MountRestores(stored: Storage, access: string, refresh: string, u: User, now: int)
    requires Slot(stored, AccessTokenKey) == Some(access) && access != "" && VerifyJwt(access, now)
    requires Slot(stored, RefreshTokenKey) == Some(refresh) && refresh != ""
    requires Slot(stored, UserKey) == Some(UserText(u))
    ensures Mount(AuthState(None, None, true, stored), now)
         == (AuthState(Some(u), Some(AuthTokens(access, refresh)), false, stored), true)
  {
    var mounted := AuthState(None, None, true, stored);
    LoadRestoresWritten(mounted, now, u);
    LoadRestores(mounted, now, u);
  }

  /** A new provider mounted over a store holding the pair issued at `t0` and the test user
      restores both, untouched, while the access token lives. */
  lemma ReloadWhileAccessLives(stored: Storage, t0: int, now: int)
    requires Slot(stored, AccessTokenKey) == Some(GenerateTestJwt(t0).accessToken)
    requires Slot(stored, RefreshTokenKey) == Some(GenerateTestJwt(t0).refreshToken)
    requires Slot(stored, UserKey) == Some(UserText(TestUser))
    requires t0 <= now <= t0 + 30
    ensures var r := Mount(AuthState(None, None, true, stored), now);
      r.1 && r.0 == AuthState(Some(TestUser), Some(GenerateTestJwt(t0)), false, stored)
  {
    var t := GenerateTestJwt(t0);
    GenerateTestJwtClaims(t0);
    IssuedTokensLifetime(t0, now);
    assert t.accessToken != "" && t.refreshToken != "";
    MountRestores(stored, t.accessToken, t.refreshToken, TestUser, now);
  }

  /** Once only the refresh token lives, mounting refreshes to the pair issued at `now`. */
  lemma ReloadWhileRefreshLives(stored: Storage, t0: int, now: int)
    requires Slot(stored, AccessTokenKey) == Some(GenerateTestJwt(t0).accessToken)
    requires Slot(stored, RefreshTokenKey) == Some(GenerateTestJwt(t0).refreshToken)
    requires Slot(stored, UserKey) == Some(UserText(TestUser))
    requires t0 + 30 < now <= t0 + 60
    ensures var r := Mount(AuthState(None, None, true, stored), now);
      r.1 && r.0.user == Some(TestUser) && r.0.tokens == Some(GenerateTestJwt(now)) && !r.0.loading
  {
    var t := GenerateTestJwt(t0);
    GenerateTestJwtClaims(t0);
    IssuedTokensLifetime(t0, now);
    assert t.refreshToken != "" && !VerifyJwt(t.accessToken, now);
    var mounted := AuthState(None, None, true, stored);
    LoadRefreshes(mounted, now);
    UpdateTokensEffect(mounted, GenerateTestJwt(now));
  }

  /** Once both have expired, mounting finds nothing. */
  lemma ReloadAfterExpiry(stored: Storage, t0: int, now: int)
    requires Slot(stored, AccessTokenKey) == Some(GenerateTestJwt(t0).accessToken)
    requires Slot(stored, RefreshTokenKey) == Some(GenerateTestJwt(t0).refreshToken)
    requires Slot(stored, UserKey) == Some(UserText(TestUser))
    requires t0 + 60 < now
    ensures Mount(AuthState(None, None, true, stored), now) == (AuthState(None, None, false, stored), false)
  {
    IssuedTokensLifetime(t0, now);
    LoadFindsNothing(AuthState(None, None, true, stored), now);
  }

  /** A session survives a reload: after a successful login at `t0`, a new provider mounted over
      the same store at `now` restores the same user and pair while the access token lives,
      refreshes to the pair issued at `now` while only the refresh token lives, and finds nothing
      afterwards. */
  lemma ReloadAfterLogin(s: AuthState, t0: int, now: int)
    ensures var stored := Login(s, "test@example.com", "password", t0).0.storage;
      var mounted := AuthState(None, None, true, stored);
      var r := Mount(mounted, now); var s', ok := r.0, r.1;
      && (t0 <= now <= t0 + 30 ==>
            ok && s' == AuthState(Some(TestUser), Some(GenerateTestJwt(t0)), false, stored))
      && (t0 + 30 < now <= t0 + 60 ==>
            ok && s'.user == Some(TestUser) && s'.tokens == Some(GenerateTestJwt(now)))
      && (t0 + 60 < now ==> !ok && s' == mounted.(loading := false))
  {
    var stored := Login(s, "test@example.com", "password", t0).0.storage;
    LoginStores(s, t0);
    if t0 <= now <= t0 + 30 {
      ReloadWhileAccessLives(stored, t0, now);
    } else if t0 + 30 < now <= t0 + 60 {
      ReloadWhileRefreshLives(stored, t0, now);
    } else if t0 + 60 < now {
      ReloadAfterExpiry(stored, t0, now);
    }
  }
}
