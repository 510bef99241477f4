/**
  * The simulated resource server: three endpoints, a token check, one
  * refresh-and-retry on an expired access token, and a coin flip standing in
  * for an admin permission check. It returns a response record and changes
  * nothing; a refreshed pair travels back in the response for the caller to
  * store. The coin flip (`Math.random() > 0.5`) is the parameter
  * `randomAboveHalf`.
  */
module ApiTest {
  import opened Wrappers
  import opened AuthTypes
  import opened Auth

  datatype ApiEndpoint = Public | Protected | Admin

  /** The fixed data each endpoint serves. */
  datatype MockData = MockData(message: string)

  function MockDataFor(endpoint: ApiEndpoint): MockData
  {
    match endpoint
    case Public => MockData("This is public data, no auth required")
    case Protected => MockData("This is protected data, authenticated user access only")
    case Admin => MockData("This is admin data, admin role required")
  }

  /** `ApiResponse`; an absent optional field is `None`. */
  datatype ApiResponse = ApiResponse(
    success: bool,
    data: Option<MockData>,
    error: Option<string>,
    tokenRefreshed: Option<bool>,
    newTokens: Option<AuthTokens>)

  const AuthenticationRequired := "Authentication required"
  const AuthenticationExpired := "Authentication expired, please log in again"
  const InsufficientPermissions := "Insufficient permissions"
  const NewTokenValidationFailed := "New token validation failed"

  function Succeed(endpoint: ApiEndpoint): ApiResponse
  {
    ApiResponse(true, Some(MockDataFor(endpoint)), None, None, None)
  }

  function Fail(reason: string): ApiResponse
  {
    ApiResponse(false, None, Some(reason), None, None)
  }

  /** A token that JavaScript treats as false: absent or empty. */
  predicate Missing(token: Option<string>)
  {
    token.None? || token.value == ""
  }

  /** `retryApiCall`: the call again with the new access token, which must verify. */
  function RetryApiCall(endpoint: ApiEndpoint, newAccessToken: string, now: int): (r: ApiResponse)
    ensures r.success <==> VerifyJwt(newAccessToken, now)
    ensures r.success ==> r.data == Some(MockDataFor(endpoint)) && r.error.None?
    ensures !r.success ==> r.error == Some(NewTokenValidationFailed) && r.data.None?
    ensures r.tokenRefreshed.None? && r.newTokens.None?
  {
    if !VerifyJwt(newAccessToken, now) then Fail(NewTokenValidationFailed)
    else Succeed(endpoint)
  }

  /** `callTestApi` */
  function CallTestApi(endpoint: ApiEndpoint, accessToken: Option<string>, refreshToken: Option<string>,
                       now: int, randomAboveHalf: bool): (r: ApiResponse)
    ensures r.success <==> r.error.None?
    ensures r.success ==> r.data == Some(MockDataFor(endpoint))
    ensures !r.success ==> r.data.None?
    ensures r.tokenRefreshed.Some? <==> r.newTokens.Some?
    ensures r.tokenRefreshed.Some? ==> r.tokenRefreshed == Some(true)
  {
    if endpoint == Public then Succeed(endpoint)
    else if Missing(accessToken) then Fail(AuthenticationRequired)
    else if !VerifyJwt(accessToken.value, now) then
      if Missing(refreshToken) then Fail(AuthenticationExpired)
      else
        var refreshed := RefreshTestToken(refreshToken.value, now);
        if refreshed.Failure? then Fail(AuthenticationExpired)
        else
          var retryResponse := RetryApiCall(endpoint, refreshed.value.accessToken, now);
          retryResponse.(tokenRefreshed := Some(true), newTokens := Some(refreshed.value))
    else if endpoint == Admin && randomAboveHalf then Fail(InsufficientPermissions)
    else Succeed(endpoint)
  }

  // ---------------------------------------------------------------------------
  // Proofs

  /** The public endpoint serves its data whatever tokens are presented. */
  lemma PublicAlwaysSucceeds(accessToken: Option<string>, refreshToken: Option<string>, now: int, randomAboveHalf: bool)
    ensures CallTestApi(Public, accessToken, refreshToken, now, randomAboveHalf)
         == ApiResponse(true, Some(MockData("This is public data, no auth required")), None, None, None)
  {
  }

  /** Without an access token a guarded endpoint refuses, and no refresh is tried. */
  lemma MissingAccessTokenRefused(endpoint: ApiEndpoint, accessToken: Option<string>, refreshToken: Option<string>,
                                  now: int, randomAboveHalf: bool)
    requires endpoint != Public && Missing(accessToken)
    ensures CallTestApi(endpoint, accessToken, refreshToken, now, randomAboveHalf)
         == ApiResponse(false, None, Some("Authentication required"), None, None)
  {
  }

  /** An access token that does not verify, with no refresh token, ends the session: no new tokens. */
  lemma ExpiredWithoutRefreshToken(endpoint: ApiEndpoint, accessToken: string, refreshToken: Option<string>,
                                   now: int, randomAboveHalf: bool)
    requires endpoint != Public && accessToken != "" && !VerifyJwt(accessToken, now) && Missing(refreshToken)
    ensures CallTestApi(endpoint, Some(accessToken), refreshToken, now, randomAboveHalf)
         == ApiResponse(false, None, Some("Authentication expired, please log in again"), None, None)
  {
  }

  /** The retry accepts an access token issued at the same instant. */
  lemma RetryWithFreshToken(endpoint: ApiEndpoint, now: int)
    ensures RetryApiCall(endpoint, GenerateTestJwt(now).accessToken, now) == Succeed(endpoint)
  {
    IssuedTokensLifetime(now, now);
  }

  /** With an access token that does not verify and a refresh token present, the response is
      the refresh outcome's: expired on failure, else the retry's marked with the new pair. */
  lemma RefreshBranch(endpoint: ApiEndpoint, accessToken: string, refreshToken: string, now: int, randomAboveHalf: bool)
    requires endpoint != Public && accessToken != "" && !VerifyJwt(accessToken, now) && refreshToken != ""
    ensures var refreshed := RefreshTestToken(refreshToken, now);
      CallTestApi(endpoint, Some(accessToken), Some(refreshToken), now, randomAboveHalf)
      == if refreshed.Failure? then Fail(AuthenticationExpired)
         else RetryApiCall(endpoint, refreshed.value.accessToken, now)
                .(tokenRefreshed := Some(true), newTokens := Some(refreshed.value))
  {
  }

  /** An access token that does not verify with a refresh token that does: the pair issued at `now`
      comes back with `tokenRefreshed`, and the retry with it succeeds with the endpoint's data,
      skipping the admin coin flip. */
  lemma RefreshAndRetry(endpoint: ApiEndpoint, accessToken: string, refreshToken: string,
                        now: int, randomAboveHalf: bool)
    requires endpoint != Public && accessToken != "" && !VerifyJwt(accessToken, now)
    requires refreshToken != "" && VerifyJwt(refreshToken, now)
    ensures CallTestApi(endpoint, Some(accessToken), Some(refreshToken), now, randomAboveHalf)
         == ApiResponse(true, Some(MockDataFor(endpoint)), None, Some(true), Some(GenerateTestJwt(now)))
  {
    RefreshBranch(endpoint, accessToken, refreshToken, now, randomAboveHalf);
    RefreshTestTokenOutcome(refreshToken, now);
    RetryWithFreshToken(endpoint, now);
  }

  /** A refresh token that does not verify: the session is reported expired and nothing is refreshed. */
  lemma RefreshRejected(endpoint: ApiEndpoint, accessToken: string, refreshToken: string,
                        now: int, randomAboveHalf: bool)
    requires endpoint != Public && accessToken != "" && !VerifyJwt(accessToken, now)
    requires refreshToken != "" && !VerifyJwt(refreshToken, now)
    ensures CallTestApi(endpoint, Some(accessToken), Some(refreshToken), now, randomAboveHalf)
         == ApiResponse(false, None, Some("Authentication expired, please log in again"), None, None)
  {
  }

  /** With a valid access token the admin endpoint refuses exactly when the coin flip exceeds 0.5. */
  lemma AdminCoinFlip(accessToken: string, refreshToken: Option<string>, now: int, randomAboveHalf: bool)
    requires accessToken != "" && VerifyJwt(accessToken, now)
    ensures var r := CallTestApi(Admin, Some(accessToken), refreshToken, now, randomAboveHalf);
      && (r.success <==> !randomAboveHalf)
      && (!r.success ==> r.error == Some("Insufficient permissions"))
      && r.tokenRefreshed.None?
  {
  }

  /** With a valid access token the protected endpoint serves its data without refreshing. */
  lemma ProtectedWithValidToken(accessToken: string, refreshToken: Option<string>, now: int, randomAboveHalf: bool)
    requires accessToken != "" && VerifyJwt(accessToken, now)
    ensures CallTestApi(Protected, Some(accessToken), refreshToken, now, randomAboveHalf)
         == ApiResponse(true, Some(MockData("This is protected data, authenticated user access only")), None, None, None)
  {
  }

  /** The token's claims (its `role` among them) are never consulted: two present access tokens that
      agree on whether they verify give the same response. */
  lemma ClaimsNeverConsulted(endpoint: ApiEndpoint, token1: string, token2: string, refreshToken: Option<string>,
                             now: int, randomAboveHalf: bool)
    requires token1 != "" && token2 != ""
    requires VerifyJwt(token1, now) == VerifyJwt(token2, now)
    ensures CallTestApi(endpoint, Some(token1), refreshToken, now, randomAboveHalf)
         == CallTestApi(endpoint, Some(token2), refreshToken, now, randomAboveHalf)
  {
  }

  /** Whenever the access token fails verification, the coin flip does not matter. */
  lemma RefreshPathSkipsCoinFlip(endpoint: ApiEndpoint, accessToken: string, refreshToken: Option<string>, now: int)
    requires !VerifyJwt(accessToken, now)
    ensures CallTestApi(endpoint, Some(accessToken), refreshToken, now, true)
         == CallTestApi(endpoint, Some(accessToken), refreshToken, now, false)
  {
  }

  /** Logged in at `t0`, a protected call at `t0 + 31` (access token expired, refresh token alive)
      refreshes: the new access token carries `iat == t0 + 31` and `exp == t0 + 61`. At `t0 + 61` both
      tokens have expired and the call fails without refreshing. */
  lemma ExpiryScenarios(t0: int, randomAboveHalf: bool)
    ensures var t := GenerateTestJwt(t0);
      var r := CallTestApi(Protected, Some(t.accessToken), Some(t.refreshToken), t0 + 31, randomAboveHalf);
      && r.success && r.tokenRefreshed == Some(true) && r.newTokens.Some?
      && DecodeJwt(r.newTokens.value.accessToken).Success?
      && DecodeJwt(r.newTokens.value.accessToken).value.iat == t0 + 31
      && DecodeJwt(r.newTokens.value.accessToken).value.exp == t0 + 61
    ensures var t := GenerateTestJwt(t0);
      var r := CallTestApi(Protected, Some(t.accessToken), Some(t.refreshToken), t0 + 61, randomAboveHalf);
      && !r.success && r.error == Some("Authentication expired, please log in again")
      && r.tokenRefreshed.None? && r.newTokens.None?
  {
    var t := GenerateTestJwt(t0);
    IssuedTokensLifetime(t0, t0 + 31);
    IssuedTokensLifetime(t0, t0 + 61);
    GenerateTestJwtClaims(t0);
    assert t.accessToken != "" && t.refreshToken != "";
    RefreshAndRetry(Protected, t.accessToken, t.refreshToken, t0 + 31, randomAboveHalf);
    GenerateTestJwtClaims(t0 + 31);
    RefreshRejected(Protected, t.accessToken, t.refreshToken, t0 + 61, randomAboveHalf);
  }
}
