# jwt_next_client_proto, modelled in Dafny

This is a model of the client-side token lifecycle of a Next.js JWT demo. It has five parts:

- **Token codec.** Each segment is the unpadded URL-safe base64 of a JSON text.
- **Issuer.** It hands out an access/refresh pair that lives 30 s and 60 s.
- **Verifier.** It decodes a token, checks `exp` against the clock and reports the seconds left.
- **Mock resource server.** It has three endpoints. It refreshes once and retries when the access token has expired.
- **Session state machine.** The authentication provider keeps `user`, `tokens` and `loading` in memory, mirrored in three slots of the browser's local storage.

The modules, in dependency order:

| module | file | models |
|---|---|---|
| `Wrappers` | wrappers.dfy | `Option` and `Result` |
| `Base64` | base64.dfy | standard base64 (section 4 of RFC 4648), padding removed (section 3.2), URL-safe substitution (section 5), and its decoding |
| `Utf8` | utf8.dfy | the UTF-8 bytes of `Buffer.from(text)` and `buffer.toString()` |
| `Json` | json.dfy | `JSON.stringify` / `JSON.parse` for flat objects of string and integer members, and member access |
| `AuthTypes` | types.dfy | `User`, `AuthTokens`, `LoginCredentials`, `AuthResponse`, `JwtPayload` |
| `Auth` | auth.dfy | `base64Encode`/`base64Decode`, `generateTestJwt`, `decodeJwt`, `getRemainingTime`, `verifyJwt`, `loginTest`, `refreshTestToken` |
| `ApiTest` | api_test.dfy | `ApiEndpoint`, `ApiResponse`, `callTestApi`, `retryApiCall` |
| `Session` | session.dfy | each provider operation as a function from the old state (memory and store) to the new, plus the invariant `Valid`: memory mirrors the store |
| `AuthContext` | auth_context.dfy | the provider as a class `AuthProvider`. Its fields are `user`, `tokens`, `loading` and `storage: map<string, string>`, and it has one method per operation. Each method is proved to perform the `Session` transition and to keep `Valid` |

Modelling choices:

- **Inputs.**
  - The clock (`Math.floor(Date.now() / 1000)`) is the parameter `now`.
  - The admin permission draw `Math.random() > 0.5` is the parameter `randomAboveHalf`.
  - One `now` serves a whole operation.
- **Errors.**
  - Exceptions become `Result`/`Option` values.
  - `decodeJwt`'s two messages are `InvalidTokenFormat` and `InvalidTokenPayload`.
- **Ordering.** `async` calls run to completion in program order.
- **Verifier boundary.** The verifier keeps the code's strict `exp < now` test, so a token is still valid at `now == exp`, with 0 seconds left (`Auth.VerifyAndRemaining`). The `exp` claim of section 4.1.4 of RFC 7519 would reject a token at that instant; the model follows the code.

## Model

| member | source | states |
|---|---|---|
| Base64.EncodeStdShape | app/lib/auth.ts:25 | Standard base64 of n bytes has 4·⌈n/3⌉ characters: alphabet characters, then exactly as many `=` as n mod 3 requires (2, 1 or 0). |
| Base64.DecodeEncodeStd | app/lib/auth.ts:37 | Decoding standard base64 gives back exactly the encoded bytes. |
| Base64.StripRepad | app/lib/auth.ts:33-34 | Re-padding to a multiple of four restores exactly the `=` that encoding removed. |
| Base64.EncodeUrlAlphabet | app/lib/auth.ts:25 | An encoded segment has ⌈4n/3⌉ characters, all in the URL-safe alphabet, none of them `=`, `+`, `/` or `.`. |
| Base64.DecodeEncodeUrl | app/lib/auth.ts:29-37 | Undoing `-`/`_`, re-padding and decoding gives back the bytes of any encoded segment. |
| Utf8.DecodeEncodeChar | app/lib/auth.ts:37 | The UTF-8 form of one character, followed by anything, decodes to that character and consumes exactly its 1 to 4 bytes. |
| Utf8.DecodeEncode | app/lib/auth.ts:37 | `buffer.toString()` of `Buffer.from(text)` is `text`. |
| Json.LookupFind | app/lib/auth.ts:97 | The last member with a key is the value member access returns for that key. |
| Json.ParseQuoted | app/lib/auth.ts:37 | A quoted, escaped string parses back to itself, leaving the text after it. |
| Json.ParseNumberText | app/lib/auth.ts:37 | An integer's decimal text, before a non-digit, parses back to that integer (negative values included). |
| Json.ParsePrimitiveText | app/lib/auth.ts:37 | A string or integer value's text parses back to that value. |
| Json.ParseMembersText | app/lib/auth.ts:37 | The members of an object, up to `}`, parse back to the same members in the same order. |
| Json.ParseStringify | app/lib/auth.ts:25-37 | `JSON.parse(JSON.stringify(j))` is `j` for every value of the subset. |
| Auth.GetRemainingTime | app/lib/auth.ts:104-112 | The seconds left are never negative. |
| Auth.Base64Encode | app/lib/auth.ts:24-26 | `base64Encode` of a JSON value; its contract is `Auth.Base64RoundTrip` and `Auth.Base64Alphabet`. |
| Auth.Base64Decode | app/lib/auth.ts:29-41 | `base64Decode`, failing on a segment that is not base64, not UTF-8 or not JSON; its contract is `Auth.Base64RoundTrip`. |
| Auth.Base64RoundTrip | app/lib/auth.ts:24-41 | `base64Decode(base64Encode(x))` is `x`. |
| Auth.Base64Alphabet | app/lib/auth.ts:25 | An encoded segment contains no `=`, `+`, `/` or `.`. |
| Auth.SplitThree | app/lib/auth.ts:78 | Three segments free of `.`, joined by `.`, split back into those three. |
| Auth.PayloadOfJson | app/lib/auth.ts:54-61 | Reading the six claims back from a payload's JSON object gives that payload. |
| Auth.MakeTokenSplit | app/lib/auth.ts:74-78 | A built token splits into header, payload and signature segments. |
| Auth.MakeToken | app/lib/auth.ts:73-78 | One signed token from claims and a secret; its contract is `Auth.MakeTokenSplit` and `Auth.MakeTokenDecodes`. |
| Auth.MakeTokenDecodes | app/lib/auth.ts:74-101 | A token built from claims has exactly three segments and `decodeJwt` returns exactly those claims. |
| Auth.GenerateTestJwt | app/lib/auth.ts:44-87 | `generateTestJwt`; its contract is `Auth.GenerateTestJwtClaims` and `Auth.IssuedTokensLifetime`. |
| Auth.GenerateTestJwtClaims | app/lib/auth.ts:44-87 | Both tokens decode to the test user's `sub`, `email`, `name`, `role`. They share `iat == now`, with access `exp == now + 30` < refresh `exp == now + 60`. |
| Auth.MalformedToken | app/lib/auth.ts:104-133 | A token that does not decode never verifies and has 0 seconds left. |
| Auth.DecodeJwt | app/lib/auth.ts:90-101 | `decodeJwt`; its contract is `Auth.DecodeJwtOutcome`, `Auth.NoSeparatorRejected`, `Auth.DecodeIgnoresOuterSegments` and `Auth.MakeTokenDecodes`. |
| Auth.DecodeJwtOutcome | app/lib/auth.ts:90-101 | `decodeJwt` fails with the format error if and only if the token does not split into three segments. It succeeds if and only if, in addition, the middle segment decodes to JSON carrying all six claims, and then returns those claims. Any other three-segment token fails with the payload error. |
| Auth.NoSeparatorRejected | app/lib/auth.ts:91-94 | Any token without a `.` fails with the format error; it never verifies and has 0 seconds left, with no error escaping. |
| Auth.OneSegmentRejected | app/lib/auth.ts:91-94 | The example "abc": the format error, no verification, 0 seconds left. |
| Auth.DecodeIgnoresOuterSegments | app/lib/auth.ts:90-101 | Only the middle segment is read: replacing the header or the signature by any text without `.` leaves the outcome unchanged, so the signature is never checked. |
| Auth.VerifyJwt | app/lib/auth.ts:115-133 | `verifyJwt`; its contract is `Auth.MalformedToken`, `Auth.VerifyAndRemaining` and `Auth.IssuedTokensLifetime`. |
| Auth.VerifyAndRemaining | app/lib/auth.ts:104-133 | For a decodable token: it verifies if and only if `now <= exp`. The time left is `max(0, exp - now)`. At `now == exp` it verifies with 0 left. Time left implies validity. |
| Auth.IssuedTokensLifetime | app/lib/auth.ts:51-71 | An access token issued at t verifies exactly through t + 30 (refresh token: t + 60) and reports the matching seconds left. |
| Auth.LoginTest | app/lib/auth.ts:136-149 | `loginTest`; its contract is `Auth.LoginTestOutcome` and `Auth.LoginWindow`. |
| Auth.LoginTestOutcome | app/lib/auth.ts:136-149 | Login succeeds if and only if the e-mail is `test@example.com` and the password is `password`. It then returns the test user with the pair issued at `now`, and otherwise "Invalid credentials". |
| Auth.RefreshTestToken | app/lib/auth.ts:152-169 | `refreshTestToken`; its contract is `Auth.RefreshTestTokenOutcome`, `Auth.RefreshIgnoresTokenContents` and `Auth.AccessTokenRefreshes`. |
| Auth.RefreshTestTokenOutcome | app/lib/auth.ts:152-169 | Refresh fails if and only if the token does not verify. On success it returns the pair issued at `now`. |
| Auth.RefreshIgnoresTokenContents | app/lib/auth.ts:157-164 | Any two verifying tokens refresh to the same pair. |
| Auth.AccessTokenRefreshes | app/lib/auth.ts:157-164 | An unexpired access token is accepted as a refresh token. |
| Auth.LoginWindow | app/lib/auth.ts:141-144 | After logging in at t0 the access token verifies at t0 + 30 but not at t0 + 31, and the refresh token at t0 + 60 but not at t0 + 61. |
| ApiTest.MockDataFor | app/lib/apiTest.ts:21-25 | The fixed data of each endpoint; its contract is the `data` clauses of `ApiTest.RetryApiCall`, `ApiTest.CallTestApi` and `ApiTest.PublicAlwaysSucceeds`. |
| ApiTest.RetryApiCall | app/lib/apiTest.ts:117-133 | The retry succeeds if and only if the new token verifies. Success carries the endpoint's data; failure says "New token validation failed". It never sets `tokenRefreshed` or `newTokens`. |
| ApiTest.CallTestApi | app/lib/apiTest.ts:33-114 | `success` holds if and only if there is no error. Success carries the endpoint's data and failure none. `tokenRefreshed` and `newTokens` are set together, and `tokenRefreshed` only ever to true. |
| ApiTest.PublicAlwaysSucceeds | app/lib/apiTest.ts:41-47 | PUBLIC returns the public data whatever tokens are given. |
| ApiTest.MissingAccessTokenRefused | app/lib/apiTest.ts:50-56 | A guarded endpoint without a (non-empty) access token fails with "Authentication required" and refreshes nothing. |
| ApiTest.ExpiredWithoutRefreshToken | app/lib/apiTest.ts:59-69 | An access token that does not verify, without a refresh token, fails with "Authentication expired, please log in again" and no new tokens. |
| ApiTest.RetryWithFreshToken | app/lib/apiTest.ts:117-133 | A retry with a token issued at the same instant succeeds. |
| ApiTest.RefreshAndRetry | app/lib/apiTest.ts:72-85 | When the refresh token verifies, the response is success with the endpoint's data, `tokenRefreshed` true and the pair issued at `now`. |
| ApiTest.RefreshRejected | app/lib/apiTest.ts:86-92 | When the refresh token does not verify, it fails with "Authentication expired, please log in again" and nothing refreshed. |
| ApiTest.AdminCoinFlip | app/lib/apiTest.ts:96-106 | ADMIN with a verifying token fails with "Insufficient permissions" if and only if the draw exceeds 0.5, and never refreshes. |
| ApiTest.ProtectedWithValidToken | app/lib/apiTest.ts:108-113 | PROTECTED with a verifying token returns the protected data and no refresh. |
| ApiTest.ClaimsNeverConsulted | app/lib/apiTest.ts:96-106 | Two access tokens that agree on verification give the same response: the `role` claim is never read. |
| ApiTest.RefreshPathSkipsCoinFlip | app/lib/apiTest.ts:59-93 | When the access token does not verify, the admin draw does not affect the response. |
| ApiTest.ExpiryScenarios | app/lib/apiTest.ts:59-93 | Holding the pair issued at t0, a PROTECTED call at t0 + 31 refreshes to a token with `iat == t0 + 31` and `exp == t0 + 61`. At t0 + 61 it fails expired and refreshes nothing. |
| Session.ParseUserText | app/components/auth/AuthContext.tsx:66 | A user written to its slot parses back to the same user. |
| Session.IsAuthenticated | app/components/auth/AuthContext.tsx:221 | `isAuthenticated` is `!!user`; its contract is `Session.AuthenticatedIsStored`. |
| Session.AuthenticatedIsStored | app/components/auth/AuthContext.tsx:221 | In a consistent state, a signed-in session holds tokens whose access token is in its slot, and its user is the one the user slot parses to. |
| Session.UpdateTokens | app/components/auth/AuthContext.tsx:48-70 | `updateTokens`; its contract is `Session.UpdateTokensEffect`, `Session.UpdateTokensIssued` and `Session.UpdateTokensValid`. |
| Session.UpdateTokensEffect | app/components/auth/AuthContext.tsx:48-70 | Both tokens land in their slots and no other slot changes. A decodable access token sets the user from `sub`, `email`, `name`, `role` and stores it. An undecodable one leaves the user and the user slot as they were. |
| Session.UpdateTokensIssued | app/components/auth/AuthContext.tsx:57-65 | Storing an issued pair signs in the test user. |
| Session.UpdateTokensValid | app/components/auth/AuthContext.tsx:48-70 | `updateTokens` keeps memory and store in agreement. |
| Session.ClearAuthState | app/components/auth/AuthContext.tsx:170-180 | `clearAuthState`; its contract is `Session.ClearAuthStateEffect`. |
| Session.ClearAuthStateEffect | app/components/auth/AuthContext.tsx:164-180 | `user` and `tokens` become null and the three slots are removed, other slots kept. The result is consistent, and clearing twice equals clearing once. |
| Session.RefreshTokens | app/components/auth/AuthContext.tsx:130-142 | `refreshTokens`; its contract is `Session.RefreshTokensOutcome` and `Session.RefreshTokensValid`. |
| Session.RefreshTokensOutcome | app/components/auth/AuthContext.tsx:130-142 | A refresh returns true if and only if the token verifies. It then stores the pair issued at `now` (user: the test user), and otherwise it clears the session. |
| Session.RefreshTokensValid | app/components/auth/AuthContext.tsx:130-142 | `refreshTokens` keeps memory and store in agreement. |
| Session.LoadAuthState | app/components/auth/AuthContext.tsx:92-127 | `loadAuthState`; its contract is `Session.LoadRestores`, `Session.LoadUserUnreadable`, `Session.LoadRefreshes`, `Session.LoadFindsNothing` and `Session.LoadAuthStateValid`. |
| Session.LoadRestores | app/components/auth/AuthContext.tsx:105-113 | With a verifying access token and a user slot that parses, the session is restored from the slots. A missing refresh slot becomes "". The user is the stored one, not the token's. Nothing is written and the result is true. |
| Session.LoadUserUnreadable | app/components/auth/AuthContext.tsx:105-124 | With a verifying access token and a user slot that does not parse, the tokens are set from the slots (a missing refresh slot as "") before the exception is caught. The user and the store are unchanged and the result is false; the refresh path is not tried. |
| Session.LoadRestoresWritten | app/components/auth/AuthContext.tsx:105-113 | A user slot written by the provider always parses, so after a verifying access token that user is restored and the result is true. |
| Session.LoadRefreshes | app/components/auth/AuthContext.tsx:114-118 | Otherwise, with a verifying refresh slot, the session is refreshed to the pair issued at `now`, and the result is true. |
| Session.LoadFindsNothing | app/components/auth/AuthContext.tsx:121-126 | Otherwise the result is false and nothing changes. |
| Session.LoadAuthStateValid | app/components/auth/AuthContext.tsx:92-127 | `loadAuthState` keeps memory and store in agreement. |
| Session.Login | app/components/auth/AuthContext.tsx:145-161 | `login`; its contract is `Session.LoginOutcome`, `Session.LoginValid` and `Session.LoginStores`. |
| Session.LoginOutcome | app/components/auth/AuthContext.tsx:145-161 | Login succeeds if and only if the credentials are the test ones, then stores the pair issued at `now` and signs in the test user. Otherwise the error is "Invalid credentials" and only `loading` changes. `loading` ends false either way. |
| Session.LoginValid | app/components/auth/AuthContext.tsx:145-161 | `login` keeps memory and store in agreement. |
| Session.CheckTokenStatus | app/components/auth/AuthContext.tsx:183-195 | One tick of `checkTokenStatus`; its contract is `Session.CheckTokenStatusOutcome`, `Session.ProactiveRefresh` and `Session.CheckTokenStatusValid`. |
| Session.CheckTokenStatusOutcome | app/components/auth/AuthContext.tsx:183-195 | The check refreshes if and only if there is an access token with fewer than 10 seconds left and a non-empty refresh token. Otherwise nothing changes. |
| Session.ProactiveRefresh | app/components/auth/AuthContext.tsx:183-195 | Holding the pair issued at t0, the check does nothing through t0 + 20. From t0 + 21 through t0 + 60 it renews the pair, and after that it signs out. |
| Session.CheckTokenStatusValid | app/components/auth/AuthContext.tsx:183-195 | The check keeps memory and store in agreement. |
| Session.CommitApiResponse | app/components/api/ApiTestButtons.tsx:28-31 | The commit of a refreshed pair; its contract is `Session.CommitAfterCall` and `Session.CommitApiResponseValid`. |
| Session.CommitAfterCall | app/components/api/ApiTestButtons.tsx:28-31 | After an API call, the commit stores new tokens if and only if the call refreshed, and then they are the pair issued at `now`. |
| Session.CommitApiResponseValid | app/components/api/ApiTestButtons.tsx:28-31 | The commit keeps memory and store in agreement. |
| Session.Mount | app/components/auth/AuthContext.tsx:198-201 | The mount effect; its contract is `Session.MountValid`, `Session.MountRestores` and the `Session.Reload…` lemmas. |
| Session.MountValid | app/components/auth/AuthContext.tsx:198-201 | Mounting keeps memory and store in agreement and ends with `loading` false. |
| Session.LoginStores | app/components/auth/AuthContext.tsx:145-161 | A successful login at t0 leaves the pair issued at t0 and the test user in the three slots. |
| Session.MountRestores | app/components/auth/AuthContext.tsx:198-201 | A new provider mounted over a store with a verifying access token, a refresh token and a written user holds exactly those, with the store unchanged and `loading` false. |
| Session.ReloadWhileAccessLives | app/components/auth/AuthContext.tsx:105-113 | A new provider mounted over that store through t0 + 30 holds the same user and pair, writes nothing, and ends loading. |
| Session.ReloadWhileRefreshLives | app/components/auth/AuthContext.tsx:114-118 | A new provider mounted over that store between t0 + 31 and t0 + 60 refreshes to the pair issued at `now`, with the test user, and ends loading. |
| Session.ReloadAfterExpiry | app/components/auth/AuthContext.tsx:121-126 | A new provider mounted over that store after t0 + 60 finds nothing and changes nothing but `loading`. |
| Session.ReloadAfterLogin | app/components/auth/AuthContext.tsx:92-161 | A session survives a reload: a new provider mounted over the store of an actual login, in all three windows. |
| AuthContext.AuthProvider.constructor | app/components/auth/AuthContext.tsx:43-45 | A new provider is signed out, loading, over the given store, and consistent. |
| AuthContext.AuthProvider.IsAuthenticated | app/components/auth/AuthContext.tsx:221 | `isAuthenticated` of the provider's state; with `Valid()` its contract is `Session.AuthenticatedIsStored`. |
| AuthContext.AuthProvider.UpdateTokens | app/components/auth/AuthContext.tsx:48-70 | The new state is `Session.UpdateTokens` of the old, and memory and store still agree. |
| AuthContext.AuthProvider.ClearAuthState | app/components/auth/AuthContext.tsx:170-180 | The new state is `Session.ClearAuthState` of the old, and memory and store still agree. |
| AuthContext.AuthProvider.Logout | app/components/auth/AuthContext.tsx:164-167 | Logging out is clearing. |
| AuthContext.AuthProvider.RefreshTokens | app/components/auth/AuthContext.tsx:130-142 | The new state and result are `Session.RefreshTokens` of the old state, and memory and store still agree. |
| AuthContext.AuthProvider.LoadAuthState | app/components/auth/AuthContext.tsx:92-127 | The new state and result are `Session.LoadAuthState` of the old state, and memory and store still agree. |
| AuthContext.AuthProvider.Login | app/components/auth/AuthContext.tsx:145-161 | The new state and error are `Session.Login` of the old state, and memory and store still agree. |
| AuthContext.AuthProvider.CheckTokenStatus | app/components/auth/AuthContext.tsx:183-195 | The new state is `Session.CheckTokenStatus` of the old, and memory and store still agree. |
| AuthContext.AuthProvider.CommitApiResponse | app/components/api/ApiTestButtons.tsx:28-31 | The new state is `Session.CommitApiResponse` of the old, and memory and store still agree. |
| AuthContext.AuthProvider.Mount | app/components/auth/AuthContext.tsx:198-201 | Mounting loads, clears `loading`, and reports whether the periodic check would start. Memory and store still agree. |

## Left out

- Timer wiring (`setInterval`/`clearInterval` in the mount effect and in the button panel) is not modelled. `CheckTokenStatus` is one tick, called by whoever drives the model.
  - In the source, the interval callback captures the first render's `tokens`, which is `null`. A real tick therefore never refreshes.
  - The model's tick reads the current tokens instead.
- Asynchrony is not modelled; every `await` completes in program order. In particular, the refresh that `loadAuthState` starts without awaiting is modelled as finished before `loadAuthState` returns.
- Each operation reads one `now`, whereas the source reads the clock separately in each call to the verifier and the issuer.
- The `typeof window !== 'undefined'` guard is not modelled; the model always runs in a browser.
- Logging (`console.log`, `logTokenStatus`) is not modelled; it has no effect on state.
- React rendering, the context object, `useAuth` and every UI component are not modelled. The one exception is the commit of refreshed tokens in the API test panel.
- The signature segment is built from its inputs as the source builds it. `decodeJwt` never checks it (`Auth.DecodeIgnoresOuterSegments`), so no security property is stated about it.
- `Auth.Base64Decode` is stricter than Node's `Buffer.from(s, 'base64')`. Node skips characters outside the alphabet and tolerates bad padding; the model fails on them. Likewise, `Utf8.Decode` fails where Node substitutes U+FFFD for invalid UTF-8. The two agree on everything the encoder produces.
- `Json` covers flat objects of string and integer members, and bare strings and integers. `Json.Stringify` escapes as `JSON.stringify` does: `"` and `\`, `\b \f \n \r \t`, and other control characters as `\u00XX`. `Json.Parse` follows `JSON.parse` in rejecting leading zeros and raw control characters inside strings, and in accepting the escapes `\" \\ \/ \b \f \n \r \t \uXXXX`. It departs from `JSON.parse` in these ways:
  - no whitespace is accepted around tokens;
  - nested objects, arrays, booleans, `null`, fractions and exponents are rejected;
  - a `\u` escape naming a surrogate code point is rejected, even as half of a pair that `JSON.parse` would combine (the model's characters are Unicode scalar values);
  - integers are unbounded rather than IEEE doubles.
- `Session.ParseUser`: a stored user slot that is not such an object counts as a parse failure (the caught exception). JavaScript would accept any JSON there.
- `Auth.DecodeJwt`: a payload with a missing or mistyped claim counts as a decode failure. JavaScript would pass the object through and compare `undefined`/`NaN` later.
- Integer widths are not modelled: `iat` and `exp` are unbounded integers, not IEEE doubles.
