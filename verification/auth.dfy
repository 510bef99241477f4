/**
  * Test-token issuer and verifier. A token is `header.payload.signature`, each
  * segment the unpadded URL-safe base64 of a JSON text, in the shape of the JWS
  * Compact Serialization (RFC 7515, section 7.1). The signature segment is a
  * placeholder built by concatenating a secret with the other two segments;
  * it is not a MAC and nothing ever checks it.
  * The current time, in Unix seconds, is the parameter `now`.
  */
module Auth {
  import opened Wrappers
  import opened Json
  import opened AuthTypes
  import Base64
  import Utf8

  const JwtSecret := "test-secret-key"
  const JwtRefreshSecret := "test-refresh-secret-key"

  /** Lifetimes in seconds. */
  const AccessTokenExpiry := 30
  const RefreshTokenExpiry := 60

  /** The one account the demo knows. */
  const TestUser := User("1", "test@example.com", "Test User", "user")
  const TestPassword := "password"

  datatype DecodeError = InvalidTokenFormat | InvalidTokenPayload

  // ---------------------------------------------------------------------------
  // Segment codec

  /** `base64Encode`: JSON text, UTF-8 bytes, unpadded URL-safe base64. */
  function Base64Encode(j: Json): string
  {
    Base64.EncodeUrl(Utf8.Encode(Stringify(j)))
  }

  /** `base64Decode`: undo the substitutions, re-pad, decode, parse; any failure is "Invalid token". */
  function Base64Decode(segment: string): Option<Json>
  {
    var bytes := Base64.DecodeUrl(segment);
    if bytes.None? then None
    else
      var text := Utf8.Decode(bytes.value);
      if text.None? then None else Parse(text.value)
  }

  // ---------------------------------------------------------------------------
  // Issuing

  const Header := JObject([("alg", JString("HS256")), ("typ", JString("JWT"))])

  function PayloadJson(p: JwtPayload): Json
  {
    JObject([("sub", JString(p.sub)), ("email", JString(p.email)), ("name", JString(p.name)),
             ("role", JString(p.role)), ("iat", JNumber(p.iat)), ("exp", JNumber(p.exp))])
  }

  /** The claims of a token issued to the test user at `now` that lives `ttl` seconds. */
  function IssuedPayload(now: int, ttl: int): JwtPayload
  {
    JwtPayload(TestUser.id, TestUser.email, TestUser.name, TestUser.role, now, now + ttl)
  }

  /** `header.payload.signature`, the signature being the encoded string `secret + header + payload`. */
  function MakeToken(secret: string, p: JwtPayload): string
  {
    var header := Base64Encode(Header);
    var payload := Base64Encode(PayloadJson(p));
    var signature := Base64Encode(Prim(JString(secret + header + payload)));
    header + "." + payload + "." + signature
  }

  /** `generateTestJwt`: an access token living 30 s and a refresh token living 60 s, both issued at `now`. */
  function GenerateTestJwt(now: int): AuthTokens
  {
    AuthTokens(MakeToken(JwtSecret, IssuedPayload(now, AccessTokenExpiry)),
               MakeToken(JwtRefreshSecret, IssuedPayload(now, RefreshTokenExpiry)))
  }

  // ---------------------------------------------------------------------------
  // Decoding and verifying

  /** `token.split(sep)` */
  function Split(s: string, sep: char): (parts: seq<string>)
    ensures |parts| >= 1
    decreases |s|
  {
    if |s| == 0 then [[]]
    else
      var rest := Split(s[1..], sep);
      if s[0] == sep then [[]] + rest else [[s[0]] + rest[0]] + rest[1..]
  }

  /** The claims of a decoded JSON object; a missing or mistyped claim fails. */
  function PayloadOf(j: Json): Option<JwtPayload>
  {
    var sub, email, name, role := GetString(j, "sub"), GetString(j, "email"), GetString(j, "name"), GetString(j, "role");
    var iat, exp := GetNumber(j, "iat"), GetNumber(j, "exp");
    if sub.Some? && email.Some? && name.Some? && role.Some? && iat.Some? && exp.Some? then
      Some(JwtPayload(sub.value, email.value, name.value, role.value, iat.value, exp.value))
    else None
  }

  /** `decodeJwt`: exactly three segments, and a middle segment that decodes to claims. */
  function DecodeJwt(token: string): Result<JwtPayload, DecodeError>
  {
    var parts := Split(token, '.');
    if |parts| != 3 then Failure(InvalidTokenFormat)
    else
      var j := Base64Decode(parts[1]);
      if j.None? then Failure(InvalidTokenPayload)
      else
        var p := PayloadOf(j.value);
        if p.None? then Failure(InvalidTokenPayload) else Success(p.value)
  }

  /** `getRemainingTime`: seconds until `exp`, never negative, 0 for a token that does not decode. */
  function GetRemainingTime(token: string, now: int): (r: int)
    ensures r >= 0
  {
    var d := DecodeJwt(token);
    if d.Failure? then 0
    else if d.value.exp - now > 0 then d.value.exp - now
    else 0
  }

  /** `verifyJwt`: the token decodes and has not expired; `exp == now` still passes. */
  function VerifyJwt(token: string, now: int): bool
  {
    var d := DecodeJwt(token);
    if d.Failure? then false
    else if d.value.exp < now then false
    else true
  }

  // ---------------------------------------------------------------------------
  // Login and refresh

  /** `loginTest`: the test user and a fresh pair, or "Invalid credentials". */
  function LoginTest(credentials: LoginCredentials, now: int): Result<AuthResponse, string>
  {
    if credentials.email == TestUser.email && credentials.password == TestPassword then
      Success(AuthResponse(TestUser, GenerateTestJwt(now)))
    else Failure("Invalid credentials")
  }

  /** `refreshTestToken`: a brand-new pair when the given token verifies, else "Token refresh failed". */
  function RefreshTestToken(refreshToken: string, now: int): Result<AuthTokens, string>
  {
    if !VerifyJwt(refreshToken, now) then Failure("Token refresh failed")
    else Success(GenerateTestJwt(now))
  }

  // ---------------------------------------------------------------------------
  // Proofs: the codec

  /** Decoding an encoded segment gives back its JSON value. */
  lemma Base64RoundTrip(j: Json)
    ensures Base64Decode(Base64Encode(j)) == Some(j)
  {
    var text := Stringify(j);
    Base64.DecodeEncodeUrl(Utf8.Encode(text));
    Utf8.DecodeEncode(text);
    ParseStringify(j);
  }

  /** An encoded segment holds no `=`, `+` or `/`, and no `.` either. */
  lemma Base64Alphabet(j: Json)
    ensures forall i :: 0 <= i < |Base64Encode(j)| ==> Base64Encode(j)[i] !in {'=', '+', '/', '.'}
    ensures '.' !in Base64Encode(j)
  {
    Base64.EncodeUrlAlphabet(Utf8.Encode(Stringify(j)));
  }

  lemma {:induction false} SplitWithout(a: string, sep: char)
    requires sep !in a
    ensures Split(a, sep) == [a]
    decreases |a|
  {
    if |a| > 0 {
      SplitWithout(a[1..], sep);
      assert [a[0]] + a[1..] == a;
    }
  }

  lemma {:induction false} SplitFirst(a: string, sep: char, t: string)
    requires sep !in a
    ensures Split(a + [sep] + t, sep) == [a] + Split(t, sep)
    decreases |a|
  {
    if |a| == 0 {
      assert a + [sep] + t == [sep] + t;
      assert ([sep] + t)[1..] == t;
    } else {
      var s := a + [sep] + t;
      assert s[1..] == a[1..] + [sep] + t;
      SplitFirst(a[1..], sep, t);
      assert [a[0]] + a[1..] == a;
    }
  }

  /** Three separator-free segments joined by `.` split back into those three. */
  lemma SplitThree(a: string, b: string, c: string)
    requires '.' !in a && '.' !in b && '.' !in c
    ensures Split(a + "." + b + "." + c, '.') == [a, b, c]
  {
    assert a + "." + b + "." + c == a + ['.'] + (b + ['.'] + c);
    SplitFirst(a, '.', b + ['.'] + c);
    SplitFirst(b, '.', c);
    SplitWithout(c, '.');
  }

  lemma PayloadOfJson(p: JwtPayload)
    ensures PayloadOf(PayloadJson(p)) == Some(p)
  {
    var ms := PayloadJson(p).members;
    LookupFind(ms, 0);
    LookupFind(ms, 1);
    LookupFind(ms, 2);
    LookupFind(ms, 3);
    LookupFind(ms, 4);
    LookupFind(ms, 5);
  }

  /** A token built from claims splits into its three encoded segments. */
  lemma MakeTokenSplit(secret: string, p: JwtPayload)
    ensures Split(MakeToken(secret, p), '.')
         == [Base64Encode(Header), Base64Encode(PayloadJson(p)),
             Base64Encode(Prim(JString(secret + Base64Encode(Header) + Base64Encode(PayloadJson(p)))))]
  {
    var header := Base64Encode(Header);
    var payload := Base64Encode(PayloadJson(p));
    var signature := Base64Encode(Prim(JString(secret + header + payload)));
    Base64Alphabet(Header);
    Base64Alphabet(PayloadJson(p));
    Base64Alphabet(Prim(JString(secret + header + payload)));
    SplitThree(header, payload, signature);
  }

  /** `DecodeJwt` on a token of three segments reads the claims of the middle one. */
  lemma DecodeThreeSegments(token: string, a: string, b: string, c: string)
    requires Split(token, '.') == [a, b, c]
    ensures DecodeJwt(token)
         == var j := Base64Decode(b);
            if j.None? then Failure(InvalidTokenPayload)
            else if PayloadOf(j.value).None? then Failure(InvalidTokenPayload)
            else Success(PayloadOf(j.value).value)
  {
  }

  /** A token built from claims has three segments and decodes to exactly those claims. */
  lemma MakeTokenDecodes(secret: string, p: JwtPayload)
    ensures |Split(MakeToken(secret, p), '.')| == 3
    ensures DecodeJwt(MakeToken(secret, p)) == Success(p)
  {
    var header := Base64Encode(Header);
    var payload := Base64Encode(PayloadJson(p));
    var signature := Base64Encode(Prim(JString(secret + header + payload)));
    MakeTokenSplit(secret, p);
    DecodeThreeSegments(MakeToken(secret, p), header, payload, signature);
    Base64RoundTrip(PayloadJson(p));
    PayloadOfJson(p);
  }

  // ---------------------------------------------------------------------------
  // Proofs: issuing

  /** Both tokens of a pair carry the test user's identity, share `iat == now`, and
      expire 30 s and 60 s later, so the access token expires first. */
  lemma GenerateTestJwtClaims(now: int)
    ensures var t := GenerateTestJwt(now);
      && DecodeJwt(t.accessToken) == Success(IssuedPayload(now, AccessTokenExpiry))
      && DecodeJwt(t.refreshToken) == Success(IssuedPayload(now, RefreshTokenExpiry))
      && |Split(t.accessToken, '.')| == 3 && |Split(t.refreshToken, '.')| == 3
    ensures var a, r := IssuedPayload(now, AccessTokenExpiry), IssuedPayload(now, RefreshTokenExpiry);
      && a.sub == r.sub == TestUser.id && a.email == r.email == TestUser.email
      && a.name == r.name == TestUser.name && a.role == r.role == TestUser.role
      && a.iat == r.iat == now && a.exp == now + 30 && r.exp == now + 60
      && a.iat < a.exp < r.exp
  {
    MakeTokenDecodes(JwtSecret, IssuedPayload(now, AccessTokenExpiry));
    MakeTokenDecodes(JwtRefreshSecret, IssuedPayload(now, RefreshTokenExpiry));
  }

  // ---------------------------------------------------------------------------
  // Proofs: verifying

  /** A token that does not decode never verifies and has no time left. */
  lemma MalformedToken(token: string, now: int)
    requires DecodeJwt(token).Failure?
    ensures !VerifyJwt(token, now) && GetRemainingTime(token, now) == 0
  {
  }

  /** A one-segment string such as "abc" is rejected as malformed, without an error escaping. */
  lemma OneSegmentRejected(now: int)
    ensures DecodeJwt("abc") == Failure(InvalidTokenFormat)
    ensures !VerifyJwt("abc", now) && GetRemainingTime("abc", now) == 0
  {
    SplitWithout("abc", '.');
  }

  /** `decodeJwt` fails with the format error exactly when the token does not split into three
      segments; it succeeds exactly when, in addition, the middle segment decodes to JSON carrying
      all six claims, and then returns those claims. Every other token fails with the payload error. */
  lemma DecodeJwtOutcome(token: string)
    ensures DecodeJwt(token) == Failure(InvalidTokenFormat) <==> |Split(token, '.')| != 3
    ensures DecodeJwt(token).Success? <==>
      var parts := Split(token, '.');
      |parts| == 3 && Base64Decode(parts[1]).Some? && PayloadOf(Base64Decode(parts[1]).value).Some?
    ensures DecodeJwt(token).Success? ==>
      PayloadOf(Base64Decode(Split(token, '.')[1]).value) == Some(DecodeJwt(token).value)
    ensures DecodeJwt(token).Failure? && |Split(token, '.')| == 3 ==> DecodeJwt(token) == Failure(InvalidTokenPayload)
  {
  }

  /** A token without any `.` is one segment, so it fails with the format error and never verifies. */
  lemma NoSeparatorRejected(token: string, now: int)
    requires '.' !in token
    ensures DecodeJwt(token) == Failure(InvalidTokenFormat)
    ensures !VerifyJwt(token, now) && GetRemainingTime(token, now) == 0
  {
    SplitWithout(token, '.');
  }

  /** Only the middle segment is read: the header and the signature can be replaced by any
      separator-free text without changing the outcome, so a forged signature goes unnoticed. */
  lemma DecodeIgnoresOuterSegments(header1: string, header2: string, payload: string, sig1: string, sig2: string)
    requires '.' !in header1 && '.' !in header2 && '.' !in payload && '.' !in sig1 && '.' !in sig2
    ensures DecodeJwt(header1 + "." + payload + "." + sig1) == DecodeJwt(header2 + "." + payload + "." + sig2)
  {
    SplitThree(header1, payload, sig1);
    SplitThree(header2, payload, sig2);
  }

  /** For a token that decodes: it verifies exactly while `now <= exp`, and the time left is `max(0, exp - now)`.
      So at `now == exp` it still verifies with 0 seconds left, and time left implies validity. */
  lemma VerifyAndRemaining(token: string, now: int)
    requires DecodeJwt(token).Success?
    ensures VerifyJwt(token, now) <==> now <= DecodeJwt(token).value.exp
    ensures GetRemainingTime(token, now) == if DecodeJwt(token).value.exp > now then DecodeJwt(token).value.exp - now else 0
    ensures DecodeJwt(token).value.exp == now ==> VerifyJwt(token, now) && GetRemainingTime(token, now) == 0
    ensures GetRemainingTime(token, now) > 0 ==> VerifyJwt(token, now)
  {
  }

  /** A freshly issued access token verifies until `now + 30` inclusive and reports the seconds left;
      the refresh token likewise until `now + 60`. */
  lemma IssuedTokensLifetime(issuedAt: int, now: int)
    ensures VerifyJwt(GenerateTestJwt(issuedAt).accessToken, now) <==> now <= issuedAt + 30
    ensures VerifyJwt(GenerateTestJwt(issuedAt).refreshToken, now) <==> now <= issuedAt + 60
    ensures GetRemainingTime(GenerateTestJwt(issuedAt).accessToken, now)
         == if issuedAt + 30 > now then issuedAt + 30 - now else 0
    ensures GetRemainingTime(GenerateTestJwt(issuedAt).refreshToken, now)
         == if issuedAt + 60 > now then issuedAt + 60 - now else 0
  {
    var t := GenerateTestJwt(issuedAt);
    MakeTokenDecodes(JwtSecret, IssuedPayload(issuedAt, AccessTokenExpiry));
    MakeTokenDecodes(JwtRefreshSecret, IssuedPayload(issuedAt, RefreshTokenExpiry));
    VerifyAndRemaining(t.accessToken, now);
    VerifyAndRemaining(t.refreshToken, now);
  }

  // ---------------------------------------------------------------------------
  // Proofs: login and refresh

  /** Login succeeds exactly for the test user's e-mail and the fixed password, and then
      returns that user with the pair issued at `now`. */
  lemma LoginTestOutcome(credentials: LoginCredentials, now: int)
    ensures LoginTest(credentials, now).Success?
        <==> credentials.email == "test@example.com" && credentials.password == "password"
    ensures LoginTest(credentials, now).Success? ==>
      LoginTest(credentials, now).value == AuthResponse(TestUser, GenerateTestJwt(now))
    ensures LoginTest(credentials, now).Failure? ==> LoginTest(credentials, now).error == "Invalid credentials"
  {
  }

  /** Refresh fails exactly when the presented token does not verify; otherwise the new pair
      depends only on `now`, not on the presented token. */
  lemma RefreshTestTokenOutcome(refreshToken: string, now: int)
    ensures RefreshTestToken(refreshToken, now).Failure? <==> !VerifyJwt(refreshToken, now)
    ensures RefreshTestToken(refreshToken, now).Success? ==>
      RefreshTestToken(refreshToken, now).value == GenerateTestJwt(now)
  {
  }

  /** Any two tokens that verify refresh to the same pair. */
  lemma RefreshIgnoresTokenContents(token1: string, token2: string, now: int)
    requires VerifyJwt(token1, now) && VerifyJwt(token2, now)
    ensures RefreshTestToken(token1, now) == RefreshTestToken(token2, now)
    ensures RefreshTestToken(token1, now).Success?
  {
  }

  /** Nothing distinguishes refresh from access tokens: an unexpired access token is accepted as a refresh token. */
  lemma AccessTokenRefreshes(issuedAt: int, now: int)
    requires now <= issuedAt + 30
    ensures RefreshTestToken(GenerateTestJwt(issuedAt).accessToken, now) == Success(GenerateTestJwt(now))
  {
    IssuedTokensLifetime(issuedAt, now);
  }

  /** Logging in at `t0` gives an access token valid through `t0 + 30` and a refresh token valid
      through `t0 + 60`. */
  lemma LoginWindow(t0: int)
    ensures var r := LoginTest(LoginCredentials("test@example.com", "password"), t0);
      && r.Success?
      && VerifyJwt(r.value.tokens.accessToken, t0 + 30) && !VerifyJwt(r.value.tokens.accessToken, t0 + 31)
      && VerifyJwt(r.value.tokens.refreshToken, t0 + 60) && !VerifyJwt(r.value.tokens.refreshToken, t0 + 61)
  {
    IssuedTokensLifetime(t0, t0 + 30);
    IssuedTokensLifetime(t0, t0 + 31);
    IssuedTokensLifetime(t0, t0 + 60);
    IssuedTokensLifetime(t0, t0 + 61);
  }
}
