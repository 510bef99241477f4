/** The records of the authentication demo. */
module AuthTypes {

  /** The identity a session belongs to. */
  datatype User = User(id: string, email: string, name: string, role: string)

  /** An access/refresh token pair, issued together. */
  datatype AuthTokens = AuthTokens(accessToken: string, refreshToken: string)

  datatype LoginCredentials = LoginCredentials(email: string, password: string)

  /** What a successful login returns. */
  datatype AuthResponse = AuthResponse(user: User, tokens: AuthTokens)

  /** The claims carried in a token's middle segment; `iat` and `exp` are Unix seconds. */
  datatype JwtPayload = JwtPayload(sub: string, email: string, name: string, role: string, iat: int, exp: int)
}
