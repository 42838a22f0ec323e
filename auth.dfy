/**
 * The handshake middleware: a connection is admitted only with a token that
 * the JWT verifier accepts and whose subject the log line can print. The verifier (signature check against the
 * process-wide secret) is foreign code, so it is a parameter: it either
 * rejects the token or yields the claims the middleware reads.
 */
module Auth {
  import opened Wrappers
  import opened Values

  /** The two claims of a decoded token that the server reads: `sub` and `email`. */
  datatype Claims = Claims(sub: Value, email: Value)

  const TokenNotProvided := "Authentication error: Token not provided"
  const InvalidToken := "Authentication error: Invalid token"

  /**
   * The middleware's decision for the handshake token: the decoded claims,
   * or the reason string the connection is refused with. A falsy token is
   * refused before the verifier is consulted. Everything after the verifier
   * runs inside the same `try`, so a `sub` claim whose string conversion
   * throws in the log line is refused like a token that fails verification.
   */
  function Authenticate(token: Value, verify: Value -> Option<Claims>): (r: Result<Claims, string>)
    ensures r.Ok? <==>
      !Falsy(token) && verify(token).Some? && !StringConversionThrows(verify(token).value.sub)
    ensures Falsy(token) ==> r == Err(TokenNotProvided)
    ensures !Falsy(token) && r.Err? ==> r == Err(InvalidToken)
    ensures r.Ok? ==> verify(token) == Some(r.value)
  {
    if Falsy(token) then Err(TokenNotProvided)
    else match verify(token)
      case None => Err(InvalidToken)
      case Some(claims) =>
        if StringConversionThrows(claims.sub) then Err(InvalidToken) else Ok(claims)
  }

  /** A verified token whose `sub` is an object with its own `toString` key is still refused. */
  lemma OwnToStringSubjectRefused(token: Value, verify: Value -> Option<Claims>)
    requires !Falsy(token) && verify(token).Some?
    requires verify(token).value.sub == Obj(map["toString" := Num(1)])
    ensures Authenticate(token, verify) == Err(InvalidToken)
  {
  }

  /** A missing token is refused whatever the verifier would have said about it. */
  lemma MissingTokenIgnoresVerifier(token: Value, v1: Value -> Option<Claims>, v2: Value -> Option<Claims>)
    requires Falsy(token)
    ensures Authenticate(token, v1) == Authenticate(token, v2) == Err(TokenNotProvided)
  {
  }
}
