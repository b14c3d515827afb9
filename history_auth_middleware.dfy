/** `validateToken` (transaction-history-service/src/middlewares/authMiddleware.js),
    and how the three services' token checks compare. */
module HistoryAuthMiddleware {
  import opened Common
  import opened Http
  import IdentityAuthMiddleware
  import GatewayAuthMiddleware

  /** Refused with a response, admitted with the decoded payload, or an
      error thrown out of the middleware. */
  datatype Gate = Deny(response: Response) | Admit(claims: Claims) | Raise(error: Error)

  const AuthenticationRequired := Response(401, Failure("Authentication required"))
  const InvalidToken := Response(429, Failure("Invalid token!"))

  /** The token check, with what happens on a failed verification left to
      `onError`. */
  function ValidateWith(header: Option<string>, verify: Verifier, onError: Gate): (g: Gate)
    ensures !Truthy(AuthorizationToken(header)) ==> g == Deny(AuthenticationRequired)
    ensures Truthy(AuthorizationToken(header)) && verify(AuthorizationToken(header).value).VerifyError? ==> g == onError
    ensures Truthy(AuthorizationToken(header)) && verify(AuthorizationToken(header).value).Decoded? ==>
      g == Admit(verify(AuthorizationToken(header).value).claims)
  {
    var token := AuthorizationToken(header);
    if !Truthy(token) then Deny(AuthenticationRequired)
    else
      match verify(token.value)
      case VerifyError => onError
      case Decoded(claims) => Admit(claims)
  }

  /** As written: the verify callback's error branch calls `logger.warn`,
      and `logger` is not declared in the module, so the callback throws a
      ReferenceError before the 429 answer is built. */
  function ValidateTokenAsWritten(header: Option<string>, verify: Verifier): (g: Gate)
    ensures g.Raise? <==> Truthy(AuthorizationToken(header)) && verify(AuthorizationToken(header).value).VerifyError?
    ensures g.Deny? ==> g.response == AuthenticationRequired
    ensures g.Admit? ==> Truthy(AuthorizationToken(header)) && verify(AuthorizationToken(header).value) == Decoded(g.claims)
  {
    ValidateWith(header, verify, Raise(ReferenceError("logger")))
  }

  /** With the warning logged through a declared logger: the 429 answer. */
  function ValidateToken(header: Option<string>, verify: Verifier): (g: Gate)
    ensures !g.Raise?
    ensures g.Deny? <==> !Truthy(AuthorizationToken(header)) || verify(AuthorizationToken(header).value).VerifyError?
    ensures g.Deny? && Truthy(AuthorizationToken(header)) ==> g.response == InvalidToken
    ensures g.Admit? ==> Truthy(AuthorizationToken(header)) && verify(AuthorizationToken(header).value) == Decoded(g.claims)
  {
    ValidateWith(header, verify, Deny(InvalidToken))
  }

  /** A bad token makes the middleware as written throw instead of
      answering, and no response is ever sent by it. */
  lemma BadTokenThrowsAsWritten(header: Option<string>, verify: Verifier)
    requires Truthy(AuthorizationToken(header))
    requires verify(AuthorizationToken(header).value).VerifyError?
    ensures ValidateTokenAsWritten(header, verify) == Raise(ReferenceError("logger"))
    ensures ValidateToken(header, verify) == Deny(InvalidToken)
  {
  }

  /** The corrected check never throws, and it agrees with the one as
      written whenever verification succeeds or the token is missing. */
  lemma ValidateTokenNeverThrows(header: Option<string>, verify: Verifier)
    ensures !ValidateToken(header, verify).Raise?
    ensures !(Truthy(AuthorizationToken(header)) && verify(AuthorizationToken(header).value).VerifyError?) ==>
      ValidateToken(header, verify) == ValidateTokenAsWritten(header, verify)
  {
  }

  /** The three services read the same token from the same header: all
      three refuse a request without one with 401, and for one with a
      token the gateway and history checks admit the same requests with
      the same payload, while `protect` admits only those whose payload
      also carries a user id. */
  lemma TokenChecksAgree(header: Option<string>, verify: Verifier)
    ensures !Truthy(AuthorizationToken(header)) ==>
      && IdentityAuthMiddleware.Protect(header, verify).Deny?
      && IdentityAuthMiddleware.Protect(header, verify).response.status == 401
      && GatewayAuthMiddleware.VerifyToken(header, verify).Deny?
      && GatewayAuthMiddleware.VerifyToken(header, verify).response.status == 401
      && ValidateToken(header, verify) == Deny(AuthenticationRequired)
    ensures GatewayAuthMiddleware.VerifyToken(header, verify).Admit? <==> ValidateToken(header, verify).Admit?
    ensures GatewayAuthMiddleware.VerifyToken(header, verify).Admit? ==>
      GatewayAuthMiddleware.VerifyToken(header, verify).claims == ValidateToken(header, verify).claims
    ensures IdentityAuthMiddleware.Protect(header, verify).Admit? <==>
      && GatewayAuthMiddleware.VerifyToken(header, verify).Admit?
      && Truthy(GatewayAuthMiddleware.VerifyToken(header, verify).claims.userId)
  {
  }
}
