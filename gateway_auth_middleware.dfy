/** `verifyToken` (api-gateway/src/middlewares/authMiddleware.js): admits a
    request whose bearer token verifies, and attaches the whole decoded
    payload as `req.user`. */
module GatewayAuthMiddleware {
  import opened Common
  import opened Http

  datatype Gate = Deny(response: Response) | Admit(claims: Claims)

  const NoToken := Response(401, Failure("No token provided"))
  const InvalidToken := Response(401, Failure("Invalid token"))

  function VerifyToken(header: Option<string>, verify: Verifier): (g: Gate)
    ensures !Truthy(AuthorizationToken(header)) ==> g == Deny(NoToken)
    ensures g.Admit? <==> Truthy(AuthorizationToken(header)) && verify(AuthorizationToken(header).value).Decoded?
    ensures g.Admit? ==> g.claims == verify(AuthorizationToken(header).value).claims
    ensures Truthy(AuthorizationToken(header)) && g.Deny? ==> g.response == InvalidToken
  {
    var token := AuthorizationToken(header);
    if !Truthy(token) then Deny(NoToken)
    else
      match verify(token.value)
      case VerifyError => Deny(InvalidToken)
      case Decoded(claims) => Admit(claims)
  }

  /** Unlike `protect`, a verified payload without a user id is admitted. */
  lemma VerifyTokenAdmitsWithoutUserId(token: string, verify: Verifier)
    requires forall i :: 0 <= i < |token| ==> token[i] != ' '
    requires token != ""
    requires verify(token).Decoded? && verify(token).claims.userId.None?
    ensures VerifyToken(Some("Bearer " + token), verify) == Admit(verify(token).claims)
  {
    BearerHasNoSpace();
    BearerHeaderYieldsToken("Bearer", token);
    assert "Bearer" + " " + token == "Bearer " + token;
  }
}
