/** `protect` (identity-service/src/middlewares/authMiddleware.js): admits a
    request whose bearer token verifies and carries a user id, without any
    database lookup. */
module IdentityAuthMiddleware {
  import opened Common
  import opened Http

  /** `req.user`: the id and email read from the token. */
  datatype RequestUser = RequestUser(id: string, email: Option<string>)

  /** Refused with a response, or admitted with `req.user` and `req.token`. */
  datatype Gate = Deny(response: Response) | Admit(user: RequestUser, token: string)

  const NoToken := Response(401, Failure("Not authorized, no token"))
  const InvalidToken := Response(401, Failure("Not authorized, invalid token"))

  function Protect(header: Option<string>, verify: Verifier): (g: Gate)
    ensures !Truthy(AuthorizationToken(header)) ==> g == Deny(NoToken)
    ensures g.Admit? <==>
      && Truthy(AuthorizationToken(header))
      && verify(AuthorizationToken(header).value).Decoded?
      && Truthy(verify(AuthorizationToken(header).value).claims.userId)
    ensures g.Admit? ==>
      && Some(g.token) == AuthorizationToken(header)
      && verify(g.token).Decoded?
      && g.user == RequestUser(verify(g.token).claims.userId.value, verify(g.token).claims.email)
    ensures Truthy(AuthorizationToken(header)) && g.Deny? ==> g.response == InvalidToken
  {
    var token := AuthorizationToken(header);
    if !Truthy(token) then Deny(NoToken)
    else
      match verify(token.value)
      case VerifyError => Deny(InvalidToken)
      case Decoded(claims) =>
        if !Truthy(claims.userId) then Deny(InvalidToken)
        else Admit(RequestUser(claims.userId.value, claims.email), token.value)
  }

  /** Only the second word of the header matters: any scheme in front of
      the token is accepted, `Bearer` or not. */
  lemma ProtectIgnoresScheme(scheme: string, token: string, verify: Verifier)
    requires forall i :: 0 <= i < |scheme| ==> scheme[i] != ' '
    requires forall i :: 0 <= i < |token| ==> token[i] != ' '
    ensures Protect(Some(scheme + " " + token), verify) == Protect(Some("Bearer " + token), verify)
  {
    BearerHeaderYieldsToken(scheme, token);
    BearerHasNoSpace();
    BearerHeaderYieldsToken("Bearer", token);
    assert "Bearer" + " " + token == "Bearer " + token;
  }

  /** A token that verifies but whose payload has no user id is refused
      like one that does not verify. */
  lemma ProtectNeedsUserId(token: string, verify: Verifier)
    requires forall i :: 0 <= i < |token| ==> token[i] != ' '
    requires token != ""
    requires verify(token).Decoded? && verify(token).claims.userId.None?
    ensures Protect(Some("Bearer " + token), verify) == Deny(InvalidToken)
  {
    BearerHasNoSpace();
    BearerHeaderYieldsToken("Bearer", token);
    assert "Bearer" + " " + token == "Bearer " + token;
  }
}
