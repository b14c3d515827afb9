/** The auth controllers (identity-service/src/controllers/authController.js):
    each one maps what its service did to the response it sends, or to the
    error it hands on to Express's error handler (`next(error)`, or a
    rejection that `asyncHandler` forwards). */
module AuthController {
  import opened Common
  import opened UserModel
  import opened Http
  import opened ValidationSchema
  import opened GenerateToken
  import opened AuthServiceSpec

  /** The responses a handler sends, in order, and the error it forwards. */
  datatype Reply = Reply(sent: seq<Response>, forwarded: Option<Error>)

  function Send(status: int, body: Body): (r: Reply)
    ensures r.sent == [Response(status, body)] && r.forwarded.None?
  {
    Reply([Response(status, body)], None)
  }

  function Forward(e: Error): (r: Reply)
    ensures r.sent == [] && r.forwarded == Some(e)
  {
    Reply([], Some(e))
  }

  /** A well-formed reply: exactly one response, or no response and one
      forwarded error. */
  predicate Single(r: Reply) {
    (|r.sent| == 1 && r.forwarded.None?) || (r.sent == [] && r.forwarded.Some?)
  }

  /** `{success, message}` taken from a result. */
  function Brief(b: Body): (r: Body)
    ensures r.success == b.success && r.message == b.message
    ensures r.status.None? && r.accessToken.None? && r.refreshToken.None? && r.data.None?
  {
    Body(b.success, None, b.message, None, None, None)
  }

  // ---------------------------------------------------------------------
  // requestEmailVerification

  /** As written: a failed result is answered with 500, and control falls
      through to the 200 answer, whose `res.status(...).json(...)` throws
      because the headers are already sent; the catch forwards that. */
  function RequestEmailVerificationAsWritten(result: Outcome): (r: Reply)
    ensures result.Threw? ==> r == Forward(result.error)
    ensures result.Returned? && !result.body.success ==>
      r.sent == [Response(500, Brief(result.body))] && r.forwarded == Some(HeadersAlreadySent)
  {
    match result
    case Threw(e) => Forward(e)
    case Returned(b) =>
      if !b.success then Reply([Response(500, Brief(b))], Some(HeadersAlreadySent))
      else Send(200, Body(true, None, Some("Verification code sent"), None, None, b.data))
  }

  /** With a `return` after the 500 answer. */
  function RequestEmailVerification(result: Outcome): (r: Reply)
    ensures Single(r)
    ensures result.Threw? ==> r == Forward(result.error)
    ensures result.Returned? ==>
      && |r.sent| == 1
      && r.sent[0].status == (if result.body.success then 200 else 500)
      && r.sent[0].body.success == result.body.success
  {
    match result
    case Threw(e) => Forward(e)
    case Returned(b) =>
      if !b.success then Send(500, Brief(b))
      else Send(200, Body(true, None, Some("Verification code sent"), None, None, b.data))
  }

  /** A failed result makes the handler as written send twice and forward. */
  lemma RequestEmailVerificationAnswersTwice(message: string)
    ensures !Single(RequestEmailVerificationAsWritten(Returned(Failure(message))))
    ensures Single(RequestEmailVerification(Returned(Failure(message))))
  {
  }

  /** The service never returns a failed result (it throws instead), so on
      every run of the service the two handlers agree and the first answer
      is 200 "Verification code sent". */
  lemma RequestEmailVerificationDefectIsLatent(s: Stores, email: string, now: int, draw: nat, fault: Option<Step>)
    requires 1000 <= draw < 9999
    ensures var result := RequestCodeSpec(s, email, now, draw, fault).outcome;
      && RequestEmailVerificationAsWritten(result) == RequestEmailVerification(result)
      && (result.Returned? ==>
            RequestEmailVerification(result) == Send(200, Body(true, None, Some("Verification code sent"), None, None, None)))
  {
  }

  // ---------------------------------------------------------------------
  // verifyEmail

  function VerifyEmail(result: Outcome): (r: Reply)
    ensures Single(r)
    ensures result.Threw? ==> r == Forward(result.error)
    ensures result.Returned? && !result.body.success ==> r == Send(400, Brief(result.body))
    ensures result.Returned? && result.body.success ==> r == Send(200, result.body)
  {
    match result
    case Threw(e) => Forward(e)
    case Returned(b) => if !b.success then Send(400, Brief(b)) else Send(200, b)
  }

  /** Over every run of `verifyEmailCode`: 400 with the refusal, 200 with
      the service's body, or the service's error forwarded. */
  lemma VerifyEmailStatuses(s: Stores, email: string, code: string, now: int, fault: Option<Step>)
    ensures var r := VerifyEmail(VerifySpec(s, email, code, now, fault).outcome);
      || r == Send(400, Failure("Invalid or expired code"))
      || r == Send(200, Success("Email verified successfully"))
      || r == Forward(Message(VerifyFailed))
  {
  }

  // ---------------------------------------------------------------------
  // register

  /** The `data` the handler builds from the service's result. */
  function RegisteredSummaryAsWritten(b: Body): (d: Data)
    ensures d == Summary(None, "undefined undefined", None, None, None)
  {
    // `newUser.id`, `newUser.first_name`, ... are read off the result object
    // itself, which has only `success` and `data`.
    Summary(None, "undefined undefined", None, None, None)
  }

  /** The summary read from the result's `data`. */
  function RegisteredSummary(b: Body): (d: Data)
    ensures b.data.Some? && b.data.value.Profile? ==>
      var v := b.data.value.view;
      d == Summary(Some(v.id), v.firstName + " " + v.lastName, Some(v.email), Some(v.role), Some(v.address))
  {
    match b.data
    case Some(Profile(v)) => Summary(Some(v.id), v.firstName + " " + v.lastName, Some(v.email), Some(v.role), Some(v.address))
    case _ => Summary(None, "undefined undefined", None, None, None)
  }

  function RegisterWith(result: Outcome, summary: Body -> Data): (r: Reply)
    ensures Single(r)
    ensures result.Threw? ==> r == Forward(result.error)
    ensures result.Returned? && !result.body.success ==> r == Send(400, result.body)
    ensures result.Returned? && result.body.success ==>
      r == Send(201, Body(true, None, Some("User registered successfully"), None, None, Some(summary(result.body))))
  {
    match result
    case Threw(e) => Forward(e)
    case Returned(b) =>
      if !b.success then Send(400, b)
      else Send(201, Body(true, None, Some("User registered successfully"), None, None, Some(summary(b))))
  }

  /** As written: a registration that succeeds is answered 201 with a
      summary that holds none of the new user's fields. */
  function RegisterAsWritten(result: Outcome): (r: Reply)
    ensures Single(r)
    ensures result.Threw? ==> r.forwarded == Some(result.error)
    ensures result.Returned? && !result.body.success ==> r.sent == [Response(400, result.body)]
    ensures result.Returned? && result.body.success ==>
      r.sent == [Response(201, Body(true, None, Some("User registered successfully"), None, None,
                                    Some(Summary(None, "undefined undefined", None, None, None))))]
  {
    RegisterWith(result, RegisteredSummaryAsWritten)
  }

  /** Corrected: the 201 summary carries the new user's id, full name,
      email, role and address. */
  function Register(result: Outcome): (r: Reply)
    ensures Single(r)
    ensures result.Threw? ==> r.forwarded == Some(result.error)
    ensures result.Returned? && !result.body.success ==> r.sent == [Response(400, result.body)]
    ensures result.Returned? && result.body.success && result.body.data.Some? && result.body.data.value.Profile? ==>
      var v := result.body.data.value.view;
      r.sent == [Response(201, Body(true, None, Some("User registered successfully"), None, None,
                                    Some(Summary(Some(v.id), v.firstName + " " + v.lastName, Some(v.email), Some(v.role), Some(v.address)))))]
  {
    RegisterWith(result, RegisteredSummary)
  }

  /** On every successful registration, the handler as written answers 201
      with a summary that holds none of the new user's fields, while the
      corrected one carries the user's id, name, email, role and address. */
  lemma RegisterSummaryAsWrittenIsEmpty(s: Stores, data: RegisterData, now: int, parseDate: DateParser,
                                        hash: Hasher, target: Option<nat>, fault: Option<Step>)
    requires RegisterSpec(s, data, now, parseDate, hash, target, fault).outcome.body.success
    ensures var t := RegisterSpec(s, data, now, parseDate, hash, target, fault);
      var u := t.after.users[|s.users|];
      && |t.after.users| == |s.users| + 1
      && RegisterAsWritten(t.outcome).sent[0].body.data == Some(Summary(None, "undefined undefined", None, None, None))
      && Register(t.outcome).sent[0].body.data
           == Some(Summary(Some(u.id), u.firstName + " " + u.lastName, Some(u.email), Some(u.role), Some(u.address)))
  {
  }

  // ---------------------------------------------------------------------
  // login

  function Login(result: Outcome): (r: Reply)
    ensures Single(r)
    ensures result.Threw? ==> r == Forward(result.error)
    ensures result.Returned? && !result.body.success ==> r == Send(400, result.body)
    ensures result.Returned? && result.body.success ==>
      r == Send(200, Body(true, None, Some("Login successful"), result.body.accessToken, None, result.body.data))
  {
    match result
    case Threw(e) => Forward(e)
    case Returned(b) =>
      if !b.success then Send(400, b)
      else Send(200, Body(true, None, Some("Login successful"), b.accessToken, None, b.data))
  }

  /** Over every run of the login service, the refresh token never appears
      in a response body (it travels only in the cookie), and a success
      carries the access token. */
  lemma LoginBodyHasNoRefreshToken(s: Stores, email: string, password: string, now: int, env: Option<int>,
                                   hash: Hasher, sign: Signer, faults: set<Step>)
    ensures var t := LoginSpec(s, email, password, now, env, hash, sign, faults);
      var r := Login(t.outcome);
      && |r.sent| == 1 && r.sent[0].body.refreshToken.None?
      && (r.sent[0].status == 200 <==> t.outcome.body.success)
      && (r.sent[0].status == 200 ==> r.sent[0].body.accessToken.Some? && t.cookie.Some?)
  {
  }

  // ---------------------------------------------------------------------
  // refreshAccessToken

  /** The first half of the handler: a missing cookie is answered at once;
      otherwise the service is called with the cookie as decoded, text or
      not. */
  datatype RefreshStep = Respond(reply: Reply) | CallService(token: Cookie)

  function RefreshAccessTokenStart(cookie: Option<Cookie>): (step: RefreshStep)
    ensures !Present(cookie) <==> step.Respond?
    ensures step.Respond? ==> step.reply == Send(400, Failure("Refresh token missing"))
    ensures step.CallService? ==> Some(step.token) == cookie
  {
    if !Present(cookie) then Respond(Send(400, Failure("Refresh token missing"))) else CallService(cookie.value)
  }

  /** The second half: whatever the service returned is sent with 200; only
      a thrown error gives 500. */
  function RefreshAccessTokenFinish(result: Outcome): (r: Reply)
    ensures Single(r) && r.forwarded.None?
    ensures result.Returned? ==> r == Send(200, result.body)
    ensures result.Threw? ==> r == Send(500, Failure("Internal server error"))
  {
    match result
    case Returned(b) => Send(200, b)
    case Threw(_) => Send(500, Failure("Internal server error"))
  }

  /** Every refusal of the refresh service (403 or 500 in its body) still
      reaches the client with HTTP status 200. */
  lemma RefreshFailuresSentWith200(s: Stores, token: Cookie, now: int, env: Option<int>, sign: Signer, fault: Option<Step>)
    requires RefreshAccessTokenStart(Some(token)).CallService?
    ensures var result := RefreshSpec(s, Some(token), now, env, sign, fault).outcome;
      var r := RefreshAccessTokenFinish(result);
      && r.sent[0].status == 200
      && (!result.body.success ==> r.sent[0].body.status.Some? && r.sent[0].body.status.value in {403, 500})
  {
  }

  // ---------------------------------------------------------------------
  // resetPassword

  function ResetPassword(result: Outcome): (r: Reply)
    ensures Single(r)
    ensures result.Threw? ==> r == Forward(result.error)
    ensures result.Returned? ==>
      r == (if result.body.success then Send(200, Success("Password reset successfully"))
            else Send(400, Body(false, None, result.body.message, None, None, None)))
  {
    match result
    case Threw(e) => Forward(e)
    case Returned(b) =>
      if !b.success then Send(400, Body(false, None, b.message, None, None, None))
      else Send(200, Success("Password reset successfully"))
  }

  /** Over every run of the reset service: 400 "User not found", 200, or the
      service's error forwarded. */
  lemma ResetPasswordStatuses(s: Stores, email: string, newPassword: string, now: int, hash: Hasher, fault: Option<Step>)
    ensures var r := ResetPassword(ResetSpec(s, email, newPassword, now, hash, fault).outcome);
      || r == Send(400, Failure("User not found"))
      || r == Send(200, Success("Password reset successfully"))
      || r == Forward(Message(ResetFailed))
  {
  }
}
