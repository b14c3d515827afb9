/** What the services, controllers and middlewares exchange: JSON response
    bodies, thrown errors, HTTP responses, the bearer token carried by the
    `Authorization` header, and the outcome of `jwt.verify`. */
module Http {
  import opened Common
  import opened UserModel

  /** The `data` member of a body: a user's profile, or the summary the
      register controller builds. Absent members are `None`. */
  datatype Data =
    | Profile(view: UserView)
    | Summary(id: Option<UserId>, name: string, email: Option<string>, role: Option<Role>, address: Option<Address>)

  /** A JSON body with the members these handlers use. */
  datatype Body = Body(
    success: bool,
    status: Option<int>,
    message: Option<string>,
    accessToken: Option<string>,
    refreshToken: Option<string>,
    data: Option<Data>)

  /** `{success: false, message}`. */
  function Failure(message: string): (b: Body)
    ensures !b.success && b.message == Some(message)
    ensures b.accessToken.None? && b.refreshToken.None? && b.data.None?
  {
    Body(false, None, Some(message), None, None, None)
  }

  /** `{success: true, message}`. */
  function Success(message: string): (b: Body)
    ensures b.success && b.message == Some(message)
    ensures b.accessToken.None? && b.refreshToken.None? && b.data.None?
  {
    Body(true, None, Some(message), None, None, None)
  }

  /** A thrown error: one raised by the database, cache or mailer driver, one
      the code raises with a message, Express's "headers already sent", or a
      reference to an undeclared identifier. */
  datatype Error = StoreError | Message(text: string) | HeadersAlreadySent | ReferenceError(name: string)

  datatype Response = Response(status: int, body: Body)

  // ---------------------------------------------------------------------
  // Cookies

  /** A request cookie as `cookie-parser` decodes it. A value written `j:`
      followed by JSON is parsed. An object of query operators (such as
      `{"$ne": null}`) or an array, used as a query value, is an operator,
      standing here for the set of stored strings it matches. Other values
      are text; a JSON `null` or `false` is the absent cookie (`None`), and
      an object the store cannot cast is the lookup that throws. */
  datatype Cookie = Text(text: string) | Operator(matches: string -> bool)

  /** JavaScript truthiness of an optional cookie: an object is always
      truthy, text when it is non-empty. */
  predicate Present(c: Option<Cookie>) {
    c.Some? && (c.value.Text? ==> c.value.text != "")
  }

  // ---------------------------------------------------------------------
  // Bearer tokens

  /** JavaScript truthiness of an optional string: present and non-empty. */
  predicate Truthy(v: Option<string>) {
    v.Some? && v.value != ""
  }

  /** `header?.split(" ")[1]`: the second space-separated field of the
      `Authorization` header, whatever the first field says. */
  function AuthorizationToken(header: Option<string>): (t: Option<string>)
    ensures header.None? ==> t.None?
    ensures header.Some? ==> (t.Some? <==> ' ' in header.value)
    ensures t.Some? ==> forall i :: 0 <= i < |t.value| ==> t.value[i] != ' '
    ensures t.Some? ==> exists scheme, rest :: SchemeThenToken(header.value, scheme, t.value, rest)
  {
    match header
    case None => None
    case Some(h) =>
      var fields := Split(h, ' ');
      SplitSecondField(h, ' ');
      if |fields| >= 2 then
        SecondFieldInPlace(h);
        Some(fields[1])
      else None
  }

  /** `h` is `scheme`, one space, `token`, then nothing or more text that
      starts with a space; the scheme holds no space. */
  predicate SchemeThenToken(h: string, scheme: string, token: string, rest: string) {
    && h == scheme + " " + token + rest
    && ' ' !in scheme
    && (rest == [] || rest[0] == ' ')
  }

  /** The second field sits after a space-free first field and one space,
      and is followed by nothing or by another space. */
  lemma SecondFieldInPlace(h: string)
    requires |Split(h, ' ')| >= 2
    ensures |Split(h, ' ')[0]| + 1 + |Split(h, ' ')[1]| <= |h|
    ensures SchemeThenToken(h, Split(h, ' ')[0], Split(h, ' ')[1], h[|Split(h, ' ')[0]| + 1 + |Split(h, ' ')[1]|..])
  {
    var f := Split(h, ' ');
    SplitSecondField(h, ' ');
    assert ' ' !in f[0] by {
      assert forall i :: 0 <= i < |f[0]| ==> f[0][i] != ' ';
    }
    assert " " == [' '];
  }

  /** A header `<scheme> <token>` yields the token, whatever the scheme. */
  lemma BearerHeaderYieldsToken(scheme: string, token: string)
    requires forall i :: 0 <= i < |scheme| ==> scheme[i] != ' '
    requires forall i :: 0 <= i < |token| ==> token[i] != ' '
    ensures AuthorizationToken(Some(scheme + " " + token)) == Some(token)
  {
    SplitTwoFields(scheme, token, ' ');
  }

  /** The scheme word the clients send. */
  lemma BearerHasNoSpace()
    ensures forall i :: 0 <= i < |"Bearer"| ==> "Bearer"[i] != ' '
  {
    var b := "Bearer";
    assert b[0] == 'B' && b[1] == 'e' && b[2] == 'a' && b[3] == 'r' && b[4] == 'e' && b[5] == 'r';
  }

  /** A header without a space yields no token. */
  lemma SingleWordYieldsNothing(h: string)
    requires forall i :: 0 <= i < |h| ==> h[i] != ' '
    ensures AuthorizationToken(Some(h)).None?
  {
    SplitWithoutSeparator(h, ' ');
  }

  /** The members of a decoded JWT payload the middlewares read; `None`
      stands for a missing or falsy member. */
  datatype Claims = Claims(userId: Option<string>, email: Option<string>)

  /** `jwt.verify(token, secret)`: it throws (bad signature, expired, malformed)
      or returns the decoded payload. */
  datatype Verification = VerifyError | Decoded(claims: Claims)

  type Verifier = string -> Verification
}
