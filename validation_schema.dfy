/** The request-body schemas (identity-service/src/models/validationSchema.js).
    A zod string schema runs its checks in the order they are declared:
    length bounds are checked on the raw value and only then is the value
    trimmed or lower-cased. Every failed check adds an issue; the body is
    accepted only when there are none. The e-mail pattern of `.email()`
    belongs to the zod library and is taken as a parameter. */
module ValidationSchema {
  import opened Common
  import opened UserModel

  datatype Problem =
    | TooSmall(minimum: nat)
    | TooBig(maximum: nat)
    | InvalidEmail
    | InvalidEnum
    | InvalidRegex
    | Custom(message: string)

  datatype Issue = Issue(path: seq<string>, problem: Problem)

  datatype Parsed<T> = Parsed(value: T) | Rejected(issues: seq<Issue>)

  /** zod's `.email()` test. */
  type EmailCheck = string -> bool

  /** None of the issues comes from a `.refine`. */
  predicate NoRefinementIssue(issues: seq<Issue>) {
    forall k :: 0 <= k < |issues| ==> !issues[k].problem.Custom?
  }

  lemma NoRefinementIssueConcat(a: seq<Issue>, b: seq<Issue>)
    requires NoRefinementIssue(a) && NoRefinementIssue(b)
    ensures NoRefinementIssue(a + b)
  {
    forall k | 0 <= k < |a + b| ensures !(a + b)[k].problem.Custom? {
      if k >= |a| { assert (a + b)[k] == b[k - |a|]; }
    }
  }

  /** `.min(lo).max(hi)` on a string. */
  function LengthIssues(path: seq<string>, s: string, lo: nat, hi: nat): (issues: seq<Issue>)
    ensures issues == [] <==> lo <= |s| <= hi
    ensures NoRefinementIssue(issues)
    ensures |s| < lo ==> Issue(path, TooSmall(lo)) in issues
    ensures |s| > hi ==> Issue(path, TooBig(hi)) in issues
  {
    (if |s| < lo then [Issue(path, TooSmall(lo))] else [])
      + (if |s| > hi then [Issue(path, TooBig(hi))] else [])
  }

  /** `.email()` on a string. */
  function EmailIssues(path: seq<string>, s: string, isEmail: EmailCheck): (issues: seq<Issue>)
    ensures issues == [] <==> isEmail(s)
    ensures NoRefinementIssue(issues)
  {
    if isEmail(s) then [] else [Issue(path, InvalidEmail)]
  }

  predicate NoUpperCase(s: string) {
    forall i :: 0 <= i < |s| ==> !('A' <= s[i] <= 'Z')
  }

  lemma NoUpperCaseSlice(s: string, lo: nat, hi: nat)
    requires NoUpperCase(s) && lo <= hi <= |s|
    ensures NoUpperCase(s[lo..hi])
  {
    forall i | 0 <= i < hi - lo ensures !('A' <= s[lo..hi][i] <= 'Z') {
      assert s[lo..hi][i] == s[lo + i];
    }
  }

  /** `.toLowerCase().trim()`, applied after the e-mail test passed. */
  function NormalizeEmail(s: string): (r: string)
    ensures r == Trim(ToLower(s))
    ensures |r| <= |s|
    ensures NoUpperCase(r)
  {
    var lowered := ToLower(s);
    var started := TrimStart(lowered);
    var r := TrimEnd(started);
    NoUpperCaseSlice(lowered, |lowered| - |started|, |lowered|);
    NoUpperCaseSlice(started, 0, |r|);
    r
  }

  predicate AllDigits(s: string) {
    forall i :: 0 <= i < |s| ==> IsDigit(s[i])
  }

  /** `/^\d{2}-\d{2}-\d{4}$/`, read group by group. */
  predicate MatchesDatePattern(s: string) {
    && |s| == 10
    && AllDigits(s[0..2]) && s[2] == '-'
    && AllDigits(s[3..5]) && s[5] == '-'
    && AllDigits(s[6..10])
  }

  /** The pattern accepts exactly the ten-character strings with '-' at
      positions 2 and 5 and a digit everywhere else; calendar validity is
      not checked. */
  lemma DatePatternByPosition(s: string)
    ensures MatchesDatePattern(s) <==>
      |s| == 10 && forall i :: 0 <= i < 10 ==> (if i == 2 || i == 5 then s[i] == '-' else IsDigit(s[i]))
  {
    if |s| == 10 && forall i :: 0 <= i < 10 ==> (if i == 2 || i == 5 then s[i] == '-' else IsDigit(s[i])) {
      assert forall i :: 0 <= i < 2 ==> s[0..2][i] == s[i];
      assert forall i :: 0 <= i < 2 ==> s[3..5][i] == s[i + 3];
      assert forall i :: 0 <= i < 4 ==> s[6..10][i] == s[i + 6];
    }
    if MatchesDatePattern(s) {
      forall i | 0 <= i < 10 ensures if i == 2 || i == 5 then s[i] == '-' else IsDigit(s[i]) {
        if i < 2 { assert s[i] == s[0..2][i]; }
        else if 2 < i < 5 { assert s[i] == s[3..5][i - 3]; }
        else if i > 5 { assert s[i] == s[6..10][i - 6]; }
      }
    }
  }

  /** A shape-valid date need not be a calendar date. */
  lemma DatePatternIgnoresCalendar()
    ensures MatchesDatePattern("99-99-0000")
  {
  }

  // ---------------------------------------------------------------------
  // registerSchema

  datatype AddressInput = AddressInput(country: string, state: string, city: string, homeAddress: string)

  datatype RegisterInput = RegisterInput(
    firstName: string,
    lastName: string,
    email: string,
    phoneNumber: string,
    address: AddressInput,
    gender: string,
    dateOfBirth: string,
    password: string,
    confirmPassword: string)

  /** The parsed body: strings trimmed, e-mail normalised, gender typed. */
  datatype RegisterData = RegisterData(
    firstName: string,
    lastName: string,
    email: string,
    phoneNumber: string,
    address: Address,
    gender: Gender,
    dateOfBirth: string,
    password: string,
    confirmPassword: string)

  /** The name fields' issues. */
  function NameIssues(input: RegisterInput): (issues: seq<Issue>)
    ensures issues == [] <==> 2 <= |input.firstName| <= 50 && 2 <= |input.lastName| <= 50
    ensures NoRefinementIssue(issues)
  {
    LengthIssues(["first_name"], input.firstName, 2, 50) + LengthIssues(["last_name"], input.lastName, 2, 50)
  }

  /** The e-mail and phone number issues. */
  function ContactIssues(input: RegisterInput, isEmail: EmailCheck): (issues: seq<Issue>)
    ensures issues == [] <==> isEmail(input.email) && 2 <= |input.phoneNumber| <= 15
    ensures NoRefinementIssue(issues)
  {
    EmailIssues(["email"], input.email, isEmail) + LengthIssues(["phone_number"], input.phoneNumber, 2, 15)
  }

  /** The nested address object's issues. */
  function AddressIssues(a: AddressInput): (issues: seq<Issue>)
    ensures issues == [] <==>
      2 <= |a.country| <= 20 && 2 <= |a.state| <= 50 && 2 <= |a.city| <= 50 && 2 <= |a.homeAddress| <= 50
    ensures NoRefinementIssue(issues)
  {
    LengthIssues(["address", "country"], a.country, 2, 20)
      + LengthIssues(["address", "state"], a.state, 2, 50)
      + LengthIssues(["address", "city"], a.city, 2, 50)
      + LengthIssues(["address", "home_address"], a.homeAddress, 2, 50)
  }

  /** The gender enum and the date pattern. */
  function ShapeIssues(input: RegisterInput): (issues: seq<Issue>)
    ensures issues == [] <==>
      (input.gender == "male" || input.gender == "female") && MatchesDatePattern(input.dateOfBirth)
    ensures NoRefinementIssue(issues)
  {
    (if ParseGender(input.gender).None? then [Issue(["gender"], InvalidEnum)] else [])
      + (if !MatchesDatePattern(input.dateOfBirth) then [Issue(["date_of_birth"], InvalidRegex)] else [])
  }

  /** The two password fields' length issues. */
  function PasswordIssues(input: RegisterInput): (issues: seq<Issue>)
    ensures issues == [] <==> 6 <= |input.password| <= 30 && 6 <= |input.confirmPassword| <= 30
    ensures NoRefinementIssue(issues)
  {
    LengthIssues(["password"], input.password, 6, 30) + LengthIssues(["confirm_password"], input.confirmPassword, 6, 30)
  }

  /** The object-level issues, in declaration order. */
  function RegisterFieldIssues(input: RegisterInput, isEmail: EmailCheck): (issues: seq<Issue>)
    ensures issues == [] <==>
      && NameIssues(input) == [] && ContactIssues(input, isEmail) == [] && AddressIssues(input.address) == []
      && ShapeIssues(input) == [] && PasswordIssues(input) == []
    ensures NoRefinementIssue(issues)
  {
    var name, contact, address := NameIssues(input), ContactIssues(input, isEmail), AddressIssues(input.address);
    var shape, password := ShapeIssues(input), PasswordIssues(input);
    NoRefinementIssueConcat(name, contact);
    NoRefinementIssueConcat(name + contact, address);
    NoRefinementIssueConcat(name + contact + address, shape);
    NoRefinementIssueConcat(name + contact + address + shape, password);
    name + contact + address + shape + password
  }

  /** The `.refine` issue. A failed enum aborts the object parse, and zod then
      skips the refinement; failed string checks do not. */
  function RefineIssues(input: RegisterInput): (issues: seq<Issue>)
    ensures |issues| <= 1
    ensures issues != [] <==> ParseGender(input.gender).Some? && input.password != input.confirmPassword
    ensures forall i :: 0 <= i < |issues| ==> issues[i].path == ["confirm_password"] && issues[i].problem.Custom?
  {
    if ParseGender(input.gender).Some? && input.password != input.confirmPassword
    then [Issue(["confirm_password"], Custom("Passwords must match"))]
    else []
  }

  /** Every constraint of `registerSchema`, stated directly. */
  predicate RegisterAcceptable(input: RegisterInput, isEmail: EmailCheck) {
    && 2 <= |input.firstName| <= 50
    && 2 <= |input.lastName| <= 50
    && isEmail(input.email)
    && 2 <= |input.phoneNumber| <= 15
    && 2 <= |input.address.country| <= 20
    && 2 <= |input.address.state| <= 50
    && 2 <= |input.address.city| <= 50
    && 2 <= |input.address.homeAddress| <= 50
    && (input.gender == "male" || input.gender == "female")
    && MatchesDatePattern(input.dateOfBirth)
    && 6 <= |input.password| <= 30
    && 6 <= |input.confirmPassword| <= 30
    && input.password == input.confirmPassword
  }

  /** No issue is reported exactly when every constraint holds. */
  lemma RegisterIssuesEmptyIff(input: RegisterInput, isEmail: EmailCheck)
    ensures RegisterFieldIssues(input, isEmail) + RefineIssues(input) == [] <==> RegisterAcceptable(input, isEmail)
  {
    if RegisterFieldIssues(input, isEmail) == [] {
      assert ParseGender(input.gender).Some?;
    }
  }

  function RegisterSchema(input: RegisterInput, isEmail: EmailCheck): (r: Parsed<RegisterData>)
    ensures r.Parsed? <==> RegisterAcceptable(input, isEmail)
    ensures r.Parsed? ==>
      && r.value.firstName == Trim(input.firstName)
      && r.value.lastName == Trim(input.lastName)
      && r.value.email == NormalizeEmail(input.email)
      && r.value.phoneNumber == Trim(input.phoneNumber)
      && r.value.address == Address(Trim(input.address.city), Trim(input.address.state),
                                    Trim(input.address.country), Trim(input.address.homeAddress))
      && GenderName(r.value.gender) == input.gender
      && r.value.dateOfBirth == input.dateOfBirth
      && r.value.password == input.password
  {
    var issues := RegisterFieldIssues(input, isEmail) + RefineIssues(input);
    RegisterIssuesEmptyIff(input, isEmail);
    if issues == [] then
      Parsed(RegisterData(
        Trim(input.firstName), Trim(input.lastName), NormalizeEmail(input.email), Trim(input.phoneNumber),
        Address(Trim(input.address.city), Trim(input.address.state),
                Trim(input.address.country), Trim(input.address.homeAddress)),
        ParseGender(input.gender).value, input.dateOfBirth, input.password, input.confirmPassword))
    else Rejected(issues)
  }

  /** Differing passwords are reported on `confirm_password` whenever the
      gender is valid (otherwise the refinement never runs, and the body is
      rejected for the gender). */
  lemma PasswordMismatchReported(input: RegisterInput, isEmail: EmailCheck)
    requires input.password != input.confirmPassword
    ensures RegisterSchema(input, isEmail).Rejected?
    ensures ParseGender(input.gender).Some? ==>
      Issue(["confirm_password"], Custom("Passwords must match")) in RegisterSchema(input, isEmail).issues
    ensures ParseGender(input.gender).None? ==>
      Issue(["confirm_password"], Custom("Passwords must match")) !in RegisterSchema(input, isEmail).issues
  {
    var fields := RegisterFieldIssues(input, isEmail);
    var issues := fields + RefineIssues(input);
    assert RegisterSchema(input, isEmail) == Rejected(issues);
    if ParseGender(input.gender).Some? {
      assert issues[|fields|] == Issue(["confirm_password"], Custom("Passwords must match"));
    } else {
      assert issues == fields;
    }
  }

  /** The name bounds are checked before the trim: three characters with
      surrounding spaces pass, and a single letter is stored. */
  lemma NameBoundsBeforeTrim()
    ensures LengthIssues(["first_name"], " a ", 2, 50) == []
    ensures Trim(" a ") == "a"
  {
    assert IsWhitespace(' ') && !IsWhitespace('a');
    assert " a "[1..] == "a ";
    assert TrimStart(" a ") == "a ";
    assert "a "[..1] == "a";
    assert TrimEnd("a ") == "a";
  }

  // ---------------------------------------------------------------------
  // loginSchema, requestEmailOTPSchema, verifyOTPSchema, updatePasswordSchema

  datatype Credentials = Credentials(email: string, password: string)

  function LoginSchema(email: string, password: string, isEmail: EmailCheck): (r: Parsed<Credentials>)
    ensures r.Parsed? <==> isEmail(email) && 6 <= |password| <= 30
    ensures r.Parsed? ==> r.value == Credentials(NormalizeEmail(email), password)
  {
    var issues := EmailIssues(["email"], email, isEmail) + LengthIssues(["password"], password, 6, 30);
    if issues == [] then Parsed(Credentials(NormalizeEmail(email), password)) else Rejected(issues)
  }

  function RequestEmailOtpSchema(email: string, isEmail: EmailCheck): (r: Parsed<string>)
    ensures r.Parsed? <==> isEmail(email)
    ensures r.Parsed? ==> r.value == NormalizeEmail(email)
  {
    var issues := EmailIssues(["email"], email, isEmail);
    if issues == [] then Parsed(NormalizeEmail(email)) else Rejected(issues)
  }

  datatype OtpSubmission = OtpSubmission(email: string, code: string)

  function VerifyOtpSchema(email: string, code: string, isEmail: EmailCheck): (r: Parsed<OtpSubmission>)
    ensures r.Parsed? <==> isEmail(email) && |code| == 4
    ensures r.Parsed? ==> r.value == OtpSubmission(NormalizeEmail(email), code)
  {
    var issues := EmailIssues(["email"], email, isEmail) + LengthIssues(["code"], code, 4, 4);
    if issues == [] then Parsed(OtpSubmission(NormalizeEmail(email), code)) else Rejected(issues)
  }

  /** The OTP check is on length only: four letters pass. */
  lemma OtpCodeNeedNotBeDigits(email: string, isEmail: EmailCheck)
    requires isEmail(email)
    ensures VerifyOtpSchema(email, "abcd", isEmail).Parsed?
  {
  }

  datatype PasswordUpdate = PasswordUpdate(email: string, newPassword: string)

  function UpdatePasswordSchema(email: string, newPassword: string, isEmail: EmailCheck): (r: Parsed<PasswordUpdate>)
    ensures r.Parsed? <==> isEmail(email) && 6 <= |newPassword| <= 30
    ensures r.Parsed? ==> r.value == PasswordUpdate(NormalizeEmail(email), newPassword)
  {
    var issues := EmailIssues(["email"], email, isEmail) + LengthIssues(["new_password"], newPassword, 6, 30);
    if issues == [] then Parsed(PasswordUpdate(NormalizeEmail(email), newPassword)) else Rejected(issues)
  }
}
