/** The `Verification_Code` document
    (identity-service/src/models/verificationCode.model.js). `email`, `code`
    and `expiresAt` are required; `used` and `is_email_verified` default to
    false. `email` carries no unique index: the collection itself allows
    several codes per address. */
module VerificationCodeModel {
  import opened Common

  datatype VerificationCode = VerificationCode(
    email: string,
    code: string,
    expiresAt: int,
    used: bool,
    isEmailVerified: bool)

  /** `VerificationCode.create({email, code, expiresAt})`: the required
      fields as given and both flags at their default, false. */
  function NewCode(email: string, code: string, expiresAt: int): (c: VerificationCode)
    ensures c.email == email && c.code == code && c.expiresAt == expiresAt
    ensures !c.used && !c.isEmailVerified
  {
    VerificationCode(email, code, expiresAt, false, false)
  }

  function CodeEmail(c: VerificationCode): string { c.email }

  function HasEmail(email: string): VerificationCode -> bool {
    (c: VerificationCode) => c.email == email
  }

  function HasEmailAndCode(email: string, code: string): VerificationCode -> bool {
    (c: VerificationCode) => c.email == email && c.code == code
  }

  /** The documents `deleteMany({email, expiresAt: {$lt: now}})` keeps. */
  function Unexpired(email: string, now: int): VerificationCode -> bool {
    (c: VerificationCode) => !(c.email == email && c.expiresAt < now)
  }

  /** `deleteMany({email, expiresAt: {$lt: now}})`: exactly the codes of
      `email` that expired strictly before `now` are removed. */
  function DeleteExpired(codes: seq<VerificationCode>, email: string, now: int): (r: seq<VerificationCode>)
    ensures forall i :: 0 <= i < |r| ==> r[i] in codes && !(r[i].email == email && r[i].expiresAt < now)
    ensures forall i :: 0 <= i < |codes| && !(codes[i].email == email && codes[i].expiresAt < now) ==> codes[i] in r
  {
    FilterMembers(codes, Unexpired(email, now));
    Filter(codes, Unexpired(email, now))
  }
}
