/** The user and verification-code records the helpers read and write. */
module Users {
  import opened Wrappers

  /** `UserRole`: ADMIN, or one of the other enum values. */
  datatype Role = ADMIN | Other(name: string)

  /** `VerifyCodeType` */
  datatype VerifyCodeType = VALIDATE_EMAIL | FORGOT_PASSWORD

  /** A `User` row. `password` stands for the columns that are not part of
      the public profile. */
  datatype User = User(
    id: string,
    email: string,
    password: string,
    roles: seq<Role>,
    active: bool,
    picture: Option<string>,
    firstname: string,
    lastname: string,
    createdAt: int,
    updatedAt: int,
    eosPuId: Option<string>,
    walletAddress: Option<string>)

  /** A `Code` row: a one-time verification code for an e-mail address, with
      its try and resend counters. Times are in milliseconds. */
  datatype Code = Code(
    id: nat,
    email: string,
    code: string,
    kind: VerifyCodeType,
    nbTries: int,
    lastTryAt: Option<int>,
    nbResends: int,
    lastResendAt: Option<int>)
}
