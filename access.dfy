/** The access middlewares: the reCAPTCHA decision, the authentication and
    role checks, and the order in which the procedures chain them. */
module Access {
  import opened Wrappers
  import opened Trpc
  import opened Users

  /** The parsed body of a `siteverify` reply; `score` is missing when the
      body has none. */
  datatype SiteVerify = SiteVerify(success: bool, score: Option<real>)

  /** What the `siteverify` request produced: a status and a body (`None`
      when the JSON is `null`), or a rejected promise (unparseable JSON, or an
      error on the response stream). */
  datatype RecaptchaReply = Reply(status: int, body: Option<SiteVerify>) | Rejected

  /** The reCAPTCHA settings. */
  datatype Recaptcha = Recaptcha(enabled: bool, minScore: real)

  /** `undefined < minScore` is false: a missing score is never below it. */
  predicate ScoreBelow(score: Option<real>, minScore: real) {
    score.Some? && score.value < minScore
  }

  /** `verifyRecaptchaToken`: `token` is the `x-recaptcha` header and `reply`
      what the verification request produced. */
  function VerifyRecaptchaToken(cfg: Recaptcha, token: Option<string>, reply: RecaptchaReply): (r: Result<bool, TrpcError>)
    ensures !cfg.enabled ==> r == Success(true)
    ensures cfg.enabled && (token.None? || token.value == "") ==>
              r == Failure(TrpcError(FORBIDDEN, "Missing ReCaptcha token"))
    ensures r.Success? ==> r.value
    ensures r.Failure? && r.error.code != FORBIDDEN ==>
              cfg.enabled && reply.Reply? && reply.status == 200 && reply.body.None?
    ensures cfg.enabled ==>
              (r == Success(true) <==>
                 token.Some? && token.value != "" && reply.Reply? && reply.status == 200 && reply.body.Some? &&
                 !ScoreBelow(reply.body.value.score, cfg.minScore))
    ensures cfg.enabled && token.Some? && token.value != "" && reply.Rejected? ==>
              r == Failure(TrpcError(FORBIDDEN, "Error while verifying ReCaptcha token"))
    ensures cfg.enabled && token.Some? && token.value != "" && reply.Reply? &&
            (reply.status != 200 || (reply.body.Some? && ScoreBelow(reply.body.value.score, cfg.minScore))) ==>
              r == Failure(TrpcError(FORBIDDEN, "Invalid ReCaptcha token"))
  {
    if !cfg.enabled then Success(true)
    else if token.None? || token.value == "" then Failure(TrpcError(FORBIDDEN, "Missing ReCaptcha token"))
    else match reply
      case Rejected => Failure(TrpcError(FORBIDDEN, "Error while verifying ReCaptcha token"))
      case Reply(status, body) =>
        if status != 200 then Failure(TrpcError(FORBIDDEN, "Invalid ReCaptcha token"))
        else if body.None? then Failure(TrpcError(INTERNAL_SERVER_ERROR, "Cannot read properties of null (reading 'score')"))
        else if ScoreBelow(body.value.score, cfg.minScore) then Failure(TrpcError(FORBIDDEN, "Invalid ReCaptcha token"))
        else Success(true)
  }

  /** As written, a 200 reply whose body reports a failed verification and
      carries no score is accepted. */
  lemma FailedVerificationPasses(minScore: real)
    ensures VerifyRecaptchaToken(Recaptcha(true, minScore), Some("forged"),
                                 Reply(200, Some(SiteVerify(false, None)))) == Success(true)
  {
  }

  /** The decision as evidently intended: the token must be verified
      successfully with a score of at least `minScore`. */
  function VerifyRecaptchaChecked(cfg: Recaptcha, token: Option<string>, reply: RecaptchaReply): (r: Result<bool, TrpcError>)
    ensures !cfg.enabled ==> r == Success(true)
    ensures r.Success? ==> r.value
  {
    if !cfg.enabled then Success(true)
    else if token.None? || token.value == "" then Failure(TrpcError(FORBIDDEN, "Missing ReCaptcha token"))
    else match reply
      case Rejected => Failure(TrpcError(FORBIDDEN, "Error while verifying ReCaptcha token"))
      case Reply(status, body) =>
        if status != 200 || body.None? || !body.value.success || body.value.score.None?
           || body.value.score.value < cfg.minScore
        then Failure(TrpcError(FORBIDDEN, "Invalid ReCaptcha token"))
        else Success(true)
  }

  /** With the check enabled, the corrected decision accepts exactly the
      tokens verified successfully with a score of at least `minScore`, and
      otherwise fails with FORBIDDEN. */
  lemma RecaptchaCheckedAccepts(cfg: Recaptcha, token: Option<string>, reply: RecaptchaReply)
    requires cfg.enabled
    ensures VerifyRecaptchaChecked(cfg, token, reply).Success? <==>
              token.Some? && token.value != "" && reply.Reply? && reply.status == 200 && reply.body.Some? &&
              reply.body.value.success && reply.body.value.score.Some? &&
              reply.body.value.score.value >= cfg.minScore
    ensures VerifyRecaptchaChecked(cfg, token, reply).Failure? ==>
              VerifyRecaptchaChecked(cfg, token, reply).error.code == FORBIDDEN
  {
  }

  /** The corrected decision never accepts a token the written one rejects. */
  lemma RecaptchaCheckedStricter(cfg: Recaptcha, token: Option<string>, reply: RecaptchaReply)
    ensures VerifyRecaptchaChecked(cfg, token, reply).Success? ==> VerifyRecaptchaToken(cfg, token, reply).Success?
  {
  }

  /** `isAuthenticated`: only an active user gets through. */
  function IsAuthenticated(user: Option<User>): (r: Result<User, TrpcError>)
    ensures r.Success? <==> user.Some? && user.value.active
    ensures r.Success? ==> r.value == user.value
    ensures r.Failure? ==> r.error == TrpcError(FORBIDDEN, "FORBIDDEN")
  {
    if user.None? || !user.value.active then Failure(TrpcError(FORBIDDEN, "FORBIDDEN")) else Success(user.value)
  }

  const NoAccess := "You don't have the right access to perform this action"

  /** `user.roles.find((role) => allowed.includes(role))` found something. */
  predicate HoldsAny(user: Option<User>, allowed: seq<Role>) {
    user.Some? && exists k :: 0 <= k < |user.value.roles| && user.value.roles[k] in allowed
  }

  /** `checkRoles`: `allowed` is the procedure's `meta.allowed`. */
  function CheckRoles(allowed: Option<seq<Role>>, user: Option<User>): (r: Result<(), TrpcError>)
    ensures allowed.None? ==> r.Success?
    ensures allowed.Some? ==> (r.Success? <==> HoldsAny(user, allowed.value))
    ensures r.Failure? ==> r.error == TrpcError(FORBIDDEN, NoAccess)
  {
    if allowed.Some? && !HoldsAny(user, allowed.value) then Failure(TrpcError(FORBIDDEN, NoAccess))
    else Success(())
  }

  /** A missing user, or an empty `allowed` list, never passes the role check. */
  lemma CheckRolesRejects(allowed: seq<Role>, user: Option<User>)
    requires user.None? || allowed == []
    ensures CheckRoles(Some(allowed), user).Failure?
  {
  }

  /** `protectedProcedure`: `publicProcedure` (the role check alone), then
      the authentication check. */
  function ProtectedProcedure(allowed: Option<seq<Role>>, user: Option<User>): (r: Result<User, TrpcError>)
    ensures r.Success? <==> CheckRoles(allowed, user).Success? && IsAuthenticated(user).Success?
    ensures CheckRoles(allowed, user).Failure? ==> r == Failure(TrpcError(FORBIDDEN, NoAccess))
    ensures r.Success? ==> r.value == user.value
    ensures CheckRoles(allowed, user).Success? && r.Failure? ==> r.error == TrpcError(FORBIDDEN, "FORBIDDEN")
  {
    match CheckRoles(allowed, user)
    case Failure(e) => Failure(e)
    case Success(_) => IsAuthenticated(user)
  }

  /** The role check runs first: a missing user on a procedure with an
      `allowed` list fails with the role check's message, not with the bare
      FORBIDDEN of the authentication check. */
  lemma RolesCheckedFirst(allowed: seq<Role>)
    ensures ProtectedProcedure(Some(allowed), None) == Failure(TrpcError(FORBIDDEN, NoAccess))
    ensures IsAuthenticated(None) == Failure(TrpcError(FORBIDDEN, "FORBIDDEN"))
  {
  }
}
