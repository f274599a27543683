/** The verification-code state machine (`checkCode`,
    `resendVerificationCode`) over the code table, and `getPublic`. */
module UserHelpers {
  import opened Wrappers
  import opened Text
  import opened Trpc
  import opened Users
  import opened Session

  /** `security.code`: the draw range of new codes, the minimum time between
      two tries or two resends, and the try and resend limits. */
  datatype Security = Security(min: nat, max: nat, tryDelay: int, maxTries: int, maxSends: int)

  const InvalidCode := "Invalid code or email address"
  const TooManyTries := "Code has been used too many times"
  const TooQuick := "Too quick, please wait and try again"
  const AlreadyActive := "User already active"
  const TooManyResends := "Too many resends. Try again later"

  /** A row matches a lookup on e-mail, type and, when given, code. */
  predicate Matches(c: Code, email: string, code: Option<string>, kind: VerifyCodeType) {
    c.email == email && c.kind == kind && (code.None? || c.code == code.value)
  }

  /** `prismaClient.code.findFirst({ where })`: the first matching row. */
  function FindCode(rows: seq<Code>, email: string, code: Option<string>, kind: VerifyCodeType): (r: Option<nat>)
    ensures r.Some? ==> r.value < |rows| && Matches(rows[r.value], email, code, kind)
    ensures r.Some? ==> forall k :: 0 <= k < r.value ==> !Matches(rows[k], email, code, kind)
    ensures r.None? ==> forall k :: 0 <= k < |rows| ==> !Matches(rows[k], email, code, kind)
  {
    if |rows| == 0 then None
    else if Matches(rows[0], email, code, kind) then Some(0)
    else match FindCode(rows[1..], email, code, kind)
      case None => None
      case Some(k) => Some(k + 1)
  }

  /** `last && now - last < delay`: the previous attempt was too recent. */
  predicate TooSoon(last: Option<int>, now: int, delay: int) {
    last.Some? && now - last.value < delay
  }

  /** The rows without row `i`. */
  function Remove(rows: seq<Code>, i: nat): (r: seq<Code>)
    requires i < |rows|
    ensures |r| == |rows| - 1
    ensures forall k :: 0 <= k < |r| ==> r[k] == if k < i then rows[k] else rows[k + 1]
  {
    rows[..i] + rows[i + 1..]
  }

  /** `getPublic`'s input: a payload type and possibly missing user data. */
  datatype Payload = Payload(kind: string, data: Option<User>)

  /** What `getPublic` returns when not null: the public session of a user
      payload, or the data itself for any other payload type. */
  datatype Profile = Public(session: PublicUser) | Full(user: User)

  /** `getPublic(payload)` */
  function GetPublic(payload: Payload): (r: Option<Profile>)
    ensures r.None? <==> payload.data.None? || (payload.kind == "user" && !payload.data.value.active)
    ensures r.Some? && payload.kind == "user" ==> r.value == Public(GetPublicSession(payload.data.value).value)
    ensures r.Some? && payload.kind != "user" ==> r.value == Full(payload.data.value)
  {
    if payload.data.None? then None
    else if payload.kind == "user" then
      match GetPublicSession(payload.data.value)
      case None => None
      case Some(p) => Some(Public(p))
    else Some(Full(payload.data.value))
  }

  /** The `Code` collection. */
  class CodeTable {
    var rows: seq<Code>
    var nextId: nat

    /** At most one row per e-mail address and code type, and every id below
        `nextId`. */
    ghost predicate Valid()
      reads this
    {
      && (forall i, j :: 0 <= i < j < |rows| ==> !(rows[i].email == rows[j].email && rows[i].kind == rows[j].kind))
      && (forall k :: 0 <= k < |rows| ==> rows[k].id < nextId)
    }

    constructor ()
      ensures rows == [] && nextId == 0 && Valid()
    {
      rows := [];
      nextId := 0;
    }

    /** `checkCode`: consumes the row matching (e-mail, code, type) unless the
        try limit or the try delay forbids it. */
    method CheckCode(user: User, code: string, kind: VerifyCodeType, now: int, sec: Security)
      returns (r: Result<bool, TrpcError>)
      requires Valid()
      modifies this
      ensures Valid() && nextId == old(nextId)
      ensures match FindCode(old(rows), user.email, Some(code), kind)
        case None => r == Failure(TrpcError(NOT_FOUND, InvalidCode)) && rows == old(rows)
        case Some(i) =>
          if old(rows)[i].nbTries >= sec.maxTries then
            r == Failure(TrpcError(NOT_FOUND, TooManyTries)) && rows == old(rows)
          else if TooSoon(old(rows)[i].lastTryAt, now, sec.tryDelay) then
            r == Failure(TrpcError(NOT_FOUND, TooQuick)) && rows == old(rows)
          else r == Success(true) && rows == Remove(old(rows), i)
      ensures forall k :: 0 <= k < |rows| ==> rows[k] in old(rows)
    {
      var found := FindCode(rows, user.email, Some(code), kind);
      if found.None? {
        return Failure(TrpcError(NOT_FOUND, InvalidCode));
      }
      var i := found.value;
      var row := rows[i];
      if row.nbTries >= sec.maxTries {
        return Failure(TrpcError(NOT_FOUND, TooManyTries));
      }
      if TooSoon(row.lastTryAt, now, sec.tryDelay) {
        return Failure(TrpcError(NOT_FOUND, TooQuick));
      }
      // The lookup filtered on `code`, so the comparison that would count a
      // wrong try always finds the code equal.
      assert row.code == code;
      rows := Remove(rows, i);
      r := Success(true);
    }

    /** `resendVerificationCode`: `draw` is the value `randomInt` returns for
        a new code. */
    method ResendVerificationCode(user: User, kind: VerifyCodeType, now: int, draw: nat, sec: Security)
      returns (r: Result<Code, TrpcError>)
      requires Valid()
      requires sec.min <= draw < sec.max
      modifies this
      ensures Valid()
      ensures kind == VALIDATE_EMAIL && user.active ==>
                r == Failure(TrpcError(BAD_REQUEST, AlreadyActive)) && rows == old(rows) && nextId == old(nextId)
      ensures !(kind == VALIDATE_EMAIL && user.active) ==>
        var email := ToLower(user.email);
        match FindCode(old(rows), email, None, kind)
        case None =>
          var created := Code(old(nextId), email, DecimalString(draw), kind, 0, None, 0, Some(now));
          r == Success(created) && rows == old(rows) + [created] && nextId == old(nextId) + 1
        case Some(i) =>
          var c := old(rows)[i];
          nextId == old(nextId) &&
          if c.nbResends >= sec.maxSends then
            r == Failure(TrpcError(BAD_REQUEST, TooManyResends)) && rows == old(rows)
          else if TooSoon(c.lastResendAt, now, sec.tryDelay) then
            r == Failure(TrpcError(NOT_FOUND, TooQuick)) && rows == old(rows)
          else
            var updated := c.(nbResends := c.nbResends + 1, lastResendAt := Some(now));
            r == Success(updated) && rows == old(rows)[i := updated]
    {
      if kind == VALIDATE_EMAIL && user.active {
        return Failure(TrpcError(BAD_REQUEST, AlreadyActive));
      }
      var email := ToLower(user.email);
      var found := FindCode(rows, email, None, kind);
      if found.None? {
        var created := Code(nextId, email, DecimalString(draw), kind, 0, None, 0, Some(now));
        rows := rows + [created];
        nextId := nextId + 1;
        return Success(created);
      }
      var i := found.value;
      var c := rows[i];
      if c.nbResends >= sec.maxSends {
        return Failure(TrpcError(BAD_REQUEST, TooManyResends));
      }
      if TooSoon(c.lastResendAt, now, sec.tryDelay) {
        return Failure(TrpcError(NOT_FOUND, TooQuick));
      }
      c := c.(nbResends := c.nbResends + 1, lastResendAt := Some(now));
      rows := rows[i := c];
      r := Success(c);
    }
  }

  /** In a table with at most one row per address and type, a consumed code
      is gone: checking it again finds nothing. */
  lemma ConsumedOnce(rows: seq<Code>, email: string, code: string, kind: VerifyCodeType)
    requires forall i, j :: 0 <= i < j < |rows| ==> !(rows[i].email == rows[j].email && rows[i].kind == rows[j].kind)
    requires FindCode(rows, email, Some(code), kind).Some?
    ensures FindCode(Remove(rows, FindCode(rows, email, Some(code), kind).value), email, Some(code), kind).None?
  {
    var i := FindCode(rows, email, Some(code), kind).value;
    var rest := Remove(rows, i);
    forall k | 0 <= k < |rest|
      ensures !Matches(rest[k], email, Some(code), kind)
    {
      if k < i {
        assert rest[k] == rows[k];
      } else {
        assert rest[k] == rows[k + 1];
      }
    }
  }
}
