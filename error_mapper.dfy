/**
 * Conversion of low-level failures into HttpErrors: the SQLite trigger abort codes
 * (recognised by substring in the error message, first match wins), JwtErrors, and
 * the envelope `{ error: { code, message, details } }` sent to clients.
 */
module ErrorMapper {
  import opened Wrappers
  import opened JsonValue
  import opened HttpErrors
  import Js

  /* The abort codes the schema's triggers raise. */
  const CLASS_ARCHIVED_READONLY: string := "CLASS_ARCHIVED_READONLY"
  const TEAM_LOCKED: string := "TEAM_LOCKED"
  const TEAM_MEMBER_CLASS_MISMATCH: string := "TEAM_MEMBER_CLASS_MISMATCH"
  const TEAM_JOIN_REQ_CLASS_MISMATCH: string := "TEAM_JOIN_REQ_CLASS_MISMATCH"
  const PROJECT_CLASS_MISMATCH: string := "PROJECT_CLASS_MISMATCH"
  const AUDIT_LOG_IMMUTABLE: string := "AUDIT_LOG_IMMUTABLE"
  const SUBMISSION_CLASS_ASSIGNMENT_MISMATCH: string := "SUBMISSION_CLASS_ASSIGNMENT_MISMATCH"
  const SUBMISSION_CLASS_PROJECT_MISMATCH: string := "SUBMISSION_CLASS_PROJECT_MISMATCH"
  const SUBMISSION_STAGE_PROJECT_MISMATCH: string := "SUBMISSION_STAGE_PROJECT_MISMATCH"
  const TEAM_ASSIGNMENT_REQUIRES_TEAM: string := "TEAM_ASSIGNMENT_REQUIRES_TEAM"
  const INDIVIDUAL_ASSIGNMENT_FORBIDS_TEAM: string := "INDIVIDUAL_ASSIGNMENT_FORBIDS_TEAM"

  /** The error SQLite raises for RAISE(ABORT, code): an Error whose message is the code. */
  function SqliteAbort(code: string): Thrown
  {
    ErrorInstance("SQLiteError", code, [])
  }

  /** `(e as any)?.message` when it is a string. */
  function MessageOf(e: Thrown): Option<string>
  {
    match e
    case HttpErrorInstance(err) => Some(err.message)
    case JwtErrorInstance(_, m) => Some(m)
    case ErrorInstance(_, m, _) => Some(m)
    case ThrownValue(v) =>
      if v.Obj? && Lookup(v.fields, "message").Some? && Lookup(v.fields, "message").value.Str?
      then Some(Lookup(v.fields, "message").value.s) else None
  }

  /** The recognition table, in the order the codes are tried. */
  datatype AbortRule = AbortRule(codes: seq<string>, result: HttpError)

  function AbortRules(): seq<AbortRule>
  {
    [ AbortRule([CLASS_ARCHIVED_READONLY], Forbidden("Class is archived (read-only).")),
      AbortRule([TEAM_LOCKED], Forbidden("Team is locked.")),
      AbortRule([TEAM_MEMBER_CLASS_MISMATCH, TEAM_JOIN_REQ_CLASS_MISMATCH], BadRequest("Class/team mismatch.")),
      AbortRule([PROJECT_CLASS_MISMATCH], BadRequest("Project/team class mismatch.")),
      AbortRule([AUDIT_LOG_IMMUTABLE], Forbidden("Audit logs are immutable.")) ]
  }

  predicate ContainsAny(msg: string, codes: seq<string>)
  {
    exists i | 0 <= i < |codes| :: Js.Contains(msg, codes[i])
  }

  /** The result of the first rule one of whose codes occurs in the message. */
  function FirstMatch(msg: string, rules: seq<AbortRule>): (r: Option<HttpError>)
    ensures r.None? <==> forall k :: 0 <= k < |rules| ==> !ContainsAny(msg, rules[k].codes)
    ensures r.Some? ==> exists k :: 0 <= k < |rules| && r.value == rules[k].result
  {
    if rules == [] then None
    else if ContainsAny(msg, rules[0].codes) then Some(rules[0].result)
    else
      var r := FirstMatch(msg, rules[1..]);
      assert forall k :: 1 <= k < |rules| ==> rules[k] == rules[1..][k - 1];
      r
  }

  /**
   * mapSqliteAbortToHttpError: no message, or an empty one, gives null; otherwise the
   * codes are tried in a fixed order and the first one found decides.
   */
  function MapSqliteAbort(e: Thrown): (r: Option<HttpError>)
    ensures MessageOf(e).None? || MessageOf(e) == Some("") ==> r.None?
    ensures r.Some? ==> Canonical(r.value)
    ensures r.Some? ==> r.value.code == "FORBIDDEN" || r.value.code == "BAD_REQUEST"
    ensures MessageOf(e).Some? && Js.Contains(MessageOf(e).value, CLASS_ARCHIVED_READONLY) ==>
      r == Some(Forbidden("Class is archived (read-only)."))
    ensures MessageOf(e).Some? && MessageOf(e).value != "" && r.None? ==>
      forall k :: 0 <= k < |AbortRules()| ==> !ContainsAny(MessageOf(e).value, AbortRules()[k].codes)
  {
    var msg := MessageOf(e);
    if msg.None? || msg.value == "" then None
    else
      var m := msg.value;
      if Js.Contains(m, CLASS_ARCHIVED_READONLY) then Some(Forbidden("Class is archived (read-only)."))
      else if Js.Contains(m, TEAM_LOCKED) then Some(Forbidden("Team is locked."))
      else if Js.Contains(m, TEAM_MEMBER_CLASS_MISMATCH) || Js.Contains(m, TEAM_JOIN_REQ_CLASS_MISMATCH) then
        Some(BadRequest("Class/team mismatch."))
      else if Js.Contains(m, PROJECT_CLASS_MISMATCH) then Some(BadRequest("Project/team class mismatch."))
      else if Js.Contains(m, AUDIT_LOG_IMMUTABLE) then Some(Forbidden("Audit logs are immutable."))
      else None
  }

  /** One step of the table walk. */
  lemma FirstMatchStep(msg: string, rules: seq<AbortRule>)
    requires rules != []
    ensures FirstMatch(msg, rules) ==
      if ContainsAny(msg, rules[0].codes) then Some(rules[0].result) else FirstMatch(msg, rules[1..])
  {
  }

  lemma ContainsOne(msg: string, codes: seq<string>)
    requires |codes| == 1
    ensures ContainsAny(msg, codes) <==> Js.Contains(msg, codes[0])
  {
  }

  lemma ContainsTwo(msg: string, codes: seq<string>)
    requires |codes| == 2
    ensures ContainsAny(msg, codes) <==> Js.Contains(msg, codes[0]) || Js.Contains(msg, codes[1])
  {
  }

  /** A five-rule table, walked rule by rule; its codes are left abstract. */
  lemma FirstMatchOfFive(msg: string, rules: seq<AbortRule>)
    requires |rules| == 5 && |rules[0].codes| == 1 && |rules[1].codes| == 1 && |rules[2].codes| == 2
    requires |rules[3].codes| == 1 && |rules[4].codes| == 1
    ensures FirstMatch(msg, rules) ==
      if Js.Contains(msg, rules[0].codes[0]) then Some(rules[0].result)
      else if Js.Contains(msg, rules[1].codes[0]) then Some(rules[1].result)
      else if Js.Contains(msg, rules[2].codes[0]) || Js.Contains(msg, rules[2].codes[1]) then Some(rules[2].result)
      else if Js.Contains(msg, rules[3].codes[0]) then Some(rules[3].result)
      else if Js.Contains(msg, rules[4].codes[0]) then Some(rules[4].result)
      else None
  {
    ContainsOne(msg, rules[0].codes);
    ContainsOne(msg, rules[1].codes);
    ContainsTwo(msg, rules[2].codes);
    ContainsOne(msg, rules[3].codes);
    ContainsOne(msg, rules[4].codes);
    var t1 := rules[1..];
    var t2 := t1[1..];
    var t3 := t2[1..];
    var t4 := t3[1..];
    FirstMatchStep(msg, rules);
    FirstMatchStep(msg, t1);
    FirstMatchStep(msg, t2);
    FirstMatchStep(msg, t3);
    FirstMatchStep(msg, t4);
    assert t4[1..] == [];
  }

  /** The if-chain and the rule table agree on every message. */
  lemma MapSqliteAbortIsFirstMatch(e: Thrown)
    requires MessageOf(e).Some? && MessageOf(e).value != ""
    ensures MapSqliteAbort(e) == FirstMatch(MessageOf(e).value, AbortRules())
  {
    FirstMatchOfFive(MessageOf(e).value, AbortRules());
  }

  /** mapJwtErrorToHttpError: every JwtError becomes 401; anything else is not a JWT failure. */
  function MapJwtError(e: Thrown): (r: Option<HttpError>)
    ensures r.Some? <==> e.JwtErrorInstance?
    ensures r.Some? ==> r.value.status == StatusNum(401) && r.value.code == "UNAUTHORIZED"
  {
    if !e.JwtErrorInstance? then None
    else if e.jwtCode == "JWT_EXPIRED" || e.jwtCode == "JWT_INVALID_SIGNATURE" || e.jwtCode == "JWT_MALFORMED" then
      Some(Unauthorized("Invalid or expired token."))
    else Some(Unauthorized("Unauthorized."))
  }

  /**
   * toDomainHttpError: HttpErrors pass through (duck-typed ones rewrapped), then
   * trigger aborts, then JWT failures, and everything else goes through toHttpError.
   */
  function ToDomainHttpError(e: Thrown): (r: HttpError)
    ensures e.HttpErrorInstance? ==> r == e.err
    ensures IsHttpError(e) ==> r == ToHttpError(e, DEFAULT_FALLBACK)
    ensures !IsHttpError(e) && MapSqliteAbort(e).Some? ==> r == MapSqliteAbort(e).value
    ensures !IsHttpError(e) && MapSqliteAbort(e).None? && e.JwtErrorInstance? ==> r.status == StatusNum(401)
    ensures !IsHttpError(e) && MapSqliteAbort(e).None? && !e.JwtErrorInstance? ==>
      r.status == StatusNum(500) && r.code == "INTERNAL"
  {
    if e.HttpErrorInstance? then e.err
    else if IsHttpError(e) then ToHttpError(e, DEFAULT_FALLBACK)
    else
      var sqlite := MapSqliteAbort(e);
      if sqlite.Some? then sqlite.value
      else
        var jwt := MapJwtError(e);
        if jwt.Some? then jwt.value else ToHttpError(e, DEFAULT_FALLBACK)
  }

  /** The message holds none of the codes the table recognises. */
  predicate NoTableCode(m: string)
  {
    !Js.Contains(m, CLASS_ARCHIVED_READONLY) && !Js.Contains(m, TEAM_LOCKED)
    && !Js.Contains(m, TEAM_MEMBER_CLASS_MISMATCH) && !Js.Contains(m, TEAM_JOIN_REQ_CLASS_MISMATCH)
    && !Js.Contains(m, PROJECT_CLASS_MISMATCH) && !Js.Contains(m, AUDIT_LOG_IMMUTABLE)
  }

  /** A non-empty SQLite message that holds none of the table's codes becomes 500 INTERNAL with that message. */
  lemma UnknownAbortBecomesInternal(m: string)
    requires m != "" && NoTableCode(m)
    ensures MapSqliteAbort(SqliteAbort(m)).None?
    ensures ToDomainHttpError(SqliteAbort(m)) == Internal(m)
  {
  }

  /** ErrorEnvelope. */
  datatype ErrorEnvelope = ErrorEnvelope(code: string, message: string, details: Details)

  function ToErrorEnvelope(e: HttpError): (env: ErrorEnvelope)
    ensures env.code == e.code && env.message == e.message && env.details == e.details
  {
    ErrorEnvelope(e.code, e.message, e.details)
  }

  /** The envelope and the status together determine the error. */
  lemma EnvelopeDeterminesError(e1: HttpError, e2: HttpError)
    requires e1.status == e2.status && ToErrorEnvelope(e1) == ToErrorEnvelope(e2)
    ensures e1 == e2
  {
  }
}
