/**
 * The server's error taxonomy: HttpError values, the httpError constructors with
 * their fixed status/code pairs, the isHttpError duck-type test, the total
 * toHttpError conversion of any thrown value, and serializeHttpError.
 */
module HttpErrors {
  import opened Wrappers
  import opened JsonValue
  import Js

  /** Extra data carried by an error. */
  datatype Details =
    | NoDetails                 // undefined
    | JsonDetails(j: Json)      // a JSON-like value
    | RawThrown(t: Thrown)      // the thrown value itself
    | OriginalOf(t: Thrown)     // the object { original: t }

  datatype HttpError = HttpError(status: Js.Num, code: string, message: string, details: Details)

  /**
   * A value thrown by a handler. HttpError and JwtError instances are told apart by
   * class; any other Error keeps its name, message and extra own properties; anything
   * else thrown is a JSON-like value.
   */
  datatype Thrown =
    | HttpErrorInstance(err: HttpError)
    | JwtErrorInstance(jwtCode: string, jwtMessage: string)
    | ErrorInstance(name: string, errMessage: string, props: seq<Field>)
    | ThrownValue(v: Json)

  const DEFAULT_FALLBACK: string := "Internal Server Error"

  function StatusNum(n: int): Js.Num { Js.Finite(n as real) }

  /* ---------- httpError constructors ---------- */

  function Unauthorized(message: string): (e: HttpError)
    ensures e.status == StatusNum(401) && e.code == "UNAUTHORIZED" && e.message == message && e.details == NoDetails
  {
    HttpError(StatusNum(401), "UNAUTHORIZED", message, NoDetails)
  }

  function Forbidden(message: string): (e: HttpError)
    ensures e.status == StatusNum(403) && e.code == "FORBIDDEN" && e.message == message && e.details == NoDetails
  {
    HttpError(StatusNum(403), "FORBIDDEN", message, NoDetails)
  }

  function BadRequest(message: string): (e: HttpError)
    ensures e.status == StatusNum(400) && e.code == "BAD_REQUEST" && e.message == message && e.details == NoDetails
  {
    HttpError(StatusNum(400), "BAD_REQUEST", message, NoDetails)
  }

  function NotFound(message: string): (e: HttpError)
    ensures e.status == StatusNum(404) && e.code == "NOT_FOUND" && e.message == message && e.details == NoDetails
  {
    HttpError(StatusNum(404), "NOT_FOUND", message, NoDetails)
  }

  function Conflict(message: string): (e: HttpError)
    ensures e.status == StatusNum(409) && e.code == "CONFLICT" && e.message == message && e.details == NoDetails
  {
    HttpError(StatusNum(409), "CONFLICT", message, NoDetails)
  }

  function TooManyRequests(message: string): (e: HttpError)
    ensures e.status == StatusNum(429) && e.code == "TOO_MANY_REQUESTS" && e.message == message && e.details == NoDetails
  {
    HttpError(StatusNum(429), "TOO_MANY_REQUESTS", message, NoDetails)
  }

  function Internal(message: string): (e: HttpError)
    ensures e.status == StatusNum(500) && e.code == "INTERNAL" && e.message == message && e.details == NoDetails
  {
    HttpError(StatusNum(500), "INTERNAL", message, NoDetails)
  }

  /** The status each ErrorCode is paired with by the constructors. */
  function StatusOfCode(code: string): Option<int>
  {
    if code == "UNAUTHORIZED" then Some(401)
    else if code == "FORBIDDEN" then Some(403)
    else if code == "BAD_REQUEST" then Some(400)
    else if code == "NOT_FOUND" then Some(404)
    else if code == "CONFLICT" then Some(409)
    else if code == "TOO_MANY_REQUESTS" then Some(429)
    else if code == "INTERNAL" then Some(500)
    else None
  }

  /** An error whose code is one of the seven ErrorCodes, with that code's status. */
  predicate Canonical(e: HttpError)
  {
    StatusOfCode(e.code).Some? && e.status == StatusNum(StatusOfCode(e.code).value)
  }

  /** Every constructor yields a canonical error, and the seven codes are pairwise distinct statuses. */
  lemma ConstructorsCanonical(m: string)
    ensures Canonical(Unauthorized(m)) && Canonical(Forbidden(m)) && Canonical(BadRequest(m))
    ensures Canonical(NotFound(m)) && Canonical(Conflict(m)) && Canonical(TooManyRequests(m))
    ensures Canonical(Internal(m))
  {
  }

  /* ---------- isHttpError / toHttpError ---------- */

  /** The `typeof x === 'number'` and `typeof x === 'string'` tests on an optional property. */
  predicate IsNumberProp(p: Option<Json>) { p.Some? && p.value.Num? }
  predicate IsStringProp(p: Option<Json>) { p.Some? && p.value.Str? }

  /** isHttpError: an object named 'HttpError' with a numeric status and a string code. */
  predicate IsHttpError(e: Thrown)
  {
    match e
    case HttpErrorInstance(_) => true
    case JwtErrorInstance(_, _) => false
    case ErrorInstance(name, _, props) =>
      name == "HttpError" && IsNumberProp(Lookup(props, "status")) && IsStringProp(Lookup(props, "code"))
    case ThrownValue(v) =>
      v.Obj? && Lookup(v.fields, "name") == Some(Str("HttpError"))
      && IsNumberProp(Lookup(v.fields, "status")) && IsStringProp(Lookup(v.fields, "code"))
  }

  /** `x.details` of an object: undefined when absent. */
  function DetailsProp(p: Option<Json>): Details
  {
    if p.Some? then JsonDetails(p.value) else NoDetails
  }

  /** `x.message ?? fallback` for a property that is a string when present. */
  function MessageOr(p: Option<Json>, fallback: string): string
  {
    if p.Some? && p.value.Str? then p.value.s else fallback
  }

  /**
   * toHttpError: an HttpError instance is returned as is; a duck-typed one is rewrapped
   * keeping status, code, message and details; any other Error becomes 500 INTERNAL with
   * its message, or the fallback when the message is empty; any other value becomes 500
   * INTERNAL with the fallback message and `{ original: e }` as details.
   */
  function ToHttpError(e: Thrown, fallback: string): (r: HttpError)
    ensures e.HttpErrorInstance? ==> r == e.err
    ensures !IsHttpError(e) ==> r.status == StatusNum(500) && r.code == "INTERNAL"
    ensures e.ThrownValue? && !IsHttpError(e) ==> r.message == fallback && r.details == OriginalOf(e)
  {
    match e
    case HttpErrorInstance(err) => err
    case JwtErrorInstance(_, msg) =>
      HttpError(StatusNum(500), "INTERNAL", if msg != "" then msg else fallback, NoDetails)
    case ErrorInstance(name, msg, props) =>
      if IsHttpError(e) then
        HttpError(Lookup(props, "status").value.n, Lookup(props, "code").value.s, msg, DetailsProp(Lookup(props, "details")))
      else
        HttpError(StatusNum(500), "INTERNAL", if msg != "" then msg else fallback, NoDetails)
    case ThrownValue(v) =>
      if IsHttpError(e) then
        HttpError(Lookup(v.fields, "status").value.n, Lookup(v.fields, "code").value.s,
                  MessageOr(Lookup(v.fields, "message"), fallback), DetailsProp(Lookup(v.fields, "details")))
      else
        HttpError(StatusNum(500), "INTERNAL", fallback, OriginalOf(e))
  }

  /** A duck-typed HttpError keeps the status and code it carries. */
  lemma DuckTypedKeepsStatusAndCode(e: Thrown, fallback: string)
    requires IsHttpError(e) && e.ThrownValue?
    ensures ToHttpError(e, fallback).status == Lookup(e.v.fields, "status").value.n
    ensures ToHttpError(e, fallback).code == Lookup(e.v.fields, "code").value.s
    ensures ToHttpError(e, fallback).details == DetailsProp(Lookup(e.v.fields, "details"))
  {
  }

  /** Converting the converted value again changes nothing. */
  lemma ToHttpErrorIdempotent(e: Thrown, fallback: string)
    ensures ToHttpError(HttpErrorInstance(ToHttpError(e, fallback)), fallback) == ToHttpError(e, fallback)
  {
  }

  /* ---------- serializeHttpError ---------- */

  /** HttpErrorShape: the plain record a client receives. */
  datatype ErrorShape = ErrorShape(status: Js.Num, code: string, message: string, details: Details)

  function Serialize(e: HttpError): (s: ErrorShape)
    ensures s.status == e.status && s.code == e.code && s.message == e.message && s.details == e.details
  {
    ErrorShape(e.status, e.code, e.message, e.details)
  }

  /** The shape a client receives is enough to rebuild the error. */
  function Deserialize(s: ErrorShape): HttpError
  {
    HttpError(s.status, s.code, s.message, s.details)
  }

  lemma SerializeRoundTrip(e: HttpError)
    ensures Deserialize(Serialize(e)) == e
  {
  }
}
