/**
 * The application's onError hook: an HttpError instance is answered as it is, a
 * request-validation failure as 400 BAD_REQUEST, and anything else is classified by
 * keywords in its lower-cased message. Every answer is recorded in the error monitor.
 */
module ErrorHandler {
  import opened Wrappers
  import opened JsonValue
  import opened HttpErrors
  import opened ErrorMapper
  import opened ErrMonitor
  import Js

  /* ---------- classifyUnknown ---------- */

  predicate IsForbiddenText(lower: string)
  {
    Js.Contains(lower, "write blocked") || Js.Contains(lower, "locked")
  }

  predicate IsNotFoundText(lower: string)
  {
    Js.Contains(lower, "not found")
  }

  predicate IsBadRequestText(lower: string)
  {
    Js.Contains(lower, "bad request") || Js.Contains(lower, "invalid")
  }

  /**
   * classifyUnknown: the keyword groups are tried in order 403, 404, 400; a match keeps
   * the message, and no match gives 500 INTERNAL with the generic message.
   */
  function Classify(message: string): (r: HttpError)
    ensures Canonical(r) && r.details == NoDetails
    ensures r.code == "FORBIDDEN" <==> IsForbiddenText(Js.ToLower(message))
    ensures r.code == "NOT_FOUND" <==>
      !IsForbiddenText(Js.ToLower(message)) && IsNotFoundText(Js.ToLower(message))
    ensures r.code == "BAD_REQUEST" <==>
      !IsForbiddenText(Js.ToLower(message)) && !IsNotFoundText(Js.ToLower(message))
      && IsBadRequestText(Js.ToLower(message))
    ensures r.code in {"FORBIDDEN", "NOT_FOUND", "BAD_REQUEST", "INTERNAL"}
    ensures r.code != "INTERNAL" ==> r.message == message
    ensures r.code == "INTERNAL" ==> r.message == DEFAULT_FALLBACK
  {
    var m := Js.ToLower(message);
    if IsForbiddenText(m) then Forbidden(message)
    else if IsNotFoundText(m) then NotFound(message)
    else if IsBadRequestText(m) then BadRequest(message)
    else Internal(DEFAULT_FALLBACK)
  }

  /**
   * A message with no k, f or q in either case, and no "va" pair once lower-cased,
   * matches no keyword and is classified as a generic 500.
   */
  lemma ClassifyInternalWhen(s: string)
    requires Js.Avoids(s, "kKfFqQ")
    requires forall i :: 0 <= i < |s| - 1 ==> !(Js.LowerChar(s[i]) == 'v' && Js.LowerChar(s[i + 1]) == 'a')
    ensures Classify(s) == Internal(DEFAULT_FALLBACK)
  {
    var m := Js.ToLower(s);
    assert 'k' !in m && 'f' !in m && 'q' !in m by {
      forall i | 0 <= i < |m| ensures m[i] != 'k' && m[i] != 'f' && m[i] != 'q' {
        assert s[i] !in "kKfFqQ";
      }
    }
    Js.NotContainsByChar(m, "write blocked", 'k');
    Js.NotContainsByChar(m, "locked", 'k');
    Js.NotContainsByChar(m, "not found", 'f');
    Js.NotContainsByChar(m, "bad request", 'q');
    Js.NotContainsByPair(m, "invalid", 2);
  }

  /** What the generic message lacks. */
  lemma FallbackLacks()
    ensures Js.Avoids(DEFAULT_FALLBACK, "kKfFqQ")
    ensures forall i :: 0 <= i < |DEFAULT_FALLBACK| - 1 ==>
      !(Js.LowerChar(DEFAULT_FALLBACK[i]) == 'v' && Js.LowerChar(DEFAULT_FALLBACK[i + 1]) == 'a')
  {
  }

  /** Classifying the message classifyUnknown answered with gives the same answer again. */
  lemma ClassifyIdempotent(message: string)
    ensures Classify(Classify(message).message) == Classify(message)
  {
    if Classify(message).code == "INTERNAL" {
      FallbackLacks();
      ClassifyInternalWhen(DEFAULT_FALLBACK);
    }
  }

  /* ---------- the onError hook ---------- */

  /** `x == null || x === undefined` for an optional property. */
  predicate Nullish(p: Option<Json>)
  {
    p.None? || p.value.Null?
  }

  /** A property of a thrown value, when the value is an object that has it. */
  function PropOf(e: Thrown, key: string): Option<Json>
  {
    match e
    case HttpErrorInstance(_) => None
    case JwtErrorInstance(_, _) => None
    case ErrorInstance(_, _, props) => Lookup(props, key)
    case ThrownValue(v) => if v.Obj? then Lookup(v.fields, key) else None
  }

  /** `error.code === 'VALIDATION'`. */
  predicate IsValidation(e: Thrown)
  {
    if e.JwtErrorInstance? then e.jwtCode == "VALIDATION"
    else PropOf(e, "code") == Some(Str("VALIDATION"))
  }

  /** `error.all ?? error.message ?? error`. */
  function ValidationDetails(e: Thrown): Details
  {
    match e
    case JwtErrorInstance(_, m) => JsonDetails(Str(m))
    case ErrorInstance(_, m, props) =>
      if !Nullish(Lookup(props, "all")) then JsonDetails(Lookup(props, "all").value) else JsonDetails(Str(m))
    case _ =>
      if !Nullish(PropOf(e, "all")) then JsonDetails(PropOf(e, "all").value)
      else if !Nullish(PropOf(e, "message")) then JsonDetails(PropOf(e, "message").value)
      else RawThrown(e)
  }

  /** `error.route` when it is a string. */
  function RouteOf(e: Thrown): Option<string>
  {
    var p := PropOf(e, "route");
    if p.Some? && p.value.Str? then Some(p.value.s) else None
  }

  const VALIDATION_ERROR: string := "Validation Error"

  /**
   * The error the hook answers with: its status is the response status, its code,
   * message and details the envelope, and the same four fields are recorded.
   */
  function Handle(e: Thrown): (r: HttpError)
    ensures e.HttpErrorInstance? ==> r == e.err
    ensures !e.HttpErrorInstance? && IsValidation(e) ==>
      r == HttpError(StatusNum(400), "BAD_REQUEST", VALIDATION_ERROR, ValidationDetails(e))
    ensures !e.HttpErrorInstance? && !IsValidation(e) ==>
      r == Classify(MessageOf(e).GetOr(DEFAULT_FALLBACK))
  {
    if e.HttpErrorInstance? then e.err
    else if IsValidation(e) then HttpError(StatusNum(400), "BAD_REQUEST", VALIDATION_ERROR, ValidationDetails(e))
    else Classify(MessageOf(e).GetOr(DEFAULT_FALLBACK))
  }

  /**
   * Anything that is neither an HttpError instance nor a validation failure is answered
   * with one of four canonical errors, and a 500 never carries the original message.
   */
  lemma UnknownErrorsNeverLeak(e: Thrown)
    requires !e.HttpErrorInstance? && !IsValidation(e)
    ensures Canonical(Handle(e)) && Handle(e).details == NoDetails
    ensures Handle(e).code in {"FORBIDDEN", "NOT_FOUND", "BAD_REQUEST", "INTERNAL"}
    ensures Handle(e).status == StatusNum(500) <==> Handle(e).message == DEFAULT_FALLBACK && Handle(e).code == "INTERNAL"
    ensures Handle(e).code != "INTERNAL" ==> Some(Handle(e).message) == MessageOf(e)
  {
    if MessageOf(e).None? {
      FallbackLacks();
      ClassifyInternalWhen(DEFAULT_FALLBACK);
    }
  }

  /**
   * The mapper of trigger abort codes is not on this path: the archived-class abort,
   * which the mapper would answer with 403, is answered with a generic 500.
   */
  lemma ArchivedAbortAnsweredAsInternal()
    ensures ToDomainHttpError(SqliteAbort(CLASS_ARCHIVED_READONLY)).code == "FORBIDDEN"
    ensures Handle(SqliteAbort(CLASS_ARCHIVED_READONLY)) == Internal(DEFAULT_FALLBACK)
  {
    Js.ContainsAt(CLASS_ARCHIVED_READONLY, CLASS_ARCHIVED_READONLY, 0);
    ArchivedLacks();
    ClassifyInternalWhen(CLASS_ARCHIVED_READONLY);
  }

  /** What the archived-class code lacks. */
  lemma ArchivedLacks()
    ensures Js.Avoids(CLASS_ARCHIVED_READONLY, "kKfFqQ")
    ensures forall i :: 0 <= i < |CLASS_ARCHIVED_READONLY| - 1 ==>
      !(Js.LowerChar(CLASS_ARCHIVED_READONLY[i]) == 'v' && Js.LowerChar(CLASS_ARCHIVED_READONLY[i + 1]) == 'a')
  {
  }

  /** The locked-team abort holds "locked" once lower-cased, so it is answered with 403 and the raw code. */
  lemma LockedAbortAnsweredAsForbidden()
    ensures Handle(SqliteAbort(TEAM_LOCKED)) == Forbidden(TEAM_LOCKED)
  {
    var m := Js.ToLower(TEAM_LOCKED);
    assert m[5..11] == "locked";
    Js.ContainsAt(m, "locked", 5);
  }

  /**
   * onError: answers with Handle(e) and records one entry with the same status, code,
   * message and details, under the request id and the error's route.
   */
  method OnError(monitor: ErrorMonitor, e: Thrown, ts: string, reqId: Option<string>)
    returns (status: Js.Num, body: ErrorEnvelope)
    requires monitor.Valid()
    modifies monitor
    ensures monitor.Valid() && monitor.max == old(monitor.max)
    ensures status == Handle(e).status && body == ToErrorEnvelope(Handle(e))
    ensures monitor.buffer == Newest(old(monitor.buffer) + [ErrorEntry(ts, reqId, RouteOf(e), Handle(e).status,
                                                                        Handle(e).code, Handle(e).message, Handle(e).details)], monitor.max)
  {
    var r := Handle(e);
    status := r.status;
    body := ToErrorEnvelope(r);
    monitor.RecordError(ErrorEntry(ts, reqId, RouteOf(e), r.status, r.code, r.message, r.details));
  }
}
