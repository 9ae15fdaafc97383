/**
 * The in-memory error monitor: a bounded buffer of recent error entries, oldest
 * first, whose capacity MAX starts at 100 and can be changed at run time.
 */
module ErrMonitor {
  import opened Wrappers
  import opened HttpErrors
  import Js

  const DEFAULT_MAX: int := 100

  /** One recorded error. The stack trace is not part of the model. */
  datatype ErrorEntry = ErrorEntry(
    ts: string,
    reqId: Option<string>,
    route: Option<string>,
    status: Js.Num,
    code: string,
    message: string,
    context: Details)

  /** The newest `n` elements of `s`, in their original order. */
  function Newest<T>(s: seq<T>, n: nat): (r: seq<T>)
    ensures |r| == if |s| <= n then |s| else n
    ensures forall i :: 0 <= i < |r| ==> r[i] == s[|s| - |r| + i]
  {
    if |s| <= n then s else s[|s| - n..]
  }

  class ErrorMonitor {
    var buffer: seq<ErrorEntry>
    var max: int

    /** The buffer never holds more than MAX entries, and MAX is never negative. */
    ghost predicate Valid()
      reads this
    {
      0 <= max && |buffer| <= max
    }

    constructor()
      ensures Valid() && buffer == [] && max == DEFAULT_MAX
    {
      buffer := [];
      max := DEFAULT_MAX;
    }

    /**
     * setErrorBufferLimit: a non-finite or non-positive limit is ignored; otherwise MAX
     * becomes its floor and the oldest entries are dropped until the buffer fits.
     */
    method SetErrorBufferLimit(limit: Js.Num)
      requires Valid()
      modifies this
      ensures Valid()
      ensures !(limit.Finite? && limit.value > 0.0) ==> buffer == old(buffer) && max == old(max)
      ensures limit.Finite? && limit.value > 0.0 ==>
        max == limit.value.Floor && buffer == Newest(old(buffer), max)
    {
      if !(limit.Finite? && limit.value > 0.0) {
        return;
      }
      max := limit.value.Floor;
      while |buffer| > max
        invariant max == limit.value.Floor && 0 <= max
        invariant |buffer| <= |old(buffer)|
        invariant |buffer| >= if |old(buffer)| <= max then |old(buffer)| else max
        invariant buffer == old(buffer)[|old(buffer)| - |buffer|..]
        decreases |buffer|
      {
        buffer := buffer[1..];
      }
    }

    /** recordError: append, then drop the oldest entry if the buffer overflowed. */
    method RecordError(e: ErrorEntry)
      requires Valid()
      modifies this
      ensures Valid() && max == old(max)
      ensures buffer == Newest(old(buffer) + [e], max)
    {
      buffer := buffer + [e];
      if |buffer| > max {
        buffer := buffer[1..];
      }
    }

    /** getRecentErrors: the newest `limit` entries, newest first; the buffer is not changed. */
    function GetRecentErrors(limit: int): (r: seq<ErrorEntry>)
      reads this
      ensures |r| == if limit <= 0 then 0 else if limit < |buffer| then limit else |buffer|
      ensures forall i :: 0 <= i < |r| ==> r[i] == buffer[|buffer| - 1 - i]
    {
      var b := buffer;
      var n := if limit <= 0 then 0 else if limit < |b| then limit else |b|;
      seq(n, i requires 0 <= i < n => b[|b| - 1 - i])
    }

    /** getRecentHttpErrors: the same entries rebuilt as serialized HttpErrors. */
    function GetRecentHttpErrors(limit: int): (r: seq<ErrorShape>)
      reads this
      ensures |r| == |GetRecentErrors(limit)|
      ensures forall i :: 0 <= i < |r| ==>
        r[i].status == GetRecentErrors(limit)[i].status && r[i].code == GetRecentErrors(limit)[i].code
        && r[i].message == GetRecentErrors(limit)[i].message && r[i].details == GetRecentErrors(limit)[i].context
    {
      var recent := GetRecentErrors(limit);
      seq(|recent|, i requires 0 <= i < |recent| =>
        Serialize(HttpError(recent[i].status, recent[i].code, recent[i].message, recent[i].context)))
    }

    /**
     * recordUnknownError: convert any thrown value with toHttpError, record one entry
     * carrying its status, code and message, and return the converted error. The
     * entry's context is the caller's, or else the error's details.
     */
    method RecordUnknownError(t: Thrown, ts: string, reqId: Option<string>, route: Option<string>, context: Option<Details>)
      returns (he: HttpError)
      requires Valid()
      modifies this
      ensures Valid() && max == old(max)
      ensures he == ToHttpError(t, DEFAULT_FALLBACK)
      ensures buffer == Newest(old(buffer) + [ErrorEntry(ts, reqId, route, he.status, he.code, he.message,
                                                         context.GetOr(he.details))], max)
    {
      he := ToHttpError(t, DEFAULT_FALLBACK);
      RecordError(ErrorEntry(ts, reqId, route, he.status, he.code, he.message, context.GetOr(he.details)));
    }

    /** clearErrors: empty the buffer; MAX is kept. */
    method ClearErrors()
      requires Valid()
      modifies this
      ensures Valid() && buffer == [] && max == old(max)
    {
      buffer := [];
    }
  }

  /** After a record, the buffer holds at most MAX entries and ends with the new entry when MAX > 0. */
  lemma RecordKeepsBound(buffer: seq<ErrorEntry>, e: ErrorEntry, max: nat)
    requires |buffer| <= max
    ensures |Newest(buffer + [e], max)| <= max
    ensures max > 0 ==> Newest(buffer + [e], max)[|Newest(buffer + [e], max)| - 1] == e
  {
  }

  /** Recording into a full buffer drops exactly the oldest entry and keeps the order of the rest. */
  lemma {:induction false} RecordIntoFullDropsOldest(buffer: seq<ErrorEntry>, e: ErrorEntry, max: nat)
    requires |buffer| == max && max > 0
    ensures Newest(buffer + [e], max) == buffer[1..] + [e]
  {
    assert (buffer + [e])[|buffer + [e]| - max..] == buffer[1..] + [e];
  }

  /** Recording into a buffer with room drops nothing. */
  lemma RecordWithRoomKeepsAll(buffer: seq<ErrorEntry>, e: ErrorEntry, max: nat)
    requires |buffer| < max
    ensures Newest(buffer + [e], max) == buffer + [e]
  {
  }
}
