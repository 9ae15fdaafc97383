/**
 * The fixed-window rate limiter: requests are keyed by the first x-forwarded-for
 * entry, each key has one bucket (window end and request count), and a request
 * whose count in the current window exceeds the limit is refused with 429.
 */
module RateLimit {
  import opened Wrappers
  import opened HttpErrors
  import Js
  import JsonValue

  const LOCAL_KEY: string := "local"
  const DEFAULT_WINDOW_MS: int := 60000
  const DEFAULT_LIMIT: int := 120

  /** keyFromRequest: the first comma-separated x-forwarded-for entry, trimmed, or "local". */
  function KeyFromRequest(forwardedFor: Option<string>): (key: string)
    ensures key != ""
    ensures key == LOCAL_KEY || (',' !in key && Js.Trim(key) == key)
  {
    var first := Js.Split(forwardedFor.GetOr(""), ',')[0];
    var ip := Js.Trim(first);
    if ip == "" then LOCAL_KEY
    else
      assert ',' !in ip by {
        var i :| Js.PaddedAt(first, ip, i);
        forall k | 0 <= k < |ip| ensures ip[k] != ',' {
          assert ip[k] == first[i + k];
        }
      }
      Js.TrimOfTrimmed(ip);
      ip
  }

  /** The client address before the first comma is the key. */
  lemma FirstForwardedEntryIsKey(ip: string, rest: string)
    requires ip != "" && ',' !in ip
    requires !Js.IsSpace(ip[0]) && !Js.IsSpace(ip[|ip| - 1])
    ensures KeyFromRequest(Some(ip + [','] + rest)) == ip
  {
    Js.SplitAppend(ip, rest, ',');
    Js.TrimOfTrimmed(ip);
  }

  /** A header whose first entry is empty falls back to "local". */
  lemma EmptyFirstEntryIsLocal(rest: string)
    ensures KeyFromRequest(Some([','] + rest)) == LOCAL_KEY
  {
    Js.SplitAppend("", rest, ',');
    assert "" + [','] + rest == [','] + rest;
  }

  /** Without the header the key is "local". */
  lemma MissingHeaderIsLocal()
    ensures KeyFromRequest(None) == LOCAL_KEY
  {
    assert Js.Split("", ',') == [""];
    Js.TrimOfEmpty();
  }

  /** A missing header and an empty first entry both fall back to "local". */
  lemma NoForwardedForIsLocal()
    ensures KeyFromRequest(None) == LOCAL_KEY
    ensures KeyFromRequest(Some(", 10.0.0.1")) == LOCAL_KEY
  {
    MissingHeaderIsLocal();
    var h := ", 10.0.0.1";
    assert h == [','] + h[1..];
    EmptyFirstEntryIsLocal(h[1..]);
  }

  /* ---------- runtimeRateLimit ---------- */

  /**
   * Number(v) for a configuration value: a number is itself, a text is parsed, a
   * boolean is 1 or 0, an object is NaN, and an array converts through its text: the
   * empty array is 0, a one-element array converts as its element's text would, and a
   * longer one is NaN.
   */
  function JsonToNumber(v: JsonValue.Json): Js.Num
  {
    match v
    case Null => Js.Finite(0.0)
    case Bool(b) => Js.Finite(if b then 1.0 else 0.0)
    case Num(n) => n
    case Str(s) => Js.StringToNumber(s)
    case Obj(_) => Js.NaN
    case Arr(items) =>
      if items == [] then Js.Finite(0.0)
      else if |items| > 1 then Js.NaN
      else if items[0].Null? then Js.Finite(0.0)
      else if items[0].Bool? then Js.NaN
      else JsonToNumber(items[0])
  }

  /** Where one setting comes from: the environment variable and the configuration value. */
  datatype Source = Source(env: Option<string>, cfg: Option<JsonValue.Json>)

  /**
   * One half of runtimeRateLimit, `Number(variable ?? configured ?? fallback)`: only an
   * unset variable falls through, and only an absent or null configuration value. The
   * result is not checked, so it may be NaN or infinite.
   */
  function RateSetting(src: Source, fallback: real): (n: Js.Num)
    ensures src.env.Some? ==> n == Js.StringToNumber(src.env.value)
    ensures src.env.None? && (src.cfg.None? || src.cfg.value.Null?) ==> n == Js.Finite(fallback)
    ensures src.env.None? && src.cfg.Some? && src.cfg.value.Num? ==> n == src.cfg.value.n
  {
    if src.env.Some? then Js.StringToNumber(src.env.value)
    else if src.cfg.Some? && !src.cfg.value.Null? then JsonToNumber(src.cfg.value)
    else Js.Finite(fallback)
  }

  /** The window length and the request limit the limiter reads on each request. */
  function WindowMs(src: Source): Js.Num { RateSetting(src, DEFAULT_WINDOW_MS as real) }
  function Limit(src: Source): Js.Num { RateSetting(src, DEFAULT_LIMIT as real) }

  /** With nothing set the window is one minute and the limit 120 requests. */
  lemma NothingSetGivesDefaults()
    ensures WindowMs(Source(None, None)) == Js.Finite(60000.0)
    ensures Limit(Source(None, None)) == Js.Finite(120.0)
  {
  }

  /**
   * The variable is read as it is, without the finiteness check the configuration
   * overrides make: a set but empty variable is 0, and a text that is not a number
   * gives NaN whatever the configuration holds.
   */
  lemma VariableWinsUnchecked(cfg: Option<JsonValue.Json>, fallback: real)
    ensures RateSetting(Source(Some(""), cfg), fallback) == Js.Finite(0.0)
    ensures RateSetting(Source(Some("x"), cfg), fallback) == Js.NaN
  {
    Js.TrimOfEmpty();
    Js.TrimOfTrimmed("x");
  }

  /* ---------- the buckets ---------- */

  /** A key's window end, `now + windowMs` as a JavaScript number, and its request count. */
  datatype Bucket = Bucket(resetAt: Js.Num, count: int)

  /** `now >= resetAt`: never true of NaN or +Infinity, always of -Infinity. */
  predicate Expired(now: int, resetAt: Js.Num)
  {
    match resetAt
    case Finite(t) => now as real >= t
    case NaN => false
    case PosInf => false
    case NegInf => true
  }

  /** `now + windowMs`: a NaN or infinite window is carried over. */
  function ResetAfter(now: int, windowMs: Js.Num): Js.Num
  {
    if windowMs.Finite? then Js.Finite(now as real + windowMs.value) else windowMs
  }

  /** `count > limit`: never true against NaN or +Infinity, always against -Infinity. */
  predicate Exceeds(count: int, limit: Js.Num)
  {
    match limit
    case Finite(l) => count as real > l
    case NaN => false
    case PosInf => false
    case NegInf => true
  }

  /** The bucket after one request, and whether the request is let through. */
  datatype Decision = Decision(bucket: Bucket, admitted: bool)

  /**
   * A missing or expired bucket restarts the window with count 1 and admits; otherwise
   * the count goes up (refused requests count too) and the request is admitted only
   * while the new count does not exceed the limit.
   */
  function Decide(b: Option<Bucket>, now: int, windowMs: Js.Num, limit: Js.Num): (d: Decision)
    ensures b.None? || Expired(now, b.value.resetAt) ==> d == Decision(Bucket(ResetAfter(now, windowMs), 1), true)
    ensures b.Some? && !Expired(now, b.value.resetAt) ==>
      d.bucket == Bucket(b.value.resetAt, b.value.count + 1) && (d.admitted <==> !Exceeds(b.value.count + 1, limit))
    ensures limit.Finite? && d.admitted ==> d.bucket.count <= Js.Floor(Max(limit.value, 1.0))
  {
    if b.None? || Expired(now, b.value.resetAt) then Decision(Bucket(ResetAfter(now, windowMs), 1), true)
    else
      var nb := Bucket(b.value.resetAt, b.value.count + 1);
      Decision(nb, !Exceeds(nb.count, limit))
  }

  /** Requests at the given times against one bucket: the final bucket and the number admitted. */
  function Run(b: Bucket, times: seq<int>, windowMs: Js.Num, limit: Js.Num): (r: (Bucket, nat))
    decreases |times|
  {
    if times == [] then (b, 0)
    else
      var d := Decide(Some(b), times[0], windowMs, limit);
      var rest := Run(d.bucket, times[1..], windowMs, limit);
      (rest.0, rest.1 + if d.admitted then 1 else 0)
  }

  function Max(a: real, b: real): real { if a < b then b else a }

  /**
   * Before the window ends every request counts, and against a finite limit only those
   * whose count stays within it are admitted.
   */
  lemma {:induction false} RunInsideWindow(b: Bucket, times: seq<int>, windowMs: Js.Num, limit: Js.Num)
    requires forall k :: 0 <= k < |times| ==> !Expired(times[k], b.resetAt)
    ensures Run(b, times, windowMs, limit).0 == Bucket(b.resetAt, b.count + |times|)
    ensures limit.Finite? ==> Run(b, times, windowMs, limit).1 as real <= Max(0.0, limit.value - b.count as real)
    decreases |times|
  {
    if times != [] {
      var d := Decide(Some(b), times[0], windowMs, limit);
      assert forall k :: 0 <= k < |times[1..]| ==> times[1..][k] == times[k + 1];
      RunInsideWindow(d.bucket, times[1..], windowMs, limit);
    }
  }

  /**
   * A window opened at time t0 admits at most max(limit, 1) requests in all: the one
   * that opened it, and the later ones before t0 + windowMs while within the limit.
   */
  lemma WindowAdmitsAtMost(b: Option<Bucket>, t0: int, later: seq<int>, windowMs: real, limit: real)
    requires b.None? || Expired(t0, b.value.resetAt)
    requires forall k :: 0 <= k < |later| ==> (later[k] as real) < t0 as real + windowMs
    ensures Decide(b, t0, Js.Finite(windowMs), Js.Finite(limit)).admitted
    ensures 1.0 + Run(Decide(b, t0, Js.Finite(windowMs), Js.Finite(limit)).bucket, later, Js.Finite(windowMs), Js.Finite(limit)).1 as real
            <= Max(limit, 1.0)
  {
    RunInsideWindow(Bucket(Js.Finite(t0 as real + windowMs), 1), later, Js.Finite(windowMs), Js.Finite(limit));
  }

  /**
   * A window length that is not a number never lets a bucket expire: once a key has
   * opened its window, at most max(limit, 1) of its requests are ever admitted, however
   * far apart they come, and every later one is refused with 429.
   */
  lemma NaNWindowLocksOut(b: Option<Bucket>, t0: int, later: seq<int>, limit: real)
    requires b.None? || Expired(t0, b.value.resetAt)
    ensures Decide(b, t0, Js.NaN, Js.Finite(limit)).bucket == Bucket(Js.NaN, 1)
    ensures 1.0 + Run(Decide(b, t0, Js.NaN, Js.Finite(limit)).bucket, later, Js.NaN, Js.Finite(limit)).1 as real
            <= Max(limit, 1.0)
  {
    RunInsideWindow(Bucket(Js.NaN, 1), later, Js.NaN, Js.Finite(limit));
  }

  /** A limit that is not a number never refuses: every request of a run is admitted. */
  lemma {:induction false} NaNLimitAdmitsAll(b: Bucket, times: seq<int>, windowMs: Js.Num)
    ensures Run(b, times, windowMs, Js.NaN).1 == |times|
    decreases |times|
  {
    if times != [] {
      NaNLimitAdmitsAll(Decide(Some(b), times[0], windowMs, Js.NaN).bucket, times[1..], windowMs);
    }
  }

  /** The limiter's bucket map, one bucket per key. */
  class RateLimiter {
    var buckets: map<string, Bucket>

    constructor()
      ensures buckets == map[]
    {
      buckets := map[];
    }

    /**
     * The onRequest hook: update the request key's bucket, with the window length read
     * when a window restarts and the limit read when a count goes up, and refuse with
     * 429 when the limit is exceeded. No other key's bucket changes.
     */
    method OnRequest(forwardedFor: Option<string>, now: int, window: Source, limit: Source)
      returns (r: Result<(), HttpError>)
      modifies this
      ensures var key := KeyFromRequest(forwardedFor);
        var d := Decide(if key in old(buckets) then Some(old(buckets)[key]) else None, now, WindowMs(window), Limit(limit));
        buckets == old(buckets)[key := d.bucket]
        && r == if d.admitted then Ok(()) else Err(TooManyRequests("Rate limit exceeded"))
    {
      var key := KeyFromRequest(forwardedFor);
      var b := if key in buckets then Some(buckets[key]) else None;
      var d := Decide(b, now, WindowMs(window), Limit(limit));
      buckets := buckets[key := d.bucket];
      if d.admitted {
        r := Ok(());
      } else {
        r := Err(TooManyRequests("Rate limit exceeded"));
      }
    }
  }
}
