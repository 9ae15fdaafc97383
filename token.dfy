/**
 * Bearer-token extraction: normalizeBearer accepts "Bearer <token>" (the scheme
 * name in any letter case, section 2.1 of RFC 6750) or a bare token, and
 * getBearerFromHeaders finds the header whose name matches regardless of case.
 */
module Token {
  import opened Wrappers
  import Js

  const BEARER_PREFIX: string := "bearer "

  /** A string with no whitespace at either end. */
  predicate Trimmed(s: string)
  {
    s == [] || (!Js.IsSpace(s[0]) && !Js.IsSpace(s[|s| - 1]))
  }

  /**
   * normalizeBearer: absent or blank input gives ""; otherwise the trimmed input,
   * without a leading "bearer " (any case) and trimmed again.
   */
  function NormalizeBearer(raw: Option<string>): (r: string)
    ensures Trimmed(r)
    ensures raw.None? || raw == Some("") ==> r == ""
    ensures raw.Some? && Js.Trim(raw.value) == "" ==> r == ""
    ensures raw.Some? ==> |r| <= |raw.value|
  {
    if raw.None? || raw.value == "" then ""
    else
      var s := Js.Trim(raw.value);
      if s == "" then ""
      else if Js.StartsWith(Js.ToLower(s), BEARER_PREFIX) then Js.Trim(s[7..])
      else s
  }

  /** The result is already trimmed, so trimming it again changes nothing. */
  lemma NormalizeIsTrimmed(raw: Option<string>)
    ensures Js.Trim(NormalizeBearer(raw)) == NormalizeBearer(raw)
  {
    Js.TrimOfTrimmed(NormalizeBearer(raw));
  }

  /** A trimmed token after a "Bearer " prefix in any letter case comes back unchanged. */
  lemma PrefixedTokenRecovered(prefix: string, t: string)
    requires Js.ToLower(prefix) == BEARER_PREFIX
    requires t != [] && Trimmed(t)
    ensures NormalizeBearer(Some(prefix + t)) == t
  {
    var s := prefix + t;
    assert !Js.IsSpace(s[0]) by { assert Js.LowerChar(s[0]) == 'b'; }
    assert s[|s| - 1] == t[|t| - 1];
    Js.TrimOfTrimmed(s);
    assert Js.ToLower(s)[..7] == Js.ToLower(prefix);
    assert s[7..] == t;
    Js.TrimOfTrimmed(t);
  }

  /** A trimmed token without the prefix is returned as it is. */
  lemma BareTokenKept(t: string)
    requires t != [] && Trimmed(t)
    requires !Js.StartsWith(Js.ToLower(t), BEARER_PREFIX)
    ensures NormalizeBearer(Some(t)) == t
  {
    Js.TrimOfTrimmed(t);
  }

  /* ---------- getBearerFromHeaders ---------- */

  /** A header value: one string, an array of strings, or undefined. */
  datatype HeaderValue = Text(s: string) | List(items: seq<string>) | Missing

  datatype Header = Header(name: string, value: HeaderValue)

  /** The first header whose name equals `name` once both are lower-cased. */
  function FindHeader(headers: seq<Header>, name: string): (r: Option<Header>)
    ensures r.None? <==> forall k :: 0 <= k < |headers| ==> Js.ToLower(headers[k].name) != Js.ToLower(name)
    ensures r.Some? ==> exists k :: (0 <= k < |headers| && headers[k] == r.value
      && Js.ToLower(headers[k].name) == Js.ToLower(name)
      && forall j :: 0 <= j < k ==> Js.ToLower(headers[j].name) != Js.ToLower(name))
  {
    if headers == [] then None
    else if Js.ToLower(headers[0].name) == Js.ToLower(name) then Some(headers[0])
    else
      var r := FindHeader(headers[1..], name);
      assert forall k :: 1 <= k < |headers| ==> headers[k] == headers[1..][k - 1];
      if r.Some? then
        var k :| 0 <= k < |headers[1..]| && headers[1..][k] == r.value
          && Js.ToLower(headers[1..][k].name) == Js.ToLower(name)
          && forall j :: 0 <= j < k ==> Js.ToLower(headers[1..][j].name) != Js.ToLower(name);
        assert headers[k + 1] == r.value;
        r
      else r
  }

  /** `Array.isArray(v) ? v[0] : v`. */
  function RawValue(v: HeaderValue): Option<string>
  {
    match v
    case Text(s) => Some(s)
    case List(items) => if items == [] then None else Some(items[0])
    case Missing => None
  }

  /** getBearerFromHeaders: no headers or no matching name give "". */
  function GetBearerFromHeaders(headers: Option<seq<Header>>, name: string): (r: string)
    ensures Trimmed(r)
    ensures headers.None? ==> r == ""
    ensures headers.Some? && FindHeader(headers.value, name).None? ==> r == ""
  {
    if headers.None? then ""
    else
      var h := FindHeader(headers.value, name);
      if h.None? then "" else NormalizeBearer(Some(RawValue(h.value.value).GetOr("")))
  }

  /** The header name is matched regardless of letter case. */
  lemma HeaderNameCaseIgnored(headers: Option<seq<Header>>, n1: string, n2: string)
    requires Js.ToLower(n1) == Js.ToLower(n2)
    ensures GetBearerFromHeaders(headers, n1) == GetBearerFromHeaders(headers, n2)
  {
    if headers.Some? {
      FindHeaderCaseIgnored(headers.value, n1, n2);
    }
  }

  lemma {:induction false} FindHeaderCaseIgnored(headers: seq<Header>, n1: string, n2: string)
    requires Js.ToLower(n1) == Js.ToLower(n2)
    ensures FindHeader(headers, n1) == FindHeader(headers, n2)
  {
    if headers != [] {
      FindHeaderCaseIgnored(headers[1..], n1, n2);
    }
  }

  /** The first element of an array value is the one read. */
  lemma ArrayValueUsesFirst(name: string, first: string, more: seq<string>)
    ensures GetBearerFromHeaders(Some([Header(name, List([first] + more))]), name) == NormalizeBearer(Some(first))
  {
    var hs := [Header(name, List([first] + more))];
    assert FindHeader(hs, name) == Some(hs[0]);
    assert RawValue(hs[0].value) == Some(first);
  }
}
