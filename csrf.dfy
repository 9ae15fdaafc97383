/**
 * The double-submit CSRF check: a write must carry x-csrf-token equal to the SHA-256
 * hex digest of the request's bearer token. The library helper compares the decoded
 * hex bytes; the middleware compares the strings exactly. The digest is a parameter.
 */
module Csrf {
  import opened Wrappers
  import opened HttpErrors
  import Js
  import Token

  /** A byte value. */
  type Byte = x: int | 0 <= x < 256

  /* ---------- hex decoding and the timing-safe comparison ---------- */

  /** The value of a hexadecimal digit in either case. */
  function HexDigit(c: char): (r: Option<nat>)
    ensures r.Some? ==> r.value < 16
    ensures r.Some? <==> ('0' <= c <= '9' || 'a' <= c <= 'f' || 'A' <= c <= 'F')
  {
    if '0' <= c <= '9' then Some(c as int - '0' as int)
    else if 'a' <= c <= 'f' then Some(c as int - 'a' as int + 10)
    else if 'A' <= c <= 'F' then Some(c as int - 'A' as int + 10)
    else None
  }

  /**
   * `Buffer.from(s, 'hex')`: one byte per pair of digits, stopping at the first pair
   * that is not two hex digits; an odd last character is ignored.
   */
  function HexDecode(s: string): (r: seq<Byte>)
    ensures |r| <= |s| / 2
    decreases |s|
  {
    if |s| < 2 || HexDigit(s[0]).None? || HexDigit(s[1]).None? then []
    else [HexDigit(s[0]).value * 16 + HexDigit(s[1]).value] + HexDecode(s[2..])
  }

  /** Every character is a hex digit and the length is even. */
  predicate IsHex(s: string)
  {
    |s| % 2 == 0 && forall k :: 0 <= k < |s| ==> HexDigit(s[k]).Some?
  }

  /** A SHA-256 digest as `digest('hex')` writes it: 64 lower-case hex digits. */
  predicate IsDigestHex(s: string)
  {
    |s| == 64 && forall k :: 0 <= k < |s| ==> '0' <= s[k] <= '9' || 'a' <= s[k] <= 'f'
  }

  /** timingSafeEqualHex: equal lengths, equal decoded lengths, equal bytes. */
  predicate TimingSafeEqualHex(a: string, b: string)
  {
    |a| == |b| && |HexDecode(a)| == |HexDecode(b)| && HexDecode(a) == HexDecode(b)
  }

  /** A string decodes to one byte per digit pair exactly when it is hex of even length. */
  lemma {:induction false} FullDecodeIsHex(s: string)
    requires |s| % 2 == 0
    ensures |HexDecode(s)| == |s| / 2 <==> IsHex(s)
    decreases |s|
  {
    if |s| >= 2 {
      FullDecodeIsHex(s[2..]);
      if IsHex(s) {
        assert IsHex(s[2..]) by {
          forall k | 0 <= k < |s[2..]| ensures HexDigit(s[2..][k]).Some? {
            assert s[2..][k] == s[k + 2];
          }
        }
      } else if HexDigit(s[0]).Some? && HexDigit(s[1]).Some? {
        var k :| 0 <= k < |s| && HexDigit(s[k]).None?;
        assert s[2..][k - 2] == s[k];
      }
    }
  }

  /** Digits of equal value are the same character once lower-cased. */
  lemma SameDigitValue(c: char, d: char)
    requires HexDigit(c).Some? && HexDigit(c) == HexDigit(d)
    ensures Js.LowerChar(c) == Js.LowerChar(d)
  {
  }

  /** A byte has one pair of digits. */
  lemma DigitPair(x: nat, y: nat, u: nat, v: nat)
    requires x < 16 && y < 16 && u < 16 && v < 16 && x * 16 + y == u * 16 + v
    ensures x == u && y == v
  {
  }

  /** Two hex strings that decode to the same bytes agree up to letter case. */
  lemma {:induction false} DecodeInjective(a: string, b: string)
    requires IsHex(a) && IsHex(b) && HexDecode(a) == HexDecode(b)
    ensures Js.ToLower(a) == Js.ToLower(b)
    decreases |a|
  {
    FullDecodeIsHex(a);
    FullDecodeIsHex(b);
    assert |a| == |b|;
    if |a| >= 2 {
      var x, y := HexDigit(a[0]).value, HexDigit(a[1]).value;
      var u, v := HexDigit(b[0]).value, HexDigit(b[1]).value;
      assert HexDecode(a) == [x * 16 + y] + HexDecode(a[2..]);
      assert HexDecode(b) == [u * 16 + v] + HexDecode(b[2..]);
      assert HexDecode(a)[0] == HexDecode(b)[0] && HexDecode(a)[1..] == HexDecode(b)[1..];
      DigitPair(x, y, u, v);
      SameDigitValue(a[0], b[0]);
      SameDigitValue(a[1], b[1]);
      assert IsHex(a[2..]) by {
        forall k | 0 <= k < |a[2..]| ensures HexDigit(a[2..][k]).Some? {
          assert a[2..][k] == a[k + 2];
        }
      }
      assert IsHex(b[2..]) by {
        forall k | 0 <= k < |b[2..]| ensures HexDigit(b[2..][k]).Some? {
          assert b[2..][k] == b[k + 2];
        }
      }
      DecodeInjective(a[2..], b[2..]);
      assert Js.ToLower(a) == [Js.LowerChar(a[0]), Js.LowerChar(a[1])] + Js.ToLower(a[2..]);
      assert Js.ToLower(b) == [Js.LowerChar(b[0]), Js.LowerChar(b[1])] + Js.ToLower(b[2..]);
    }
  }

  /** Lower-casing a string does not change what it decodes to. */
  lemma {:induction false} DecodeIgnoresCase(s: string)
    ensures HexDecode(Js.ToLower(s)) == HexDecode(s)
    decreases |s|
  {
    var t := Js.ToLower(s);
    if |s| >= 2 {
      assert HexDigit(t[0]) == HexDigit(s[0]) && HexDigit(t[1]) == HexDigit(s[1]);
      assert t[2..] == Js.ToLower(s[2..]);
      DecodeIgnoresCase(s[2..]);
    }
  }

  /* ---------- lib/csrf.ts ---------- */

  /** makeCsrfToken: the digest of the bearer token. */
  function MakeCsrfToken(sha256Hex: string -> string, bearer: string): string
  {
    sha256Hex(bearer)
  }

  /**
   * verifyCsrfToken: an empty bearer and an empty or blank header are refused; otherwise
   * the trimmed header must hex-decode to the same bytes as the expected digest.
   */
  predicate VerifyCsrfToken(sha256Hex: string -> string, bearer: string, header: Option<string>)
  {
    bearer != ""
    && var got := Js.Trim(header.GetOr(""));
       got != "" && TimingSafeEqualHex(MakeCsrfToken(sha256Hex, bearer), got)
  }

  /** Never without a bearer token, and never without a non-blank header. */
  lemma VerifyRefusesEmpty(sha256Hex: string -> string, bearer: string, header: Option<string>)
    requires bearer == "" || header.None? || Js.Trim(header.value) == ""
    ensures !VerifyCsrfToken(sha256Hex, bearer, header)
  {
  }

  /**
   * With a genuine digest, the helper accepts exactly the headers whose trimmed text is
   * that digest up to letter case.
   */
  lemma VerifyAcceptsDigestAnyCase(sha256Hex: string -> string, bearer: string, header: Option<string>)
    requires bearer != "" && IsDigestHex(sha256Hex(bearer))
    ensures VerifyCsrfToken(sha256Hex, bearer, header) <==>
      header.Some? && Js.ToLower(Js.Trim(header.value)) == sha256Hex(bearer)
  {
    var e := sha256Hex(bearer);
    var got := Js.Trim(header.GetOr(""));
    assert IsHex(e);
    FullDecodeIsHex(e);
    assert Js.ToLower(e) == e;
    if VerifyCsrfToken(sha256Hex, bearer, header) {
      FullDecodeIsHex(got);
      DecodeInjective(e, got);
    }
    if header.Some? && Js.ToLower(got) == e {
      DecodeIgnoresCase(got);
      assert got != "";
    }
  }

  /** A header of a different length than the digest is refused. */
  lemma VerifyRefusesLengthMismatch(sha256Hex: string -> string, bearer: string, header: string)
    requires |Js.Trim(header)| != |sha256Hex(bearer)|
    ensures !VerifyCsrfToken(sha256Hex, bearer, Some(header))
  {
  }

  /* ---------- middleware/csrf.ts ---------- */

  /** The methods that are checked. */
  predicate RequiresCsrf(verb: string)
  {
    verb in {"POST", "PUT", "PATCH", "DELETE"}
  }

  /**
   * checkCsrf: skipped unless CSRF_ENABLED is exactly "1" and the verb writes; then a
   * missing or empty x-csrf-token, a missing bearer, or a token other than the digest of
   * the bearer is refused with 403.
   */
  function CheckCsrf(sha256Hex: string -> string, csrfEnabled: Option<string>, verb: string,
                     csrfHeader: Option<string>, authorization: Option<string>): (r: Result<(), HttpError>)
    ensures csrfEnabled != Some("1") || !RequiresCsrf(verb) ==> r == Ok(())
    ensures csrfEnabled == Some("1") && RequiresCsrf(verb) && csrfHeader.GetOr("") == "" ==>
      r == Err(Forbidden("CSRF token required"))
    ensures r.Err? ==> r.error.code == "FORBIDDEN"
    ensures r.Ok? && csrfEnabled == Some("1") && RequiresCsrf(verb) ==>
      var bearer := Token.NormalizeBearer(Some(authorization.GetOr("")));
      bearer != "" && csrfHeader == Some(sha256Hex(bearer))
  {
    if csrfEnabled != Some("1") || !RequiresCsrf(verb) then Ok(())
    else if csrfHeader.None? || csrfHeader.value == "" then Err(Forbidden("CSRF token required"))
    else
      var bearer := Token.NormalizeBearer(Some(authorization.GetOr("")));
      if bearer == "" then Err(Forbidden("CSRF check failed"))
      else if csrfHeader.value != sha256Hex(bearer) then Err(Forbidden("CSRF check failed"))
      else Ok(())
  }

  /** An enabled write with a token but no bearer fails the check. */
  lemma CheckRefusesMissingBearer(sha256Hex: string -> string, verb: string, token: string, authorization: Option<string>)
    requires RequiresCsrf(verb) && token != ""
    requires Token.NormalizeBearer(Some(authorization.GetOr(""))) == ""
    ensures CheckCsrf(sha256Hex, Some("1"), verb, Some(token), authorization) == Err(Forbidden("CSRF check failed"))
  {
  }

  /**
   * The middleware is the stricter of the two: whatever it lets through, the helper
   * accepts too, while the helper also accepts the digest in upper case.
   */
  lemma MiddlewareStricterThanHelper(sha256Hex: string -> string, verb: string, csrfHeader: Option<string>,
                                     authorization: Option<string>)
    requires RequiresCsrf(verb)
    requires forall t :: IsDigestHex(sha256Hex(t))
    requires CheckCsrf(sha256Hex, Some("1"), verb, csrfHeader, authorization).Ok?
    ensures VerifyCsrfToken(sha256Hex, Token.NormalizeBearer(Some(authorization.GetOr(""))), csrfHeader)
  {
    var bearer := Token.NormalizeBearer(Some(authorization.GetOr("")));
    var e := sha256Hex(bearer);
    assert IsDigestHex(e);
    assert e != [] && !Js.IsSpace(e[0]) && !Js.IsSpace(e[|e| - 1]);
    Js.TrimOfTrimmed(e);
    assert Js.ToLower(e) == e;
    VerifyAcceptsDigestAnyCase(sha256Hex, bearer, csrfHeader);
  }
}
