/**
 * The minimal HS256 JSON Web Token helper (RFC 7519 with the JWS compact form of
 * RFC 7515): a token is header.payload.signature, each part base64url without padding,
 * the signature an HMAC-SHA-256 over "header.payload". The HMAC, JSON text and UTF-8
 * conversions are parameters; the base64url coding is modelled in full.
 */
module Jwt {
  import opened Wrappers
  import opened JsonValue
  import opened HttpErrors
  import Js
  import Base64

  type Byte = Base64.Byte

  /** The primitives the helper takes from the runtime. */
  datatype Primitives = Primitives(
    hmacSha256: (string, string) -> seq<Byte>,   // (data, secret) to the 32-byte digest
    utf8: string -> seq<Byte>,                   // Buffer.from(s)
    fromUtf8: seq<Byte> -> string,               // buf.toString('utf8')
    stringify: Json -> string,                   // JSON.stringify
    parse: string -> Option<Json>)               // JSON.parse; None when it throws

  datatype SignOptions = SignOptions(
    issuer: Option<string>, audience: Option<string>,
    expiresInSec: Option<int>, notBeforeSec: Option<int>,
    subject: Option<string>, jwtId: Option<string>, now: Option<int>)

  datatype VerifyOptions = VerifyOptions(
    issuer: Option<string>, audience: Option<string>, now: Option<int>, clockSkewSec: Option<int>)

  const DEFAULT_CLOCK_SKEW: int := 5

  const HEADER: Json := Obj([Field("alg", Str("HS256")), Field("typ", Str("JWT"))])

  function JwtFail(code: string, message: string): Thrown
  {
    JwtErrorInstance(code, message)
  }

  /** b64urlEncodeJson: the URL-safe encoding of the value's JSON text. */
  function EncodeJson(p: Primitives, j: Json): string
  {
    Base64.Encode(true, p.utf8(p.stringify(j)))
  }

  /** The signature part for a signing input. */
  function Signature(p: Primitives, signingInput: string, secret: string): string
  {
    Base64.Encode(true, p.hmacSha256(signingInput, secret))
  }

  /** `claims.key = opts.x ?? payload.key` for a string option: only a given option changes the claims. */
  function WithOption(fs: seq<Field>, key: string, opt: Option<string>): seq<Field>
  {
    if opt.Some? then Assign(fs, key, Str(opt.value)) else fs
  }

  /** `claims.key = now + offset` when an offset is given. */
  function WithOffset(fs: seq<Field>, key: string, now: int, offset: Option<int>): seq<Field>
  {
    if offset.Some? then Assign(fs, key, Num(Js.Finite((now + offset.value) as real))) else fs
  }

  lemma OptionKeeps(fs: seq<Field>, key: string, opt: Option<string>, k: string)
    requires k != key
    ensures Lookup(WithOption(fs, key, opt), k) == Lookup(fs, k)
  {
  }

  /** The payload with the string options applied. */
  function OptionClaims(payload: seq<Field>, opts: SignOptions): seq<Field>
  {
    var c1 := WithOption(payload, "iss", opts.issuer);
    var c2 := WithOption(c1, "aud", opts.audience);
    var c3 := WithOption(c2, "sub", opts.subject);
    WithOption(c3, "jti", opts.jwtId)
  }

  /** `iat: payload.iat ?? now`. */
  function WithIssuedAt(fs: seq<Field>, payload: seq<Field>, now: int): seq<Field>
  {
    var iat := Lookup(payload, "iat");
    if iat.None? || iat.value.Null? then Assign(fs, "iat", Num(Js.Finite(now as real))) else fs
  }

  /** The claims signJwt signs, as they read back once turned into JSON text. */
  function SignedClaims(payload: seq<Field>, opts: SignOptions, now: int): seq<Field>
  {
    var c := WithIssuedAt(OptionClaims(payload, opts), payload, now);
    WithOffset(WithOffset(c, "nbf", now, opts.notBeforeSec), "exp", now, opts.expiresInSec)
  }

  /** signJwt: an empty secret throws; otherwise header.payload.signature. */
  function SignJwt(p: Primitives, payload: seq<Field>, secret: string, opts: SignOptions, clock: int): (r: Result<string, Thrown>)
    ensures secret == "" <==> r.Err?
    ensures r.Err? ==> r.error == ErrorInstance("Error", "JWT secret required", [])
    ensures r.Ok? ==> var input := EncodeJson(p, HEADER) + "." + EncodeJson(p, Obj(SignedClaims(payload, opts, opts.now.GetOr(clock))));
      r.value == input + "." + Signature(p, input, secret)
  {
    if secret == "" then Err(ErrorInstance("Error", "JWT secret required", []))
    else
      var now := opts.now.GetOr(clock);
      var claims := SignedClaims(payload, opts, now);
      var input := EncodeJson(p, HEADER) + "." + EncodeJson(p, Obj(claims));
      Ok(input + "." + Signature(p, input, secret))
  }

  /** The time checks: `now + skew < nbf` and `now - skew >= exp` against a JavaScript number. */
  predicate Below(x: int, n: Js.Num)
  {
    match n
    case Finite(v) => (x as real) < v
    case PosInf => true
    case _ => false
  }

  predicate AtLeast(x: int, n: Js.Num)
  {
    match n
    case Finite(v) => (x as real) >= v
    case NegInf => true
    case _ => false
  }

  /** `typeof claims.key === 'number' && test`. */
  predicate NumberClaim(claims: Json, key: string)
  {
    Get(claims, key).Some? && Get(claims, key).value.Num?
  }

  predicate NotYetActive(claims: Json, now: int, skew: int)
  {
    NumberClaim(claims, "nbf") && Below(now + skew, Get(claims, "nbf").value.n)
  }

  predicate Expired(claims: Json, now: int, skew: int)
  {
    NumberClaim(claims, "exp") && AtLeast(now - skew, Get(claims, "exp").value.n)
  }

  /** `opts.x && claims.x && claims.x !== opts.x`. */
  predicate Mismatch(opt: Option<string>, claim: Option<Json>)
  {
    opt.Some? && opt.value != "" && claim.Some? && Truthy(claim.value) && claim.value != Str(opt.value)
  }

  /** The three parts of a well-formed token. */
  predicate WellFormed(parts: seq<string>)
  {
    |parts| == 3 && parts[0] != "" && parts[1] != "" && parts[2] != ""
  }

  /** JSON.parse of a decoded part; an undecodable part reads as a failed parse. */
  function DecodeJson(p: Primitives, part: string): Option<Json>
  {
    var b := Base64.UrlDecode(part);
    if b.None? then None else p.parse(p.fromUtf8(b.value))
  }

  /**
   * What verifyJwt does once the signature matches: the decoded header and claims must
   * be truthy with alg HS256, then issuer, audience, not-before and expiry are checked.
   */
  function CheckDecoded(header: Option<Json>, claims: Option<Json>, opts: VerifyOptions, clock: int)
    : (r: Result<(Json, Json), Thrown>)
    ensures r.Err? ==> r.error.JwtErrorInstance?
    ensures r.Ok? ==>
      var now := opts.now.GetOr(clock);
      var skew := opts.clockSkewSec.GetOr(DEFAULT_CLOCK_SKEW);
      header == Some(r.value.0) && claims == Some(r.value.1)
      && Get(r.value.0, "alg") == Some(Str("HS256")) && Truthy(r.value.1)
      && !Mismatch(opts.issuer, Get(r.value.1, "iss")) && !Mismatch(opts.audience, Get(r.value.1, "aud"))
      && !NotYetActive(r.value.1, now, skew) && !Expired(r.value.1, now, skew)
    ensures header.Some? && claims.Some? && Truthy(header.value) && Truthy(claims.value)
            && Get(header.value, "alg") == Some(Str("HS256")) ==>
      var now := opts.now.GetOr(clock);
      var skew := opts.clockSkewSec.GetOr(DEFAULT_CLOCK_SKEW);
      (r.Ok? <==> !Mismatch(opts.issuer, Get(claims.value, "iss")) && !Mismatch(opts.audience, Get(claims.value, "aud"))
                  && !NotYetActive(claims.value, now, skew) && !Expired(claims.value, now, skew))
      && (NotYetActive(claims.value, now, skew) && r.Err? ==> r.error.jwtCode in {"JWT_CLAIMS_INVALID", "JWT_NOT_ACTIVE"})
  {
    if header.None? || claims.None? || !Truthy(header.value) || !Truthy(claims.value)
       || Get(header.value, "alg") != Some(Str("HS256"))
    then Err(JwtFail("JWT_MALFORMED", "Invalid token"))
    else
      var now := opts.now.GetOr(clock);
      var skew := opts.clockSkewSec.GetOr(DEFAULT_CLOCK_SKEW);
      if Mismatch(opts.issuer, Get(claims.value, "iss")) then Err(JwtFail("JWT_CLAIMS_INVALID", "Issuer mismatch"))
      else if Mismatch(opts.audience, Get(claims.value, "aud")) then Err(JwtFail("JWT_CLAIMS_INVALID", "Audience mismatch"))
      else if NotYetActive(claims.value, now, skew) then Err(JwtFail("JWT_NOT_ACTIVE", "Token not active"))
      else if Expired(claims.value, now, skew) then Err(JwtFail("JWT_EXPIRED", "Token expired"))
      else Ok((header.value, claims.value))
  }

  /**
   * verifyJwt: structure first, then the signature, and only then the decoded header
   * and claims.
   */
  function VerifyJwt(p: Primitives, token: string, secret: string, opts: VerifyOptions, clock: int)
    : (r: Result<(Json, Json), Thrown>)
    ensures token == "" ==> r == Err(JwtFail("JWT_MALFORMED", "Missing token"))
    ensures token != "" && !WellFormed(Js.Split(token, '.')) ==> r == Err(JwtFail("JWT_MALFORMED", "Malformed token"))
    ensures token != "" && WellFormed(Js.Split(token, '.')) ==>
      var parts := Js.Split(token, '.');
      r == if p.utf8(parts[2]) != p.utf8(Signature(p, parts[0] + "." + parts[1], secret))
           then Err(JwtFail("JWT_INVALID_SIGNATURE", "Invalid signature"))
           else CheckDecoded(DecodeJson(p, parts[0]), DecodeJson(p, parts[1]), opts, clock)
    ensures r.Err? ==> r.error.JwtErrorInstance?
  {
    if token == "" then Err(JwtFail("JWT_MALFORMED", "Missing token"))
    else
      var parts := Js.Split(token, '.');
      if !WellFormed(parts) then Err(JwtFail("JWT_MALFORMED", "Malformed token"))
      else
        var expected := Signature(p, parts[0] + "." + parts[1], secret);
        if p.utf8(parts[2]) != p.utf8(expected) then Err(JwtFail("JWT_INVALID_SIGNATURE", "Invalid signature"))
        else CheckDecoded(DecodeJson(p, parts[0]), DecodeJson(p, parts[1]), opts, clock)
  }

  /** The JSON text of a value reads back as the value, and is not empty. */
  predicate JsonRoundTrips(p: Primitives, j: Json)
  {
    p.utf8(p.stringify(j)) != []
    && p.fromUtf8(p.utf8(p.stringify(j))) == p.stringify(j)
    && p.parse(p.stringify(j)) == Some(j)
  }

  /** Signed claims only gain the keys the options set, and keep the payload's others. */
  lemma SignedClaimsLookup(payload: seq<Field>, opts: SignOptions, now: int, key: string)
    requires key !in {"iss", "aud", "sub", "jti", "iat", "nbf", "exp"}
    ensures Lookup(SignedClaims(payload, opts, now), key) == Lookup(payload, key)
  {
  }

  /** The nbf and exp claims of freshly signed claims whose payload sets neither. */
  lemma OptionClaimsKeep(payload: seq<Field>, opts: SignOptions, k: string)
    requires k !in {"iss", "aud", "sub", "jti"}
    ensures Lookup(OptionClaims(payload, opts), k) == Lookup(payload, k)
  {
    var c1 := WithOption(payload, "iss", opts.issuer);
    var c2 := WithOption(c1, "aud", opts.audience);
    var c3 := WithOption(c2, "sub", opts.subject);
    OptionKeeps(payload, "iss", opts.issuer, k);
    OptionKeeps(c1, "aud", opts.audience, k);
    OptionKeeps(c2, "sub", opts.subject, k);
    OptionKeeps(c3, "jti", opts.jwtId, k);
  }

  lemma IssuedAtKeeps(fs: seq<Field>, payload: seq<Field>, now: int, k: string)
    requires k != "iat"
    ensures Lookup(WithIssuedAt(fs, payload, now), k) == Lookup(fs, k)
  {
  }

  lemma OffsetSets(fs: seq<Field>, key: string, now: int, offset: Option<int>, k: string)
    ensures Lookup(WithOffset(fs, key, now, offset), k) ==
      if k == key && offset.Some? then Some(Num(Js.Finite((now + offset.value) as real))) else Lookup(fs, k)
  {
  }

  /** Below the two offset steps, neither time claim is set. */
  lemma EarlyClaimsLackTimes(payload: seq<Field>, opts: SignOptions, now: int)
    requires Lookup(payload, "nbf").None? && Lookup(payload, "exp").None?
    ensures var c := WithIssuedAt(OptionClaims(payload, opts), payload, now);
      Lookup(c, "nbf").None? && Lookup(c, "exp").None?
  {
    var c4 := OptionClaims(payload, opts);
    OptionClaimsKeep(payload, opts, "nbf");
    OptionClaimsKeep(payload, opts, "exp");
    IssuedAtKeeps(c4, payload, now, "nbf");
    IssuedAtKeeps(c4, payload, now, "exp");
  }

  /** A time claim's value for an offset. */
  function TimeClaim(now: int, offset: Option<int>): Option<Json>
  {
    if offset.Some? then Some(Num(Js.Finite((now + offset.value) as real))) else None
  }

  lemma OffsetsSetTimes(c: seq<Field>, now: int, nb: Option<int>, ex: Option<int>)
    requires Lookup(c, "nbf").None? && Lookup(c, "exp").None?
    ensures var r := WithOffset(WithOffset(c, "nbf", now, nb), "exp", now, ex);
      Lookup(r, "nbf") == TimeClaim(now, nb) && Lookup(r, "exp") == TimeClaim(now, ex)
  {
    var c6 := WithOffset(c, "nbf", now, nb);
    OffsetSets(c, "nbf", now, nb, "nbf");
    OffsetSets(c, "nbf", now, nb, "exp");
    OffsetSets(c6, "exp", now, ex, "nbf");
    OffsetSets(c6, "exp", now, ex, "exp");
  }

  lemma SignedTimes(payload: seq<Field>, opts: SignOptions, now: int)
    requires Lookup(payload, "nbf").None? && Lookup(payload, "exp").None?
    ensures var c := SignedClaims(payload, opts, now);
      Lookup(c, "nbf") == TimeClaim(now, opts.notBeforeSec) && Lookup(c, "exp") == TimeClaim(now, opts.expiresInSec)
  {
    EarlyClaimsLackTimes(payload, opts, now);
    OffsetsSetTimes(WithIssuedAt(OptionClaims(payload, opts), payload, now), now, opts.notBeforeSec, opts.expiresInSec);
  }

  /** The validity window of freshly signed claims whose payload sets neither nbf nor exp. */
  lemma SignedWindow(payload: seq<Field>, opts: SignOptions, now: int, t: int, skew: int)
    requires Lookup(payload, "nbf").None? && Lookup(payload, "exp").None?
    ensures var c := Obj(SignedClaims(payload, opts, now));
      (NotYetActive(c, t, skew) <==> opts.notBeforeSec.Some? && t + skew < now + opts.notBeforeSec.value)
      && (Expired(c, t, skew) <==> opts.expiresInSec.Some? && t - skew >= now + opts.expiresInSec.value)
  {
    SignedTimes(payload, opts, now);
    TimesWindow(SignedClaims(payload, opts, now), now, opts.notBeforeSec, opts.expiresInSec, t, skew);
  }

  /** Claims whose nbf and exp are the signing offsets fail the time checks exactly outside the window. */
  lemma TimesWindow(fields: seq<Field>, now: int, nb: Option<int>, ex: Option<int>, t: int, skew: int)
    requires Lookup(fields, "nbf") == TimeClaim(now, nb) && Lookup(fields, "exp") == TimeClaim(now, ex)
    ensures (NotYetActive(Obj(fields), t, skew) <==> nb.Some? && t + skew < now + nb.value)
    ensures (Expired(Obj(fields), t, skew) <==> ex.Some? && t - skew >= now + ex.value)
  {
  }

  /** A well-formed signing input and signature split back into their three parts. */
  lemma TokenParts(h: string, c: string, s: string)
    requires '.' !in h && '.' !in c && '.' !in s
    ensures Js.Split(h + "." + c + "." + s, '.') == [h, c, s]
  {
    Js.SplitNoSep(s, '.');
    Js.SplitAppend(c, s, '.');
    assert h + "." + c + "." + s == h + ['.'] + (c + ['.'] + s);
    Js.SplitAppend(h, c + ['.'] + s, '.');
  }

  /** What decoding a part the helper encoded gives back. */
  lemma DecodeEncoded(p: Primitives, j: Json)
    requires JsonRoundTrips(p, j)
    ensures EncodeJson(p, j) != "" && '.' !in EncodeJson(p, j)
    ensures DecodeJson(p, EncodeJson(p, j)) == Some(j)
  {
    Base64.UrlRoundTrip(p.utf8(p.stringify(j)));
  }

  /** The signed token reaches the claim checks with the header and claims it was made from. */
  lemma SignedTokenDecodes(p: Primitives, payload: seq<Field>, secret: string, sopts: SignOptions, clock: int,
                           vopts: VerifyOptions, verifyClock: int)
    requires secret != ""
    requires forall d, k :: p.hmacSha256(d, k) != []
    requires JsonRoundTrips(p, HEADER)
    requires JsonRoundTrips(p, Obj(SignedClaims(payload, sopts, sopts.now.GetOr(clock))))
    ensures SignJwt(p, payload, secret, sopts, clock).Ok?
    ensures VerifyJwt(p, SignJwt(p, payload, secret, sopts, clock).value, secret, vopts, verifyClock)
      == CheckDecoded(Some(HEADER), Some(Obj(SignedClaims(payload, sopts, sopts.now.GetOr(clock)))), vopts, verifyClock)
  {
    var claims := Obj(SignedClaims(payload, sopts, sopts.now.GetOr(clock)));
    var h := EncodeJson(p, HEADER);
    var c := EncodeJson(p, claims);
    var s := Signature(p, h + "." + c, secret);
    DecodeEncoded(p, HEADER);
    DecodeEncoded(p, claims);
    assert s != "" && '.' !in s;
    VerifyOwnSignature(p, h, c, secret, vopts, verifyClock);
  }

  /** A token made of two encoded parts and their own signature reaches the claim checks. */
  lemma VerifyOwnSignature(p: Primitives, h: string, c: string, secret: string, opts: VerifyOptions, clock: int)
    requires h != "" && c != "" && '.' !in h && '.' !in c
    requires Signature(p, h + "." + c, secret) != "" && '.' !in Signature(p, h + "." + c, secret)
    ensures VerifyJwt(p, h + "." + c + "." + Signature(p, h + "." + c, secret), secret, opts, clock)
      == CheckDecoded(DecodeJson(p, h), DecodeJson(p, c), opts, clock)
  {
    TokenParts(h, c, Signature(p, h + "." + c, secret));
  }

  /** The fixed header is an object naming HS256. */
  lemma HeaderShape()
    ensures Truthy(HEADER) && Get(HEADER, "alg") == Some(Str("HS256"))
  {
  }

  /** Freshly signed claims pass the claim checks inside their window. */
  lemma SignedClaimsPass(payload: seq<Field>, sopts: SignOptions, now: int, vopts: VerifyOptions, verifyClock: int)
    requires vopts.issuer == sopts.issuer && vopts.audience == sopts.audience
    requires Lookup(payload, "nbf").None? && Lookup(payload, "exp").None?
    requires var t := vopts.now.GetOr(verifyClock);
      var skew := vopts.clockSkewSec.GetOr(DEFAULT_CLOCK_SKEW);
      (sopts.notBeforeSec.Some? ==> t + skew >= now + sopts.notBeforeSec.value)
      && (sopts.expiresInSec.Some? ==> t - skew < now + sopts.expiresInSec.value)
    ensures var claims := Obj(SignedClaims(payload, sopts, now));
      CheckDecoded(Some(HEADER), Some(claims), vopts, verifyClock) == Ok((HEADER, claims))
  {
    var claims := Obj(SignedClaims(payload, sopts, now));
    var t := vopts.now.GetOr(verifyClock);
    var skew := vopts.clockSkewSec.GetOr(DEFAULT_CLOCK_SKEW);
    SignedWindow(payload, sopts, now, t, skew);
    SignedIdentity(payload, sopts, now);
    HeaderShape();
    assert Truthy(claims);
    assert !Mismatch(vopts.issuer, Get(claims, "iss"));
    assert !Mismatch(vopts.audience, Get(claims, "aud"));
    assert !NotYetActive(claims, t, skew) && !Expired(claims, t, skew);
  }

  /** An issuer or audience given when signing is the claim that is read back. */
  lemma SignedIdentity(payload: seq<Field>, opts: SignOptions, now: int)
    ensures opts.issuer.Some? ==> Lookup(SignedClaims(payload, opts, now), "iss") == Some(Str(opts.issuer.value))
    ensures opts.audience.Some? ==> Lookup(SignedClaims(payload, opts, now), "aud") == Some(Str(opts.audience.value))
  {
    var c1 := WithOption(payload, "iss", opts.issuer);
    var c2 := WithOption(c1, "aud", opts.audience);
    var c3 := WithOption(c2, "sub", opts.subject);
    var c4 := WithOption(c3, "jti", opts.jwtId);
    OptionKeeps(c1, "aud", opts.audience, "iss");
    OptionKeeps(c2, "sub", opts.subject, "iss");
    OptionKeeps(c3, "jti", opts.jwtId, "iss");
    OptionKeeps(c2, "sub", opts.subject, "aud");
    OptionKeeps(c3, "jti", opts.jwtId, "aud");
    var c5 := WithIssuedAt(c4, payload, now);
    IssuedAtKeeps(c4, payload, now, "iss");
    IssuedAtKeeps(c4, payload, now, "aud");
    var c6 := WithOffset(c5, "nbf", now, opts.notBeforeSec);
    OffsetSets(c5, "nbf", now, opts.notBeforeSec, "iss");
    OffsetSets(c5, "nbf", now, opts.notBeforeSec, "aud");
    OffsetSets(c6, "exp", now, opts.expiresInSec, "iss");
    OffsetSets(c6, "exp", now, opts.expiresInSec, "aud");
  }

  /**
   * Signing then verifying with the same secret, issuer and audience, at a time inside
   * the validity window, returns the header and the signed claims.
   */
  lemma SignThenVerify(p: Primitives, payload: seq<Field>, secret: string, sopts: SignOptions, clock: int,
                       vopts: VerifyOptions, verifyClock: int)
    requires secret != ""
    requires forall d, k :: p.hmacSha256(d, k) != []
    requires JsonRoundTrips(p, HEADER)
    requires JsonRoundTrips(p, Obj(SignedClaims(payload, sopts, sopts.now.GetOr(clock))))
    requires vopts.issuer == sopts.issuer && vopts.audience == sopts.audience
    requires Lookup(payload, "nbf").None? && Lookup(payload, "exp").None?
    requires var signedAt := sopts.now.GetOr(clock);
      var t := vopts.now.GetOr(verifyClock);
      var skew := vopts.clockSkewSec.GetOr(DEFAULT_CLOCK_SKEW);
      (sopts.notBeforeSec.Some? ==> t + skew >= signedAt + sopts.notBeforeSec.value)
      && (sopts.expiresInSec.Some? ==> t - skew < signedAt + sopts.expiresInSec.value)
    ensures SignJwt(p, payload, secret, sopts, clock).Ok?
    ensures VerifyJwt(p, SignJwt(p, payload, secret, sopts, clock).value, secret, vopts, verifyClock)
      == Ok((HEADER, Obj(SignedClaims(payload, sopts, sopts.now.GetOr(clock)))))
  {
    SignedTokenDecodes(p, payload, secret, sopts, clock, vopts, verifyClock);
    SignedClaimsPass(payload, sopts, sopts.now.GetOr(clock), vopts, verifyClock);
  }

  /** A token whose signature part is not the HMAC of its first two parts is refused as such. */
  lemma ForgedSignatureRefused(p: Primitives, h: string, c: string, s: string, secret: string,
                               opts: VerifyOptions, clock: int)
    requires h != "" && c != "" && s != "" && '.' !in h && '.' !in c && '.' !in s
    requires p.utf8(s) != p.utf8(Signature(p, h + "." + c, secret))
    ensures VerifyJwt(p, h + "." + c + "." + s, secret, opts, clock) == Err(JwtFail("JWT_INVALID_SIGNATURE", "Invalid signature"))
  {
    TokenParts(h, c, s);
  }
}
