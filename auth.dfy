/**
 * Authentication: the JWT payload is validated into an AuthUser (id, role, username),
 * and the auth hook turns the bearer token into "no user" (missing or blank token),
 * a user, or a 401.
 */
module Auth {
  import opened Wrappers
  import opened JsonValue
  import opened HttpErrors
  import Js
  import Token

  /** The user roles, in the order the schema's role enum lists them. */
  datatype Role = Admin | Teacher | Student

  function RoleName(r: Role): string
  {
    match r
    case Admin => "admin"
    case Teacher => "teacher"
    case Student => "student"
  }

  /** isUserRole: only the three role names are roles. */
  function RoleOf(s: string): (r: Option<Role>)
    ensures r.Some? <==> s in {"admin", "teacher", "student"}
    ensures r.Some? ==> RoleName(r.value) == s
  {
    if s == "admin" then Some(Admin)
    else if s == "teacher" then Some(Teacher)
    else if s == "student" then Some(Student)
    else None
  }

  lemma RoleNameRoundTrip(r: Role)
    ensures RoleOf(RoleName(r)) == Some(r)
  {
  }

  /** The authenticated user; `id` is a finite JavaScript number. */
  datatype AuthUser = AuthUser(id: real, role: Role, username: string)

  /** The payload the login route signs for a user. */
  function PayloadOf(u: AuthUser): Json
  {
    Obj([Field("id", Num(Js.Finite(u.id))), Field("role", Str(RoleName(u.role))), Field("username", Str(u.username))])
  }

  /** A property of the payload when it is an object. */
  function Claim(payload: Json, key: string): Option<Json>
  {
    Get(payload, key)
  }

  predicate HasFiniteId(payload: Json)
  {
    var p := Claim(payload, "id");
    p.Some? && p.value.Num? && p.value.n.Finite?
  }

  predicate HasRole(payload: Json)
  {
    var p := Claim(payload, "role");
    p.Some? && p.value.Str? && RoleOf(p.value.s).Some?
  }

  predicate HasUsername(payload: Json)
  {
    var p := Claim(payload, "username");
    p.Some? && p.value.Str? && p.value.s != ""
  }

  /**
   * parseAuthPayload: an object with a finite numeric id, a role name and a non-empty
   * username gives the user made of exactly those three; anything else gives null.
   */
  function ParseAuthPayload(payload: Json): (r: Option<AuthUser>)
    ensures r.Some? <==> payload.Obj? && HasFiniteId(payload) && HasRole(payload) && HasUsername(payload)
    ensures r.Some? ==>
      Claim(payload, "id") == Some(Num(Js.Finite(r.value.id)))
      && Claim(payload, "role") == Some(Str(RoleName(r.value.role)))
      && Claim(payload, "username") == Some(Str(r.value.username))
  {
    if !Truthy(payload) || !IsObjectType(payload) then None
    else if !HasFiniteId(payload) || !HasRole(payload) || !HasUsername(payload) then None
    else
      Some(AuthUser(Claim(payload, "id").value.n.value,
                    RoleOf(Claim(payload, "role").value.s).value,
                    Claim(payload, "username").value.s))
  }

  /** The payload signed for a user with a non-empty username parses back to that user. */
  lemma PayloadRoundTrip(u: AuthUser)
    requires u.username != ""
    ensures ParseAuthPayload(PayloadOf(u)) == Some(u)
  {
    RoleNameRoundTrip(u.role);
    var fs := PayloadOf(u).fields;
    LookupFirst(fs, 0);
    LookupFirst(fs, 1);
    LookupFirst(fs, 2);
  }

  /** Parsing depends on the three claims only: payloads that agree on them parse alike. */
  lemma ParseSeesOnlyThreeClaims(p: Json, q: Json)
    requires p.Obj? && q.Obj?
    requires forall k :: k in {"id", "role", "username"} ==> Claim(p, k) == Claim(q, k)
    ensures ParseAuthPayload(p) == ParseAuthPayload(q)
  {
    assert Claim(p, "id") == Claim(q, "id");
    assert Claim(p, "role") == Claim(q, "role");
    assert Claim(p, "username") == Claim(q, "username");
  }

  /** The JWT plugin's verify: the payload, or Err when it throws. */
  type Verifier = string -> Result<Json, ()>

  /**
   * The auth hook: no bearer token, or one that normalises to "", means no user; a
   * verification that throws is 401 "Invalid token", and a payload that does not parse
   * is 401 "Invalid token payload".
   */
  function AuthGuard(bearer: Option<string>, verify: Verifier): (r: Result<Option<AuthUser>, HttpError>)
    ensures r == Ok(None) <==> Token.NormalizeBearer(bearer) == ""
    ensures r.Err? ==> r.error.code == "UNAUTHORIZED" && r.error.status == StatusNum(401)
    ensures r.Ok? && r.value.Some? ==>
      var raw := verify(Token.NormalizeBearer(bearer));
      raw.Ok? && ParseAuthPayload(raw.value) == r.value
    ensures Token.NormalizeBearer(bearer) != "" ==>
      (r.Err? <==> verify(Token.NormalizeBearer(bearer)).Err?
                   || ParseAuthPayload(verify(Token.NormalizeBearer(bearer)).value).None?)
  {
    if bearer.None? || bearer.value == "" then Ok(None)
    else
      var token := Token.NormalizeBearer(bearer);
      if token == "" then Ok(None)
      else
        var raw := verify(token);
        if raw.Err? then Err(Unauthorized("Invalid token"))
        else
          var user := ParseAuthPayload(raw.value);
          if user.None? then Err(Unauthorized("Invalid token payload")) else Ok(Some(user.value))
  }

  /** A token the verifier accepts with a user's payload authenticates exactly that user. */
  lemma SignedUserAuthenticates(bearer: Option<string>, verify: Verifier, u: AuthUser)
    requires Token.NormalizeBearer(bearer) != "" && u.username != ""
    requires verify(Token.NormalizeBearer(bearer)) == Ok(PayloadOf(u))
    ensures AuthGuard(bearer, verify) == Ok(Some(u))
  {
    PayloadRoundTrip(u);
  }

  /** The secret the JWT plugin is created with: the configured one, the environment's, or "test-secret". */
  function RuntimeJwtSecret(configured: string, envSecret: Option<string>): (r: string)
    ensures r != ""
    ensures configured != "" ==> r == configured
    ensures configured == "" && envSecret.Some? && envSecret.value != "" ==> r == envSecret.value
  {
    if configured != "" then configured
    else if envSecret.Some? && envSecret.value != "" then envSecret.value
    else "test-secret"
  }

  /** The expiry the JWT plugin is created with: the configured one, or "7d". */
  function RuntimeJwtExp(configured: string): (r: string)
    ensures r != "" && (configured != "" ==> r == configured)
  {
    if configured != "" then configured else "7d"
  }
}
