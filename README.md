# Course platform workflow and governance, modelled in Dafny

This project models the server core of a course platform. The platform has these entities:
- classes, with their teachers and enrolled students;
- teams inside a class, with members and join requests;
- one project per team, which moves through five ordered stages once it is approved;
- assignments and versioned submissions, with grades;
- peer-review windows, reviews and adoption decisions;
- a case library, notifications and an append-only audit log.

Every route handler checks its guards and then updates rows. The model gives each handler two parts:
- a pure check function, which holds the guards in the handler's order and yields the handler's error or the row it goes on to write;
- a method on the store class `Store.Db`, which writes the rows and the audit entry.

Each method's contract says four things:
- it fails exactly when its check fails, and then with the same error;
- on failure nothing changes;
- on success the tables are exactly the old tables with the write applied;
- the audit log gains exactly the one row the handler writes, so the log only ever grows.

The SQLite triggers and partial unique indexes are modelled as statement functions in `Statements`. Each statement returns either the new table or the abort message, as the database would. The rules it covers:
- writes to an archived class or a locked team are blocked;
- a team, project or submission must carry the class of the rows it refers to;
- activating a project locks its team and creates its stages;
- passing a stage opens the next one;
- audit rows cannot be updated or deleted.

When several triggers fire on one statement, SQLite runs the most recently created one first. The statements therefore take the guards in the reverse of the order the schema creates them. The unique indexes are checked after the BEFORE triggers.

An abort reaches the client through the error hook's keyword classifier (`ErrorHandler`), as it does in the running server.

The libraries the routes rest on are modelled alongside them:
- HTTP errors and the abort-code mapper;
- the bounded error buffer;
- the rate limiter;
- bearer tokens, JWT and base64url;
- the scrypt hash format;
- CSRF;
- RBAC/ABAC and the authorize check;
- the configuration merge and cache;
- the stage-key table.

Each source file has its own module:

| module | source |
|---|---|
| `Stages` | server/src/lib/stages.ts |
| `Schema`, `Statements` | server/src/db/schema.ts (row types, unique indexes, trigger bodies) |
| `Store` | the database handle: `Db` holds the tables; `Journal` holds the audit log and notifications |
| `Helpers`, `Queries` | server/src/routes/_helpers.ts and the `WHERE ... ORDER BY` shapes the routes share |
| `Guards` | server/src/lib/guards.ts |
| `AccessControl`, `Access` | server/src/access-control.ts, server/src/middleware/access.ts |
| `Teams`, `Projects`, `StageRoutes`, `PeerReview`, `Submissions`, `Assignments`, `Grades`, `Classes`, `Cases`, `Users`, `Admin`, `Notifications` | server/src/routes/v1/*.ts |
| `HttpErrors`, `ErrorMapper`, `AbortCodes`, `ErrorHandler`, `ErrMonitor` | server/src/lib/http-error.ts, server/src/lib/error-mapper.ts, server/src/middleware/error-handler.ts, server/src/lib/err-monitor.ts |
| `RateLimit`, `Token`, `Auth`, `Jwt`, `Base64`, `Password`, `Csrf`, `Config` | the middleware and library files of the same names |
| `Js`, `JsonValue`, `Wrappers` | JavaScript string and number operations, JSON values, `Option`/`Result` |

## Model

| member | source | states |
|---|---|---|
| Token.NormalizeBearer | server/src/lib/token.ts:5-10 | absent or blank input gives ""; otherwise the trimmed input, minus a leading "bearer " in any case and trimmed again |
| Token.NormalizeIsTrimmed | server/src/lib/token.ts:5-10 | the normalised token is already trimmed, so normalising is idempotent on trimming |
| Token.PrefixedTokenRecovered | server/src/lib/token.ts:9 | a trimmed non-empty token behind "Bearer " in any letter case comes back unchanged |
| Token.BareTokenKept | server/src/lib/token.ts:9 | a trimmed token without the prefix is returned as it is |
| Token.FindHeader | server/src/lib/token.ts:20 | the result is the first header whose lower-cased name equals the lower-cased name asked for, and none when no header matches |
| Token.GetBearerFromHeaders | server/src/lib/token.ts:15-25 | the result is always trimmed; no headers, or no header of that name, give "" |
| Token.HeaderNameCaseIgnored | server/src/lib/token.ts:20 | the bearer read does not depend on the letter case of the header name asked for |
| Token.FindHeaderCaseIgnored | server/src/lib/token.ts:20 | two header names equal up to case find the same header |
| Token.ArrayValueUsesFirst | server/src/lib/token.ts:23 | for an array header value only its first element is normalised |
| Csrf.HexDigit | server/src/lib/crypto.ts:37-38 | a character has a hex value exactly when it is 0-9, a-f or A-F, and the value is below 16 |
| Csrf.HexDecode | server/src/lib/crypto.ts:37-38 | one byte per leading pair of hex digits, stopping at the first bad pair, so never more than half the length in bytes |
| Csrf.FullDecodeIsHex | server/src/lib/crypto.ts:37-39 | a string decodes to exactly half its length in bytes if and only if it is hex of even length |
| Csrf.SameDigitValue | server/src/lib/crypto.ts:37-38 | two digits of equal value are the same character once lower-cased |
| Csrf.DigitPair | server/src/lib/crypto.ts:37-38 | two digit pairs that make the same byte value are the same digits |
| Csrf.DecodeInjective | server/src/lib/crypto.ts:35-41 | two full hex strings that decode to the same bytes are equal up to letter case |
| Csrf.DecodeIgnoresCase | server/src/lib/crypto.ts:37-38 | lower-casing a string does not change its decoded bytes |
| Csrf.VerifyRefusesEmpty | server/src/lib/csrf.ts:12-19 | verification fails without a bearer token and without a non-blank header |
| Csrf.VerifyAcceptsDigestAnyCase | server/src/lib/csrf.ts:12-19 | given a lower-case hex digest, the helper accepts exactly the headers whose trimmed text equals the digest up to case |
| Csrf.VerifyRefusesLengthMismatch | server/src/lib/crypto.ts:36 | a trimmed header of another length than the digest is refused |
| Csrf.CheckCsrf | server/src/middleware/csrf.ts:10-21 | skipped unless CSRF_ENABLED is exactly "1" and the method writes; then a missing token is 403 "CSRF token required", and a missing bearer or a token other than sha256(bearer) is 403 "CSRF check failed" |
| Csrf.CheckRefusesMissingBearer | server/src/middleware/csrf.ts:16-18 | an enabled write with a token but no bearer fails |
| Csrf.MiddlewareStricterThanHelper | server/src/middleware/csrf.ts:20 | whatever the middleware lets through the helper accepts too, and the helper also accepts an upper-case digest the middleware refuses |
| Guards.AssertClassWritable | server/src/lib/guards.ts:13-18 | a missing class is 404 "Class not found."; a status equal to "archived" in any case is 403; anything else passes |
| Guards.AssertTeamNotLocked | server/src/lib/guards.ts:20-25 | a missing team is 404; the lock flag or a status "locked" in any case is 403 "Team is locked."; else it passes |
| Guards.AssertArchivedDownloadAllowed | server/src/lib/guards.ts:27-33 | a missing class is 404; a class not archived passes; an archived one is refused only when the flag is exactly false |
| Guards.WritableClassAllowsDownload | server/src/lib/guards.ts:13-33 | a class that passes the writable check also passes the download check |
| Guards.AssertId | server/src/lib/guards.ts:35-39 | a non-finite or non-positive number is 400 "Invalid <name>." and nothing else is; an accepted number n gives the natural r with r <= n < r + 1 |
| Guards.FractionFloorsToZero | server/src/lib/guards.ts:37-38 | a fraction strictly between 0 and 1 is accepted and floored to 0 |
| Guards.OtherIdsRejected | server/src/lib/guards.ts:36-37 | a value that is neither a number nor a string is always 400 |
| Guards.DecimalIdAccepted | server/src/lib/guards.ts:36-38 | a decimal string of a positive natural is accepted as that natural |
| Access.Authorize | server/src/middleware/access.ts:27-36 | no user is 401 "Login required"; a role the role table refuses is 403 "Insufficient permissions"; a refusing rule is 403 "Access denied"; otherwise it passes |
| Access.RbacDenialIgnoresRules | server/src/middleware/access.ts:30-34 | a role-table denial is the same whatever the rules |
| Access.RulesOnlyNarrow | server/src/middleware/access.ts:30-35 | whatever passes under some rules also passes with no rules |
| Access.StudentNeverManagesAdmin | server/src/middleware/access.ts:30-31 | a student is never authorized to manage the admin resource, whatever the rules |
| RateLimit.KeyFromRequest | server/src/middleware/rate-limit.ts:15-19 | the key is the first comma-separated x-forwarded-for entry, trimmed, or "local" when that is empty or absent |
| RateLimit.FirstForwardedEntryIsKey | server/src/middleware/rate-limit.ts:16-18 | a non-blank trimmed address before the first comma is the key |
| RateLimit.EmptyFirstEntryIsLocal | server/src/middleware/rate-limit.ts:18 | a header whose first entry is blank gives "local" |
| RateLimit.MissingHeaderIsLocal | server/src/middleware/rate-limit.ts:16-18 | without the header the key is "local" |
| RateLimit.NoForwardedForIsLocal | server/src/middleware/rate-limit.ts:16-18 | a missing header and a header ", 10.0.0.1" with a blank first entry both give "local" |
| RateLimit.RateSetting | server/src/middleware/rate-limit.ts:8-13 | a set variable is converted as it is, even when empty or not a number; an unset one gives way to the configured value, and an absent or null configured value to the built-in default; the result may be NaN or infinite |
| RateLimit.NothingSetGivesDefaults | server/src/middleware/rate-limit.ts:10-11 | with nothing set the window is 60000 ms and the limit 120 |
| RateLimit.VariableWinsUnchecked | server/src/middleware/rate-limit.ts:10-11 | an empty variable gives 0 and a variable that is not a number gives NaN, whatever the configuration holds |
| RateLimit.Decide | server/src/middleware/rate-limit.ts:25-35 | a missing or expired bucket restarts with count 1 and a reset time of now + window and admits; otherwise the count goes up by one and the request is admitted exactly when the new count does not exceed the limit; a window end of NaN or +Infinity never expires, a limit of NaN or +Infinity never refuses, and under a finite limit an admitted count is at most max(limit, 1) |
| RateLimit.RunInsideWindow | server/src/middleware/rate-limit.ts:26-35 | a run of requests none of which finds the window ended adds every request to the count, and admits at most the limit minus the count already there |
| RateLimit.WindowAdmitsAtMost | server/src/middleware/rate-limit.ts:26-35 | the request that opens a window is admitted, and it and the later ones inside that window number at most max(limit, 1) admitted |
| RateLimit.NaNWindowLocksOut | server/src/middleware/rate-limit.ts:26-34 | with a NaN window the bucket's end is NaN and never expires, so once a key has opened its window at most max(limit, 1) of its requests are ever admitted, however far apart they come |
| RateLimit.NaNLimitAdmitsAll | server/src/middleware/rate-limit.ts:31-34 | with a NaN limit every request is admitted |
| RateLimit.RateLimiter.constructor | server/src/middleware/rate-limit.ts:6 | the limiter starts with no buckets |
| RateLimit.RateLimiter.OnRequest | server/src/middleware/rate-limit.ts:22-35 | the key's bucket becomes the one Decide computes from the window and limit settings read for that request, a refusal is 429 "Rate limit exceeded", and no other key's bucket changes |
| HttpErrors.Unauthorized | server/src/lib/http-error.ts:54-55 | status 401, code UNAUTHORIZED, the given message, no details |
| HttpErrors.Forbidden | server/src/lib/http-error.ts:56-57 | status 403, code FORBIDDEN, the given message, no details |
| HttpErrors.BadRequest | server/src/lib/http-error.ts:58-59 | status 400, code BAD_REQUEST, the given message, no details |
| HttpErrors.NotFound | server/src/lib/http-error.ts:60-61 | status 404, code NOT_FOUND, the given message, no details |
| HttpErrors.Conflict | server/src/lib/http-error.ts:62-63 | status 409, code CONFLICT, the given message, no details |
| HttpErrors.TooManyRequests | server/src/lib/http-error.ts:64-65 | status 429, code TOO_MANY_REQUESTS, the given message, no details |
| HttpErrors.Internal | server/src/lib/http-error.ts:66-67 | status 500, code INTERNAL, the given message, no details |
| HttpErrors.ConstructorsCanonical | server/src/lib/http-error.ts:53-68 | every helper builds an error whose status is the one its code stands for |
| HttpErrors.ToHttpError | server/src/lib/http-error.ts:39-47 | an HttpError instance comes back as it is; anything that is not HttpError-shaped becomes 500 INTERNAL, and a thrown non-Error carries the fallback message and the value as details |
| HttpErrors.DuckTypedKeepsStatusAndCode | server/src/lib/http-error.ts:41-44 | a duck-typed HttpError is rewrapped with the status, code and details it carries |
| HttpErrors.ToHttpErrorIdempotent | server/src/lib/http-error.ts:39-47 | converting an already converted error changes nothing |
| HttpErrors.Serialize | server/src/lib/http-error.ts:49-51 | the client's record holds the error's status, code, message and details |
| HttpErrors.SerializeRoundTrip | server/src/lib/http-error.ts:49-51 | the serialized record determines the error: rebuilding it gives the same error back |
| ErrorMapper.FirstMatch | server/src/lib/error-mapper.ts:30-58 | none exactly when no rule's code occurs in the message; otherwise the result of one of the rules |
| ErrorMapper.MapSqliteAbort | server/src/lib/error-mapper.ts:30-58 | no message or an empty one gives null; a result is always a canonical 403 or 400; the archived-class code wins over everything; null otherwise means no code of the table occurs |
| ErrorMapper.FirstMatchOfFive | server/src/lib/error-mapper.ts:30-58 | walking a five-rule table is the if-chain that tests the rules in order |
| ErrorMapper.MapSqliteAbortIsFirstMatch | server/src/lib/error-mapper.ts:30-58 | for every non-empty message the mapper answers what the first matching rule of its table answers |
| ErrorMapper.MapJwtError | server/src/lib/error-mapper.ts:60-66 | a result exactly for a JwtError, and it is always 401 UNAUTHORIZED |
| ErrorMapper.ToDomainHttpError | server/src/lib/error-mapper.ts:71-82 | HttpErrors pass through, duck-typed ones are rewrapped, then a mapped trigger abort, then a JWT failure as 401, and anything else is 500 INTERNAL |
| ErrorMapper.UnknownAbortBecomesInternal | server/src/lib/error-mapper.ts:75-82 | a non-empty abort message with none of the table's codes becomes 500 INTERNAL carrying that message |
| ErrorMapper.ToErrorEnvelope | server/src/lib/error-mapper.ts:20-22 | the envelope carries the error's code, message and details |
| ErrorMapper.EnvelopeDeterminesError | server/src/lib/error-mapper.ts:20-22 | the envelope together with the status determines the error |
| AbortCodes.ArchivedBeatsLocked | server/src/lib/error-mapper.ts:35-42 | a message holding both the archived and the locked code maps to the archived error: the order of the tests decides |
| AbortCodes.ArchivedCodeMapped | server/src/lib/error-mapper.ts:35-37 | CLASS_ARCHIVED_READONLY maps to 403 "Class is archived (read-only)." |
| AbortCodes.LockedCodeMapped | server/src/lib/error-mapper.ts:40-42 | TEAM_LOCKED maps to 403 "Team is locked." |
| AbortCodes.AuditCodeMapped | server/src/lib/error-mapper.ts:53-55 | AUDIT_LOG_IMMUTABLE maps to 403 "Audit logs are immutable.", although it is tested last |
| AbortCodes.MemberMismatchCodeMapped | server/src/lib/error-mapper.ts:45-47 | TEAM_MEMBER_CLASS_MISMATCH maps to 400 "Class/team mismatch." |
| AbortCodes.JoinMismatchCodeMapped | server/src/lib/error-mapper.ts:45-47 | TEAM_JOIN_REQ_CLASS_MISMATCH maps to the same 400 "Class/team mismatch." |
| AbortCodes.ProjectMismatchCodeMapped | server/src/lib/error-mapper.ts:48-50 | PROJECT_CLASS_MISMATCH maps to 400 "Project/team class mismatch." |
| AbortCodes.SubmissionAssignmentCodeInternal | server/src/db/schema.ts:1477 | SUBMISSION_CLASS_ASSIGNMENT_MISMATCH is in no rule of the mapper, so it becomes 500 INTERNAL with the raw code |
| AbortCodes.SubmissionProjectCodeInternal | server/src/db/schema.ts:1483 | SUBMISSION_CLASS_PROJECT_MISMATCH, although it ends in PROJECT_MISMATCH, matches no rule and becomes 500 INTERNAL with the raw code |
| AbortCodes.SubmissionStageCodeInternal | server/src/db/schema.ts:1489 | SUBMISSION_STAGE_PROJECT_MISMATCH becomes 500 INTERNAL with the raw code |
| AbortCodes.TeamAssignmentCodeInternal | server/src/db/schema.ts:1495 | TEAM_ASSIGNMENT_REQUIRES_TEAM becomes 500 INTERNAL with the raw code |
| AbortCodes.IndividualAssignmentCodeInternal | server/src/db/schema.ts:1501 | INDIVIDUAL_ASSIGNMENT_FORBIDS_TEAM becomes 500 INTERNAL with the raw code |
| ErrorHandler.Classify | server/src/middleware/error-handler.ts:69-75 | lower-cased "write blocked"/"locked" is 403, else "not found" 404, else "bad request"/"invalid" 400, each keeping the message (both directions); otherwise 500 INTERNAL with the generic message |
| ErrorHandler.ClassifyInternalWhen | server/src/middleware/error-handler.ts:69-75 | a message without k, f, q and without "va" in any case matches no keyword and is a generic 500 |
| ErrorHandler.ClassifyIdempotent | server/src/middleware/error-handler.ts:69-75 | classifying the message of a classification gives the same error again |
| ErrorHandler.Handle | server/src/middleware/error-handler.ts:12-66 | an HttpError is answered as it is; a validation failure as 400 "Validation Error" with its details; anything else as the classification of its message, or of the generic message when it has none |
| ErrorHandler.UnknownErrorsNeverLeak | server/src/middleware/error-handler.ts:51-66 | an unknown thrown value is answered with one of four canonical errors without details; a 500 always carries the generic message, and any other answer carries the thrown message |
| ErrorHandler.ArchivedAbortAnsweredAsInternal | server/src/middleware/error-handler.ts:51-54 | the archived-class abort, which the mapper would turn into 403, reaches the client as a generic 500 because this hook does not call the mapper |
| ErrorHandler.LockedAbortAnsweredAsForbidden | server/src/middleware/error-handler.ts:71 | the locked-team abort contains "locked" and is answered with 403 carrying the raw code |
| ErrorHandler.OnError | server/src/middleware/error-handler.ts:9-67 | the response status and envelope come from the handled error, and exactly one entry with the same status, code, message and details is recorded in the monitor |
| ErrMonitor.Newest | server/src/lib/err-monitor.ts:21 | the last n entries of a buffer, in their order (all of them when there are fewer) |
| ErrMonitor.ErrorMonitor.constructor | server/src/lib/err-monitor.ts:14-15 | the buffer starts empty with room for 100 entries |
| ErrMonitor.ErrorMonitor.SetErrorBufferLimit | server/src/lib/err-monitor.ts:17-22 | a non-finite or non-positive limit changes nothing; otherwise the limit becomes its floor and only the newest that many entries are kept |
| ErrMonitor.ErrorMonitor.RecordError | server/src/lib/err-monitor.ts:24-27 | the entry is appended and the buffer keeps only the newest MAX entries |
| ErrMonitor.ErrorMonitor.RecordUnknownError | server/src/lib/err-monitor.ts:29-45 | the value is converted by toHttpError, one entry with its status, code and message is recorded under the caller's context or else the error's details, and the converted error is returned |
| ErrMonitor.ErrorMonitor.GetRecentErrors | server/src/lib/err-monitor.ts:47-49 | at most max(0, limit) entries, newest first: entry i is the i-th from the end of the buffer |
| ErrMonitor.ErrorMonitor.GetRecentHttpErrors | server/src/lib/err-monitor.ts:51-55 | one serialized error per recent entry, with that entry's status, code, message and context as details |
| ErrMonitor.ErrorMonitor.ClearErrors | server/src/lib/err-monitor.ts:57-59 | the buffer is emptied and the limit kept |
| ErrMonitor.RecordKeepsBound | server/src/lib/err-monitor.ts:24-27 | a record never lets the buffer grow past MAX and, when MAX is positive, the new entry is the last one |
| ErrMonitor.RecordIntoFullDropsOldest | server/src/lib/err-monitor.ts:26 | recording into a full buffer drops exactly the oldest entry and keeps the order of the rest |
| ErrMonitor.RecordWithRoomKeepsAll | server/src/lib/err-monitor.ts:25 | recording into a buffer with room drops nothing |
| Stages.ParseStageStatus | server/src/lib/stages.ts:23 | exactly "locked", "open" and "passed" are statuses, and a status read back prints as the same text |
| Stages.StatusNameRoundTrip | server/src/lib/stages.ts:23 | every status prints as a text that reads back as that status |
| Stages.IsStageKeyExactly | server/src/lib/stages.ts:26-28 | a value is a stage key if and only if it is one of the five key strings |
| Stages.IndexOf | server/src/lib/stages.ts:31 | the position of a key is below five and holds that key |
| Stages.StageOrder | server/src/lib/stages.ts:15-21 | every key's order lies in 1..5 |
| Stages.StageOrderBijection | server/src/lib/stages.ts:5-21 | the order is a bijection from the keys onto 1..5 that agrees with the listed order of the keys |
| Stages.NextStageKey | server/src/lib/stages.ts:30-33 | null exactly for acceptance; otherwise the key one order later |
| Stages.PrevStageKey | server/src/lib/stages.ts:35-38 | null exactly for requirements; otherwise the key one order earlier |
| Stages.NextPrevInverse | server/src/lib/stages.ts:30-38 | next and previous undo each other wherever they are defined |
| Stages.RollbackStatus | server/src/routes/v1/stages.ts:139 | a stage before the target becomes passed, the target open and every later stage locked (each if and only if) |
| Stages.RollbackIsFrontier | server/src/routes/v1/stages.ts:138-143 | after a rollback to order K the vector is passed for the first K-1 stages, open at K, locked after |
| Stages.RollbackIdempotent | server/src/routes/v1/stages.ts:138-143 | rolling back twice to the same stage is rolling back once |
| Stages.PassEffect | server/src/db/schema.ts:1558-1572 | passing a stage marks it passed, opens the next stage only when it was locked, and changes no other stage |
| Stages.PassAdvancesFrontier | server/src/db/schema.ts:1558-1572 | from passed^k open locked^m only stage k is open, and passing it (the trigger opening the next locked stage) gives passed^(k+1) open locked^(m-1), or all passed |
| Stages.InitialStatuses | server/src/db/schema.ts:1525-1553 | activation creates five stages with requirements open and the rest locked |
| Auth.RoleOf | server/src/middleware/auth.ts:47-48 | exactly "admin", "teacher" and "student" are roles, and a role read back prints as the same text |
| Auth.RoleNameRoundTrip | server/src/middleware/auth.ts:47-48 | every role's name reads back as that role |
| Auth.ParseAuthPayload | server/src/middleware/auth.ts:51-60 | a user exactly for an object with a finite numeric id, a role name and a non-empty username, and the user is made of exactly those claims |
| Auth.PayloadRoundTrip | server/src/middleware/auth.ts:51-60 | the payload signed for a user with a non-empty username parses back to that user |
| Auth.ParseSeesOnlyThreeClaims | server/src/middleware/auth.ts:51-60 | payloads that agree on id, role and username parse alike, whatever other claims they carry |
| Auth.AuthGuard | server/src/middleware/auth.ts:76-91 | no user exactly when the normalised bearer is empty; every error is 401; an error exactly when verification throws or the payload does not parse; a user found is the parse of the verified payload |
| Auth.SignedUserAuthenticates | server/src/middleware/auth.ts:76-91 | a token the verifier accepts with a user's payload authenticates exactly that user |
| Auth.RuntimeJwtSecret | server/src/middleware/auth.ts:29-32 | never empty: the configured secret, else a non-empty environment secret, else a fallback |
| Auth.RuntimeJwtExp | server/src/middleware/auth.ts:34-37 | never empty: the configured expiry when there is one |
| Jwt.SignJwt | server/src/lib/jwt.ts:73-94 | an empty secret throws "JWT secret required" and nothing else does; the token is the encoded header, the encoded signed claims and the signature of those two joined by dots |
| Jwt.CheckDecoded | server/src/lib/jwt.ts:136-157 | every failure is a JwtError; a success returns the decoded header and claims with alg HS256, matching issuer and audience, active and unexpired within the skew; for a well-formed header and claims it succeeds if and only if those four checks pass |
| Jwt.VerifyJwt | server/src/lib/jwt.ts:115-158 | an empty token is "Missing token", a token not of three non-empty dot-separated parts is "Malformed token", a signature other than the HMAC of the first two parts is "Invalid signature", and only then are header and claims checked; every failure is a JwtError |
| Jwt.SignedClaimsLookup | server/src/lib/jwt.ts:78-87 | signing keeps every payload claim other than the seven registered ones unchanged |
| Jwt.OptionClaimsKeep | server/src/lib/jwt.ts:78-84 | the issuer, audience, subject and id options touch no other claim |
| Jwt.SignedTimes | server/src/lib/jwt.ts:86-87 | for a payload without nbf and exp, the signed claims carry now plus each offset that was given, and no such claim otherwise |
| Jwt.SignedWindow | server/src/lib/jwt.ts:86-87 | such claims are not yet active exactly before now plus notBefore less the skew, and expired exactly from now plus expiresIn plus the skew |
| Jwt.TimesWindow | server/src/lib/jwt.ts:150-155 | claims whose nbf and exp are offsets from a signing time fail the time checks exactly outside that window |
| Jwt.TokenParts | server/src/lib/jwt.ts:121-125 | three dot-free parts joined by dots split back into those three parts |
| Jwt.DecodeEncoded | server/src/lib/jwt.ts:51-67 | a JSON value that survives the encoding encodes to a non-empty dot-free part that decodes back to it |
| Jwt.SignedTokenDecodes | server/src/lib/jwt.ts:73-138 | a token signed with a non-empty secret passes the signature check under that secret and reaches the claim checks with the header and claims it was made from |
| Jwt.VerifyOwnSignature | server/src/lib/jwt.ts:126-137 | two parts followed by their own signature always pass the signature check |
| Jwt.HeaderShape | server/src/lib/jwt.ts:77 | the fixed header is an object naming HS256 |
| Jwt.SignedClaimsPass | server/src/lib/jwt.ts:143-157 | freshly signed claims checked with the same issuer and audience inside their validity window pass |
| Jwt.SignedIdentity | server/src/lib/jwt.ts:80-81 | an issuer or audience given when signing is the claim read back |
| Jwt.SignThenVerify | server/src/lib/jwt.ts:73-158 | signing and then verifying with the same secret, issuer and audience, at a time inside the window, returns the header and exactly the signed claims |
| Jwt.ForgedSignatureRefused | server/src/lib/jwt.ts:128-134 | a token whose third part is not the HMAC of its first two is refused with JWT_INVALID_SIGNATURE |
| Password.Merge | server/src/lib/password.ts:42 | an empty patch gives the default parameters |
| Password.HashPassword | server/src/lib/password.ts:40-46 | an empty password throws "password must be non-empty"; a result is the six-field text built from the merged parameters, a fresh salt of saltLen bytes and the scrypt key |
| Password.ParseStored | server/src/lib/password.ts:50-64 | text passes the checks before scrypt only when it is non-empty, splits into six non-empty fields and starts with "scrypt" |
| Password.MalformedNeverVerifies | server/src/lib/password.ts:58-59 | text that is not six non-empty fields starting with "scrypt" never verifies any password |
| Password.FormatFields | server/src/lib/password.ts:45 | the stored text splits back into exactly the six fields it was made of |
| Password.VerifyFromFields | server/src/lib/password.ts:48-75 | stored text whose fields are those of a hash verifies a password whose scrypt key under the stored salt and cost is the stored key |
| Password.ParseOfFields | server/src/lib/password.ts:51-64 | the cost numbers and the Base64 salt and key read back from a stored hash are those it was made of |
| Password.RehashFromFields | server/src/lib/password.ts:85-98 | for stored text in hash form a rehash is needed exactly when N, r or p differ from the target's |
| Password.HashIsRecognised | server/src/lib/password.ts:77-79 | every hashPassword output is recognised as a hash |
| Password.HashThenVerify | server/src/lib/password.ts:40-75 | a password verifies against the hash made from it, given a non-empty salt and a key of the requested non-zero length |
| Password.RehashIffCostChanged | server/src/lib/password.ts:85-98 | a hash made with some parameters needs a rehash exactly when the target's N, r or p differ |
| Password.DefaultHashNeedsNoRehash | server/src/lib/password.ts:85-98 | a hash made with the defaults needs no rehash against the defaults |
| Config.Entries | server/src/config/index.ts:79 | the entries of an object are its fields in order, and every entry is smaller than the value it comes from |
| Config.DeepMerge | server/src/config/index.ts:76-87 | a falsy or non-object patch leaves the base as it is; an object patch always gives an object |
| Config.DeepMergeLookup | server/src/config/index.ts:76-87 | key by key: a key the patch lacks keeps the base's value, a key it holds gets the patch value, or the merge of both where both are objects |
| Config.MergedValueCases | server/src/config/index.ts:80-84 | a scalar or array value, or an object over a non-object, replaces; an object over an object is merged recursively |
| Config.MergeEntriesDistinct | server/src/config/index.ts:78-85 | writing the patch entries into an object with distinct keys keeps the keys distinct |
| Config.DeepMergeDistinct | server/src/config/index.ts:76-87 | merging into an object with distinct keys gives an object with distinct keys |
| Config.AsBool | server/src/config/index.ts:89-95 | true exactly for trimmed, lower-cased 1/true/yes/y/on, false exactly for 0/false/no/n/off, and undefined for anything else or no value |
| Config.AsNumber | server/src/config/index.ts:97-101 | a number exactly when the variable is set and Number() of it is finite, and then that number |
| Config.AsNumberOfDigits | server/src/config/index.ts:97-101 | a decimal variable always reads as its value |
| Config.SetPath | server/src/config/index.ts:125-152 | an assignment through a path either throws or leaves an object |
| Config.SetThenGet | server/src/config/index.ts:125-152 | after an assignment the path holds the value assigned |
| Config.SetKeepsOthers | server/src/config/index.ts:125-152 | an assignment changes no path that parts from its own, and keeps objects along such paths |
| Config.OverrideValue | server/src/config/index.ts:124-152 | an unset variable sets nothing |
| Config.ApplyFromEffect | server/src/config/index.ts:123-155 | with pairwise parting paths and objects along them, every override path ends up holding its variable's value when the variable is set and parses, and what it held before otherwise |
| Config.ApplyFromUntouched | server/src/config/index.ts:123-155 | overrides later in the list never touch an earlier override's path |
| Config.NoOverridesKeepConfig | server/src/config/index.ts:123-155 | with none of the variables set, applyEnvOverrides returns the configuration unchanged |
| Config.DefaultsHoldOverridePaths | server/src/config/index.ts:36-64 | the defaults hold an object at every step of every override path |
| Config.OverridesOverDefaults | server/src/config/index.ts:123-155 | over the defaults, every override path holds the variable's parsed value when it is set, and the default otherwise |
| Config.OverrideVariablesSigned | server/src/config/index.ts:171-183 | every variable an override reads is part of the cache signature |
| Config.EmptyEnvironmentBuilds | server/src/config/index.ts:187-190 | with no variables set a miss builds the normalised merge of the defaults and the files |
| Config.EmptyEnvironmentKeeps | server/src/config/index.ts:123-155 | an empty environment changes nothing |
| Config.CorsOverrideThrows | server/src/config/index.ts:127-128 | setting CORS_ORIGIN_REGEX throws when `server` holds something other than an object |
| Config.StringServerSurvives | server/src/config/index.ts:157-160 | normalisation keeps a string a file placed at `server` |
| Config.FailedRefreshInputs | server/src/config/index.ts:185-191 | a file with a string `server` builds under an empty environment and throws once CORS_ORIGIN_REGEX is set, and the two environments have different signatures |
| Config.ConfigCache.constructor | server/src/config/index.ts:162-163 | the cache starts empty with an empty signature |
| Config.ConfigCache.GetConfigAsWritten | server/src/config/index.ts:170-192 | a hit returns the cached value and changes nothing; a miss records the new signature before the overrides run, and caches the build only when it succeeds |
| Config.ConfigCache.RefreshAsWritten | server/src/config/index.ts:187-191 | the miss path as written: the signature is recorded whatever happens, the cache only on success |
| Config.ConfigCache.GetConfig | server/src/config/index.ts:170-192 | corrected: whatever is returned was built under the current signature; a failed build leaves both cache and signature as they were |
| Config.StaleAfterFailedRefresh | server/src/config/index.ts:189-190 | as written, a refresh whose overrides throw leaves the cache stale: asking again under the new environment returns the configuration of the old one |
| Config.NoStaleAfterFailedRefresh | server/src/config/index.ts:185-191 | with the signature recorded after success, asking again under the failing environment fails again |
| AccessControl.AdminAllowedEverything | server/src/access-control.ts:35 | the admin may do every action on every resource |
| AccessControl.OnlyAdminManagesAdmin | server/src/access-control.ts:38 | no other role may manage the admin area |
| AccessControl.TeacherAllowedExactly | server/src/access-control.ts:40-46 | a teacher may exactly read classes, groups, teams, users, projects, submissions, grades and notifications, and create assignments |
| AccessControl.StudentAllowedExactly | server/src/access-control.ts:48-54 | a student may exactly read the seven listed resources, and nothing else |
| AccessControl.RuleKey | server/src/access-control.ts:88 | the key is the resource, a colon and the action |
| AccessControl.Verdict | server/src/access-control.ts:87-92 | a missing or disabled rule allows; an enabled rule's own answer decides |
| AccessControl.EmptyRegistryAllows | server/src/access-control.ts:90 | with no rules every evaluation allows |
| AccessControl.DisabledRuleAllows | server/src/access-control.ts:69-73 | disabling a rule makes its key allow and leaves every other key's verdict as it was |
| AccessControl.AbacRegistry.constructor | server/src/access-control.ts:59 | the registry starts with no rules |
| AccessControl.AbacRegistry.Register | server/src/access-control.ts:61-63 | the rule is stored enabled under its key, replacing any earlier one, so that key's evaluation is the rule's answer |
| AccessControl.AbacRegistry.Clear | server/src/access-control.ts:65-67 | no rules remain, so every evaluation allows |
| AccessControl.AbacRegistry.DisableRule | server/src/access-control.ts:69-73 | an unknown key changes nothing; otherwise only that rule's flag is cleared |
| AccessControl.AbacRegistry.EnableRule | server/src/access-control.ts:75-79 | an unknown key changes nothing; otherwise only that rule's flag is set |
| Base64.Encode | server/src/lib/jwt.ts:43-49 | a non-empty buffer gives non-empty text with no '=', '.' or '$', and the URL-safe form has no '+' or '/' |
| Base64.DecodeEncode | server/src/lib/jwt.ts:43-59 | decoding the unpadded encoding, in either alphabet, gives back the bytes |
| Base64.EncodePadded | server/src/lib/password.ts:32-34 | the padded standard encoding never contains '$', so it fits a field of the stored hash |
| Base64.StripPadding | server/src/lib/jwt.ts:48 | removing trailing '=' gives a prefix of the text |
| Base64.StripAddedPadding | server/src/lib/jwt.ts:48 | stripping removes exactly an added tail of '=' from text that does not end in '=' |
| Base64.Padding | server/src/lib/jwt.ts:56 | the padding is only '=' and brings the length up to a multiple of four |
| Base64.PaddedRoundTrip | server/src/lib/password.ts:32-38 | decoding the padded encoding gives back the bytes |
| Base64.UrlRoundTrip | server/src/lib/jwt.ts:43-59 | decoding the URL-safe encoding gives back the bytes |
| Js.Trim | server/src/lib/token.ts:7 | the trimmed text is the input without its surrounding whitespace: neither end is whitespace and it sits inside the input |
| Js.TrimOfTrimmed | server/src/lib/token.ts:7 | text without whitespace at either end is its own trim |
| Js.ToLower | server/src/lib/token.ts:9 | each character is lower-cased in place and the length is kept |
| Js.Split | server/src/lib/jwt.ts:121 | splitting gives at least one part and no part holds the separator |
| Js.SplitJoin | server/src/lib/jwt.ts:121 | parts without the separator, joined by it, split back into the same parts |
| Js.NatToString | server/src/lib/password.ts:45 | a natural number prints as a non-empty run of decimal digits |
| Js.NumberOfNatString | server/src/lib/password.ts:61-64 | Number() of a printed natural number is that number, so it is finite |
| JsonValue.Lookup | server/src/middleware/auth.ts:53-57 | a property is found exactly when the object has that key |
| JsonValue.Assign | server/src/config/index.ts:125 | after the assignment the key holds the value, every other key keeps its value, keys stay distinct, and an existing key keeps its position |
| Helpers.RequireUser | server/src/routes/_helpers.ts:13-16 | an error exactly without a user, and then 401 "Login required"; otherwise that user |
| Helpers.GetClass | server/src/routes/_helpers.ts:18-27 | the class row exactly when it exists and is not deleted, else 404 "Class not found" |
| Helpers.AssertClassWritable | server/src/routes/_helpers.ts:29-31 | 403 "Class is archived (read-only)." exactly for an archived class |
| Helpers.WritableClassPassesGuard | server/src/db/schema.ts:54-66 | a class the route helper lets through is one whose rows the archived-class trigger lets a statement write |
| Helpers.FirstTeacherRow | server/src/routes/_helpers.ts:49-63 | the row `.get()` returns is the live row for (class, teacher) with the lowest id, and there is none exactly when the teacher does not teach the class |
| Helpers.OwnerIffLiveOwnerRow | server/src/routes/_helpers.ts:49-63 | with the one-live-row index in place, "the row found is an owner row" is the same as "the teacher holds a live owner row" |
| Helpers.AssertClassReadable | server/src/routes/_helpers.ts:82-92 | passes exactly for an admin, a teacher of the class or an actively enrolled student; 401 without a user, 403 "Not a member of this class" otherwise |
| Helpers.AssertClassTeacher | server/src/routes/_helpers.ts:94-100 | passes exactly for an admin or a teacher of the class; 401 without a user; a student is 403 "Teacher required", another teacher 403 "Not a teacher of this class" |
| Helpers.StaffOf | server/src/routes/_helpers.ts:94-100 | the routes' requireUser-then-assertClassTeacher-unless-admin gives the same outcome as assertClassTeacher, returning the user |
| Helpers.ClassTeacherMayRead | server/src/routes/_helpers.ts:82-100 | whoever passes the class-teacher check also passes the read check |
| Helpers.GetTeam | server/src/routes/_helpers.ts:102-111 | the team row exactly when it exists and is not deleted, else 404 "Team not found" |
| Helpers.AssertTeamReadable | server/src/routes/_helpers.ts:130-134 | the team exactly when it exists and its class is readable by the user; a missing team is 404 before any login check |
| Helpers.AssertTeamLeader | server/src/routes/_helpers.ts:136-142 | 401 first; then the team exactly when it is readable and the user is its leader, otherwise 403 "Leader required" |
| Helpers.GetProject | server/src/routes/_helpers.ts:144-153 | the project row exactly when it exists and is not deleted, else 404 "Project not found" |
| Helpers.AssertProjectReadable | server/src/routes/_helpers.ts:155-159 | the project exactly when it exists and its class is readable by the user; a missing project is 404 |
| Helpers.AsNumber | server/src/routes/_helpers.ts:232-236 | 400 "Invalid id" exactly when Number() of the input is not finite; otherwise that number |
| Helpers.AsNumberOfDecimal | server/src/routes/_helpers.ts:232-236 | a route parameter written as a decimal natural reads back as that number |
| Helpers.AssertNotLocked | server/src/routes/_helpers.ts:238-240 | 403 "Team is locked." exactly when the status is locked or the lock flag is set |
| Helpers.NotLockedPassesGuard | server/src/db/schema.ts:68-84 | a team the route helper lets through is one the locked-team trigger lets through too |
| Helpers.ParseIsoToMs | server/src/routes/_helpers.ts:242-246 | 400 "Invalid datetime" exactly when the date cannot be read; otherwise the parsed time |
| Helpers.ParseJsonOr | server/src/routes/_helpers.ts:223-230 | no text or empty text gives the fallback; otherwise the parsed value, or the fallback when parsing fails |
| Queries.Select | server/src/routes/v1/classes.ts:168-173 | a query ordered by ascending id lists exactly the rows its filter keeps, each once, in increasing id order |
| Queries.SelectNewestFirst | server/src/routes/v1/notifications.ts:14-19 | a query ordered by descending id lists exactly the rows its filter keeps, in decreasing id order |
| Queries.DecreasingSameSet | server/src/routes/v1/notifications.ts:14-19 | two newest-first listings that hold the same ids are the same listing |
| Queries.Newest | server/src/routes/v1/peer_review.ts:201-206 | none exactly when no row is kept; otherwise a kept row with no kept row after it |
| Queries.First | server/src/routes/_helpers.ts:161-178 | `.get()` without an order: none exactly when no row is kept; otherwise the kept row with the lowest id |
| Queries.SelectByKey | server/src/routes/v1/stages.ts:28-33 | a query ordered by a key lists exactly the kept rows, each once, in non-decreasing key order |
| Queries.InsertByKeyAdds | server/src/routes/v1/stages.ts:32 | inserting one row into a listing adds exactly that id |
| Queries.InsertByKeySorted | server/src/routes/v1/stages.ts:32 | inserting into a listing sorted by the key keeps it sorted |
| Queries.SortByKeySorted | server/src/routes/v1/stages.ts:32 | sorting by the key gives a permutation of the ids in non-decreasing key order |
| Queries.IncreasingOnce | server/src/routes/v1/classes.ts:172 | an increasing listing holds each of its ids once |
| Schema.ArchivedGuard | server/src/db/schema.ts:54-66 | the write aborts with CLASS_ARCHIVED_READONLY exactly when the class is archived and the escape hatch is closed |
| Schema.UpdateAuditRow | server/src/db/schema.ts:1578-1588 | every update of an audit row aborts with AUDIT_LOG_IMMUTABLE |
| Schema.DeleteAuditRow | server/src/db/schema.ts:1589-1599 | every delete of an audit row aborts with AUDIT_LOG_IMMUTABLE |
| Store.LockedAbortIsForbidden | server/src/middleware/error-handler.ts:71 | a TEAM_LOCKED abort reaches the client as 403 with the code as message |
| Store.ArchivedAbortIsInternal | server/src/middleware/error-handler.ts:51-54 | a CLASS_ARCHIVED_READONLY abort reaches the client as a generic 500 |
| Store.Journal.constructor | server/src/db/schema.ts:966-1010 | audit_logs and notifications start empty |
| Store.Journal.WriteAudit | server/src/routes/_helpers.ts:180-210 | exactly one audit row is appended, carrying the current user as actor, the request's ip and user agent, the time and the given action, target and scope; earlier rows are untouched |
| Store.Journal.Notify | server/src/routes/_helpers.ts:212-221 | exactly one unread notification for the user is appended |
| Statements.InsertTeam | server/src/db/schema.ts:1297 | the insert fails exactly when the class is archived and the hatch closed, with CLASS_ARCHIVED_READONLY; otherwise the row is appended |
| Statements.UpdateTeam | server/src/db/schema.ts:1298 | the update fails exactly on the archived guard (teams have no locked guard); otherwise only that row is replaced |
| Statements.InsertMember | server/src/db/schema.ts:1301-1426 | the guards fire newest first: a team of another class, then the locked guard, then the archived guard decide the code; the insert fails exactly when a guard fires, the team's class differs, or an active-membership index would break; a success appends the row and keeps both indexes |
| Statements.ActiveTeamOf | server/src/routes/_helpers.ts:161-178 | none exactly when the student has no active live membership in the class; otherwise the team of one such membership |
| Statements.InsertAfterNoActiveTeamKeepsUnique | server/src/db/schema.ts:364-373 | inserting a membership for a student with no active team in the class, into a team of that class, keeps both indexes and the class consistency |
| Statements.NewTeamHasNoMembers | server/src/db/schema.ts:331-373 | a new team's id is named by no active membership, and appending it keeps consistency |
| Statements.ActiveTeamAfterInsert | server/src/routes/_helpers.ts:161-178 | once the student had no active team in the class, the new active membership is the one found |
| Statements.AppendTeamKeepsConsistency | server/src/db/schema.ts:1414-1439 | appending a team keeps memberships and join requests consistent with their teams' classes |
| Statements.SameClassKeepsConsistency | server/src/db/schema.ts:1414-1439 | replacing a team by a row of the same class keeps both consistency invariants |
| Statements.InsertRequestKeepsConsistency | server/src/db/schema.ts:1427-1439 | a join request the consistency trigger accepts keeps the requests consistent with their teams |
| Statements.DeactivateMembers | server/src/db/schema.ts:1302-1406 | every matching active row is closed with the time and no other row changes; the statement fails exactly when some matching row hits the archived or the locked guard, and the locked guard's code wins when both fire |
| Statements.DeactivateKeepsInvariants | server/src/db/schema.ts:364-373 | closing memberships never breaks the active-membership indexes or consistency |
| Statements.InsertRequest | server/src/db/schema.ts:1305-1439 | class consistency, then locked, then archived decide the code; the insert fails exactly when a guard fires, the team's class differs, or a second pending request for (team, student) would appear; otherwise the row is appended |
| Statements.UpdateRequest | server/src/db/schema.ts:1306-1410 | the update fails exactly when the locked or the archived guard fires, the locked one reported first, or the one-pending index breaks; otherwise only that row is replaced |
| Statements.LeavingPendingKeepsUnique | server/src/db/schema.ts:405 | a request that stops being pending cannot break the one-pending index |
| Statements.InsertProject | server/src/db/schema.ts:1319-1454 | the insert fails exactly when the team's class differs, the archived guard fires, or the team would have two live projects, the class mismatch reported first; otherwise the row is appended |
| Statements.LockTeam | server/src/db/schema.ts:1509-1522 | the team becomes locked with the flag set, a lock time already there is kept, and nothing else of the row changes |
| Statements.InitialStage | server/src/db/schema.ts:1534-1553 | the row for an order carries the key of that order, is live, and is open for order 1 and locked otherwise |
| Statements.InitStageRows | server/src/db/schema.ts:1527-1556 | from a given live-stage count the five conditional inserts add exactly the rows for the orders after that count |
| Statements.ActivationCreatesFiveStages | server/src/db/schema.ts:1527-1556 | a project without live stages receives the five stages in key order, requirements open and stamped, the rest locked |
| Statements.UpdateProject | server/src/db/schema.ts:1320-1556 | a team of another class, then the archived guard, decide the code; the update fails exactly on those, on the one-project index, or, on activation, when the initial stages break the stage index or the team's class is archived; a success replaces the row, and only an update into active locks the team and adds the initial stages; both indexes hold afterwards |
| Statements.SameTeamKeepsProjectsUnique | server/src/db/schema.ts:547 | an update that keeps a row's team and liveness cannot break the one-project-per-team index |
| Statements.InitOnEmptyKeepsStagesUnique | server/src/db/schema.ts:588-589 | the initial stages of a project with none keep both stage indexes |
| Statements.NoLiveStagesCountZero | server/src/db/schema.ts:1537 | with no live stages the count the activation trigger sees is zero |
| Statements.PassOpensNext | server/src/db/schema.ts:1558-1572 | every live locked stage of the project at the next order opens, stamped now; every other row is unchanged |
| Statements.PassingLastOpensNothing | server/src/db/schema.ts:1558-1572 | passing the last stage opens nothing |
| Statements.UpdateStageEffect | server/src/db/schema.ts:1558-1572 | the row named gets the new status and times, and the next locked stage opens only when the row enters passed from another status |
| Statements.UpdateStageKeepsShape | server/src/db/schema.ts:566-589 | status updates keep every row's project, key, order and liveness |
| Statements.SameShapeKeepsUnique | server/src/db/schema.ts:588-589 | tables of the same shape satisfy the stage indexes alike |
| Statements.InsertAssignment | server/src/db/schema.ts:1324 | the insert fails exactly on the archived guard; otherwise the row is appended |
| Statements.UpdateAssignment | server/src/db/schema.ts:1325 | the update fails exactly on the archived guard; otherwise only that row is replaced |
| Statements.InsertWindow | server/src/db/schema.ts:1334 | the insert fails exactly on the archived guard; otherwise the row is appended |
| Statements.UpdateWindow | server/src/db/schema.ts:1335 | the update fails exactly on the archived guard; otherwise only that row is replaced |
| Statements.InsertCase | server/src/db/schema.ts:1314 | the insert fails exactly on the archived guard; otherwise the row is appended |
| Statements.UpdateCase | server/src/db/schema.ts:1315 | the update fails exactly on the archived guard; otherwise only that row is replaced |
| Statements.InsertSubmission | server/src/db/schema.ts:1329-1505 | the insert fails exactly when a consistency check fails, the archived guard fires, or the version index breaks, and the consistency trigger's code comes first; otherwise the row is appended |
| Statements.SubmissionMismatch | server/src/db/schema.ts:1467-1505 | no abort exactly when the assignment's class matches, a team assignment has a team, an individual one has none, the project's class matches and the stage belongs to the project |
| Statements.InsertSubmissionFile | server/src/db/schema.ts:700 | the insert fails exactly for a pair already there; a success appends it and keeps the index |
| Statements.UpsertGrade | server/src/db/schema.ts:1387-1401 | the upsert fails exactly when the guard reached through the submission fires; otherwise the submission's grade is set or replaced |
| Statements.InsertReview | server/src/db/schema.ts:1339-1351 | the insert fails exactly on the archived guard or a second live review for the same window, team, reviewer and reviewee |
| Statements.DuplicateReviewRefused | server/src/db/schema.ts:799 | a review repeating a live one for the same window, team, reviewer and reviewee is refused |
| Statements.AdoptionFor | server/src/db/schema.ts:869 | the row found is a live adoption for (window, team); none means there is no such row |
| Statements.UpsertAdoption | server/src/db/schema.ts:1369-1383 | the corrected upsert, whose conflict target carries the partial index's `deleted_at IS NULL`: fails exactly when the window exists and its class is archived; a success holds the new row, keeps the index, and either replaces a row or appends one |
| Statements.UpsertAdoptionAsWritten | server/src/routes/v1/peer_review.ts:210-224 | the upsert as written fails for every input with SQLite's "ON CONFLICT clause does not match any PRIMARY KEY or UNIQUE constraint", because the only unique index on (window_id, team_id) is partial |
| Statements.InsertEnrollmentOrIgnore | server/src/db/schema.ts:1288 | fails exactly on the archived guard; an active enrolment already there makes the insert a no-op, otherwise the row is appended; afterwards the student is enrolled and the index holds |
| Statements.UpdateEnrollment | server/src/db/schema.ts:1289 | fails exactly on the archived guard or a broken active-enrolment index; otherwise only that row is replaced |
| Statements.RemoveEnrollments | server/src/db/schema.ts:1289 | every live enrolment of the student in the class is closed and deleted with the time and no other row changes; it fails exactly when the class is archived and a row matches |
| Statements.InsertTeacherOrIgnore | server/src/db/schema.ts:1292 | fails exactly on the archived guard; a live row for (class, teacher) makes it a no-op, otherwise the row is appended; the index holds afterwards |
| Statements.InsertTeacher | server/src/db/schema.ts:1292 | fails exactly on the archived guard or when the teacher already has a live row in the class; otherwise the row is appended |
| Statements.RemoveTeachers | server/src/db/schema.ts:1293 | every live row for (class, teacher) is deleted with the time and no other row changes; it fails exactly when the class is archived and a row matches |
| Statements.InsertUser | server/src/db/schema.ts:98 | fails exactly when the username is taken, deleted rows included; a success appends the row and keeps usernames unique |
| Statements.InsertStudentProfile | server/src/db/schema.ts:139-146 | fails exactly when the user already has a profile or the student number is taken; a success appends the row and keeps both unique |
| Statements.InsertTeacherProfile | server/src/db/schema.ts:114-122 | fails exactly when the user already has a profile or a present teacher number is taken; otherwise the row is appended |
| Statements.InsertAdminProfile | server/src/db/schema.ts:158-161 | fails exactly when the user already has a profile; otherwise the row is appended |
| Classes.CreateCheck | server/src/routes/v1/classes.ts:28-29 | no login gives 401; a login that is neither teacher nor admin gives 403 "Teacher required"; otherwise the caller passes |
| Classes.NewClass | server/src/routes/v1/classes.ts:37 | a new class is active, live and downloadable after archiving, keeps the course name and term sent, and stores an empty object when no config is sent |
| Classes.CreateClassAsWritten | server/src/routes/v1/classes.ts:27-49 | as written, a caller who passes the role check always gets the error hook's answer to the call of the missing `db.transcation`, and nothing is written |
| Classes.TransactionTypoIsInternal | server/src/middleware/error-handler.ts:51-74 | the TypeError thrown by the misspelt call matches none of the hook's keywords and is answered as a generic 500 |
| Classes.CreateNeverSucceedsAsWritten | server/src/routes/v1/classes.ts:34 | as written no request creates a class, and every teacher or admin receives the generic 500 |
| Classes.NextClassHasNoTeachers | server/src/routes/v1/classes.ts:42 | no class_teachers row names the id the next class receives, so the owner insert cannot clash |
| Classes.CreateClass | server/src/routes/v1/classes.ts:25-51 | as intended: fails exactly when the role check fails, changing nothing; otherwise the class, the owner row (the teacher, or the admin's chosen owner or the admin) and the audit row are appended and the stored class returned |
| Classes.CreatorOwnsClass | server/src/routes/v1/classes.ts:32 | after the create, the owner named holds the owner row; a creating teacher owns the class and passes its teacher check; an admin's choice, or the admin, owns it |
| Classes.ListClassIds | server/src/routes/v1/classes.ts:52-82 | no login lists nothing; otherwise an id is listed exactly when the role's query finds it (admin: live classes; teacher: live classes they teach; student: live classes with an active enrolment), newest first |
| Classes.ListClasses | server/src/routes/v1/classes.ts:59-81 | one entry per listed id, in that order, each the stored class with the teacher's role where the teacher query adds it |
| Classes.MyClasses | server/src/routes/v1/classes.ts:418-430 | 401 without login, 403 "Student required" for non-students; otherwise exactly the live classes the student is actively enrolled in, newest first |
| Classes.MyClassesIsStudentListing | server/src/routes/v1/classes.ts:74-80 | for a student, /me/classes and GET /classes give the same ids in the same order |
| Classes.ReadClass | server/src/routes/v1/classes.ts:83-88 | the membership check's error comes first, then 404 for a missing or deleted class; success exactly for a reader of a live class, returning its row |
| Classes.ListedIffReadable | server/src/routes/v1/classes.ts:52-88 | a class is in the caller's list exactly when the caller may fetch it |
| Classes.StaffClass | server/src/routes/v1/classes.ts:119-124 | the teacher check (admins pass) decides first, then 404 for a missing class; success returns the row |
| Classes.StaffWritable | server/src/routes/v1/classes.ts:93-97 | the staff check, then 403 "Class is archived (read-only)." for an archived class; success exactly for staff of a live writable class |
| Classes.Renamed | server/src/routes/v1/classes.ts:104-105 | a missing name or term keeps the stored one; nothing else of the class changes |
| Classes.RenameIdempotent | server/src/routes/v1/classes.ts:99-107 | an empty patch changes nothing and applying a patch twice equals applying it once |
| Classes.PatchClass | server/src/routes/v1/classes.ts:89-113 | fails exactly when the writable staff check fails, changing nothing; otherwise only that class is renamed and the update is audited with the rows before and after |
| Classes.SetStatus | server/src/routes/v1/classes.ts:114-131 | fails exactly when the staff check fails; otherwise only the status changes, from either status, audited with both rows |
| Classes.StatusFromAnyState | server/src/routes/v1/classes.ts:121-125 | the right to change the status does not depend on the status; archiving closes the writable routes to everyone allowed, and reactivating reopens them to exactly the staff |
| Classes.WithSettings | server/src/routes/v1/classes.ts:141-145 | a boolean download flag replaces the stored one, a config that is neither missing nor null replaces the stored config, and nothing else changes |
| Classes.UpdateSettings | server/src/routes/v1/classes.ts:132-151 | staff of a live class, archived or not, change only its settings; audited with both rows; a failed check changes nothing |
| Classes.ProfileOf | server/src/routes/v1/classes.ts:170 | the left join finds the profile with that user id, or none when no profile has it |
| Classes.RosterIds | server/src/routes/v1/classes.ts:168-172 | exactly the live enrolments of the class whose user exists, in increasing id order |
| Classes.ListStudents | server/src/routes/v1/classes.ts:152-188 | fails exactly when the membership check fails; otherwise one row per roster enrolment in that order, masked to id, name and flag exactly when the caller is a student |
| Classes.EnrollStudent | server/src/routes/v1/classes.ts:215-218 | the student ends up actively enrolled; an active enrolment already there makes it a no-op, otherwise one row is appended; the one-active-enrolment index is kept |
| Classes.EnrollKeepsEnrolled | server/src/routes/v1/classes.ts:215-218 | enrolling one student never removes another's active enrolment |
| Classes.CreateStudent | server/src/routes/v1/classes.ts:205-212 | a taken username stops the first insert and nothing changes; otherwise the user is stored, and the profile only when neither its user id nor its student number is taken; the account invariants are kept |
| Classes.AddStudentCheck | server/src/routes/v1/classes.ts:193-204 | the writable staff check first; then, when no student id is given, 400 unless a student number and a name are both given |
| Classes.AddStudent | server/src/routes/v1/classes.ts:189-224 | a failed check changes nothing; a named student is enrolled; otherwise the student account is created first and a failure there stops the request before enrolment; a success is audited with the pair |
| Classes.InitialPassword | server/src/routes/v1/classes.ts:238 | a non-empty supplied password is used; a missing or empty one falls back to the default |
| Classes.LiveUserNamed | server/src/routes/v1/classes.ts:244-248 | the live user with that username, or none when no live user has it |
| Classes.ImportOne | server/src/routes/v1/classes.ts:241-266 | an incomplete entry changes nothing; an existing live user is reused without new accounts; a completed pass collects one id; a failed pass enrols and collects nothing; the account invariants and "every collected id is enrolled" are kept |
| Classes.ImportAll | server/src/routes/v1/classes.ts:240-267 | the passes in order keep the account invariants and keep every collected id enrolled |
| Classes.ImportStopsAtError | server/src/routes/v1/classes.ts:240-267 | once a pass fails, the later entries change nothing |
| Classes.ImportCountsCompleteEntries | server/src/routes/v1/classes.ts:241-270 | an import that runs to the end collects exactly one id per complete entry |
| Classes.ImportCheck | server/src/routes/v1/classes.ts:228-236 | the writable staff check first, then 400 "students required" for an empty list |
| Classes.RunImport | server/src/routes/v1/classes.ts:240-267 | the loop leaves the tables exactly as the pass-by-pass specification says and keeps the database invariant |
| Classes.ImportStudents | server/src/routes/v1/classes.ts:225-278 | a failed check changes nothing; otherwise the loop's writes stay even when a pass fails; only a completed loop is audited with the count and returns the collected ids |
| Classes.PatchStudentCheck | server/src/routes/v1/classes.ts:287-304 | the writable staff check, then 404 "Enrollment not found" unless a live enrolment of the student exists; the result is the first such enrolment |
| Classes.Reenrolled | server/src/routes/v1/classes.ts:306-308 | the active flag is set as sent; activating clears the leaving time, deactivating sets it to the time sent or now; the joining time and everything else are kept |
| Classes.DeactivationKeepsUnique | server/src/db/schema.ts:259 | a deactivation can never break the one-active-enrolment index |
| Classes.PatchStudent | server/src/routes/v1/classes.ts:280-331 | a failed check changes nothing; an activation that would give a second active enrolment is refused by the index and changes nothing; otherwise only that enrolment is rewritten and audited with the old row and the new values |
| Classes.WithoutStudent | server/src/routes/v1/classes.ts:341-344 | every live enrolment of the student in the class is closed and soft-deleted, other rows untouched; afterwards the student is not in the class, nobody gains a class, and the index is kept |
| Classes.RemoveStudent | server/src/routes/v1/classes.ts:332-347 | fails exactly when the writable staff check fails, changing nothing; otherwise the student's enrolments are removed and the removal audited |
| Classes.RemovedStudentLosesClass | server/src/routes/v1/classes.ts:341-344 | a removed student fails the class's membership check and can no longer choose it as active class |
| Classes.ListTeachers | server/src/routes/v1/classes.ts:348-367 | fails exactly when the membership check fails; otherwise one row per live teacher row of the class whose user exists, in row order, with the teacher's id, username and role |
| Classes.OwnerCheck | server/src/routes/v1/classes.ts:376-382 | 401 without login, 403 "Teacher required" for students, 403 "Owner required" for a teacher without the owner row; success exactly for an admin or an owning teacher on a writable class |
| Classes.OwnerIsStaff | server/src/routes/v1/classes.ts:376-382 | whoever may edit the teacher list also passes the writable staff check |
| Classes.AddTeacher | server/src/routes/v1/classes.ts:368-389 | fails exactly when the owner check fails, changing nothing; otherwise the row is inserted unless the teacher already teaches the class, and the add is audited either way |
| Classes.AddedTeacherTeaches | server/src/routes/v1/classes.ts:384 | after an add, the teacher teaches the class and a teacher-role user with that id passes its teacher check |
| Classes.WithoutTeacher | server/src/routes/v1/classes.ts:411-414 | every live row of that teacher in the class is soft-deleted, other rows untouched; afterwards the teacher no longer teaches the class and the index holds |
| Classes.LastTeacherStays | server/src/routes/v1/classes.ts:404-414 | with more than one live teacher row before, at least one remains after removing any teacher |
| Classes.RemoveTeacherCheck | server/src/routes/v1/classes.ts:396-409 | the owner check, then 400 "Cannot remove last teacher" when the class has at most one live teacher row |
| Classes.RemoveTeacher | server/src/routes/v1/classes.ts:390-417 | fails exactly when the check fails, changing nothing; otherwise the teacher's rows are removed, the class keeps a live teacher row, and the removal is audited |
| Classes.ActiveClassCheck | server/src/routes/v1/classes.ts:434-443 | 401 without login; a student must be actively enrolled (403 "Not enrolled"), a teacher must teach the class (403 "Not a teacher of this class"), an admin passes |
| Classes.SetActiveClass | server/src/routes/v1/classes.ts:431-451 | fails exactly when the check fails, changing nothing; otherwise the caller's settings hold that class as active |
| Classes.ClearActiveClass | server/src/routes/v1/classes.ts:452-460 | needs a login (401); the caller's active class becomes none |
| Teams.CloseRequest | server/src/db/schema.ts:1306-1410 | an update of a join request fails exactly when the locked or the archived write guard fires, the locked one reported first, and then changes nothing |
| Teams.AddRequest | server/src/routes/v1/teams.ts:155-159 | on an unlocked team of a writable class the insert fails only when the one-pending index refuses it, and then changes nothing; otherwise the row is appended with the next id |
| Teams.CreateCheck | server/src/routes/v1/teams.ts:31-39 | 401 without login, 403 "Student required" for non-students, then the membership check, a live writable class, and 400 "Already in a team"; success implies the student is enrolled |
| Teams.CreateTeam | server/src/routes/v1/teams.ts:28-61 | fails exactly when the check fails, changing nothing; otherwise the team is appended with the caller as leader, the caller's membership becomes their active team in the class, and the creation is audited |
| Teams.ActiveMemberIds | server/src/routes/v1/teams.ts:99 | a student is listed exactly when they are an active member of the team |
| Teams.ListTeams | server/src/routes/v1/teams.ts:62-109 | fails exactly when the membership check fails; otherwise exactly the live teams of the class, by ascending id, each with exactly its active members and their count |
| Teams.GetTeamDetail | server/src/routes/v1/teams.ts:110-138 | succeeds exactly when the team is readable; a student outside the team sees no members, everyone else sees exactly the active members |
| Teams.JoinCheck | server/src/routes/v1/teams.ts:140-152 | a student, a live team, the membership check, a writable class, an unlocked team, then 400 "Already in a team"; success returns the team and implies enrolment |
| Teams.RequestToJoin | server/src/routes/v1/teams.ts:139-170 | a failed check changes nothing; a second pending request for the team is refused by the index and changes nothing; otherwise one pending request is appended, audited, and the leader notified |
| Teams.ListJoinRequests | server/src/routes/v1/teams.ts:171-195 | 404 for a missing team comes before the login; a student other than the leader is refused; otherwise exactly the team's live requests, newest first |
| Teams.DecideCheck | server/src/routes/v1/teams.ts:202-218 | the leader check, a writable class, an unlocked team, 404 unless the request is a live request of the team, a pending request, and for an approval a student without an active team |
| Teams.DecideJoinRequest | server/src/routes/v1/teams.ts:196-246 | fails exactly when the check fails, changing nothing; otherwise an approval adds the student as active member, the request records the decision, the leader, the time and the reason, and the decision is audited and sent to the student |
| Teams.CancelCheck | server/src/routes/v1/teams.ts:250-263 | a student, a live request of the team (404), their own (403 "Not your request"), pending (400), then a live team in a writable class; the lock is not checked |
| Teams.CancelJoinRequest | server/src/routes/v1/teams.ts:247-268 | a failed check changes nothing; on a locked team the locked-team guard aborts the update with TEAM_LOCKED; otherwise the request is cancelled and audited |
| Teams.DeactivatedIsNotMember | server/src/routes/v1/teams.ts:281-284 | after the deactivating update the student is no longer an active member of the team |
| Teams.DeactivationKeepsOthers | server/src/routes/v1/teams.ts:281-284 | every other active membership, in this team or another, is unaffected |
| Teams.LeaveCheck | server/src/routes/v1/teams.ts:271-278 | a student, a live team, the membership check, a writable class, an unlocked team, then 400 for the leader |
| Teams.LeaveTeam | server/src/routes/v1/teams.ts:269-287 | fails exactly when the check fails, changing nothing; otherwise the caller's active membership ends now and the leave is audited |
| Teams.LeaderCheck | server/src/routes/v1/teams.ts:291-294 | the leader check, a writable class, then 403 "Team is locked." for a locked team; success returns the team led by the caller |
| Teams.RemoveMember | server/src/routes/v1/teams.ts:288-303 | a failed check changes nothing; removing the leader is refused; otherwise the member's active membership ends and the removal is audited |
| Teams.TransferLeader | server/src/routes/v1/teams.ts:304-323 | a failed check changes nothing; a target that is not an active member is refused; otherwise only the leader changes and the transfer is audited with both rows |
| Teams.ForceCheck | server/src/routes/v1/teams.ts:328-336 | a live team, the membership check, the staff check, a writable class and an active member as target; the lock is not among them |
| Teams.ForceLeader | server/src/routes/v1/teams.ts:324-354 | fails exactly when the check fails, changing nothing; otherwise only the leader changes and the change is audited with the reason |
| Teams.ForceIgnoresLock | server/src/routes/v1/teams.ts:324-354 | locking a team does not change whether staff may force its leader |
| Teams.LeaderRefusedWhenLocked | server/src/routes/v1/teams.ts:294 | whereas on a locked team the leader's own removal and transfer are always refused |
| Teams.Unassigned | server/src/routes/v1/teams.ts:361-379 | a student is listed exactly when actively enrolled in the class and without an active membership there |
| Teams.ListUnassigned | server/src/routes/v1/teams.ts:355-380 | succeeds exactly for staff of the class and then lists exactly the unassigned students |
| Teams.AssignCheck | server/src/routes/v1/teams.ts:385-401 | the staff check, a writable class, 400 "Student not enrolled", 400 "Student already in a team", and for a named team a live team of the class that is unlocked |
| Teams.ForceAssign | server/src/routes/v1/teams.ts:381-430 | fails exactly when the check fails, changing nothing; otherwise the student's new membership is their active team; without a team a new team led by the student is created and audited; with one the assignment is audited and the student notified |
| Projects.StatusNameInjective | server/src/routes/v1/projects.ts:82 | different statuses are stored as different texts, so a status filter selects exactly one status |
| Projects.CreateCheck | server/src/routes/v1/projects.ts:30-42 | the leader check, a live writable class, then 400 "Project already exists for this team" when the team has a live project |
| Projects.AppendForNewTeamKeepsUnique | server/src/db/schema.ts:547 | a live project for a team without one keeps the one-project-per-team index |
| Projects.CreateProject | server/src/routes/v1/projects.ts:25-72 | fails exactly when the check fails, changing nothing; otherwise a draft of the team's class created by the caller is appended with the next id and audited |
| Projects.SecondCreateRefused | server/src/routes/v1/projects.ts:37-42 | once a team has a live project, every further creation for it is refused, whoever asks |
| Projects.ListProjects | server/src/routes/v1/projects.ts:73-99 | fails exactly when the membership check fails; a student sees only the live project of their active team (none without a team), staff every live project of the class, narrowed by status and team filter; newest first |
| Projects.StudentListsAtMostOne | server/src/routes/v1/projects.ts:85-88 | with the one-project index a student's listing holds at most one project, and only their own team's |
| Projects.LiveStagesByOrder | server/src/routes/v1/projects.ts:104-109 | each live stage of the project exactly once, sorted by order |
| Projects.GetProjectDetail | server/src/routes/v1/projects.ts:100-111 | succeeds exactly when the project is readable, with the project and its live stages by order |
| Projects.StagesStrictlyOrdered | server/src/db/schema.ts:588-589 | with the stage indexes a project's live stages come in strictly increasing order |
| Projects.EditCheck | server/src/routes/v1/projects.ts:116-125 | login, 404 for a missing project, the membership check, a live team, 403 "Leader required" unless admin or the student leader, then a draft or rejected project; the class need not be writable |
| Projects.Patched | server/src/routes/v1/projects.ts:131-137 | the edit touches only name, background, tech stack, source type and case |
| Projects.PatchIdentityAndIdempotence | server/src/routes/v1/projects.ts:131-137 | an empty patch changes nothing and applying a patch twice equals applying it once |
| Projects.PatchedFields | server/src/routes/v1/projects.ts:132-136 | each supplied field replaces the stored one and an absent field keeps it |
| Projects.Rewrite | server/src/db/schema.ts:1320-1465 | an update that keeps team and liveness and does not activate fails exactly on the class-consistency guard or the archived guard, the consistency guard reported first, and then changes nothing |
| Projects.EditProject | server/src/routes/v1/projects.ts:112-144 | a failed check changes nothing; a team of another class, then an archived class, make the guards abort the update; otherwise the patched row replaces the stored one and the edit is audited with both rows |
| Projects.EditOnArchivedClassIsInternal | server/src/middleware/error-handler.ts:51-74 | an edit on an archived class passes all handler checks and the guard's abort is answered as a generic 500 rather than 403 |
| Projects.SubmitCheck | server/src/routes/v1/projects.ts:147-157 | login, a live readable project, a live team, admin or the student leader, a live writable class, then 400 "Cannot submit" unless draft or rejected |
| Projects.SubmitProject | server/src/routes/v1/projects.ts:145-163 | a failed check changes nothing; otherwise the project becomes submitted, stamped now, and the submission is audited with both rows |
| Projects.SubmittedIsFrozen | server/src/routes/v1/projects.ts:125-157 | a submitted project can be neither edited nor submitted again by anyone |
| Projects.ReviewCheck | server/src/routes/v1/projects.ts:168-175 | login, a live project, the teacher check unless admin, a live writable class, then 400 "Project is not submitted" |
| Projects.ReviewNotices | server/src/routes/v1/projects.ts:197-204 | one notice per recipient, in the recipients' order |
| Projects.NotifyAll | server/src/routes/v1/projects.ts:197-204 | the loop appends exactly those notices, in order |
| Projects.ReviewNotifiesExactlyTheTeam | server/src/routes/v1/projects.ts:192-204 | a user is told of the review exactly when they are an active member of the project's team |
| Projects.ApplyReview | server/src/db/schema.ts:1440-1556 | the review update fails exactly when the statement does, changing nothing; otherwise projects, teams and stages are exactly as the statement with its triggers leaves them |
| Projects.ReviewProject | server/src/routes/v1/projects.ts:164-208 | a failed check changes nothing; otherwise the row takes the decision, reviewer, time and feedback through the statement; on success the review is audited and every active member notified |
| Projects.ApprovalActivates | server/src/db/schema.ts:1509-1556 | approving a submitted project without live stages in a consistent writable class succeeds, locks the team and appends exactly the five initial stages |
| Projects.RejectionChangesOnlyTheRow | server/src/db/schema.ts:1440-1465 | a rejection fires no trigger: only the project row changes |
| Projects.ReviewedOnce | server/src/routes/v1/projects.ts:175 | a reviewed project is no longer submitted, so it cannot be reviewed again |
| StageRoutes.WriteStage | server/src/db/schema.ts:1558-1572 | a stage update changes the stage table exactly as the statement with its pass trigger does, and keeps the database invariant |
| StageRoutes.ListStages | server/src/routes/v1/stages.ts:24-35 | succeeds exactly when the project is readable, with its class, its team and its live stages by order |
| StageRoutes.StatusCheck | server/src/routes/v1/stages.ts:39-68 | 400 "Invalid stageKey" first; a success means a login, a live project of a readable writable class, the live stage with that key and a valid status; a student must lead the team and may only pass the open stage; a teacher must teach the class |
| StageRoutes.LeaderOnlyPassesOpen | server/src/routes/v1/stages.ts:60-64 | a student's request is refused unless it passes the stage that is open |
| StageRoutes.FollowUpRedundantAfterTrigger | server/src/routes/v1/stages.ts:82-101 | when a stage enters passed, the trigger already opens every locked live stage at the next order, and the handler's own follow-up changes nothing more |
| StageRoutes.NothingLockedNext | server/src/routes/v1/stages.ts:95 | with no locked live stage at the next order the follow-up changes nothing |
| StageRoutes.RepassFiresNoTrigger | server/src/db/schema.ts:1558-1572 | passing a stage already passed fires no trigger: only its pass time changes |
| StageRoutes.ApplyStatus | server/src/routes/v1/stages.ts:70-101 | the handler's writes leave the stage table exactly as the status-change specification describes |
| StageRoutes.UpdateStageStatus | server/src/routes/v1/stages.ts:36-111 | a failed check changes nothing; otherwise the stage takes the status and time, a pass opens the next locked stage, the change is audited with the row before and after, and the updated row is returned |
| StageRoutes.RollbackCheck | server/src/routes/v1/stages.ts:116-135 | login, 400 "Invalid stageKey", a live project, the membership check, the teacher check unless admin, a writable class, then live stages that include the key (400 "No stages", 404 "Stage not found") |
| StageRoutes.RolledBack | server/src/routes/v1/stages.ts:137-144 | every live stage of the project is rolled relative to the target and every other row is unchanged |
| StageRoutes.RollbackRows | server/src/routes/v1/stages.ts:138-144 | the loop, with the pass trigger firing on its writes, ends with exactly the rolled-back table |
| StageRoutes.RollbackStages | server/src/routes/v1/stages.ts:112-154 | a failed check changes nothing; otherwise the stages before the target are passed, the target open, the later ones locked, all stamped now; the rollback is audited with the key and the stages listed again |
| StageRoutes.RollbackMatchesVector | server/src/routes/v1/stages.ts:137-144 | on stages numbered 1..n the rollback gives the status vector of the stage model's rollback, so the frontier sits at the target |
| StageRoutes.PassMatchesVector | server/src/routes/v1/stages.ts:73-101 | on stages numbered 1..n passing the open stage gives the status vector of the stage model's pass |
| StageRoutes.LeaderPassAdvancesFrontier | server/src/routes/v1/stages.ts:60-101 | a leader's pass from a frontier moves the frontier exactly one stage on |
| PeerReview.ListWindows | server/src/routes/v1/peer_review.ts:24-36 | listing succeeds exactly for staff of the class, failing otherwise with the teacher check's error; the result holds exactly the live windows of the class, newest first |
| PeerReview.OpenCheck | server/src/routes/v1/peer_review.ts:37-47 | passes exactly for staff of a live, writable class with a known stage key in the body; a caller who is not staff gets the teacher check's error first |
| PeerReview.OpenWindow | server/src/routes/v1/peer_review.ts:37-64 | fails exactly when the check fails, changing nothing; otherwise an open window on the stage, created by the caller, is appended with the next id and the opening is audited |
| PeerReview.MoveCheck | server/src/routes/v1/peer_review.ts:65-78 | 401 without login, 404 for a missing or deleted window, and otherwise passes exactly for staff of a writable class when the window is in the status the close or publish starts from |
| PeerReview.MoveWindow | server/src/routes/v1/peer_review.ts:65-102 | fails exactly when the check fails, changing nothing; otherwise only that window moves to sealed or published with its time stamp and the move is audited with the row before and after |
| PeerReview.LifecycleFromOpen | server/src/routes/v1/peer_review.ts:78-79 | starting from open, the only move sequences that all succeed are none, a close, and a close then a publish; a window ends published exactly after close then publish, and never returns to open or draft |
| PeerReview.WindowsNeverDraft | server/src/routes/v1/peer_review.ts:48-59 | opening a window and any successful close or publish keep every window out of the draft status |
| PeerReview.LowestOpen | server/src/routes/v1/peer_review.ts:122-127 | the stage found is an open live stage of the project with an order no greater than any other open stage's; none is found only when the project has no open stage |
| PeerReview.CurrentStageKey | server/src/routes/v1/peer_review.ts:122-128 | the key of an open stage of the project with the lowest order, or requirements when no stage of it is open |
| PeerReview.ReviewCheck | server/src/routes/v1/peer_review.ts:103-143 | passes exactly for a student who is an active member of the project's live team in a readable, writable class, reviewing another member, while some open window of the class is on the project's current stage; the window chosen is on that stage |
| PeerReview.NoWindowNoReview | server/src/routes/v1/peer_review.ts:130-143 | with no open window of the class on the project's current stage, every review is refused |
| PeerReview.SubmitReview | server/src/routes/v1/peer_review.ts:103-152 | fails exactly when the check fails or the unique index refuses the row, changing nothing; otherwise the review is appended with the next id and audited |
| PeerReview.AddReview | server/src/db/schema.ts:799 | a second live review for the same window, team, reviewer and reviewee is refused; otherwise the row is appended with the next id |
| PeerReview.SecondReviewRefused | server/src/db/schema.ts:799 | once a review is stored, submitting the same reviewer, reviewee and window again is refused whatever the payload: reviews are never merged or overwritten |
| PeerReview.ReadCheck | server/src/routes/v1/peer_review.ts:153-164 | passes exactly when the project is readable by the caller, its team is live, and a student caller is an active member of that team; returns the project |
| PeerReview.ListReviews | server/src/routes/v1/peer_review.ts:153-188 | fails exactly when the readers' check fails, with its error; otherwise it lists exactly the team's reviews in the windows the reader may see, newest first, each shown in the reader's form |
| PeerReview.VisibleReviews | server/src/routes/v1/peer_review.ts:167-186 | every item is a review of the team in a window shown to the reader and every such review appears, in strictly decreasing id order, in the form fixed for the reader |
| PeerReview.StudentsSeeOnlyPublished | server/src/routes/v1/peer_review.ts:167-186 | a student sees only items without the reviewer, only from published windows, and only of a team they belong to |
| PeerReview.DecisionCheck | server/src/routes/v1/peer_review.ts:189-207 | passes exactly for a logged-in staff member of the live project's writable class when the class has a live window; the target is the project with the newest such window |
| PeerReview.NewAdoption | server/src/routes/v1/peer_review.ts:210-224 | the row is live, for the target window and team, decided by the caller; it has no coefficient exactly when adopted, and otherwise the supplied coefficient or 1 |
| PeerReview.DecisionIgnoresWindowStatus | server/src/routes/v1/peer_review.ts:201-207 | the decision targets the newest window of the class whatever its status: a newer open window is chosen over an older published one |
| PeerReview.Decide | server/src/routes/v1/peer_review.ts:189-229 | the handler with the corrected upsert: fails exactly when the check fails, changing nothing; otherwise the adoption row for the window and team is inserted or overwritten with the decision and the decision is audited |
| PeerReview.DecideAsWritten | server/src/routes/v1/peer_review.ts:189-229 | the handler as written never succeeds: a failed check gives the check's error, and every decision past the checks gets a generic 500; no adoption row and no audit row is written |
| PeerReview.ConflictTargetErrorIsInternal | server/src/middleware/error-handler.ts:51-75 | SQLite's refusal of the upsert holds none of the hook's keywords and is answered as a generic 500 |
| PeerReview.AsWrittenRefusesEveryDecision | server/src/routes/v1/peer_review.ts:210-224 | for every decision that passes the checks, the corrected upsert stores exactly the upserted table while the statement as written refuses it |
| PeerReview.UpsertIsUpserted | server/src/routes/v1/peer_review.ts:210-224 | when the corrected write succeeds, the statement leaves exactly the upserted table: the pair's live row replaced, or the decision appended when there was none |
| PeerReview.DecisionIsTheOnlyOne | server/src/db/schema.ts:869 | with the corrected upsert, after a decision the window and team have exactly one live adoption row, the decision itself, and deciding again does not add a row |
| PeerReview.OnlyRowForPair | server/src/db/schema.ts:869 | under the unique index, the row found for a window and team is the only live row for that pair |
| Submissions.MaxVersion | server/src/routes/v1/submissions.ts:65-78 | none exactly when the work has no live version; otherwise the largest version number among its live versions, attained by one of them |
| Submissions.NextVersion | server/src/routes/v1/submissions.ts:79 | 1 for the first version of a piece of work, and otherwise greater than every live version of it |
| Submissions.NextVersionNeverCollides | server/src/db/schema.ts:674 | a row numbered with the next version keeps the unique version index of live submissions |
| Submissions.VersionsCountUp | server/src/routes/v1/submissions.ts:65-79 | after a version is handed in, the next version of the same work is exactly one higher |
| Submissions.OtherWorkUnaffected | server/src/routes/v1/submissions.ts:68-77 | handing in a version leaves the next version number of every other piece of work unchanged |
| Submissions.CreateCheck | server/src/routes/v1/submissions.ts:24-60 | 401 without login; a pass yields the live assignment, a class the user may read that is writable, the user's active team, its leader as caller for team work, the team's active project, its open stage for the assignment's key, and the parsed deadline |
| Submissions.WorkCheck | server/src/routes/v1/submissions.ts:45-60 | a pass yields the team's active project, its open stage for the assignment's stage key, and the parsed deadline |
| Submissions.NewSubmission | server/src/routes/v1/submissions.ts:60-97 | the row carries the team only for team work, is late exactly when now is past the deadline, and has a version above every live version of the same work, 1 for the first |
| Submissions.OnlyAForeignProjectIsRefused | server/src/routes/v1/submissions.ts:85-99 | after the guards pass, the insert is refused exactly when the team's project lies in another class than the assignment, and otherwise appends the row |
| Submissions.TargetInsertOutcome | server/src/db/schema.ts:1467-1505 | for a target whose assignment, class, project and stage meet the guards, the insert fails only on a project of another class |
| Submissions.InsertOutcome | server/src/db/schema.ts:1467-1505 | a consistent, newly numbered row in a writable class is refused only when its project lies in another class |
| Submissions.ForeignProjectAnsweredAsInternal | server/src/middleware/error-handler.ts:51-75 | that refusal reaches the client as a generic 500, since its code matches no keyword of the classifier |
| Submissions.MismatchLacks | server/src/middleware/error-handler.ts:69-75 | the abort code contains none of the letters and pairs the classifier's keywords need |
| Submissions.LinkFiles | server/src/routes/v1/submissions.ts:102-104 | one link row per uploaded file is appended, in upload order, and nothing else changes |
| Submissions.AddSubmission | server/src/routes/v1/submissions.ts:85-99 | on a refused insert the abort message is returned and the table is unchanged; otherwise the row is appended and its id is the next one |
| Submissions.CreateSubmission | server/src/routes/v1/submissions.ts:23-108 | a failed check returns its error and changes nothing; a refused insert returns the mapped error and changes nothing; otherwise the row is appended, its files are linked in order, and the hand-in is audited |
| Submissions.FileSubmission | server/src/routes/v1/submissions.ts:85-107 | the insert, the file links and the audit row as one write: all of them on success, none of them on a refused insert |
| Submissions.FilesOf | server/src/routes/v1/submissions.ts:218-223 | exactly the files linked to the submission |
| Submissions.ListScope | server/src/routes/v1/submissions.ts:125-165 | a teacher passes exactly when teaching the class, else 403 "Not a teacher of this class"; an admin sees all rows; a student sees their own rows, and also the team's when they lead their active team |
| Submissions.ListCheck | server/src/routes/v1/submissions.ts:110-121 | a pass means a logged-in user, a live assignment, a class the user may read, and the scope the reader gets |
| Submissions.ListSubmissionsAsWritten | server/src/routes/v1/submissions.ts:167-179 | as written, the listing can only succeed with an empty list |
| Submissions.ListingFailsWheneverARowIsVisible | server/src/routes/v1/submissions.ts:167-187 | as written, any reader with at least one submission in scope gets a generic 500 |
| Submissions.MissingImportLacks | server/src/middleware/error-handler.ts:69-75 | the lower-cased ReferenceError message contains none of the letters k, u, q, v the classifier looks for |
| Submissions.MissingImportIsInternal | server/src/middleware/error-handler.ts:51-75 | the missing-import ReferenceError is answered as a generic 500 |
| Submissions.InScopeViews | server/src/routes/v1/submissions.ts:159-194 | exactly the live rows of the assignment in the reader's scope, newest first, each with exactly its linked files and its live grade |
| Submissions.ListSubmissions | server/src/routes/v1/submissions.ts:109-195 | the intended listing fails exactly when the guards fail, with their error; otherwise it returns the rows in scope with files and grade |
| Submissions.AsWrittenAgreesWhenNothingVisible | server/src/routes/v1/submissions.ts:167 | the listing as written and the intended one agree whenever the guards fail or nothing is in scope |
| Submissions.ReadCheck | server/src/routes/v1/submissions.ts:196-216 | 404 for a missing or deleted submission; a pass means a readable class, and for a student that they handed it in or lead the live team it was filed under |
| Submissions.GetSubmission | server/src/routes/v1/submissions.ts:196-230 | succeeds exactly when the read check passes; returns the row with exactly its linked files and its live grade |
| Submissions.ListedRowsOpen | server/src/routes/v1/submissions.ts:143-157 | a row a student is listed, filed in the assignment's class, is one the single view also lets them open |
| Submissions.ListVersions | server/src/routes/v1/submissions.ts:231-257 | 404 for a missing submission; succeeds exactly when the user may read the class; returns exactly the live versions of the same work, the row itself among them, in ascending version order |
| Submissions.VersionsIgnoreOwnership | server/src/routes/v1/submissions.ts:208-215 | whenever the single view refuses a student with "Access denied", the versions listing serves that same work, the refused row included |
| Assignments.GetAssignment | server/src/routes/v1/assignments.ts:64-69 | succeeds exactly for a live row, returning it; otherwise 404 "Assignment not found" |
| Assignments.CheckStageKey | server/src/routes/v1/assignments.ts:29 | accepts exactly the known stage keys and returns the key unchanged; otherwise 400 "Invalid stageKey" |
| Assignments.CreateCheck | server/src/routes/v1/assignments.ts:23-33 | passes exactly for staff of a live, writable class with a known stage key; the teacher check's error comes first and an archived class gives 403 "Class is archived (read-only)."; the new row is live, in that class, created by the caller, and carries the body's fields |
| Assignments.CreateAssignment | server/src/routes/v1/assignments.ts:20-48 | fails exactly when the check fails, with its error and nothing changed; otherwise the row is appended with the next id and audited with the new row |
| Assignments.ListAssignments | server/src/routes/v1/assignments.ts:49-60 | succeeds exactly when the class is readable by the caller; lists exactly the live assignments of the class, newest first |
| Assignments.ReadAssignment | server/src/routes/v1/assignments.ts:61-72 | a missing or deleted assignment is 404 to everyone, logged in or not; a live one is returned exactly when the caller may read its class |
| Assignments.WriteCheck | server/src/routes/v1/assignments.ts:76-87 | 401 without login, then 404 for a missing row, and otherwise passes exactly for staff of the row's live, writable class, returning the row as it was |
| Assignments.PatchKey | server/src/routes/v1/assignments.ts:89-93 | the stored key: the old key when none is supplied, the supplied key when it is a known stage key, and otherwise 400 "Invalid stageKey" |
| Assignments.PatchKeyAsWritten | server/src/routes/v1/assignments.ts:89-93 | as written: refused only for a non-empty supplied key that is not a stage key; otherwise the supplied key, the empty one included, or the old key |
| Assignments.EmptyStageKeyIsStored | server/src/routes/v1/assignments.ts:89-93 | an empty stage key passes the check as written and is stored although it names no stage; the corrected check refuses it |
| Assignments.PatchKeyAgreesUnlessEmpty | server/src/routes/v1/assignments.ts:89-93 | for every input except an empty key, the check as written and the corrected one accept the same keys and store the same key |
| Assignments.PatchCheck | server/src/routes/v1/assignments.ts:76-98 | the shared guards' error comes first; passes exactly when they pass and any supplied key is a stage key; the edited row keeps class, creator and deletion and takes each supplied field, keeping the old value of the others |
| Assignments.EmptyPatchKeepsRow | server/src/routes/v1/assignments.ts:92-98 | an edit that supplies no field leaves the row exactly as it was |
| Assignments.PatchIdempotent | server/src/routes/v1/assignments.ts:92-98 | applying the same edit to its own result yields that result again |
| Assignments.PatchAssignment | server/src/routes/v1/assignments.ts:73-105 | fails exactly when the check fails, changing nothing; otherwise only that row is replaced by the edited row and the update is audited with the row before and after |
| Assignments.DeleteAssignment | server/src/routes/v1/assignments.ts:106-122 | fails exactly when the shared guards fail, changing nothing; otherwise only that row is stamped deleted and the delete is audited with the old row |
| Assignments.DeletedAssignmentIsGone | server/src/routes/v1/assignments.ts:61-122 | after a soft delete, reading the assignment is 404 to everyone, editing or deleting it again is 404 to any logged-in user, and the class listing no longer shows it |
| Assignments.DeleteTakesOnlyThatRow | server/src/routes/v1/assignments.ts:119 | deleting an assignment removes exactly it from the class listing; every other assignment stays listed or unlisted as before |
| Grades.GradeCheck | server/src/routes/v1/grades.ts:25-37 | 401 without login, 404 for a missing or deleted submission, and otherwise passes exactly for staff of its live, writable class, returning the submission |
| Grades.NewGrade | server/src/routes/v1/grades.ts:45-51 | the grade left by the upsert is live, graded by the caller at the current time, with the body's score |
| Grades.LiveGrade | server/src/routes/v1/grades.ts:39-43 | the submission's grade exactly when it has one that is not deleted |
| Grades.RegradeOverwrites | server/src/routes/v1/grades.ts:45-51 | once one upsert on a submission succeeds a second one does too, and they leave exactly one grade on it, the second with its score, live even if the first row was deleted; no other submission gains, loses or changes a grade |
| Grades.Targets | server/src/routes/v1/grades.ts:56-66 | for individual work only the submitter; for team work exactly the students with an active membership row in the submission's team |
| Grades.Unique | server/src/routes/v1/grades.ts:68 | the same ids, each exactly once |
| Grades.NotifyGrade | server/src/routes/v1/grades.ts:68-75 | one grade notice per recipient is appended, in the recipients' order, and nothing else changes |
| Grades.EachRecipientToldOnce | server/src/routes/v1/grades.ts:56-75 | a user is told exactly when they are the submitter of individual work or an active member of the team for team work, and nobody is told twice |
| Grades.PutGrade | server/src/routes/v1/grades.ts:22-80 | fails exactly when the check fails, changing nothing; otherwise the submission's one grade is written or overwritten, audited with the previous live grade and the new one, and each recipient is told once |
| Grades.RecordGrade | server/src/routes/v1/grades.ts:39-75 | the write half: the upsert, the audit row with the grade before and after, and the notices to the distinct recipients |
| Grades.MyGradeIds | server/src/routes/v1/grades.ts:85-112 | exactly the student's graded live submissions of live assignments, own or filed under a team they are active in, each once, most recently graded first |
| Grades.MyGradeIdsJoinable | server/src/routes/v1/grades.ts:97-99 | every listed submission has its grade and its assignment row, so the inner joins drop none of them |
| Grades.MyGrades | server/src/routes/v1/grades.ts:81-114 | 401 without login, 403 "Student required" for staff, and for a student the listed rows, each with its grade, submission and assignment |
| Grades.OthersIndividualWorkHidden | server/src/routes/v1/grades.ts:105-108 | another student's individual work never appears among a student's grades |
| Grades.ProjectSheetCheck | server/src/routes/v1/grades.ts:116-122 | 404 for a missing project; passes exactly when the project is readable and a student caller's active team is the project's team; a readable project refused only this way gets 403 "Access denied" |
| Grades.ProjectSheetIds | server/src/routes/v1/grades.ts:124-135 | exactly the project's live submissions of live assignments, newest first |
| Grades.ProjectSheet | server/src/routes/v1/grades.ts:115-137 | fails exactly when the check fails, with its error; otherwise one row per sheet submission, in that order, each with its grade row if any |
| Grades.StudentSeesOnlyOwnTeamSheet | server/src/routes/v1/grades.ts:119-122 | of the projects a student may read, they get the sheet exactly of their active team's project |
| Grades.AssignmentSheetCheck | server/src/routes/v1/grades.ts:139-148 | 401 without login, 404 for a missing assignment, and otherwise passes exactly for staff of its class |
| Grades.AssignmentSheetIds | server/src/routes/v1/grades.ts:149-158 | exactly the assignment's live submissions, newest first |
| Grades.AssignmentSheet | server/src/routes/v1/grades.ts:138-160 | fails exactly when the check fails, with its error; otherwise one row per live submission, newest first, each with its grade row if any |
| Cases.GetCase | server/src/routes/v1/cases.ts:57-62 | succeeds exactly for a live case, returning it; otherwise 404 "Case not found" |
| Cases.CreateCheck | server/src/routes/v1/cases.ts:22-31 | the teacher check's error first, then 404 "Class not found" for a missing class; passes exactly for staff of a live, writable class; the new row is live, in that class, created by the caller, with the body's fields and an empty attachment list when none is sent |
| Cases.CreateCase | server/src/routes/v1/cases.ts:19-39 | fails exactly when the check fails, changing nothing; otherwise the case is appended with the next id and audited with the new row |
| Cases.ListCases | server/src/routes/v1/cases.ts:40-51 | succeeds exactly when the caller may read the class; lists exactly its live cases, newest first |
| Cases.ReadCase | server/src/routes/v1/cases.ts:52-65 | 401 without login before any lookup, 404 for a missing or deleted case, and otherwise succeeds exactly when the caller may read the case's class |
| Cases.AnonymousReadRevealsNothing | server/src/routes/v1/cases.ts:53-54 | an anonymous caller gets the same answer for every case id, so whether a case exists is not revealed |
| Cases.ListedCaseIsReadable | server/src/routes/v1/cases.ts:40-65 | every case the class listing shows can be opened by the same caller |
| Cases.WriteCheck | server/src/routes/v1/cases.ts:69-80 | 401 without login, then 404 for a missing case, and otherwise passes exactly for staff of the case's live, writable class, returning the row as it was |
| Cases.Patched | server/src/routes/v1/cases.ts:84-89 | each supplied field replaces the old one, a supplied attachment list even when empty; every other field, the class, the creator and the deletion mark stay |
| Cases.EmptyPatchKeepsCase | server/src/routes/v1/cases.ts:84-89 | an edit that supplies nothing leaves the case as it was |
| Cases.PatchIdempotent | server/src/routes/v1/cases.ts:84-89 | applying the same edit twice gives the same row as applying it once |
| Cases.PatchCase | server/src/routes/v1/cases.ts:66-100 | fails exactly when the check fails, changing nothing; otherwise only that case is replaced by the edited row and the update is audited with the row before and after |
| Cases.Deleted | server/src/routes/v1/cases.ts:114 | the soft-deleted row is no longer live and differs from the old one only in its deletion mark |
| Cases.DeleteCase | server/src/routes/v1/cases.ts:101-117 | fails exactly when the check fails, changing nothing; otherwise only that case is stamped deleted and the delete is audited with the old row |
| Cases.DeletedCaseIsGone | server/src/routes/v1/cases.ts:52-117 | after a soft delete, a logged-in reader and any later edit or delete get 404, and the class listing no longer shows the case |
| Users.SharesClassByRow | server/src/routes/v1/users.ts:19-47 | the row-by-row reading of the two lookups and the class-set reading agree for every user |
| Users.TeacherAccess | server/src/routes/v1/users.ts:17-48 | passes exactly when the user is an active student or a teacher of one of the teacher's live classes; otherwise 403 "Access denied", also for a teacher with no class |
| Users.StudentProfileOf | server/src/routes/v1/users.ts:137 | a student profile row of the user when there is one, none exactly when the user has none |
| Users.UserRowOf | server/src/routes/v1/users.ts:143-151 | the row carries the user's id, username, role and must-change flag, and the student profile's real name before the teacher profile's, or none |
| Users.StripQuotes | server/src/routes/v1/users.ts:110 | no longer than the input and free of double and single quotes; an input without quotes is returned unchanged |
| Users.SearchTerm | server/src/routes/v1/users.ts:110 | the search term never contains a quote |
| Users.StripQuotesIdempotent | server/src/routes/v1/users.ts:110 | stripping quotes a second time changes nothing |
| Users.ListUserIds | server/src/routes/v1/users.ts:54-141 | 401 without login, 403 "Insufficient permissions" for a student; otherwise exactly the live users matching the search that the caller may see (all for an admin; for a teacher themself, every teacher, and the users sharing a class), ascending by id |
| Users.ListUsers | server/src/routes/v1/users.ts:54-152 | fails exactly as the id listing does; otherwise one joined row per listed id, in that order |
| Users.ClasslessTeacherSeesTeachers | server/src/routes/v1/users.ts:103-106 | a teacher of no class is listed only themself and other teachers |
| Users.RoleGate | server/src/routes/v1/users.ts:154-160 | 401 without login; passes exactly for an admin, a teacher, or a user asking about themself; otherwise 403 "Insufficient permissions" |
| Users.AssociationGate | server/src/routes/v1/users.ts:180-183 | passes exactly for a non-teacher, a teacher asking about themself, or one sharing a class with the user; otherwise 403 "Access denied" |
| Users.ReadUser | server/src/routes/v1/users.ts:153-194 | the role gate's error first, then 404 "User not found" for a missing or deleted user; succeeds exactly for a live user the caller may fetch, returning the joined row |
| Users.ListedStudentIsReadable | server/src/routes/v1/users.ts:54-194 | every non-teacher a teacher's directory lists, that teacher may also open |
| Users.ListedColleagueMayBeRefused | server/src/routes/v1/users.ts:69-73 | a live teacher sharing no class with the caller is listed in the directory, yet opening them is refused with 403 "Access denied" |
| Users.LiveStudentProfile | server/src/routes/v1/users.ts:206-210 | a live student profile of the user when there is one, none exactly when there is none |
| Users.ProfileOf | server/src/routes/v1/users.ts:205-223 | none exactly when the user has no live student, teacher or admin profile; a live student profile is chosen first |
| Users.ReadProfile | server/src/routes/v1/users.ts:195-231 | the role gate's error first, then 404 "Profile not found"; succeeds exactly when a live profile exists and the caller may fetch the user, returning that profile |
| Users.LookupsAgreeOnAccess | server/src/routes/v1/users.ts:153-231 | for a live user with a live profile, the user lookup and the profile lookup let exactly the same callers through |
| Users.NewHash | server/src/routes/v1/users.ts:247 | succeeds exactly when hashing succeeds, with its hash |
| Users.CurrentPasswordCheck | server/src/routes/v1/users.ts:239-245 | 401 "User not found" for a missing or deleted caller row, 401 "Invalid password" for a wrong current password, and passes exactly otherwise |
| Users.ChangePasswordCheck | server/src/routes/v1/users.ts:234-254 | a new password shorter than 6 is refused first, then a missing login, then the current-password check; passes exactly when all pass and hashing succeeds, yielding the new hash |
| Users.ChangePassword | server/src/routes/v1/users.ts:232-255 | fails exactly when the check fails, changing nothing; otherwise only the caller's row takes the new hash and loses the must-change flag |
| Users.ChangedPasswordVerifies | server/src/routes/v1/users.ts:245-251 | after a change, the new password passes the current-password check, given a working key derivation |
| Users.ResetCheck | server/src/routes/v1/users.ts:257-270 | the teacher check's error first; a student not actively enrolled in a writable class gives 400 "Student not enrolled in this class"; passes exactly for staff of a writable class and an enrolled student |
| Users.ResetPassword | server/src/routes/v1/users.ts:256-283 | fails exactly when the check or the hashing fails, changing nothing; otherwise the student's row gets the hash of the default password and must change it, the reset is audited, and the default password is returned |
| Users.ResetStudentLogsInWithDefault | server/src/routes/v1/users.ts:272-275 | after a reset the student must change their password and the default password passes the current-password check |
| Admin.AdminOnly | server/src/routes/v1/admin.ts:14-15 | 401 without login, 403 "Admin required" for a non-admin, and passes exactly for an admin |
| Admin.NewestPage | server/src/routes/v1/admin.ts:30-31 | the first n ids of a newest-first list are still newest first and newer than every id left out |
| Admin.QueryAuditIds | server/src/routes/v1/admin.ts:13-32 | fails exactly as the admin gate does; otherwise at most 200 ids, newest first, each of a row matching every filter given, and a matching row is left out only when 200 newer matching rows fill the page |
| Admin.QueryAudit | server/src/routes/v1/admin.ts:13-38 | fails exactly as the admin gate does; otherwise the audit rows of those ids, in that order, each matching the filters |
| Admin.SmallResultIsComplete | server/src/routes/v1/admin.ts:26-32 | when fewer than 200 rows match, every matching row is returned |
| Admin.TempPassword | server/src/routes/v1/admin.ts:46 | the given password when it is present and non-empty; otherwise the default student password |
| Admin.AddProfile | server/src/routes/v1/admin.ts:53-63 | exactly the profile table of the role gets one row for the new id, refused exactly when it clashes with an existing row; the users table and the account invariant are kept |
| Admin.CreateAccount | server/src/routes/v1/admin.ts:47-63 | a taken username is refused with nothing changed; otherwise the users row is appended, and a clashing profile leaves that row without a profile, while success adds the profile and returns the new id |
| Admin.CreateUser | server/src/routes/v1/admin.ts:39-75 | the admin gate's error changes nothing; otherwise the directory becomes the account creation's result, and on success the creation is audited with the row and the plain-text temporary password, which is returned |
| Admin.CreatedAccountHasProfile | server/src/routes/v1/admin.ts:47-63 | a created account has the requested role, must change its password, and its role's profile row is filed under its own id |
| Admin.RoleCheck | server/src/routes/v1/admin.ts:79-85 | the admin gate's error first, then 404 "User not found" for an id with no row; passes exactly for an admin and any existing row, deleted or not |
| Admin.ChangeRole | server/src/routes/v1/admin.ts:76-92 | fails exactly when the check fails, changing nothing; otherwise only that row's role changes and the change is audited with the row before and after |
| Admin.DeletedAccountRoleChanges | server/src/routes/v1/admin.ts:84-86 | a soft-deleted account still gets its role changed by an admin |
| Admin.RolesMatrix | server/src/routes/v1/admin.ts:93-119 | fails exactly as the admin gate does; otherwise every role is named in the matrix |
| Admin.ListAbacRules | server/src/routes/v1/admin.ts:120-126 | fails exactly as the admin gate does; otherwise exactly the live rules, each as stored |
| Admin.Toggled | server/src/routes/v1/admin.ts:135-138 | the key ends with the flag given: an existing row, deleted or not, changes only its flag, a new key gets a fresh live row, and every other rule stays as it was |
| Admin.ToggleIdempotent | server/src/routes/v1/admin.ts:135-138 | setting the same flag twice is the same as setting it once |
| Admin.ToggleKeepsDeletedRuleHidden | server/src/routes/v1/admin.ts:124-138 | toggling a soft-deleted rule does not bring it back into the listing |
| Admin.ToggleAbacRule | server/src/routes/v1/admin.ts:127-143 | fails exactly as the admin gate does, changing nothing; otherwise the rules become the toggled ones and the toggle is audited with the new flag |
| Admin.RecentErrors | server/src/routes/v1/admin.ts:144-157 | fails exactly as the admin gate does; otherwise the newest 50 recorded errors, or all when fewer, newest first, each with its code, message and context |
| Admin.RepairCheck | server/src/routes/v1/admin.ts:158-165 | the admin gate's error first, then 404 "Project not found"; passes exactly when the project exists, its team is in the same class, and its class is not archived, a class mismatch reported first |
| Admin.RepairProject | server/src/routes/v1/admin.ts:158-168 | no table changes; fails exactly when the check fails; otherwise the repair is audited on the project |
| Admin.RepairEnrollment | server/src/routes/v1/admin.ts:169-174 | fails exactly as the admin gate does; otherwise only a bulk repair row is audited |
| Notifications.ListNotifications | server/src/routes/v1/notifications.ts:11-21 | 401 without login; otherwise exactly the caller's live notifications, newest first |
| Notifications.MarkCheck | server/src/routes/v1/notifications.ts:23-32 | 401 without login, 404 "Notification not found" for a missing or deleted row, 403 "Access denied" for another user's, and passes exactly for a live notification of the caller |
| Notifications.Marked | server/src/routes/v1/notifications.ts:34 | only that notification changes, and only its read time |
| Notifications.MarkIdempotent | server/src/routes/v1/notifications.ts:34 | marking twice with the same time is the same as marking once |
| Notifications.MarkKeepsListing | server/src/routes/v1/notifications.ts:11-34 | a read mark neither hides nor reveals any notification in anyone's listing |
| Notifications.MarkRead | server/src/routes/v1/notifications.ts:22-36 | fails exactly when the check fails, changing nothing; otherwise the notification is marked read at the time in the body, or now, and that time is returned |

## Left out

- Input and output are not modelled. The database, the clock, the environment, the configuration files and the random salt become values passed in. Disk storage of uploaded files is not part of this model, and neither is `_uploads.ts`: a hand-in takes the ids of its already stored files.
- Crypto primitives are function parameters: scrypt, HMAC-SHA256, SHA-256, hex and UTF-8 conversion. The lemmas that need them to behave, for example a changed password verifying, state that assumption in their requires.
- JSON text is not modelled. `JSON.stringify`/`parse` of configs, payloads, rubrics and audit snapshots are structured values. `parseJsonOr` is a function parameter.
- Concurrency and transactions are not modelled. Each handler is one atomic step, and no two requests interleave. The routes' sequential statements without a transaction are therefore not shown failing halfway. Account creation by an admin is the exception: it is modelled as two statements, so a failed profile insert leaves the user row behind.
- Numbers are partly modelled:
  - ids are integers, and a fractional route id, which `asNumber` passes on, matches no row;
  - grade scores and coefficients are `real`;
  - `Number()` of a string is modelled only for trimmed decimal digits with an optional sign, and every other string counts as NaN;
  - JavaScript string length is counted in characters, not UTF-16 code units.
- Timestamps are natural numbers compared as such, not ISO strings. A window's start and end are optional times. The error buffer's timestamp is a string passed in by the caller.
- SQL `LIKE` in the user search is modelled as case-sensitive substring search. Its `%`/`_` wildcards inside the search term and SQLite's ASCII case folding are not modelled.
- The `config` column of ABAC rules, the class `config` JSON, the teacher profile's contact columns, the e-mail fields and error stacks are not part of this model. The ABAC rule listing is a map by key, so the order of its keys is not modelled.
- Request body validation by the framework is not modelled; bodies arrive with the declared types. The exception is the new password's minimum length of 6, which `Users.ChangePasswordCheck` checks first.
- A thrown value whose `message` is not a string is treated as having no message.
- The logger and the request-id middleware are not part of this model.
- Notification delivery is an append to the notification table only.
- The archived legacy route file, `files.ts` and the client are not part of this model.
- The plaintext temporary password written into the audit log by admin account creation is modelled as written.
- Projects.EditOnArchivedClassIsInternal: editing a project of an archived class passes the handler's checks and is refused by the trigger with a generic 500, not a 403. This is modelled as written and not listed as a finding, since the handler never claims to check writability.
- Submissions.VersionsIgnoreOwnership: the versions listing checks only that the class is readable, so a student refused the single view is served the versions. This is modelled as written; the source gives no sign that the omission is unintended.
- PeerReview.DecisionIgnoresWindowStatus: the decision targets the newest window whatever its status. This is modelled as the code does it.
- Base64.UrlDecode and Base64.DecodePadded are strict: a character outside the alphabet makes decoding fail, while `Buffer.from(…, 'base64')` skips it. A token or stored hash with such characters is therefore refused in the model where the server would decode what is left.
- Projects.ListProjects: the team filter is a row id. The source's `Number(q.teamId)` of text that is not a number is NaN, which matches no team; the model has no id for that case.
- Config.SetPath treats an array on an override path like any other non-object, so the assignment throws in the model. In JavaScript it sets a property on the array. Only a configuration file holding an array where an object is expected reaches this case.
- The route models check a malformed route id (400 "Invalid id" from `asNumber`) at the point where the id is used, not always before the login check. The order between that error and the other early errors is not modelled.
- The triggers that touch `updated_at` after an update are not part of this model, and neither is the `updated_at` column.

## Findings

| source | as written | input that shows it | evidently intended | confidence | as-written member | corrected member |
|---|---|---|---|---|---|---|
| server/src/config/index.ts:189-190 | `cachedSig` is set before `applyEnvOverrides` runs, so an override that throws leaves the new signature paired with the configuration cached under the old environment | a configuration file whose `server` is a string; first call with no variables set, then set `CORS_ORIGIN_REGEX`: the second call throws, and a third call returns the stale first configuration | record the signature only after the configuration was built, so every returned configuration was built under the current environment | not executed | Config.StaleAfterFailedRefresh | Config.NoStaleAfterFailedRefresh |
| server/src/routes/v1/submissions.ts:2 | `inArray` is used at lines 179 and 186 but not imported, so listing submissions throws a ReferenceError whenever any row is in scope, answered as a generic 500 | a teacher of the class listing an assignment with one live submission | import `inArray` and return the rows in scope with their files and grade | not executed | Submissions.ListingFailsWheneverARowIsVisible | Submissions.ListSubmissions |
| server/src/routes/v1/assignments.ts:89 | the stage-key check runs only for a truthy key, and `??` at line 93 keeps an empty string, so `""` is stored as the stage key | PATCH with body `{"stageKey": ""}` on a live assignment | refuse any supplied key that is not a stage key with 400 "Invalid stageKey" | not executed | Assignments.EmptyStageKeyIsStored | Assignments.PatchKeyAgreesUnlessEmpty |
| server/src/routes/v1/peer_review.ts:221-224 | the upsert's conflict target is (window_id, team_id) without `WHERE deleted_at IS NULL`, while the only unique index on those columns is partial, so SQLite refuses to prepare the statement and every decision past the checks is answered as a generic 500 with no row and no audit | an admin posting `{"adopt": true}` for a project of a writable class that has a live window | name the index's condition in the conflict target so that the decision is inserted or overwrites the pair's live row | not executed | PeerReview.DecideAsWritten | PeerReview.Decide |
| server/src/routes/v1/classes.ts:34 | `db.transcation` is misspelt, so the call throws a TypeError before any statement runs and every class creation is answered as a generic 500 | a teacher posting any well-formed class | create the class, its owner row and the audit entry in one transaction | not executed | Classes.CreateNeverSucceedsAsWritten | Classes.CreatorOwnsClass |
