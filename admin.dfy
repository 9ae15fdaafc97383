/**
 * The admin routes (server/src/routes/v1/admin.ts): the audit-log query, account
 * creation and role change, the role matrix, the persisted ABAC rule table, the recent
 * error list and the two repair endpoints. Every one of them is for admins only.
 */
module Admin {
  import opened Wrappers
  import opened Schema
  import opened HttpErrors
  import opened Store
  import opened Helpers
  import opened ErrorMapper
  import Statements
  import Queries
  import Auth
  import JsonValue
  import ErrMonitor
  import Classes

  const USERS_TABLE := "users"
  const ABAC_TABLE := "abac_rules"
  const PROJECTS_TABLE := "projects"
  const ENROLLMENTS_TABLE := "class_students"
  const USER_CREATE_ACTION := "admin.user.create"
  const USER_ROLE_ACTION := "admin.user.role"
  const ABAC_TOGGLE_ACTION := "admin.abac.toggle"
  const FIX_PROJECT_ACTION := "admin.fix.project"
  const FIX_ENROLLMENT_ACTION := "admin.fix.enrollment"

  /** The gate of every admin route: 401 without a user, 403 "Admin required" for the rest. */
  function AdminOnly(user: Option<Actor>): (r: Result<Actor, HttpError>)
    ensures user.None? ==> r == Err(Unauthorized("Login required"))
    ensures user.Some? && user.value.role != Auth.Admin ==> r == Err(Forbidden("Admin required"))
    ensures r.Ok? <==> user.Some? && user.value.role == Auth.Admin
    ensures r.Ok? ==> r.value == user.value
  {
    var me :- RequireUser(user);
    if me.role != Auth.Admin then Err(Forbidden("Admin required")) else Ok(me)
  }

  /* ---------- GET /admin/audit-logs ---------- */

  /** At most this many rows come back. */
  const AUDIT_PAGE: nat := 200

  /**
   * The filters, each applied when given (a numeric one is already parsed; `from` and
   * `to` bound the creation time, both ends included). An empty action string is falsy
   * and filters nothing.
   */
  datatype AuditQuery = AuditQuery(classId: Option<Id>, teamId: Option<Id>, projectId: Option<Id>,
                                   actorId: Option<Id>, action: Option<string>, from: Option<Time>, to: Option<Time>)

  predicate Selected(q: AuditQuery, a: AuditEntry)
  {
    && (q.classId.Some? ==> a.classId == q.classId)
    && (q.teamId.Some? ==> a.teamId == q.teamId)
    && (q.projectId.Some? ==> a.projectId == q.projectId)
    && (q.actorId.Some? ==> a.actorId == q.actorId.value)
    && (q.action.Some? && q.action.value != "" ==> a.action == q.action.value)
    && (q.from.Some? ==> a.createdAt >= q.from.value)
    && (q.to.Some? ==> a.createdAt <= q.to.value)
  }

  /** The first `n` of a newest-first list are newer than every id left out. */
  lemma NewestPage(all: seq<Id>, n: nat)
    requires Queries.Decreasing(all) && n <= |all|
    ensures Queries.Decreasing(all[..n])
    ensures forall id :: id in all[..n] ==> id in all
    ensures forall id :: id in all && id !in all[..n] ==> forall k :: 0 <= k < n ==> all[..n][k] > id
  {
    forall id | id in all && id !in all[..n] ensures forall k :: 0 <= k < n ==> all[..n][k] > id {
      var j :| 0 <= j < |all| && all[j] == id;
      assert j >= n;
    }
  }

  /**
   * The ids of the audit rows the query returns: the matching rows, newest first, the
   * newest 200 when there are more. (Audit rows are never deleted, so the deleted_at
   * filter keeps them all.)
   */
  function QueryAuditIds(audit: seq<AuditEntry>, user: Option<Actor>, q: AuditQuery): (r: Result<seq<Id>, HttpError>)
    ensures r.Ok? <==> AdminOnly(user).Ok?
    ensures r.Err? ==> r.error == AdminOnly(user).error
    ensures r.Ok? ==> |r.value| <= AUDIT_PAGE && Queries.Decreasing(r.value)
    ensures r.Ok? ==> forall id :: id in r.value ==> Has(audit, id) && Selected(q, audit[id - 1])
    ensures r.Ok? ==> forall id :: Has(audit, id) && Selected(q, audit[id - 1]) && id !in r.value ==>
      |r.value| == AUDIT_PAGE && forall k :: 0 <= k < |r.value| ==> r.value[k] > id
  {
    var _ :- AdminOnly(user);
    var all := Queries.SelectNewestFirst(audit, (a: AuditEntry) => Selected(q, a));
    if |all| <= AUDIT_PAGE then Ok(all)
    else
      NewestPage(all, AUDIT_PAGE);
      Ok(all[..AUDIT_PAGE])
  }

  /** GET /admin/audit-logs: the rows themselves, in the order of their ids. */
  function QueryAudit(audit: seq<AuditEntry>, user: Option<Actor>, q: AuditQuery): (r: Result<seq<AuditEntry>, HttpError>)
    ensures r.Ok? <==> AdminOnly(user).Ok?
    ensures r.Err? ==> r.error == AdminOnly(user).error
    ensures r.Ok? ==> |r.value| == |QueryAuditIds(audit, user, q).value|
    ensures r.Ok? ==> forall k :: 0 <= k < |r.value| ==>
      var id := QueryAuditIds(audit, user, q).value[k];
      Has(audit, id) && r.value[k] == audit[id - 1] && Selected(q, r.value[k])
  {
    var ids :- QueryAuditIds(audit, user, q);
    assert forall k :: 0 <= k < |ids| ==> ids[k] in ids;
    Ok(seq(|ids|, k requires 0 <= k < |ids| => audit[ids[k] - 1]))
  }

  /** With fewer than 200 matches, the query returns every matching row. */
  lemma SmallResultIsComplete(audit: seq<AuditEntry>, user: Option<Actor>, q: AuditQuery, id: Id)
    requires QueryAuditIds(audit, user, q).Ok? && |QueryAuditIds(audit, user, q).value| < AUDIT_PAGE
    requires Has(audit, id) && Selected(q, audit[id - 1])
    ensures id in QueryAuditIds(audit, user, q).value
  {
  }

  /* ---------- POST /admin/users ---------- */

  /** The free-form profile object, as far as the handler reads it. */
  datatype ProfileBody = ProfileBody(realName: Option<string>, teacherNo: Option<string>, studentNo: Option<string>)

  datatype NewUserBody = NewUserBody(role: Auth.Role, username: string, password: Option<string>,
                                     profile: Option<ProfileBody>)

  /** `b.password || DEFAULT_STUDENT_PASSWORD`: a missing or empty password falls back. */
  function TempPassword(b: NewUserBody, hashing: Classes.Hashing): (p: string)
    ensures b.password.Some? && b.password.value != "" ==> p == b.password.value
    ensures b.password.None? || b.password.value == "" ==> p == hashing.defaultStudentPassword
  {
    if b.password.Some? && b.password.value != "" then b.password.value else hashing.defaultStudentPassword
  }

  /** `p.realName || b.username`, with `p` the profile or `{}`. */
  function RealNameOf(b: NewUserBody): string
  {
    if b.profile.Some? && b.profile.value.realName.Some? && b.profile.value.realName.value != "" then
      b.profile.value.realName.value
    else b.username
  }

  /** `p.studentNo || b.username`. */
  function StudentNoOf(b: NewUserBody): string
  {
    if b.profile.Some? && b.profile.value.studentNo.Some? && b.profile.value.studentNo.value != "" then
      b.profile.value.studentNo.value
    else b.username
  }

  /** `p.teacherNo ?? null`: an empty number is kept. */
  function TeacherNoOf(b: NewUserBody): Option<string>
  {
    if b.profile.Some? then b.profile.value.teacherNo else None
  }

  /** The four account tables. */
  datatype Directory = Directory(users: seq<User>, students: seq<StudentProfile>, teachers: seq<TeacherProfile>,
                                 admins: seq<AdminProfile>)

  /** The new account: it must change its password at first login. */
  function NewAccountUser(b: NewUserBody, passwordHash: string): User
  {
    User(b.username, passwordHash, true, b.role, None)
  }

  /** An existing teacher profile the new one would collide with on a unique column. */
  predicate TeacherClash(t: TeacherProfile, id: Id, b: NewUserBody)
  {
    t.userId == id || (TeacherNoOf(b).Some? && t.teacherNo == TeacherNoOf(b))
  }

  /** An existing student profile the new one would collide with on a unique column. */
  predicate StudentClash(s: StudentProfile, id: Id, b: NewUserBody)
  {
    s.userId == id || s.studentNo == StudentNoOf(b)
  }

  /** The profile insert the role calls for, into that role's table only. */
  function AddProfile(d: Directory, id: Id, b: NewUserBody): (r: Result<Directory, string>)
    ensures r.Ok? ==> r.value.users == d.users
    ensures b.role == Auth.Teacher ==>
      (r.Err? <==> exists i :: 0 <= i < |d.teachers| && TeacherClash(d.teachers[i], id, b))
      && (r.Ok? ==> r.value == d.(teachers := d.teachers + [TeacherProfile(id, RealNameOf(b), TeacherNoOf(b), None)]))
    ensures b.role == Auth.Student ==>
      (r.Err? <==> exists i :: 0 <= i < |d.students| && StudentClash(d.students[i], id, b))
      && (r.Ok? ==> r.value == d.(students := d.students + [StudentProfile(id, StudentNoOf(b), RealNameOf(b), None)]))
    ensures b.role == Auth.Admin ==>
      (r.Err? <==> exists i :: 0 <= i < |d.admins| && d.admins[i].userId == id)
      && (r.Ok? ==> r.value == d.(admins := d.admins + [AdminProfile(id, 1, None)]))
    ensures r.Ok? && AccountsValid(d.users, d.students) ==> AccountsValid(r.value.users, r.value.students)
  {
    match b.role
    case Teacher =>
      var ts :- Statements.InsertTeacherProfile(d.teachers, TeacherProfile(id, RealNameOf(b), TeacherNoOf(b), None));
      Ok(d.(teachers := ts))
    case Student =>
      var ss :- Statements.InsertStudentProfile(d.students, StudentProfile(id, StudentNoOf(b), RealNameOf(b), None));
      Ok(d.(students := ss))
    case Admin =>
      var xs :- Statements.InsertAdminProfile(d.admins, AdminProfile(id, 1, None));
      Ok(d.(admins := xs))
  }

  /**
   * INSERT INTO users, then the profile insert, outside any transaction: a taken
   * username stops the first and nothing changes; a clashing profile stops the second
   * and the users row stays without a profile.
   */
  function CreateAccount(d: Directory, b: NewUserBody, passwordHash: string): (r: (Directory, Result<Id, HttpError>))
    ensures Classes.UsernameTaken(d.users, b.username) ==> r == (d, Err(DbError(UniqueFailed("users.username"))))
    ensures !Classes.UsernameTaken(d.users, b.username) ==>
      r.0.users == d.users + [NewAccountUser(b, passwordHash)]
      && (r.1.Ok? <==> AddProfile(d, |d.users| + 1, b).Ok?)
      && (r.1.Ok? ==> r.1.value == |d.users| + 1
                      && r.0 == AddProfile(d, |d.users| + 1, b).value.(users := r.0.users))
      && (r.1.Err? ==> r.0 == d.(users := r.0.users))
    ensures AccountsValid(d.users, d.students) ==> AccountsValid(r.0.users, r.0.students)
  {
    match Statements.InsertUser(d.users, NewAccountUser(b, passwordHash))
    case Err(msg) => (d, Err(DbError(msg)))
    case Ok(users') =>
      var id := |d.users| + 1;
      match AddProfile(d, id, b)
      case Err(msg) => (d.(users := users'), Err(DbError(msg)))
      case Ok(d') => (d'.(users := users'), Ok(id))
  }

  /** The four tables as the method sees them. */
  function DirectoryOf(db: Db): Directory
    reads db
  {
    Directory(db.users, db.studentProfiles, db.teacherProfiles, db.adminProfiles)
  }

  /** Writes the four tables back; the account invariant carries over. */
  method SetDirectory(db: Db, d: Directory)
    requires db.Valid() && AccountsValid(d.users, d.students)
    modifies db`users, db`studentProfiles, db`teacherProfiles, db`adminProfiles
    ensures db.Valid() && DirectoryOf(db) == d
  {
    db.users := d.users;
    db.studentProfiles := d.students;
    db.teacherProfiles := d.teachers;
    db.adminProfiles := d.admins;
  }

  /** The row returned and audited: the new user and the password it was given. */
  datatype Created = Created(id: Id, user: User, tempPassword: string)

  /**
   * POST /admin/users: the account is created with the given or the default password;
   * its creation is audited with the row and the plain-text temporary password.
   */
  method CreateUser(db: Db, ctx: Ctx, hashing: Classes.Hashing, b: NewUserBody) returns (r: Result<Created, HttpError>)
    requires db.Valid()
    modifies db`users, db`studentProfiles, db`teacherProfiles, db`adminProfiles, db.journal`audit
    ensures db.Valid()
    ensures AdminOnly(ctx.user).Err? ==>
      r == Err(AdminOnly(ctx.user).error) && DirectoryOf(db) == old(DirectoryOf(db))
      && db.journal.audit == old(db.journal.audit)
    ensures AdminOnly(ctx.user).Ok? ==>
      var pass := TempPassword(b, hashing);
      var c := CreateAccount(old(DirectoryOf(db)), b, hashing.hash(pass));
      && DirectoryOf(db) == c.0
      && (c.1.Err? ==> r == Err(c.1.error) && db.journal.audit == old(db.journal.audit))
      && (c.1.Ok? ==>
            var u := NewAccountUser(b, hashing.hash(pass));
            r == Ok(Created(c.1.value, u, pass))
            && db.journal.audit == old(db.journal.audit)
                 + [AuditRow(ctx, ctx.user.value, USER_CREATE_ACTION, USERS_TABLE, IdText(c.1.value), None,
                             Some(NewAccount(c.1.value, u, pass)), None, None, None)])
  {
    var _ :- AdminOnly(ctx.user);
    var pass := TempPassword(b, hashing);
    var c := CreateAccount(DirectoryOf(db), b, hashing.hash(pass));
    SetDirectory(db, c.0);
    if c.1.Err? {
      return Err(c.1.error);
    }
    var u := NewAccountUser(b, hashing.hash(pass));
    db.journal.WriteAudit(ctx, USER_CREATE_ACTION, USERS_TABLE, IdText(c.1.value), None,
                          Some(NewAccount(c.1.value, u, pass)), None, None, None);
    r := Ok(Created(c.1.value, u, pass));
  }

  /** A created account always has the profile of its role, filed under its own id. */
  lemma CreatedAccountHasProfile(d: Directory, b: NewUserBody, passwordHash: string)
    requires CreateAccount(d, b, passwordHash).1.Ok?
    ensures var c := CreateAccount(d, b, passwordHash);
      var id := c.1.value;
      Has(c.0.users, id) && c.0.users[id - 1].role == b.role && c.0.users[id - 1].mustChangePassword
      && (b.role == Auth.Student ==> c.0.students[|c.0.students| - 1].userId == id)
      && (b.role == Auth.Teacher ==> c.0.teachers[|c.0.teachers| - 1].userId == id)
      && (b.role == Auth.Admin ==> c.0.admins[|c.0.admins| - 1].userId == id)
  {
    var id := |d.users| + 1;
    assert (d.users + [NewAccountUser(b, passwordHash)])[id - 1] == NewAccountUser(b, passwordHash);
  }

  /* ---------- PATCH /admin/users/:userId/role ---------- */

  /** The row to change: any users row with that id, deleted or not (404 "User not found"). */
  function RoleCheck(users: seq<User>, user: Option<Actor>, id: Id): (r: Result<User, HttpError>)
    ensures AdminOnly(user).Err? ==> r == Err(AdminOnly(user).error)
    ensures AdminOnly(user).Ok? && !Has(users, id) ==> r == Err(NotFound("User not found"))
    ensures r.Ok? <==> AdminOnly(user).Ok? && Has(users, id)
    ensures r.Ok? ==> r.value == users[id - 1]
  {
    var _ :- AdminOnly(user);
    if !Has(users, id) then Err(NotFound("User not found")) else Ok(users[id - 1])
  }

  /** Only the role column changes, so the username index keeps holding. */
  method ChangeRole(db: Db, ctx: Ctx, id: Id, role: Auth.Role) returns (r: Result<User, HttpError>)
    requires db.Valid()
    modifies db`users, db.journal`audit
    ensures db.Valid()
    ensures r.Ok? <==> old(RoleCheck(db.users, ctx.user, id)).Ok?
    ensures r.Err? ==>
      r.error == old(RoleCheck(db.users, ctx.user, id)).error
      && db.users == old(db.users) && db.journal.audit == old(db.journal.audit)
    ensures r.Ok? ==>
      var before := old(db.users)[id - 1];
      r.value == before.(role := role)
      && db.users == old(db.users)[id - 1 := r.value]
      && db.journal.audit == old(db.journal.audit)
           + [AuditRow(ctx, ctx.user.value, USER_ROLE_ACTION, USERS_TABLE, IdText(id), Some(UserSnap(id, before)),
                       Some(UserSnap(id, r.value)), None, None, None)]
  {
    var before :- RoleCheck(db.users, ctx.user, id);
    var after := before.(role := role);
    db.users := db.users[id - 1 := after];
    assert forall i :: 0 <= i < |db.users| ==> db.users[i].username == old(db.users)[i].username;
    db.journal.WriteAudit(ctx, USER_ROLE_ACTION, USERS_TABLE, IdText(id), Some(UserSnap(id, before)),
                          Some(UserSnap(id, after)), None, None, None);
    r := Ok(after);
  }

  /** A role change reaches deleted accounts too: the lookup does not filter them. */
  lemma DeletedAccountRoleChanges(users: seq<User>, admin: Actor, id: Id)
    requires admin.role == Auth.Admin && Has(users, id) && users[id - 1].deletedAt.Some?
    ensures RoleCheck(users, Some(admin), id) == Ok(users[id - 1])
  {
  }

  /* ---------- GET /admin/roles/matrix ---------- */

  datatype Matrix = Matrix(note: string, roles: seq<string>, resources: seq<string>)

  const MATRIX := Matrix(
    "This matrix is derived from server RBAC; ABAC may further restrict access.",
    ["admin", "teacher", "student"],
    ["users", "classes", "class_students", "teams", "team_join_requests", "projects", "project_stages",
     "assignments", "submissions", "grades", "peer_reviews", "peer_review_windows", "notifications",
     "audit_logs", "admin"])

  /** The fixed description of the roles and resources, for admins. */
  function RolesMatrix(user: Option<Actor>): (r: Result<Matrix, HttpError>)
    ensures r.Ok? <==> AdminOnly(user).Ok?
    ensures r.Err? ==> r.error == AdminOnly(user).error
    ensures r.Ok? ==> forall role: Auth.Role :: Auth.RoleName(role) in r.value.roles
  {
    var _ :- AdminOnly(user);
    Ok(MATRIX)
  }

  /* ---------- GET and PATCH /admin/abac/rules ---------- */

  /** The live rules, by key (the configuration column is not part of this model). */
  function ListAbacRules(rules: map<string, AbacRuleRow>, user: Option<Actor>): (r: Result<map<string, AbacRuleRow>, HttpError>)
    ensures r.Ok? <==> AdminOnly(user).Ok?
    ensures r.Err? ==> r.error == AdminOnly(user).error
    ensures r.Ok? ==> forall key :: key in r.value <==> key in rules && rules[key].deletedAt.None?
    ensures r.Ok? ==> forall key :: key in r.value ==> r.value[key] == rules[key]
  {
    var _ :- AdminOnly(user);
    Ok(map key | key in rules && rules[key].deletedAt.None? :: rules[key])
  }

  /**
   * INSERT ... ON CONFLICT (key) DO UPDATE SET enabled: a new key gets a fresh live row;
   * an existing one, deleted or not, keeps everything but its flag.
   */
  function Toggled(rules: map<string, AbacRuleRow>, key: string, enabled: bool): (r: map<string, AbacRuleRow>)
    ensures key in r && r[key].enabled == enabled
    ensures key in rules ==> r[key] == rules[key].(enabled := enabled)
    ensures key !in rules ==> r[key] == AbacRuleRow(enabled, None, None)
    ensures forall other :: other != key ==> (other in r <==> other in rules)
    ensures forall other :: other != key && other in rules ==> r[other] == rules[other]
  {
    rules[key := if key in rules then rules[key].(enabled := enabled) else AbacRuleRow(enabled, None, None)]
  }

  /** Setting the same flag twice is the same as setting it once. */
  lemma ToggleIdempotent(rules: map<string, AbacRuleRow>, key: string, enabled: bool)
    ensures Toggled(Toggled(rules, key, enabled), key, enabled) == Toggled(rules, key, enabled)
  {
  }

  /** A soft-deleted rule stays deleted: toggling it does not bring it back into the listing. */
  lemma ToggleKeepsDeletedRuleHidden(rules: map<string, AbacRuleRow>, key: string, enabled: bool, admin: Actor)
    requires admin.role == Auth.Admin && key in rules && rules[key].deletedAt.Some?
    ensures key !in ListAbacRules(Toggled(rules, key, enabled), Some(admin)).value
  {
  }

  /** PATCH /admin/abac/rules/:key: the upsert, audited with the new flag. */
  method ToggleAbacRule(db: Db, ctx: Ctx, key: string, enabled: bool) returns (r: Result<bool, HttpError>)
    requires db.Valid()
    modifies db`abacRules, db.journal`audit
    ensures db.Valid()
    ensures r.Ok? <==> AdminOnly(ctx.user).Ok?
    ensures r.Err? ==>
      r.error == AdminOnly(ctx.user).error
      && db.abacRules == old(db.abacRules) && db.journal.audit == old(db.journal.audit)
    ensures r.Ok? ==>
      r.value == enabled
      && db.abacRules == Toggled(old(db.abacRules), key, enabled)
      && db.journal.audit == old(db.journal.audit)
           + [AuditRow(ctx, ctx.user.value, ABAC_TOGGLE_ACTION, ABAC_TABLE, key, None,
                       Some(Fields(JsonValue.Obj([JsonValue.Field("enabled", JsonValue.Bool(enabled))]))),
                       None, None, None)]
  {
    var _ :- AdminOnly(ctx.user);
    db.abacRules := Toggled(db.abacRules, key, enabled);
    db.journal.WriteAudit(ctx, ABAC_TOGGLE_ACTION, ABAC_TABLE, key, None,
                          Some(Fields(JsonValue.Obj([JsonValue.Field("enabled", JsonValue.Bool(enabled))]))),
                          None, None, None);
    r := Ok(enabled);
  }

  /* ---------- GET /admin/errors ---------- */

  /** One row of the error list; its time is the time of the request, not of the error. */
  datatype ErrorRow = ErrorRow(level: string, code: string, message: string, createdAt: string, details: Details)

  const ERROR_PAGE := 50

  /** The newest 50 recorded errors, newest first, from the in-memory monitor. */
  function RecentErrors(monitor: ErrMonitor.ErrorMonitor, user: Option<Actor>, now: string)
    : (r: Result<seq<ErrorRow>, HttpError>)
    reads monitor
    ensures r.Ok? <==> AdminOnly(user).Ok?
    ensures r.Err? ==> r.error == AdminOnly(user).error
    ensures r.Ok? ==> |r.value| == (if |monitor.buffer| < ERROR_PAGE then |monitor.buffer| else ERROR_PAGE)
    ensures r.Ok? ==> forall i :: 0 <= i < |r.value| ==>
      var e := monitor.buffer[|monitor.buffer| - 1 - i];
      r.value[i] == ErrorRow("error", e.code, e.message, now, e.context)
  {
    var _ :- AdminOnly(user);
    var recent := monitor.GetRecentHttpErrors(ERROR_PAGE);
    Ok(seq(|recent|, i requires 0 <= i < |recent| =>
      ErrorRow("error", recent[i].code, recent[i].message, now, recent[i].details)))
  }

  /* ---------- POST /admin/fixes/project/:projectId and /admin/fixes/enrollment ---------- */

  /**
   * The project repair rewrites the status the row already has, so no activation
   * trigger fires; the write guards still run, and a team of another class or an
   * archived class makes the statement abort, in that order.
   */
  function RepairCheck(classes: seq<Class>, flags: WriteFlags, teams: seq<Team>, ps: seq<Project>,
                       user: Option<Actor>, projectId: Id): (r: Result<Project, HttpError>)
    ensures AdminOnly(user).Err? ==> r == Err(AdminOnly(user).error)
    ensures AdminOnly(user).Ok? && GetProject(ps, projectId).Err? ==> r == Err(NotFound("Project not found"))
    ensures r.Ok? <==>
      AdminOnly(user).Ok? && GetProject(ps, projectId).Ok?
      && !ClassMismatch(teams, ps[projectId - 1].teamId, ps[projectId - 1].classId)
      && !ArchivedBlocks(classes, flags, ps[projectId - 1].classId)
    ensures r.Ok? ==> r.value == ps[projectId - 1]
  {
    var _ :- AdminOnly(user);
    var p :- GetProject(ps, projectId);
    if ClassMismatch(teams, p.teamId, p.classId) then Err(DbError(PROJECT_CLASS_MISMATCH))
    else if ArchivedBlocks(classes, flags, p.classId) then Err(DbError(CLASS_ARCHIVED_READONLY))
    else Ok(p)
  }

  /** Rewriting a project's own status changes no table and is audited on the project. */
  method RepairProject(db: Db, ctx: Ctx, projectId: Id) returns (r: Result<(), HttpError>)
    requires db.Valid()
    modifies db`projects, db`teams, db`stages, db.journal`audit
    ensures db.Valid()
    ensures db.projects == old(db.projects) && db.teams == old(db.teams) && db.stages == old(db.stages)
    ensures r.Ok? <==> old(RepairCheck(db.classes, db.flags, db.teams, db.projects, ctx.user, projectId)).Ok?
    ensures r.Err? ==>
      r.error == old(RepairCheck(db.classes, db.flags, db.teams, db.projects, ctx.user, projectId)).error
      && db.journal.audit == old(db.journal.audit)
    ensures r.Ok? ==>
      var p := old(db.projects)[projectId - 1];
      db.journal.audit == old(db.journal.audit)
        + [AuditRow(ctx, ctx.user.value, FIX_PROJECT_ACTION, PROJECTS_TABLE, IdText(projectId), None, None,
                    Some(p.classId), Some(p.teamId), Some(projectId))]
  {
    var _ :- AdminOnly(ctx.user);
    var p :- GetProject(db.projects, projectId);
    var w := Statements.UpdateProject(db.classes, db.flags, db.teams, db.projects, db.stages, projectId,
                                      p.(status := p.status), ctx.now);
    if w.Err? {
      assert ArchivedBlocks(db.classes, db.flags, p.classId) || ClassMismatch(db.teams, p.teamId, p.classId)
        by {
          assert db.projects[projectId - 1 := p] == db.projects;
        }
      return Err(DbError(w.error));
    }
    assert db.projects[projectId - 1 := p] == db.projects;
    db.projects := w.value.projects;
    db.teams := w.value.teams;
    db.stages := w.value.stages;
    db.journal.WriteAudit(ctx, FIX_PROJECT_ACTION, PROJECTS_TABLE, IdText(projectId), None, None,
                          Some(p.classId), Some(p.teamId), Some(projectId));
    r := Ok(());
  }

  /** The enrolment repair only records that it was asked for. */
  method RepairEnrollment(db: Db, ctx: Ctx) returns (r: Result<(), HttpError>)
    modifies db.journal`audit
    ensures r.Ok? <==> AdminOnly(ctx.user).Ok?
    ensures r.Err? ==> r.error == AdminOnly(ctx.user).error && db.journal.audit == old(db.journal.audit)
    ensures r.Ok? ==>
      db.journal.audit == old(db.journal.audit)
        + [AuditRow(ctx, ctx.user.value, FIX_ENROLLMENT_ACTION, ENROLLMENTS_TABLE, "bulk", None, None, None, None, None)]
  {
    var _ :- AdminOnly(ctx.user);
    db.journal.WriteAudit(ctx, FIX_ENROLLMENT_ACTION, ENROLLMENTS_TABLE, "bulk", None, None, None, None, None);
    r := Ok(());
  }
}
