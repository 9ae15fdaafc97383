/**
 * The access helpers every route handler shares (server/src/routes/_helpers.ts): the
 * login check, the row lookups that answer 404, the class/team/project read checks,
 * the teacher and leader checks, and the small parsers. They read the tables they need
 * and change nothing.
 */
module Helpers {
  import opened Wrappers
  import opened Schema
  import opened HttpErrors
  import opened Store
  import Statements
  import Auth
  import Js
  import Guards
  import JsonValue

  /** requireUser: a request without a user is 401 "Login required". */
  function RequireUser(user: Option<Actor>): (r: Result<Actor, HttpError>)
    ensures r.Err? <==> user.None?
    ensures r.Err? ==> r.error == Unauthorized("Login required") && r.error.status == StatusNum(401)
    ensures r.Ok? ==> r.value == user.value
  {
    if user.None? then Err(Unauthorized("Login required")) else Ok(user.value)
  }

  /** getClassById: the live class row with that id, else 404 "Class not found". */
  function GetClass(classes: seq<Class>, classId: Id): (r: Result<Class, HttpError>)
    ensures r.Ok? <==> Has(classes, classId) && classes[classId - 1].deletedAt.None?
    ensures r.Ok? ==> r.value == classes[classId - 1]
    ensures r.Err? ==> r.error == NotFound("Class not found")
  {
    if Has(classes, classId) && classes[classId - 1].deletedAt.None? then Ok(classes[classId - 1])
    else Err(NotFound("Class not found"))
  }

  /** assertClassWritable (the route helper): an archived class is 403. */
  function AssertClassWritable(c: Class): (r: Result<(), HttpError>)
    ensures r.Err? <==> c.status == Archived
    ensures r.Err? ==> r.error == Forbidden("Class is archived (read-only).")
  {
    if c.status == Archived then Err(Forbidden("Class is archived (read-only).")) else Ok(())
  }

  /**
   * The archived-class write guard and this check agree: a class the route lets through
   * is one whose rows the trigger lets the statement write.
   */
  lemma WritableClassPassesGuard(classes: seq<Class>, flags: WriteFlags, classId: Id)
    requires GetClass(classes, classId).Ok?
    requires AssertClassWritable(GetClass(classes, classId).value).Ok?
    ensures !ArchivedBlocks(classes, flags, classId)
  {
  }

  /** isTeacherOfClass: a live class_teachers row for (class, teacher). */
  predicate IsTeacherOfClass(ts: seq<ClassTeacher>, classId: Id, teacherId: Id)
  {
    Statements.Teaches(ts, classId, teacherId)
  }

  /** The row `.get()` returns for (class, teacher): the live row with the lowest id. */
  function FirstTeacherRow(ts: seq<ClassTeacher>, classId: Id, teacherId: Id): (r: Option<nat>)
    ensures r.Some? ==> r.value < |ts| && Statements.RemovesTeacher(ts[r.value], classId, teacherId)
    ensures r.Some? ==> forall k :: 0 <= k < r.value ==> !Statements.RemovesTeacher(ts[k], classId, teacherId)
    ensures r.None? <==> !IsTeacherOfClass(ts, classId, teacherId)
  {
    if ts == [] then None
    else if Statements.RemovesTeacher(ts[0], classId, teacherId) then Some(0)
    else
      var r := FirstTeacherRow(ts[1..], classId, teacherId);
      assert forall k :: 1 <= k < |ts| ==> ts[k] == ts[1..][k - 1];
      if r.Some? then Some(r.value + 1) else None
  }

  /** isOwnerTeacherOfClass: the row found for (class, teacher) has the owner role. */
  predicate IsOwnerTeacherOfClass(ts: seq<ClassTeacher>, classId: Id, teacherId: Id)
  {
    var row := FirstTeacherRow(ts, classId, teacherId);
    row.Some? && ts[row.value].role == Owner
  }

  /**
   * With the one-live-row index in place, "the row found is the owner's" is the same as
   * "the teacher holds a live owner row".
   */
  lemma OwnerIffLiveOwnerRow(ts: seq<ClassTeacher>, classId: Id, teacherId: Id)
    requires TeachersUnique(ts)
    ensures IsOwnerTeacherOfClass(ts, classId, teacherId) <==>
      exists i :: 0 <= i < |ts| && Statements.RemovesTeacher(ts[i], classId, teacherId) && ts[i].role == Owner
  {
    var row := FirstTeacherRow(ts, classId, teacherId);
    if exists i :: 0 <= i < |ts| && Statements.RemovesTeacher(ts[i], classId, teacherId) && ts[i].role == Owner {
      var i :| 0 <= i < |ts| && Statements.RemovesTeacher(ts[i], classId, teacherId) && ts[i].role == Owner;
      assert IsTeacherOfClass(ts, classId, teacherId);
    }
  }

  /** isStudentInClass: an active, live enrolment. */
  predicate IsStudentInClass(es: seq<Enrollment>, classId: Id, studentId: Id)
  {
    Statements.Enrolled(es, classId, studentId)
  }

  /** Who may read a class: any admin, a teacher of it, an actively enrolled student. */
  predicate MayReadClass(ts: seq<ClassTeacher>, es: seq<Enrollment>, u: Actor, classId: Id)
  {
    u.role == Auth.Admin
    || (u.role == Auth.Teacher && IsTeacherOfClass(ts, classId, u.id))
    || (u.role == Auth.Student && IsStudentInClass(es, classId, u.id))
  }

  /** assertClassReadable: 401 without a user, 403 "Not a member of this class" for outsiders. */
  function AssertClassReadable(ts: seq<ClassTeacher>, es: seq<Enrollment>, user: Option<Actor>, classId: Id)
    : (r: Result<(), HttpError>)
    ensures r.Ok? <==> user.Some? && MayReadClass(ts, es, user.value, classId)
    ensures user.None? ==> r == Err(Unauthorized("Login required"))
    ensures user.Some? && r.Err? ==> r.error == Forbidden("Not a member of this class")
  {
    if user.None? then Err(Unauthorized("Login required"))
    else
      var u := user.value;
      if u.role == Auth.Admin then Ok(())
      else if u.role == Auth.Teacher && IsTeacherOfClass(ts, classId, u.id) then Ok(())
      else if u.role == Auth.Student && IsStudentInClass(es, classId, u.id) then Ok(())
      else Err(Forbidden("Not a member of this class"))
  }

  /** assertClassTeacher: admins pass; other non-teachers 403 "Teacher required"; other teachers must teach the class. */
  function AssertClassTeacher(ts: seq<ClassTeacher>, user: Option<Actor>, classId: Id): (r: Result<(), HttpError>)
    ensures r.Ok? <==> user.Some? && (user.value.role == Auth.Admin
                                       || (user.value.role == Auth.Teacher && IsTeacherOfClass(ts, classId, user.value.id)))
    ensures user.None? ==> r == Err(Unauthorized("Login required"))
    ensures user.Some? && user.value.role == Auth.Student ==> r == Err(Forbidden("Teacher required"))
    ensures user.Some? && user.value.role == Auth.Teacher && r.Err? ==> r.error == Forbidden("Not a teacher of this class")
  {
    if user.None? then Err(Unauthorized("Login required"))
    else
      var u := user.value;
      if u.role == Auth.Admin then Ok(())
      else if u.role != Auth.Teacher then Err(Forbidden("Teacher required"))
      else if !IsTeacherOfClass(ts, classId, u.id) then Err(Forbidden("Not a teacher of this class"))
      else Ok(())
  }

  /**
   * requireUser, then assertClassTeacher unless the user is an admin: the same outcome
   * as assertClassTeacher alone, which lets admins through itself.
   */
  function StaffOf(ts: seq<ClassTeacher>, user: Option<Actor>, classId: Id): (r: Result<Actor, HttpError>)
    ensures r.Ok? <==> AssertClassTeacher(ts, user, classId).Ok?
    ensures r.Err? ==> r.error == AssertClassTeacher(ts, user, classId).error
    ensures r.Ok? ==> r.value == user.value
  {
    var me :- RequireUser(user);
    var _ :- if me.role != Auth.Admin then AssertClassTeacher(ts, user, classId) else Ok(());
    Ok(me)
  }

  /** Whoever may act as a class's teacher may also read it. */
  lemma ClassTeacherMayRead(ts: seq<ClassTeacher>, es: seq<Enrollment>, user: Option<Actor>, classId: Id)
    requires AssertClassTeacher(ts, user, classId).Ok?
    ensures AssertClassReadable(ts, es, user, classId).Ok?
  {
  }

  /** getTeamById: the live team row, else 404 "Team not found". */
  function GetTeam(teams: seq<Team>, teamId: Id): (r: Result<Team, HttpError>)
    ensures r.Ok? <==> Has(teams, teamId) && teams[teamId - 1].deletedAt.None?
    ensures r.Ok? ==> r.value == teams[teamId - 1]
    ensures r.Err? ==> r.error == NotFound("Team not found")
  {
    if Has(teams, teamId) && teams[teamId - 1].deletedAt.None? then Ok(teams[teamId - 1])
    else Err(NotFound("Team not found"))
  }

  /** isTeamMember: an active, live membership of the user in the team. */
  predicate IsTeamMember(ms: seq<Member>, teamId: Id, userId: Id)
  {
    exists i :: 0 <= i < |ms| && ActiveMember(ms[i]) && ms[i].teamId == teamId && ms[i].studentId == userId
  }

  /** assertTeamReadable: the team must exist (checked first), then its class must be readable. */
  function AssertTeamReadable(teams: seq<Team>, ts: seq<ClassTeacher>, es: seq<Enrollment>, user: Option<Actor>, teamId: Id)
    : (r: Result<Team, HttpError>)
    ensures r.Ok? <==> GetTeam(teams, teamId).Ok? && user.Some?
                       && MayReadClass(ts, es, user.value, teams[teamId - 1].classId)
    ensures GetTeam(teams, teamId).Err? ==> r == Err(NotFound("Team not found"))
    ensures r.Ok? ==> r.value == teams[teamId - 1]
  {
    var team :- GetTeam(teams, teamId);
    var _ :- AssertClassReadable(ts, es, user, team.classId);
    Ok(team)
  }

  /** assertTeamLeader: login first, then the readable team, then 403 "Leader required". */
  function AssertTeamLeader(teams: seq<Team>, ts: seq<ClassTeacher>, es: seq<Enrollment>, user: Option<Actor>, teamId: Id)
    : (r: Result<Team, HttpError>)
    ensures user.None? ==> r == Err(Unauthorized("Login required"))
    ensures r.Ok? <==> AssertTeamReadable(teams, ts, es, user, teamId).Ok? && user.value.id == teams[teamId - 1].leaderId
    ensures r.Ok? ==> r.value == teams[teamId - 1]
    ensures AssertTeamReadable(teams, ts, es, user, teamId).Ok? && r.Err? ==> r.error == Forbidden("Leader required")
  {
    var u :- RequireUser(user);
    var team :- GetTeam(teams, teamId);
    var _ :- AssertClassReadable(ts, es, user, team.classId);
    if u.id != team.leaderId then Err(Forbidden("Leader required")) else Ok(team)
  }

  /** getProjectById: the live project row, else 404 "Project not found". */
  function GetProject(projects: seq<Project>, projectId: Id): (r: Result<Project, HttpError>)
    ensures r.Ok? <==> Has(projects, projectId) && projects[projectId - 1].deletedAt.None?
    ensures r.Ok? ==> r.value == projects[projectId - 1]
    ensures r.Err? ==> r.error == NotFound("Project not found")
  {
    if Has(projects, projectId) && projects[projectId - 1].deletedAt.None? then Ok(projects[projectId - 1])
    else Err(NotFound("Project not found"))
  }

  /** assertProjectReadable: the project must exist, then its class must be readable. */
  function AssertProjectReadable(projects: seq<Project>, ts: seq<ClassTeacher>, es: seq<Enrollment>,
                                 user: Option<Actor>, projectId: Id): (r: Result<Project, HttpError>)
    ensures r.Ok? <==> GetProject(projects, projectId).Ok? && user.Some?
                       && MayReadClass(ts, es, user.value, projects[projectId - 1].classId)
    ensures GetProject(projects, projectId).Err? ==> r == Err(NotFound("Project not found"))
    ensures r.Ok? ==> r.value == projects[projectId - 1]
  {
    var p :- GetProject(projects, projectId);
    var _ :- AssertClassReadable(ts, es, user, p.classId);
    Ok(p)
  }

  /** asNumber: `Number(x)` for a string, the value itself otherwise; non-finite is 400 "Invalid id". */
  function AsNumber(x: Guards.IdInput): (r: Result<real, HttpError>)
    ensures r.Err? <==> !Guards.IdNumber(x).Finite?
    ensures r.Err? ==> r.error == BadRequest("Invalid id")
    ensures r.Ok? ==> Guards.IdNumber(x) == Js.Finite(r.value)
  {
    var n := Guards.IdNumber(x);
    if !n.Finite? then Err(BadRequest("Invalid id")) else Ok(n.value)
  }

  /** A route parameter written as a decimal natural is read back as that number. */
  lemma AsNumberOfDecimal(n: nat)
    ensures AsNumber(Guards.StringId(Js.NatToString(n))) == Ok(n as real)
  {
    Js.NumberOfNatString(n);
  }

  /** assertNotLocked: a team locked by status or by flag is 403 "Team is locked.". */
  function AssertNotLocked(team: Team): (r: Result<(), HttpError>)
    ensures r.Err? <==> team.status == TeamLocked || team.isLocked
    ensures r.Err? ==> r.error == Forbidden("Team is locked.")
  {
    if team.status == TeamLocked || team.isLocked then Err(Forbidden("Team is locked.")) else Ok(())
  }

  /** A team the route lets through is one the locked-team write guard lets through too. */
  lemma NotLockedPassesGuard(teams: seq<Team>, flags: WriteFlags, teamId: Id)
    requires Has(teams, teamId) && AssertNotLocked(teams[teamId - 1]).Ok?
    ensures !LockedBlocks(teams, flags, teamId)
  {
  }

  /** parseIsoToMs: a text Date.parse (given) cannot read is 400 "Invalid datetime". */
  function ParseIsoToMs(iso: string, parse: string -> Option<int>): (r: Result<int, HttpError>)
    ensures r.Err? <==> parse(iso).None?
    ensures r.Err? ==> r.error == BadRequest("Invalid datetime")
    ensures r.Ok? ==> parse(iso) == Some(r.value)
  {
    if parse(iso).None? then Err(BadRequest("Invalid datetime")) else Ok(parse(iso).value)
  }

  /** parseJsonOr: an absent or empty text, or one JSON.parse (given) rejects, yields the fallback. */
  function ParseJsonOr(s: Option<string>, fallback: JsonValue.Json, parse: string -> Option<JsonValue.Json>)
    : (r: JsonValue.Json)
    ensures s.None? || s.value == "" ==> r == fallback
    ensures s.Some? && s.value != "" && parse(s.value).Some? ==> r == parse(s.value).value
    ensures s.Some? && s.value != "" && parse(s.value).None? ==> r == fallback
  {
    if s.None? || s.value == "" then fallback
    else if parse(s.value).None? then fallback
    else parse(s.value).value
  }
}
