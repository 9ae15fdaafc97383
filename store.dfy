/**
 * The database the route handlers work on, one sequence (or keyed map) per table, and
 * the two write helpers every handler shares: writeAudit and notify.
 */
module Store {
  import opened Wrappers
  import opened Schema
  import opened HttpErrors
  import ErrorHandler
  import ErrorMapper
  import Auth
  import JsonValue
  import Js

  /** The authenticated user as the handlers see it; its id is a users row id. */
  datatype Actor = Actor(id: Id, role: Auth.Role, username: string)

  /**
   * What a handler reads from its request besides the body: the user the auth hook
   * derived, the current time, and the x-forwarded-for and user-agent headers.
   */
  datatype Ctx = Ctx(user: Option<Actor>, now: Time, ip: Option<string>, userAgent: Option<string>)

  /**
   * A statement stopped by a trigger's RAISE(ABORT, message) or a unique index reaches
   * the client through the application's onError hook, which classifies its message.
   */
  function DbError(message: string): HttpError
  {
    ErrorHandler.Handle(ErrorMapper.SqliteAbort(message))
  }

  /** `String(id)` of a row id. */
  function IdText(id: Id): string
  {
    if id < 0 then "-" + Js.NatToString(-id) else Js.NatToString(id)
  }

  /** The `{ refId }` payload the team and grade notifications carry. */
  function RefPayload(id: Id): JsonValue.Json
  {
    JsonValue.Obj([JsonValue.Field("refId", JsonValue.Num(Js.Finite(id as real)))])
  }

  /** A TEAM_LOCKED abort contains "locked", so the client sees 403 with the code as message. */
  lemma LockedAbortIsForbidden()
    ensures DbError(ErrorMapper.TEAM_LOCKED) == Forbidden(ErrorMapper.TEAM_LOCKED)
  {
    ErrorHandler.LockedAbortAnsweredAsForbidden();
  }

  /** A CLASS_ARCHIVED_READONLY abort matches no keyword, so the client sees a generic 500. */
  lemma ArchivedAbortIsInternal()
    ensures DbError(ErrorMapper.CLASS_ARCHIVED_READONLY) == Internal(DEFAULT_FALLBACK)
  {
    ErrorHandler.ArchivedAbortAnsweredAsInternal();
  }

  predicate RosterValid(ts: seq<ClassTeacher>, es: seq<Enrollment>)
  {
    TeachersUnique(ts) && EnrollmentsUnique(es)
  }

  predicate TeamTablesValid(teams: seq<Team>, ms: seq<Member>, rs: seq<JoinRequest>)
  {
    MembersUnique(ms) && MembersConsistent(teams, ms) && RequestsConsistent(teams, rs) && RequestsUnique(rs)
  }

  predicate WorkValid(ps: seq<Project>, ss: seq<Stage>, subs: seq<Submission>, files: seq<SubmissionFile>,
                      rvs: seq<Review>, xs: seq<Adoption>)
  {
    ProjectsUnique(ps) && StagesUnique(ss) && SubmissionsUnique(subs) && SubmissionFilesUnique(files)
    && FilesOfSubmissions(subs, files)
    && ReviewsUnique(rvs) && AdoptionsUnique(xs)
  }

  predicate AccountsValid(users: seq<User>, profiles: seq<StudentProfile>)
  {
    UsernamesUnique(users) && StudentNosUnique(profiles) && ProfileUsersUnique(profiles)
  }

  /**
   * Every class_teachers row names an existing class: the handlers insert one only for
   * a class they have just created or looked up.
   */
  predicate TeachersOfClasses(classes: seq<Class>, ts: seq<ClassTeacher>)
  {
    forall i :: 0 <= i < |ts| ==> Has(classes, ts[i].classId)
  }

  /** The rows of the audit log, as writeAudit stores them. */
  function AuditRow(ctx: Ctx, actor: Actor, action: string, targetTable: string, targetId: string,
                    before: Option<Snapshot>, after: Option<Snapshot>,
                    classId: Option<Id>, teamId: Option<Id>, projectId: Option<Id>): AuditEntry
  {
    AuditEntry(actor.id, action, targetTable, targetId, before, after, classId, teamId, projectId,
               ctx.ip, ctx.userAgent, ctx.now)
  }

  /** The row notify inserts: unread, live, with the payload or an empty object. */
  function NotificationRow(userId: Id, kind: string, title: Option<string>, message: Option<string>,
                           payload: JsonValue.Json): Notification
  {
    Notification(userId, kind, title, message, payload, None, None)
  }

  /**
   * The two tables every handler appends to and none reads back: audit_logs, written by
   * writeAudit, and notifications, written by notify.
   */
  class Journal {
    var audit: seq<AuditEntry>
    var notifications: seq<Notification>

    constructor ()
      ensures audit == [] && notifications == []
    {
      audit := [];
      notifications := [];
    }

    /**
     * writeAudit: appends exactly one row whose actor is the current user, with the
     * request's ip and user agent and the current time; earlier rows are untouched.
     */
    method WriteAudit(ctx: Ctx, action: string, targetTable: string, targetId: string,
                      before: Option<Snapshot>, after: Option<Snapshot>,
                      classId: Option<Id>, teamId: Option<Id>, projectId: Option<Id>)
      requires ctx.user.Some?
      modifies this`audit
      ensures audit == old(audit) + [AuditRow(ctx, ctx.user.value, action, targetTable, targetId,
                                             before, after, classId, teamId, projectId)]
    {
      audit := audit + [AuditRow(ctx, ctx.user.value, action, targetTable, targetId,
                                 before, after, classId, teamId, projectId)];
    }

    /** notify: appends one unread notification for the user. */
    method Notify(userId: Id, kind: string, title: Option<string>, message: Option<string>,
                  payload: JsonValue.Json)
      modifies this`notifications
      ensures notifications == old(notifications) + [NotificationRow(userId, kind, title, message, payload)]
    {
      notifications := notifications + [NotificationRow(userId, kind, title, message, payload)];
    }
  }

  class Db {
    /** The audit log and the notifications. */
    const journal: Journal
    var users: seq<User>
    var studentProfiles: seq<StudentProfile>
    var teacherProfiles: seq<TeacherProfile>
    var adminProfiles: seq<AdminProfile>
    var classes: seq<Class>
    var classTeachers: seq<ClassTeacher>
    var enrollments: seq<Enrollment>
    var settings: map<Id, Settings>
    var teams: seq<Team>
    var members: seq<Member>
    var joinRequests: seq<JoinRequest>
    var projects: seq<Project>
    var stages: seq<Stage>
    var assignments: seq<Assignment>
    var submissions: seq<Submission>
    var submissionFiles: seq<SubmissionFile>
    var grades: map<Id, Grade>
    var windows: seq<Window>
    var reviews: seq<Review>
    var adoptions: seq<Adoption>
    var cases: seq<CaseEntry>
    var abacRules: map<string, AbacRuleRow>
    /** The _ctx escape hatches; no handler changes them. */
    var flags: WriteFlags

    /**
     * Every partial unique index holds, and every active membership and every join
     * request names an existing team of its own class (the consistency triggers, kept
     * over time because no handler changes a team's class).
     */
    predicate Valid()
      reads this
    {
      && RosterValid(classTeachers, enrollments)
      && TeachersOfClasses(classes, classTeachers)
      && TeamTablesValid(teams, members, joinRequests)
      && WorkValid(projects, stages, submissions, submissionFiles, reviews, adoptions)
      && AccountsValid(users, studentProfiles)
    }

    /** A fresh, empty database with both escape hatches closed. */
    constructor ()
      ensures Valid()
      ensures users == [] && classes == [] && teams == [] && members == [] && fresh(journal)
      ensures flags == WriteFlags(false, false)
    {
      journal := new Journal();
      users := [];
      studentProfiles := [];
      teacherProfiles := [];
      adminProfiles := [];
      classes := [];
      classTeachers := [];
      enrollments := [];
      settings := map[];
      teams := [];
      members := [];
      joinRequests := [];
      projects := [];
      stages := [];
      assignments := [];
      submissions := [];
      submissionFiles := [];
      grades := map[];
      windows := [];
      reviews := [];
      adoptions := [];
      cases := [];
      abacRules := map[];
      flags := WriteFlags(false, false);
    }
  }
}
