/**
 * The platform's SQLite schema: one datatype per table row, the status enums, the
 * partial unique indexes and the trigger rules. Each SQL statement the route handlers
 * issue is modelled as a pure function from the tables it reads to the new table, or to
 * the message of the RAISE(ABORT, ...) or unique-index failure that stops it.
 *
 * Row ids are AUTOINCREMENT: the row with id `i` of a table is element `i - 1` of its
 * sequence, and rows are never removed (soft deletion sets `deletedAt`).
 */
module Schema {
  import opened Wrappers
  import opened Stages
  import opened ErrorMapper
  import Auth
  import JsonValue

  type Id = int
  /** Timestamps are instants passed in by the caller (nowIso() of the source). */
  type Time = nat

  /* ---------- status enums ---------- */

  datatype ClassStatus = ClassActive | Archived
  /** class_teachers.role: owner, teacher (Instructor here) or assistant. */
  datatype TeacherRole = Owner | Instructor | Assistant
  datatype TeamStatus = Recruiting | TeamLocked
  datatype JoinStatus = Pending | Approved | Rejected | Cancelled
  datatype ProjectStatus = Draft | Submitted | Active | Declined
  datatype WindowStatus = WindowDraft | WindowOpen | Sealed | Published
  datatype AssignmentKind = Individual | TeamWork
  datatype SourceType = FromCaseLibrary | Custom

  /* ---------- rows ---------- */

  datatype User = User(username: string, passwordHash: string, mustChangePassword: bool,
                       role: Auth.Role, deletedAt: Option<Time>)
  datatype StudentProfile = StudentProfile(userId: Id, studentNo: string, realName: string, deletedAt: Option<Time>)
  /** teacher_profiles: keyed by user id; the contact columns are not part of this model. */
  datatype TeacherProfile = TeacherProfile(userId: Id, realName: string, teacherNo: Option<string>, deletedAt: Option<Time>)
  datatype AdminProfile = AdminProfile(userId: Id, adminLevel: int, deletedAt: Option<Time>)
  datatype Class = Class(courseName: string, term: string, config: JsonValue.Json, status: ClassStatus,
                         allowStudentDownloadAfterArchived: bool, deletedAt: Option<Time>)
  datatype ClassTeacher = ClassTeacher(classId: Id, teacherId: Id, role: TeacherRole, deletedAt: Option<Time>)
  datatype Enrollment = Enrollment(classId: Id, studentId: Id, isActive: bool, joinedAt: Time,
                                   leftAt: Option<Time>, deletedAt: Option<Time>)
  datatype Settings = Settings(activeClassId: Option<Id>)
  datatype Team = Team(classId: Id, name: string, description: Option<string>, leaderId: Id,
                       status: TeamStatus, isLocked: bool, lockedAt: Option<Time>, deletedAt: Option<Time>)
  datatype Member = Member(teamId: Id, classId: Id, studentId: Id, isActive: bool, joinedAt: Time,
                           leftAt: Option<Time>, deletedAt: Option<Time>)
  datatype JoinRequest = JoinRequest(teamId: Id, classId: Id, studentId: Id, status: JoinStatus,
                                     reviewerId: Option<Id>, reason: Option<string>,
                                     reviewedAt: Option<Time>, deletedAt: Option<Time>)
  datatype Project = Project(teamId: Id, classId: Id, sourceType: SourceType, caseId: Option<Id>, name: string,
                             background: Option<string>, techStack: Option<string>, status: ProjectStatus,
                             createdBy: Id, submittedAt: Option<Time>, reviewedAt: Option<Time>,
                             reviewedBy: Option<Id>, reviewFeedback: Option<string>, deletedAt: Option<Time>)
  datatype Stage = Stage(projectId: Id, key: StageKey, order: int, status: StageStatus, openedAt: Option<Time>,
                         passedAt: Option<Time>, lastRollbackAt: Option<Time>, deletedAt: Option<Time>)
  datatype Assignment = Assignment(classId: Id, stageKey: StageKey, kind: AssignmentKind, title: string,
                                   description: Option<string>, deadline: string, createdBy: Id,
                                   deletedAt: Option<Time>)
  datatype Submission = Submission(assignmentId: Id, stageId: Id, submitterId: Id, teamId: Option<Id>,
                                   classId: Id, projectId: Id, version: int, isLate: bool,
                                   fileId: Option<Id>, deletedAt: Option<Time>)
  datatype SubmissionFile = SubmissionFile(submissionId: Id, fileId: Id)
  /** grades are keyed by submission id (its primary key); the score is opaque. */
  datatype Grade = Grade(graderId: Id, score: real, feedback: Option<string>, rubric: JsonValue.Json,
                         gradedAt: Time, deletedAt: Option<Time>)
  datatype Window = Window(classId: Id, stageKey: StageKey, status: WindowStatus, openAt: Option<Time>,
                           closeAt: Option<Time>, sealedAt: Option<Time>, publishedAt: Option<Time>,
                           createdBy: Id, deletedAt: Option<Time>)
  datatype Review = Review(windowId: Id, classId: Id, teamId: Id, reviewerId: Id, revieweeId: Id,
                           payload: JsonValue.Json, deletedAt: Option<Time>)
  datatype Adoption = Adoption(windowId: Id, teamId: Id, adopted: bool, forcedCoefficient: Option<real>,
                               decidedBy: Id, decidedAt: Time, reason: Option<string>, deletedAt: Option<Time>)
  datatype CaseEntry = CaseEntry(classId: Id, createdBy: Id, title: string, description: Option<string>,
                                 tags: Option<string>, attachments: seq<Id>, deletedAt: Option<Time>)
  /**
   * An audit snapshot: the row or small object a handler hands to writeAudit. Its JSON
   * text is not modelled, only what it was made from.
   */
  datatype Snapshot =
    | TeamSnap(teamId: Id, team: Team)
    | TeamWithReason(teamId: Id, team: Team, reason: string)
    | ProjectSnap(projectId: Id, project: Project)
    | StageSnap(stageId: Id, stage: Stage)
    | ClassSnap(classId: Id, row: Class)
    | AssignmentSnap(assignmentId: Id, assignment: Assignment)
    | CaseSnap(caseId: Id, entry: CaseEntry)
    | WindowSnap(windowId: Id, window: Window)
    | SubmissionSnap(submissionId: Id, submission: Submission)
    | GradeSnap(submissionId: Id, grade: Grade)
    | EnrollmentSnap(enrollmentId: Id, enrollment: Enrollment)
    | EnrollmentChange(isActive: bool, joinedAt: Time, leftAt: Option<Time>)
    | UserSnap(userId: Id, user: User)
    | NewAccount(userId: Id, user: User, tempPassword: string)
    | Fields(value: JsonValue.Json)
  datatype AuditEntry = AuditEntry(actorId: Id, action: string, targetTable: string, targetId: string,
                                   before: Option<Snapshot>, after: Option<Snapshot>, classId: Option<Id>,
                                   teamId: Option<Id>, projectId: Option<Id>, ip: Option<string>,
                                   userAgent: Option<string>, createdAt: Time)
  datatype Notification = Notification(userId: Id, kind: string, title: Option<string>, message: Option<string>,
                                       payload: JsonValue.Json, readAt: Option<Time>, deletedAt: Option<Time>)
  datatype AbacRuleRow = AbacRuleRow(enabled: bool, description: Option<string>, deletedAt: Option<Time>)

  /** The single-row _ctx table: the server-only escape hatches of the write guards. */
  datatype WriteFlags = WriteFlags(allowArchivedWrite: bool, allowLockedWrite: bool)

  /** Row `id` exists (ids are 1-based positions). */
  predicate Has<T>(rows: seq<T>, id: Id)
  {
    1 <= id <= |rows|
  }

  /* ---------- liveness, as the partial indexes' WHERE clauses ---------- */

  predicate LiveTeacher(t: ClassTeacher) { t.deletedAt.None? }
  predicate ActiveEnrollment(e: Enrollment) { e.isActive && e.deletedAt.None? }
  predicate ActiveMember(m: Member) { m.isActive && m.deletedAt.None? }
  predicate PendingRequest(r: JoinRequest) { r.status == Pending && r.deletedAt.None? }
  predicate LiveProject(p: Project) { p.deletedAt.None? }
  predicate LiveStage(s: Stage) { s.deletedAt.None? }
  predicate LiveWindow(w: Window) { w.deletedAt.None? }
  predicate LiveReview(r: Review) { r.deletedAt.None? }
  predicate LiveAdoption(a: Adoption) { a.deletedAt.None? }
  predicate LiveSubmission(s: Submission) { s.deletedAt.None? }
  predicate LiveAssignment(a: Assignment) { a.deletedAt.None? }

  /* ---------- partial unique indexes ---------- */

  /** uniq_active_class_teacher: (class_id, teacher_id) where deleted_at is null. */
  predicate TeachersUnique(ts: seq<ClassTeacher>)
  {
    forall i, j :: 0 <= i < j < |ts| && LiveTeacher(ts[i]) && LiveTeacher(ts[j]) ==>
      ts[i].classId != ts[j].classId || ts[i].teacherId != ts[j].teacherId
  }

  /** uniq_active_enrollment: (class_id, student_id) among active, live rows. */
  predicate EnrollmentsUnique(es: seq<Enrollment>)
  {
    forall i, j :: 0 <= i < j < |es| && ActiveEnrollment(es[i]) && ActiveEnrollment(es[j]) ==>
      es[i].classId != es[j].classId || es[i].studentId != es[j].studentId
  }

  /**
   * uniq_active_member_in_class and uniq_active_member_in_team: a student holds at
   * most one active, live membership per class and per team.
   */
  predicate MembersUnique(ms: seq<Member>)
  {
    forall i, j ::
      (0 <= i < j < |ms| && ActiveMember(ms[i]) && ActiveMember(ms[j]) && ms[i].studentId == ms[j].studentId) ==>
      ms[i].classId != ms[j].classId && ms[i].teamId != ms[j].teamId
  }

  /** uniq_team_join_req_pending: one pending, live request per (team, student). */
  predicate RequestsUnique(rs: seq<JoinRequest>)
  {
    forall i, j :: 0 <= i < j < |rs| && PendingRequest(rs[i]) && PendingRequest(rs[j]) ==>
      rs[i].teamId != rs[j].teamId || rs[i].studentId != rs[j].studentId
  }

  /** uniq_team_project: one live project per team. */
  predicate ProjectsUnique(ps: seq<Project>)
  {
    forall i, j :: 0 <= i < j < |ps| && LiveProject(ps[i]) && LiveProject(ps[j]) ==>
      ps[i].teamId != ps[j].teamId
  }

  /** uniq_project_stage_key and uniq_project_stage_order among live stages. */
  predicate StagesUnique(ss: seq<Stage>)
  {
    forall i, j ::
      (0 <= i < j < |ss| && LiveStage(ss[i]) && LiveStage(ss[j]) && ss[i].projectId == ss[j].projectId) ==>
      ss[i].key != ss[j].key && ss[i].order != ss[j].order
  }

  /**
   * uniq_submission_version over (assignment, stage, project, team, submitter, version)
   * among live rows. A NULL team_id never equals anything in SQL, so individual
   * submissions are not constrained by it.
   */
  predicate SubmissionsUnique(ss: seq<Submission>)
  {
    forall i, j ::
      (0 <= i < j < |ss| && LiveSubmission(ss[i]) && LiveSubmission(ss[j]) && ss[i].teamId.Some? && ss[j].teamId.Some?) ==>
      ss[i].assignmentId != ss[j].assignmentId || ss[i].stageId != ss[j].stageId
      || ss[i].projectId != ss[j].projectId || ss[i].teamId != ss[j].teamId
      || ss[i].submitterId != ss[j].submitterId || ss[i].version != ss[j].version
  }

  /** uniq_submission_file: (submission_id, file_id). */
  predicate SubmissionFilesUnique(fs: seq<SubmissionFile>)
  {
    forall i, j :: 0 <= i < j < |fs| ==> fs[i] != fs[j]
  }

  /** submission_files.submission_id REFERENCES submissions(id): every link names a submission row. */
  predicate FilesOfSubmissions(subs: seq<Submission>, fs: seq<SubmissionFile>)
  {
    forall i :: 0 <= i < |fs| ==> Has(subs, fs[i].submissionId)
  }

  /** uniq_peer_review_once: (window, team, reviewer, reviewee) among live reviews. */
  predicate ReviewsUnique(rs: seq<Review>)
  {
    forall i, j :: 0 <= i < j < |rs| && LiveReview(rs[i]) && LiveReview(rs[j]) ==>
      rs[i].windowId != rs[j].windowId || rs[i].teamId != rs[j].teamId
      || rs[i].reviewerId != rs[j].reviewerId || rs[i].revieweeId != rs[j].revieweeId
  }

  /** uniq_peer_review_adoption: (window, team) among live adoptions. */
  predicate AdoptionsUnique(xs: seq<Adoption>)
  {
    forall i, j :: 0 <= i < j < |xs| && LiveAdoption(xs[i]) && LiveAdoption(xs[j]) ==>
      xs[i].windowId != xs[j].windowId || xs[i].teamId != xs[j].teamId
  }

  /** users.username and student_profiles.student_no are plain UNIQUE columns. */
  predicate UsernamesUnique(us: seq<User>)
  {
    forall i, j :: 0 <= i < j < |us| ==> us[i].username != us[j].username
  }

  predicate StudentNosUnique(ps: seq<StudentProfile>)
  {
    forall i, j :: 0 <= i < j < |ps| ==> ps[i].studentNo != ps[j].studentNo
  }

  /** student_profiles.user_id is the primary key. */
  predicate ProfileUsersUnique(ps: seq<StudentProfile>)
  {
    forall i, j :: 0 <= i < j < |ps| ==> ps[i].userId != ps[j].userId
  }

  /**
   * What the team_members consistency trigger keeps over time: every active membership
   * names an existing team of its own class.
   */
  predicate MembersConsistent(teams: seq<Team>, ms: seq<Member>)
  {
    forall i :: 0 <= i < |ms| && ActiveMember(ms[i]) ==>
      Has(teams, ms[i].teamId) && teams[ms[i].teamId - 1].classId == ms[i].classId
  }

  /**
   * What the team_join_requests consistency trigger keeps over time: every request
   * names an existing team and carries that team's class.
   */
  predicate RequestsConsistent(teams: seq<Team>, rs: seq<JoinRequest>)
  {
    forall i :: 0 <= i < |rs| ==> Has(teams, rs[i].teamId) && teams[rs[i].teamId - 1].classId == rs[i].classId
  }

  /** The message SQLite gives for a failed unique index. */
  function UniqueFailed(columns: string): string
  {
    "UNIQUE constraint failed: " + columns
  }

  /* ---------- write guards ---------- */

  /**
   * The archived-class guard: the class row with that id (deleted or not) has status
   * archived and _ctx does not allow archived writes. A missing class never aborts.
   */
  predicate ArchivedBlocks(classes: seq<Class>, flags: WriteFlags, classId: Id)
  {
    Has(classes, classId) && classes[classId - 1].status == Archived && !flags.allowArchivedWrite
  }

  /** The locked-team guard tests the team's status column only, not is_locked. */
  predicate LockedBlocks(teams: seq<Team>, flags: WriteFlags, teamId: Id)
  {
    Has(teams, teamId) && teams[teamId - 1].status == TeamLocked && !flags.allowLockedWrite
  }

  /** The class-consistency guard: the referenced team exists and lies in another class. */
  predicate ClassMismatch(teams: seq<Team>, teamId: Id, classId: Id)
  {
    Has(teams, teamId) && teams[teamId - 1].classId != classId
  }

  /** The archived guard as a statement outcome. */
  function ArchivedGuard(classes: seq<Class>, flags: WriteFlags, classId: Id): (r: Option<string>)
    ensures r.Some? <==> ArchivedBlocks(classes, flags, classId)
    ensures r.Some? ==> r.value == CLASS_ARCHIVED_READONLY
  {
    if ArchivedBlocks(classes, flags, classId) then Some(CLASS_ARCHIVED_READONLY) else None
  }

  /* ---------- audit_logs is append-only ---------- */

  /** Any UPDATE of an audit row aborts, whatever it sets. */
  function UpdateAuditRow(audit: seq<AuditEntry>, id: Id, row: AuditEntry): (r: Result<seq<AuditEntry>, string>)
    ensures r == Err(AUDIT_LOG_IMMUTABLE)
  {
    Err(AUDIT_LOG_IMMUTABLE)
  }

  /** Any DELETE of an audit row aborts. */
  function DeleteAuditRow(audit: seq<AuditEntry>, id: Id): (r: Result<seq<AuditEntry>, string>)
    ensures r == Err(AUDIT_LOG_IMMUTABLE)
  {
    Err(AUDIT_LOG_IMMUTABLE)
  }
}
