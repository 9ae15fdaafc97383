/**
 * The grade routes (server/src/routes/v1/grades.ts): staff put the one grade of a
 * submission and its students are told; students list their own grades; project and
 * assignment grade sheets list submissions with their grade, if any.
 */
module Grades {
  import opened Wrappers
  import opened Schema
  import opened HttpErrors
  import opened Store
  import opened Helpers
  import Statements
  import Queries
  import Teams
  import Assignments
  import Auth
  import JsonValue

  const GRADES_TABLE := "grades"
  const UPSERT_ACTION := "grade.upsert"

  /* ---------- PUT /submissions/:submissionId/grade ---------- */

  /** The grade body: the score, an optional feedback text and an optional rubric object. */
  datatype GradeBody = GradeBody(score: real, feedback: Option<string>, rubric: Option<JsonValue.Json>)

  /**
   * The grading guards in order: a login (401), a live submission (404), staff of its
   * class (403), a live class (404) that is not archived (403). The result is the
   * submission.
   */
  function GradeCheck(classes: seq<Class>, ts: seq<ClassTeacher>, subs: seq<Submission>, user: Option<Actor>,
                      subId: Id): (r: Result<Submission, HttpError>)
    ensures user.None? ==> r == Err(Unauthorized("Login required"))
    ensures user.Some? && !(Has(subs, subId) && LiveSubmission(subs[subId - 1])) ==>
      r == Err(NotFound("Submission not found"))
    ensures r.Ok? <==>
      (user.Some? && Has(subs, subId) && LiveSubmission(subs[subId - 1])
       && AssertClassTeacher(ts, user, subs[subId - 1].classId).Ok?
       && Teams.ClassWritable(classes, subs[subId - 1].classId))
    ensures r.Ok? ==> r.value == subs[subId - 1]
  {
    var me :- RequireUser(user);
    var sub :- if Has(subs, subId) && LiveSubmission(subs[subId - 1]) then Ok(subs[subId - 1])
               else Err(NotFound("Submission not found"));
    var _ :- StaffOf(ts, user, sub.classId);
    var cls :- GetClass(classes, sub.classId);
    var _ :- AssertClassWritable(cls);
    Ok(sub)
  }

  /** The rubric stored: the one sent, or `{}` when it is absent or null. */
  function RubricOf(rubric: Option<JsonValue.Json>): JsonValue.Json
  {
    if rubric.None? || rubric.value.Null? then JsonValue.Obj([]) else rubric.value
  }

  /**
   * The row the upsert leaves, whether it inserts or overwrites: the caller as grader,
   * the body's score, feedback and rubric, graded now, and live.
   */
  function NewGrade(me: Actor, body: GradeBody, now: Time): (g: Grade)
    ensures g.deletedAt.None? && g.graderId == me.id && g.gradedAt == now && g.score == body.score
  {
    Grade(me.id, body.score, body.feedback, RubricOf(body.rubric), now, None)
  }

  /** The live grade of a submission, as the handler reads it before the upsert. */
  function LiveGrade(gs: map<Id, Grade>, subId: Id): (r: Option<Grade>)
    ensures r.Some? <==> subId in gs && gs[subId].deletedAt.None?
    ensures r.Some? ==> r.value == gs[subId]
  {
    if subId in gs && gs[subId].deletedAt.None? then Some(gs[subId]) else None
  }

  /** The audit snapshot of a grade that may be missing. */
  function GradeSnapOf(subId: Id, g: Option<Grade>): Option<Snapshot>
  {
    if g.Some? then Some(GradeSnap(subId, g.value)) else None
  }

  /** INSERT ... ON CONFLICT DO UPDATE for a submission of a writable class. */
  method SetGrade(db: Db, subId: Id, g: Grade)
    requires db.Valid()
    requires Has(db.submissions, subId) && Teams.ClassWritable(db.classes, db.submissions[subId - 1].classId)
    modifies db`grades
    ensures db.Valid()
    ensures db.grades == old(db.grades)[subId := g]
  {
    WritableClassPassesGuard(db.classes, db.flags, db.submissions[subId - 1].classId);
    var gs := Statements.UpsertGrade(db.classes, db.flags, db.submissions, db.grades, subId, g);
    db.grades := gs.value;
  }

  /**
   * submission_id is the grades key, so once one upsert on a submission succeeds a
   * second one does too, and the two leave exactly one grade on it: the second, live
   * even if the first was a deleted row. No other submission gains, loses or changes
   * a grade.
   */
  lemma RegradeOverwrites(classes: seq<Class>, flags: WriteFlags, subs: seq<Submission>, gs: map<Id, Grade>,
                          subId: Id, first: Grade, second: Grade)
    requires second.deletedAt.None?
    requires Statements.UpsertGrade(classes, flags, subs, gs, subId, first).Ok?
    ensures var once := Statements.UpsertGrade(classes, flags, subs, gs, subId, first).value;
      var twice := Statements.UpsertGrade(classes, flags, subs, once, subId, second);
      twice.Ok?
      && LiveGrade(twice.value, subId) == Some(second) && twice.value[subId].score == second.score
      && twice.value.Keys == gs.Keys + {subId}
      && forall other :: other in gs && other != subId ==> twice.value[other] == gs[other]
  {
  }

  /** The memberships a grade notice is sent through: active rows of the team (deleted ones are not excluded). */
  predicate NoticeMember(m: Member, teamId: Id)
  {
    m.teamId == teamId && m.isActive
  }

  /** The students a grade is announced to, before de-duplication. */
  function Targets(ms: seq<Member>, sub: Submission): (ids: seq<Id>)
    ensures sub.teamId.None? ==> ids == [sub.submitterId]
    ensures sub.teamId.Some? ==>
      forall u :: u in ids <==> exists i :: 0 <= i < |ms| && NoticeMember(ms[i], sub.teamId.value) && ms[i].studentId == u
  {
    if sub.teamId.None? then [sub.submitterId] else TeamTargets(ms, sub.teamId.value)
  }

  function TeamTargets(ms: seq<Member>, teamId: Id): (ids: seq<Id>)
    ensures forall u :: u in ids <==> exists i :: 0 <= i < |ms| && NoticeMember(ms[i], teamId) && ms[i].studentId == u
  {
    if ms == [] then []
    else
      var prev := TeamTargets(ms[..|ms| - 1], teamId);
      var last := ms[|ms| - 1];
      assert forall i :: 0 <= i < |ms| - 1 ==> ms[i] == ms[..|ms| - 1][i];
      if NoticeMember(last, teamId) then prev + [last.studentId] else prev
  }

  /** No id twice. */
  predicate Distinct(ids: seq<Id>)
  {
    forall i, j :: 0 <= i < j < |ids| ==> ids[i] != ids[j]
  }

  /** `new Set(ids)` iterated: each id once, in order of first appearance. */
  function Unique(ids: seq<Id>): (r: seq<Id>)
    ensures forall u :: u in r <==> u in ids
    ensures Distinct(r)
  {
    if ids == [] then []
    else
      var prev := Unique(ids[..|ids| - 1]);
      var last := ids[|ids| - 1];
      assert forall u :: u in ids <==> u in ids[..|ids| - 1] || u == last by {
        assert ids == ids[..|ids| - 1] + [last];
      }
      if last in prev then prev else prev + [last]
  }

  /** The notice a student gets: its title, a message naming the submission and the score, and the ref id. */
  function GradeNotice(userId: Id, subId: Id, score: real, numText: real -> string): Notification
  {
    NotificationRow(userId, "grade", Some("New Grade"),
                    Some("You have received a new grade for submission " + IdText(subId) + ". Score: " + numText(score)),
                    RefPayload(subId))
  }

  /** One notice per recipient, in the recipients' order. */
  function GradeNotices(ids: seq<Id>, subId: Id, score: real, numText: real -> string): (r: seq<Notification>)
    ensures |r| == |ids|
    ensures forall k :: 0 <= k < |ids| ==> r[k] == GradeNotice(ids[k], subId, score, numText)
  {
    if ids == [] then []
    else GradeNotices(ids[..|ids| - 1], subId, score, numText) + [GradeNotice(ids[|ids| - 1], subId, score, numText)]
  }

  /** The notification loop over the recipient set. */
  method NotifyGrade(journal: Journal, ids: seq<Id>, subId: Id, score: real, numText: real -> string)
    modifies journal`notifications
    ensures journal.notifications == old(journal.notifications) + GradeNotices(ids, subId, score, numText)
  {
    var k := 0;
    while k < |ids|
      invariant 0 <= k <= |ids|
      invariant journal.notifications == old(journal.notifications) + GradeNotices(ids[..k], subId, score, numText)
    {
      var n := GradeNotice(ids[k], subId, score, numText);
      journal.Notify(n.userId, n.kind, n.title, n.message, n.payload);
      assert ids[..k + 1][..k] == ids[..k];
      k := k + 1;
    }
    assert ids[..k] == ids;
  }

  /**
   * Each student of the team (or the submitter of individual work) is told exactly once,
   * and nobody else is told.
   */
  lemma EachRecipientToldOnce(ms: seq<Member>, sub: Submission, subId: Id, score: real, numText: real -> string, u: Id)
    ensures var ns := GradeNotices(Unique(Targets(ms, sub)), subId, score, numText);
      && ((exists k :: 0 <= k < |ns| && ns[k].userId == u) <==>
            (if sub.teamId.None? then u == sub.submitterId
             else exists i :: 0 <= i < |ms| && NoticeMember(ms[i], sub.teamId.value) && ms[i].studentId == u))
      && forall k1, k2 :: 0 <= k1 < k2 < |ns| ==> ns[k1].userId != ns[k2].userId
  {
    var ids := Unique(Targets(ms, sub));
    var ns := GradeNotices(ids, subId, score, numText);
    if u in ids {
      var k :| 0 <= k < |ids| && ids[k] == u;
      assert ns[k].userId == u;
    }
    if exists k :: 0 <= k < |ns| && ns[k].userId == u {
      var k :| 0 <= k < |ns| && ns[k].userId == u;
      assert ids[k] in ids;
    }
  }

  /**
   * Staff grade a live submission of a writable class: its one grade is written (or
   * overwritten and revived), audited with the old and new rows, and each recipient is
   * told once.
   */
  method PutGrade(db: Db, ctx: Ctx, subId: Id, body: GradeBody, numText: real -> string) returns (r: Result<Grade, HttpError>)
    requires db.Valid()
    modifies db`grades, db.journal`audit, db.journal`notifications
    ensures db.Valid()
    ensures r.Ok? <==> old(GradeCheck(db.classes, db.classTeachers, db.submissions, ctx.user, subId)).Ok?
    ensures r.Err? ==> r.error == old(GradeCheck(db.classes, db.classTeachers, db.submissions, ctx.user, subId)).error
    ensures r.Err? ==>
      (db.grades == old(db.grades) && db.journal.audit == old(db.journal.audit)
       && db.journal.notifications == old(db.journal.notifications))
    ensures r.Ok? ==>
      var sub := old(db.submissions)[subId - 1];
      && r.value == NewGrade(ctx.user.value, body, ctx.now)
      && db.grades == old(db.grades)[subId := r.value]
      && db.journal.audit == old(db.journal.audit)
           + [AuditRow(ctx, ctx.user.value, UPSERT_ACTION, GRADES_TABLE, IdText(subId),
                       GradeSnapOf(subId, LiveGrade(old(db.grades), subId)), Some(GradeSnap(subId, r.value)),
                       Some(sub.classId), sub.teamId, Some(sub.projectId))]
      && db.journal.notifications == old(db.journal.notifications)
           + GradeNotices(Unique(Targets(old(db.members), sub)), subId, body.score, numText)
  {
    var sub :- GradeCheck(db.classes, db.classTeachers, db.submissions, ctx.user, subId);
    var g := RecordGrade(db, ctx, subId, body, numText);
    r := Ok(g);
  }

  /** The write half of the grading: the upsert, its audit row and the team's notices. */
  method RecordGrade(db: Db, ctx: Ctx, subId: Id, body: GradeBody, numText: real -> string) returns (g: Grade)
    requires db.Valid() && ctx.user.Some? && Has(db.submissions, subId)
    requires Teams.ClassWritable(db.classes, db.submissions[subId - 1].classId)
    modifies db`grades, db.journal`audit, db.journal`notifications
    ensures db.Valid()
    ensures var sub := old(db.submissions)[subId - 1];
      && g == NewGrade(ctx.user.value, body, ctx.now)
      && db.grades == old(db.grades)[subId := g]
      && db.journal.audit == old(db.journal.audit)
           + [AuditRow(ctx, ctx.user.value, UPSERT_ACTION, GRADES_TABLE, IdText(subId),
                       GradeSnapOf(subId, LiveGrade(old(db.grades), subId)), Some(GradeSnap(subId, g)),
                       Some(sub.classId), sub.teamId, Some(sub.projectId))]
      && db.journal.notifications == old(db.journal.notifications)
           + GradeNotices(Unique(Targets(old(db.members), sub)), subId, body.score, numText)
  {
    var sub := db.submissions[subId - 1];
    var before := LiveGrade(db.grades, subId);
    g := NewGrade(ctx.user.value, body, ctx.now);
    SetGrade(db, subId, g);
    db.journal.WriteAudit(ctx, UPSERT_ACTION, GRADES_TABLE, IdText(subId), GradeSnapOf(subId, before),
                          Some(GradeSnap(subId, g)), Some(sub.classId), sub.teamId, Some(sub.projectId));
    NotifyGrade(db.journal, Unique(Targets(db.members, sub)), subId, body.score, numText);
  }

  /* ---------- GET /me/grades ---------- */

  /** The rows with their ids, so a condition over a join can name a row's id. */
  function Numbered(subs: seq<Submission>): (r: seq<(Id, Submission)>)
    ensures |r| == |subs|
    ensures forall i :: 0 <= i < |subs| ==> r[i] == (i + 1, subs[i])
  {
    seq(|subs|, i requires 0 <= i < |subs| => (i + 1, subs[i]))
  }

  /** The student has an active, live membership in the team. */
  predicate OnTeam(ms: seq<Member>, studentId: Id, teamId: Id)
  {
    exists i :: 0 <= i < |ms| && ActiveMember(ms[i]) && ms[i].studentId == studentId && ms[i].teamId == teamId
  }

  /**
   * A row of the student's grade list: a live grade on a live submission of a live
   * assignment, submitted by the student or by one of the student's active teams.
   */
  predicate MyGrade(gs: map<Id, Grade>, asgs: seq<Assignment>, ms: seq<Member>, me: Id, subId: Id, s: Submission)
  {
    && LiveGrade(gs, subId).Some?
    && LiveSubmission(s)
    && Has(asgs, s.assignmentId) && LiveAssignment(asgs[s.assignmentId - 1])
    && (s.submitterId == me || (s.teamId.Some? && OnTeam(ms, me, s.teamId.value)))
  }

  /** The time a submission was graded, 0 for an ungraded one. */
  function GradedAt(gs: map<Id, Grade>, subId: Id): int
  {
    if subId in gs then gs[subId].gradedAt else 0
  }

  /** The student's graded submissions, most recently graded first. */
  function MyGradeIds(gs: map<Id, Grade>, subs: seq<Submission>, asgs: seq<Assignment>, ms: seq<Member>, me: Id)
    : (r: seq<Id>)
    ensures forall id :: id in r <==> Has(subs, id) && MyGrade(gs, asgs, ms, me, id, subs[id - 1])
    ensures forall id :: multiset(r)[id] <= 1
    ensures forall i, j :: 0 <= i < j < |r| ==> GradedAt(gs, r[i]) >= GradedAt(gs, r[j])
  {
    var rows := Numbered(subs);
    var keep := (p: (Id, Submission)) => MyGrade(gs, asgs, ms, me, p.0, p.1);
    var key := (p: (Id, Submission)) => -GradedAt(gs, p.0);
    var r := Queries.SelectByKey(rows, keep, key);
    assert forall id :: Has(rows, id) <==> Has(subs, id);
    assert forall id :: Has(rows, id) ==> Queries.KeyOf(rows, key, id) == -GradedAt(gs, id);
    forall i, j | 0 <= i < j < |r| ensures GradedAt(gs, r[i]) >= GradedAt(gs, r[j]) {
      assert r[i] in r && r[j] in r;
      assert Queries.KeyOf(rows, key, r[i]) <= Queries.KeyOf(rows, key, r[j]);
    }
    r
  }

  /** A student's view of a grade: the grade, its submission and its assignment. */
  datatype MyGradeRow = MyGradeRow(submissionId: Id, grade: Grade, submission: Submission, assignment: Assignment)

  /** The submission has a grade row and its assignment row exists: the inner joins find a partner. */
  predicate Joinable(gs: map<Id, Grade>, subs: seq<Submission>, asgs: seq<Assignment>, id: Id)
  {
    Has(subs, id) && id in gs && Has(asgs, subs[id - 1].assignmentId)
  }

  function MyGradeRows(gs: map<Id, Grade>, subs: seq<Submission>, asgs: seq<Assignment>, ids: seq<Id>)
    : (r: seq<MyGradeRow>)
    requires forall k :: 0 <= k < |ids| ==> Joinable(gs, subs, asgs, ids[k])
    ensures |r| == |ids|
    ensures forall k :: 0 <= k < |ids| ==>
      Joinable(gs, subs, asgs, ids[k])
      && r[k] == MyGradeRow(ids[k], gs[ids[k]], subs[ids[k] - 1], asgs[subs[ids[k] - 1].assignmentId - 1])
  {
    if ids == [] then []
    else
      var id := ids[|ids| - 1];
      assert Joinable(gs, subs, asgs, id);
      MyGradeRows(gs, subs, asgs, ids[..|ids| - 1])
        + [MyGradeRow(id, gs[id], subs[id - 1], asgs[subs[id - 1].assignmentId - 1])]
  }

  /** Every listed submission has its grade and its assignment row. */
  lemma MyGradeIdsJoinable(gs: map<Id, Grade>, subs: seq<Submission>, asgs: seq<Assignment>, ms: seq<Member>, me: Id)
    ensures var ids := MyGradeIds(gs, subs, asgs, ms, me);
      forall k :: 0 <= k < |ids| ==> Joinable(gs, subs, asgs, ids[k])
  {
    var ids := MyGradeIds(gs, subs, asgs, ms, me);
    forall k | 0 <= k < |ids| ensures Joinable(gs, subs, asgs, ids[k]) {
      assert ids[k] in ids;
    }
  }

  /**
   * /me/grades: students only (401, then 403 "Student required"); the rows are those of
   * MyGradeIds, each with its grade, submission and assignment.
   */
  function MyGrades(gs: map<Id, Grade>, subs: seq<Submission>, asgs: seq<Assignment>, ms: seq<Member>,
                    user: Option<Actor>): (r: Result<seq<MyGradeRow>, HttpError>)
    ensures user.None? ==> r == Err(Unauthorized("Login required"))
    ensures user.Some? && user.value.role != Auth.Student ==> r == Err(Forbidden("Student required"))
    ensures r.Ok? <==> user.Some? && user.value.role == Auth.Student
    ensures r.Ok? ==>
      var ids := MyGradeIds(gs, subs, asgs, ms, user.value.id);
      |r.value| == |ids|
      && forall k :: 0 <= k < |ids| ==>
           (Joinable(gs, subs, asgs, ids[k])
            && r.value[k] == MyGradeRow(ids[k], gs[ids[k]], subs[ids[k] - 1], asgs[subs[ids[k] - 1].assignmentId - 1]))
  {
    var me :- RequireUser(user);
    if me.role != Auth.Student then Err(Forbidden("Student required"))
    else
      var ids := MyGradeIds(gs, subs, asgs, ms, me.id);
      MyGradeIdsJoinable(gs, subs, asgs, ms, me.id);
      Ok(MyGradeRows(gs, subs, asgs, ids))
  }

  /** Another student's individual work never shows up in a student's grades. */
  lemma OthersIndividualWorkHidden(gs: map<Id, Grade>, subs: seq<Submission>, asgs: seq<Assignment>, ms: seq<Member>,
                                   me: Id, id: Id)
    requires Has(subs, id) && subs[id - 1].teamId.None? && subs[id - 1].submitterId != me
    ensures id !in MyGradeIds(gs, subs, asgs, ms, me)
  {
  }

  /* ---------- grade sheets: GET /projects/:projectId/grades and /assignments/:assignmentId/grades ---------- */

  /** One sheet row: the submission and the grade row joined to it, deleted or not. */
  datatype SheetRow = SheetRow(submissionId: Id, grade: Option<Grade>)

  /** The LEFT JOIN on grades: any grade row of the submission. */
  function JoinedGrade(gs: map<Id, Grade>, subId: Id): Option<Grade>
  {
    if subId in gs then Some(gs[subId]) else None
  }

  function SheetRows(gs: map<Id, Grade>, ids: seq<Id>): (r: seq<SheetRow>)
    ensures |r| == |ids|
    ensures forall k :: 0 <= k < |ids| ==> r[k] == SheetRow(ids[k], JoinedGrade(gs, ids[k]))
  {
    if ids == [] then [] else SheetRows(gs, ids[..|ids| - 1]) + [SheetRow(ids[|ids| - 1], JoinedGrade(gs, ids[|ids| - 1]))]
  }

  /**
   * Who may see a project's sheet: a reader of its class (404 for a missing project, then
   * 401/403), and a student only when the project is their active team's.
   */
  function ProjectSheetCheck(ps: seq<Project>, ts: seq<ClassTeacher>, es: seq<Enrollment>, ms: seq<Member>,
                             user: Option<Actor>, projectId: Id): (r: Result<Project, HttpError>)
    ensures GetProject(ps, projectId).Err? ==> r == Err(NotFound("Project not found"))
    ensures r.Ok? <==>
      (AssertProjectReadable(ps, ts, es, user, projectId).Ok?
       && (user.value.role == Auth.Student ==>
             Statements.ActiveTeamOf(ms, ps[projectId - 1].classId, user.value.id) == Some(ps[projectId - 1].teamId)))
    ensures AssertProjectReadable(ps, ts, es, user, projectId).Ok? && r.Err? ==> r == Err(Forbidden("Access denied"))
    ensures r.Ok? ==> r.value == ps[projectId - 1]
  {
    var p :- AssertProjectReadable(ps, ts, es, user, projectId);
    var me := user.value;
    if me.role == Auth.Student && Statements.ActiveTeamOf(ms, p.classId, me.id) != Some(p.teamId) then
      Err(Forbidden("Access denied"))
    else Ok(p)
  }

  /** A live submission of the project whose assignment is live (the inner join on assignments). */
  predicate ProjectSheetSubmission(asgs: seq<Assignment>, projectId: Id, s: Submission)
  {
    s.projectId == projectId && LiveSubmission(s) && Has(asgs, s.assignmentId) && LiveAssignment(asgs[s.assignmentId - 1])
  }

  /** The project's sheet submissions, newest first. */
  function ProjectSheetIds(subs: seq<Submission>, asgs: seq<Assignment>, projectId: Id): (ids: seq<Id>)
    ensures forall id :: id in ids <==> Has(subs, id) && ProjectSheetSubmission(asgs, projectId, subs[id - 1])
    ensures Queries.Decreasing(ids)
  {
    Queries.SelectNewestFirst(subs, (s: Submission) => ProjectSheetSubmission(asgs, projectId, s))
  }

  /** A project's grade sheet: its submissions newest first, each with any grade row. */
  function ProjectSheet(ps: seq<Project>, ts: seq<ClassTeacher>, es: seq<Enrollment>, ms: seq<Member>,
                        subs: seq<Submission>, asgs: seq<Assignment>, gs: map<Id, Grade>,
                        user: Option<Actor>, projectId: Id): (r: Result<seq<SheetRow>, HttpError>)
    ensures r.Ok? <==> ProjectSheetCheck(ps, ts, es, ms, user, projectId).Ok?
    ensures r.Err? ==> r.error == ProjectSheetCheck(ps, ts, es, ms, user, projectId).error
    ensures r.Ok? ==>
      var ids := ProjectSheetIds(subs, asgs, projectId);
      |r.value| == |ids| && forall k :: 0 <= k < |ids| ==> r.value[k] == SheetRow(ids[k], JoinedGrade(gs, ids[k]))
  {
    var _ :- ProjectSheetCheck(ps, ts, es, ms, user, projectId);
    Ok(SheetRows(gs, ProjectSheetIds(subs, asgs, projectId)))
  }

  /** A student sees the sheet of exactly their active team's project. */
  lemma StudentSeesOnlyOwnTeamSheet(ps: seq<Project>, ts: seq<ClassTeacher>, es: seq<Enrollment>, ms: seq<Member>,
                                    subs: seq<Submission>, asgs: seq<Assignment>, gs: map<Id, Grade>,
                                    user: Option<Actor>, projectId: Id)
    requires user.Some? && user.value.role == Auth.Student
    requires AssertProjectReadable(ps, ts, es, user, projectId).Ok?
    ensures ProjectSheet(ps, ts, es, ms, subs, asgs, gs, user, projectId).Ok?
            <==> Statements.ActiveTeamOf(ms, ps[projectId - 1].classId, user.value.id) == Some(ps[projectId - 1].teamId)
  {
  }

  /** Who may see an assignment's sheet: a login (401), a live assignment (404), staff of its class (403). */
  function AssignmentSheetCheck(ts: seq<ClassTeacher>, asgs: seq<Assignment>, user: Option<Actor>, assignmentId: Id)
    : (r: Result<Assignment, HttpError>)
    ensures user.None? ==> r == Err(Unauthorized("Login required"))
    ensures user.Some? && Assignments.GetAssignment(asgs, assignmentId).Err? ==> r == Err(NotFound("Assignment not found"))
    ensures r.Ok? <==>
      (user.Some? && Has(asgs, assignmentId) && LiveAssignment(asgs[assignmentId - 1])
       && AssertClassTeacher(ts, user, asgs[assignmentId - 1].classId).Ok?)
    ensures r.Ok? ==> r.value == asgs[assignmentId - 1]
  {
    var me :- RequireUser(user);
    var a :- Assignments.GetAssignment(asgs, assignmentId);
    var _ :- StaffOf(ts, user, a.classId);
    Ok(a)
  }

  /** The assignment's live submissions, newest first. */
  function AssignmentSheetIds(subs: seq<Submission>, assignmentId: Id): (ids: seq<Id>)
    ensures forall id :: id in ids <==>
      Has(subs, id) && subs[id - 1].assignmentId == assignmentId && LiveSubmission(subs[id - 1])
    ensures Queries.Decreasing(ids)
  {
    Queries.SelectNewestFirst(subs, (s: Submission) => s.assignmentId == assignmentId && LiveSubmission(s))
  }

  /** An assignment's grade sheet: its live submissions newest first, each with any grade row. */
  function AssignmentSheet(ts: seq<ClassTeacher>, subs: seq<Submission>, asgs: seq<Assignment>, gs: map<Id, Grade>,
                           user: Option<Actor>, assignmentId: Id): (r: Result<seq<SheetRow>, HttpError>)
    ensures r.Ok? <==> AssignmentSheetCheck(ts, asgs, user, assignmentId).Ok?
    ensures r.Err? ==> r.error == AssignmentSheetCheck(ts, asgs, user, assignmentId).error
    ensures r.Ok? ==>
      var ids := AssignmentSheetIds(subs, assignmentId);
      |r.value| == |ids| && forall k :: 0 <= k < |ids| ==> r.value[k] == SheetRow(ids[k], JoinedGrade(gs, ids[k]))
  {
    var _ :- AssignmentSheetCheck(ts, asgs, user, assignmentId);
    Ok(SheetRows(gs, AssignmentSheetIds(subs, assignmentId)))
  }
}
