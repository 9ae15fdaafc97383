/**
 * The submission routes: a student hands in a new version of their work on an
 * assignment, readers list the submissions they may see, open one, and list the
 * versions of one piece of work.
 */
module Submissions {
  import opened Wrappers
  import opened Schema
  import opened HttpErrors
  import opened Store
  import opened Helpers
  import Statements
  import Queries
  import Auth
  import Stages
  import Projects
  import Teams
  import ErrorHandler
  import ErrorMapper
  import Js
  import Assignments

  const SUBMISSIONS_TABLE := "submissions"
  const CREATE_ACTION := "submission.create"

  /* ---------- versions ---------- */

  /**
   * What the versions of one piece of work share: the assignment, the stage, the
   * project, the team (none for individual work) and the submitter.
   */
  datatype Lineage = Lineage(assignmentId: Id, stageId: Id, projectId: Id, teamId: Option<Id>, submitterId: Id)

  function LineageOf(s: Submission): Lineage
  {
    Lineage(s.assignmentId, s.stageId, s.projectId, s.teamId, s.submitterId)
  }

  /** A live version of the work (`team_id = ?`, or `team_id IS NULL` for individual work). */
  predicate InLineage(s: Submission, l: Lineage)
  {
    LiveSubmission(s) && LineageOf(s) == l
  }

  /** `SELECT max(version)` over the live versions of the work: NULL when there are none. */
  function MaxVersion(subs: seq<Submission>, l: Lineage): (r: Option<int>)
    ensures r.None? <==> forall id :: Has(subs, id) ==> !InLineage(subs[id - 1], l)
    ensures r.Some? ==> forall id :: Has(subs, id) && InLineage(subs[id - 1], l) ==> subs[id - 1].version <= r.value
    ensures r.Some? ==> exists id :: Has(subs, id) && InLineage(subs[id - 1], l) && subs[id - 1].version == r.value
  {
    if subs == [] then None
    else
      var prev := subs[..|subs| - 1];
      var last := subs[|subs| - 1];
      var m := MaxVersion(prev, l);
      assert forall id :: Has(subs, id) && id < |subs| ==> Has(prev, id) && prev[id - 1] == subs[id - 1];
      assert m.Some? ==> exists id :: Has(subs, id) && InLineage(subs[id - 1], l) && subs[id - 1].version == m.value by {
        if m.Some? {
          var w := MaxWitness(prev, l, m.value);
          assert Has(subs, w) && subs[w - 1] == prev[w - 1];
        }
      }
      if !InLineage(last, l) then m
      else if m.None? || m.value < last.version then
        assert Has(subs, |subs|);
        Some(last.version)
      else m
  }

  /** A live version of the work carrying the given version number. */
  ghost function MaxWitness(subs: seq<Submission>, l: Lineage, v: int): (w: Id)
    requires exists id :: Has(subs, id) && InLineage(subs[id - 1], l) && subs[id - 1].version == v
    ensures Has(subs, w) && InLineage(subs[w - 1], l) && subs[w - 1].version == v
  {
    var id :| Has(subs, id) && InLineage(subs[id - 1], l) && subs[id - 1].version == v; id
  }

  /** `(latest?.v ?? 0) + 1`: 1 for the first version, otherwise one past every live version. */
  function NextVersion(subs: seq<Submission>, l: Lineage): (r: int)
    ensures (forall id :: Has(subs, id) ==> !InLineage(subs[id - 1], l)) ==> r == 1
    ensures forall id :: Has(subs, id) && InLineage(subs[id - 1], l) ==> subs[id - 1].version < r
  {
    match MaxVersion(subs, l)
    case None => 1
    case Some(v) => v + 1
  }

  /**
   * A row numbered by NextVersion never repeats a live version of its work, so the
   * version index accepts it.
   */
  lemma NextVersionNeverCollides(subs: seq<Submission>, s: Submission)
    requires SubmissionsUnique(subs)
    requires s.version == NextVersion(subs, LineageOf(s))
    ensures SubmissionsUnique(subs + [s])
  {
    var all := subs + [s];
    forall i, j | 0 <= i < j < |all| && LiveSubmission(all[i]) && LiveSubmission(all[j])
                  && all[i].teamId.Some? && all[j].teamId.Some?
      ensures all[i].assignmentId != all[j].assignmentId || all[i].stageId != all[j].stageId
              || all[i].projectId != all[j].projectId || all[i].teamId != all[j].teamId
              || all[i].submitterId != all[j].submitterId || all[i].version != all[j].version
    {
      if j == |subs| {
        assert Has(subs, i + 1) && subs[i + 1 - 1] == all[i];
        if LineageOf(all[i]) == LineageOf(s) {
          assert all[i].version < s.version;
        }
      } else {
        assert all[i] == subs[i] && all[j] == subs[j];
      }
    }
  }

  /** Handing in a version makes the next one exactly one higher. */
  lemma VersionsCountUp(subs: seq<Submission>, s: Submission)
    requires LiveSubmission(s) && s.version == NextVersion(subs, LineageOf(s))
    ensures NextVersion(subs + [s], LineageOf(s)) == s.version + 1
  {
    assert (subs + [s])[..|subs|] == subs;
  }

  /** Handing in a version leaves the numbering of every other piece of work alone. */
  lemma OtherWorkUnaffected(subs: seq<Submission>, s: Submission, l: Lineage)
    requires l != LineageOf(s)
    ensures NextVersion(subs + [s], l) == NextVersion(subs, l)
  {
    assert (subs + [s])[..|subs|] == subs;
  }

  /* ---------- POST /assignments/:assignmentId/submissions ---------- */

  /** What the guards of a hand-in resolve: the assignment, the team, its project and stage, the deadline. */
  datatype CreateTarget = CreateTarget(assignment: Assignment, teamId: Id, team: Team, projectId: Id,
                                       stageId: Id, deadline: int)

  predicate TeamProject(p: Project, teamId: Id)
  {
    p.teamId == teamId && LiveProject(p)
  }

  predicate AssignmentStage(s: Stage, projectId: Id, key: Stages.StageKey)
  {
    Projects.StageOf(s, projectId) && s.key == key
  }

  /**
   * The guards of a hand-in in the handler's order: a user; a live assignment; a class
   * the user may read and that is not archived; the student's active team in the class;
   * the leader for team work; the team's project, active; the project's stage for the
   * assignment, open; a deadline that parses.
   */
  function CreateCheck(classes: seq<Class>, ts: seq<ClassTeacher>, es: seq<Enrollment>, teams: seq<Team>,
                       ms: seq<Member>, ps: seq<Project>, ss: seq<Stage>, asgs: seq<Assignment>,
                       user: Option<Actor>, assignmentId: Id, parse: string -> Option<int>)
    : (r: Result<CreateTarget, HttpError>)
    ensures user.None? ==> r == Err(Unauthorized("Login required"))
    ensures r.Ok? ==> (user.Some? && Has(asgs, assignmentId) && r.value.assignment == asgs[assignmentId - 1]
                       && LiveAssignment(r.value.assignment))
    ensures r.Ok? ==> (MayReadClass(ts, es, user.value, r.value.assignment.classId)
                       && Teams.ClassWritable(classes, r.value.assignment.classId))
    ensures r.Ok? ==> (Statements.ActiveTeamOf(ms, r.value.assignment.classId, user.value.id) == Some(r.value.teamId)
                       && Has(teams, r.value.teamId) && r.value.team == teams[r.value.teamId - 1])
    ensures r.Ok? && r.value.assignment.kind == TeamWork ==> r.value.team.leaderId == user.value.id
    ensures r.Ok? ==> (Has(ps, r.value.projectId) && TeamProject(ps[r.value.projectId - 1], r.value.teamId)
                       && ps[r.value.projectId - 1].status == Active)
    ensures r.Ok? ==> (Has(ss, r.value.stageId)
                       && AssignmentStage(ss[r.value.stageId - 1], r.value.projectId, r.value.assignment.stageKey)
                       && ss[r.value.stageId - 1].status == Stages.Open)
    ensures r.Ok? ==> parse(r.value.assignment.deadline) == Some(r.value.deadline)
  {
    var me :- RequireUser(user);
    var a :- Assignments.GetAssignment(asgs, assignmentId);
    var _ :- AssertClassReadable(ts, es, user, a.classId);
    var c :- GetClass(classes, a.classId);
    var _ :- AssertClassWritable(c);
    var active := Statements.ActiveTeamOf(ms, a.classId, me.id);
    if active.None? then Err(BadRequest("Not in a team"))
    else
      var team :- GetTeam(teams, active.value);
      if a.kind == TeamWork && me.id != team.leaderId then Err(Forbidden("Leader required"))
      else WorkCheck(ps, ss, a, active.value, team, parse)
  }

  /**
   * The second half of the guards: the team's project, active; the project's stage for
   * the assignment, open; a deadline that parses.
   */
  function WorkCheck(ps: seq<Project>, ss: seq<Stage>, a: Assignment, teamId: Id, team: Team,
                     parse: string -> Option<int>): (r: Result<CreateTarget, HttpError>)
    ensures r.Ok? ==> r.value.assignment == a && r.value.teamId == teamId && r.value.team == team
    ensures r.Ok? ==> (Has(ps, r.value.projectId) && TeamProject(ps[r.value.projectId - 1], teamId)
                       && ps[r.value.projectId - 1].status == Active)
    ensures r.Ok? ==> (Has(ss, r.value.stageId)
                       && AssignmentStage(ss[r.value.stageId - 1], r.value.projectId, a.stageKey)
                       && ss[r.value.stageId - 1].status == Stages.Open)
    ensures r.Ok? ==> parse(a.deadline) == Some(r.value.deadline)
  {
    var pid := Queries.First(ps, (p: Project) => TeamProject(p, teamId));
    if pid.None? || ps[pid.value - 1].status != Active then Err(BadRequest("Project not active"))
    else
      var sid := Queries.First(ss, (s: Stage) => AssignmentStage(s, pid.value, a.stageKey));
      if sid.None? then Err(BadRequest("Stage not initialized"))
      else if ss[sid.value - 1].status != Stages.Open then Err(BadRequest("Stage is not open"))
      else
        var deadline :- ParseIsoToMs(a.deadline, parse);
        Ok(CreateTarget(a, teamId, team, pid.value, sid.value, deadline))
  }

  /** The team a submission is filed under: the team for team work, none for individual work. */
  function LogicalTeam(t: CreateTarget): Option<Id>
  {
    if t.assignment.kind == TeamWork then Some(t.teamId) else None
  }

  /**
   * The row handed in: the next version of the submitter's work on the stage, late when
   * the current time is past the deadline, with the first uploaded file as main file.
   */
  function NewSubmission(subs: seq<Submission>, t: CreateTarget, assignmentId: Id, me: Actor, now: Time,
                         fileIds: seq<Id>): (s: Submission)
    ensures s.teamId.Some? <==> t.assignment.kind == TeamWork
    ensures s.teamId.Some? ==> s.teamId.value == t.teamId
    ensures s.isLate <==> now > t.deadline
    ensures forall id :: Has(subs, id) && InLineage(subs[id - 1], LineageOf(s)) ==> subs[id - 1].version < s.version
    ensures (forall id :: Has(subs, id) ==> !InLineage(subs[id - 1], LineageOf(s))) ==> s.version == 1
  {
    var l := Lineage(assignmentId, t.stageId, t.projectId, LogicalTeam(t), me.id);
    Submission(assignmentId, t.stageId, me.id, LogicalTeam(t), t.assignment.classId, t.projectId,
               NextVersion(subs, l), now > t.deadline, if fileIds == [] then None else Some(fileIds[0]), None)
  }

  /**
   * The insert a hand-in makes can only be refused because the team's project lies in
   * another class than the assignment: the class is writable, the team and assignment
   * kind agree, the stage is the project's, and the version is new.
   */
  lemma OnlyAForeignProjectIsRefused(classes: seq<Class>, flags: WriteFlags, ts: seq<ClassTeacher>,
                                     es: seq<Enrollment>, teams: seq<Team>, ms: seq<Member>, ps: seq<Project>,
                                     ss: seq<Stage>, asgs: seq<Assignment>, subs: seq<Submission>,
                                     user: Option<Actor>, assignmentId: Id, parse: string -> Option<int>,
                                     t: CreateTarget, now: Time, fileIds: seq<Id>)
    requires SubmissionsUnique(subs)
    requires CreateCheck(classes, ts, es, teams, ms, ps, ss, asgs, user, assignmentId, parse) == Ok(t)
    ensures var s := NewSubmission(subs, t, assignmentId, user.value, now, fileIds);
      Statements.InsertSubmission(classes, flags, asgs, ps, ss, subs, s)
        == if ps[t.projectId - 1].classId != t.assignment.classId then Err(ErrorMapper.SUBMISSION_CLASS_PROJECT_MISMATCH)
           else Ok(subs + [s])
  {
    TargetInsertOutcome(classes, flags, ps, ss, asgs, subs, assignmentId, user.value, t, now, fileIds);
  }

  /** OnlyAForeignProjectIsRefused, from the facts the guards establish about the target. */
  lemma TargetInsertOutcome(classes: seq<Class>, flags: WriteFlags, ps: seq<Project>, ss: seq<Stage>,
                            asgs: seq<Assignment>, subs: seq<Submission>, assignmentId: Id, me: Actor,
                            t: CreateTarget, now: Time, fileIds: seq<Id>)
    requires SubmissionsUnique(subs)
    requires Has(asgs, assignmentId) && t.assignment == asgs[assignmentId - 1]
    requires Teams.ClassWritable(classes, t.assignment.classId)
    requires Has(ps, t.projectId)
    requires Has(ss, t.stageId) && AssignmentStage(ss[t.stageId - 1], t.projectId, t.assignment.stageKey)
    ensures var s := NewSubmission(subs, t, assignmentId, me, now, fileIds);
      Statements.InsertSubmission(classes, flags, asgs, ps, ss, subs, s)
        == if ps[t.projectId - 1].classId != t.assignment.classId then Err(ErrorMapper.SUBMISSION_CLASS_PROJECT_MISMATCH)
           else Ok(subs + [s])
  {
    var s := NewSubmission(subs, t, assignmentId, me, now, fileIds);
    WritableClassPassesGuard(classes, flags, t.assignment.classId);
    InsertOutcome(classes, flags, asgs, ps, ss, subs, s);
  }

  /** The insert of a consistent, newly numbered row in a writable class fails only on its project's class. */
  lemma InsertOutcome(classes: seq<Class>, flags: WriteFlags, asgs: seq<Assignment>, ps: seq<Project>,
                      ss: seq<Stage>, subs: seq<Submission>, s: Submission)
    requires SubmissionsUnique(subs) && s.version == NextVersion(subs, LineageOf(s))
    requires !ArchivedBlocks(classes, flags, s.classId)
    requires Has(asgs, s.assignmentId) && asgs[s.assignmentId - 1].classId == s.classId
    requires asgs[s.assignmentId - 1].kind == TeamWork <==> s.teamId.Some?
    requires Has(ss, s.stageId) && ss[s.stageId - 1].projectId == s.projectId
    requires Has(ps, s.projectId)
    ensures Statements.InsertSubmission(classes, flags, asgs, ps, ss, subs, s)
      == if ps[s.projectId - 1].classId != s.classId then Err(ErrorMapper.SUBMISSION_CLASS_PROJECT_MISMATCH)
         else Ok(subs + [s])
  {
    NextVersionNeverCollides(subs, s);
  }

  /** That refusal reaches the client as a generic 500: the code matches no keyword. */
  lemma ForeignProjectAnsweredAsInternal()
    ensures DbError(ErrorMapper.SUBMISSION_CLASS_PROJECT_MISMATCH) == Internal(DEFAULT_FALLBACK)
  {
    MismatchLacks();
    ErrorHandler.ClassifyInternalWhen(ErrorMapper.SUBMISSION_CLASS_PROJECT_MISMATCH);
  }

  /** The abort code has no k, f or q and no v at all, in either case. */
  lemma MismatchLacks()
    ensures Js.Avoids(ErrorMapper.SUBMISSION_CLASS_PROJECT_MISMATCH, "kKfFqQ")
    ensures var s := ErrorMapper.SUBMISSION_CLASS_PROJECT_MISMATCH;
      forall i :: 0 <= i < |s| - 1 ==> !(Js.LowerChar(s[i]) == 'v' && Js.LowerChar(s[i + 1]) == 'a')
  {
    var s := ErrorMapper.SUBMISSION_CLASS_PROJECT_MISMATCH;
    forall i | 0 <= i < |s| ensures s[i] !in "kKfFqQ" && Js.LowerChar(s[i]) != 'v' {
      assert s[i] in "ABCDEGHIJLMNOPRSTUWXYZ_";
    }
  }

  /** The submission_files rows linking a submission to its uploaded files, in upload order. */
  function Links(submissionId: Id, fileIds: seq<Id>): (r: seq<SubmissionFile>)
    ensures |r| == |fileIds|
    ensures forall i :: 0 <= i < |r| ==> r[i] == SubmissionFile(submissionId, fileIds[i])
  {
    seq(|fileIds|, i requires 0 <= i < |fileIds| => SubmissionFile(submissionId, fileIds[i]))
  }

  /** The uploaded files are distinct rows. */
  predicate Distinct(fileIds: seq<Id>)
  {
    forall i, j :: 0 <= i < j < |fileIds| ==> fileIds[i] != fileIds[j]
  }

  /** INSERT INTO submissions ... RETURNING: the new row's id, or the statement's abort message. */
  method AddSubmission(db: Db, s: Submission) returns (r: Result<Id, string>)
    requires db.Valid()
    modifies db`submissions
    ensures db.Valid()
    ensures var ins := Statements.InsertSubmission(db.classes, db.flags, db.assignments, db.projects, db.stages,
                                                   old(db.submissions), s);
      (ins.Err? ==> r == Err(ins.error) && db.submissions == old(db.submissions))
      && (ins.Ok? ==> r == Ok(|old(db.submissions)| + 1) && db.submissions == old(db.submissions) + [s])
  {
    var ins := Statements.InsertSubmission(db.classes, db.flags, db.assignments, db.projects, db.stages,
                                           db.submissions, s);
    if ins.Err? {
      return Err(ins.error);
    }
    r := Ok(|db.submissions| + 1);
    db.submissions := ins.value;
  }

  /**
   * The loop over the uploaded files: one submission_files row each, in order. None is
   * refused, since the submission is new and the files are distinct.
   */
  method LinkFiles(db: Db, submissionId: Id, fileIds: seq<Id>)
    requires db.Valid() && Has(db.submissions, submissionId) && Distinct(fileIds)
    requires forall f :: f in db.submissionFiles ==> f.submissionId != submissionId
    modifies db`submissionFiles
    ensures db.Valid()
    ensures db.submissionFiles == old(db.submissionFiles) + Links(submissionId, fileIds)
  {
    var k := 0;
    while k < |fileIds|
      invariant 0 <= k <= |fileIds|
      invariant db.Valid()
      invariant db.submissionFiles == old(db.submissionFiles) + Links(submissionId, fileIds[..k])
    {
      var link := SubmissionFile(submissionId, fileIds[k]);
      assert link !in db.submissionFiles by {
        forall f | f in Links(submissionId, fileIds[..k]) ensures f != link {
          var i :| 0 <= i < k && f == Links(submissionId, fileIds[..k])[i];
        }
      }
      var ins := Statements.InsertSubmissionFile(db.submissionFiles, link);
      db.submissionFiles := ins.value;
      assert Links(submissionId, fileIds[..k + 1]) == Links(submissionId, fileIds[..k]) + [link];
      k := k + 1;
    }
    assert fileIds[..k] == fileIds;
  }

  /** What a hand-in answers with: the new row's id, the row, and its files. */
  datatype Created = Created(id: Id, submission: Submission, files: seq<Id>)

  /**
   * A student hands in a new version: when the guards pass, the row is appended with
   * the next version number, its files are linked, and the hand-in is audited; when
   * the insert is refused, nothing changes. The uploaded files are given as the ids of
   * the file rows already created for them.
   */
  method CreateSubmission(db: Db, ctx: Ctx, assignmentId: Id, parse: string -> Option<int>, fileIds: seq<Id>)
    returns (r: Result<Created, HttpError>)
    requires db.Valid() && Distinct(fileIds)
    modifies db`submissions, db`submissionFiles, db.journal`audit
    ensures db.Valid()
    ensures old(CreateCheck(db.classes, db.classTeachers, db.enrollments, db.teams, db.members, db.projects,
                            db.stages, db.assignments, ctx.user, assignmentId, parse)).Err? ==>
      r == Err(old(CreateCheck(db.classes, db.classTeachers, db.enrollments, db.teams, db.members, db.projects,
                               db.stages, db.assignments, ctx.user, assignmentId, parse)).error)
    ensures r.Err? ==> (db.submissions == old(db.submissions) && db.submissionFiles == old(db.submissionFiles)
                        && db.journal.audit == old(db.journal.audit))
    ensures old(CreateCheck(db.classes, db.classTeachers, db.enrollments, db.teams, db.members, db.projects,
                            db.stages, db.assignments, ctx.user, assignmentId, parse)).Ok? ==>
      var t := old(CreateCheck(db.classes, db.classTeachers, db.enrollments, db.teams, db.members, db.projects,
                               db.stages, db.assignments, ctx.user, assignmentId, parse)).value;
      var s := NewSubmission(old(db.submissions), t, assignmentId, ctx.user.value, ctx.now, fileIds);
      var ins := Statements.InsertSubmission(db.classes, db.flags, db.assignments, db.projects, db.stages,
                                             old(db.submissions), s);
      var id := |old(db.submissions)| + 1;
      if ins.Err? then r == Err(DbError(ins.error))
      else
        r == Ok(Created(id, s, fileIds)) && db.submissions == old(db.submissions) + [s]
        && db.submissionFiles == old(db.submissionFiles) + Links(id, fileIds)
        && db.journal.audit == old(db.journal.audit)
             + [AuditRow(ctx, ctx.user.value, CREATE_ACTION, SUBMISSIONS_TABLE, IdText(id), None,
                         Some(SubmissionSnap(id, s)), Some(t.assignment.classId), Some(t.teamId),
                         Some(t.projectId))]
  {
    var t :- CreateCheck(db.classes, db.classTeachers, db.enrollments, db.teams, db.members, db.projects,
                         db.stages, db.assignments, ctx.user, assignmentId, parse);
    r := FileSubmission(db, ctx, t, assignmentId, fileIds);
  }

  /** The write half of the creation: the insert, the file links and the audit row. */
  method FileSubmission(db: Db, ctx: Ctx, t: CreateTarget, assignmentId: Id, fileIds: seq<Id>)
    returns (r: Result<Created, HttpError>)
    requires db.Valid() && Distinct(fileIds) && ctx.user.Some?
    modifies db`submissions, db`submissionFiles, db.journal`audit
    ensures db.Valid()
    ensures var s := NewSubmission(old(db.submissions), t, assignmentId, ctx.user.value, ctx.now, fileIds);
      var ins := Statements.InsertSubmission(db.classes, db.flags, db.assignments, db.projects, db.stages,
                                             old(db.submissions), s);
      var id := |old(db.submissions)| + 1;
      if ins.Err? then
        r == Err(DbError(ins.error)) && db.submissions == old(db.submissions)
        && db.submissionFiles == old(db.submissionFiles) && db.journal.audit == old(db.journal.audit)
      else
        r == Ok(Created(id, s, fileIds)) && db.submissions == old(db.submissions) + [s]
        && db.submissionFiles == old(db.submissionFiles) + Links(id, fileIds)
        && db.journal.audit == old(db.journal.audit)
             + [AuditRow(ctx, ctx.user.value, CREATE_ACTION, SUBMISSIONS_TABLE, IdText(id), None,
                         Some(SubmissionSnap(id, s)), Some(t.assignment.classId), Some(t.teamId),
                         Some(t.projectId))]
  {
    var s := NewSubmission(db.submissions, t, assignmentId, ctx.user.value, ctx.now, fileIds);
    var added := AddSubmission(db, s);
    if added.Err? {
      return Err(DbError(added.error));
    }
    var id := added.value;
    LinkFiles(db, id, fileIds);
    db.journal.WriteAudit(ctx, CREATE_ACTION, SUBMISSIONS_TABLE, IdText(id), None, Some(SubmissionSnap(id, s)),
                          Some(t.assignment.classId), Some(t.teamId), Some(t.projectId));
    r := Ok(Created(id, s, fileIds));
  }

  /* ---------- the read routes ---------- */

  /** A submission as the read routes return it: the row, its file ids and its live grade. */
  datatype SubmissionView = SubmissionView(id: Id, submission: Submission, files: seq<Id>, grade: Option<Grade>)

  /** The files linked to a submission, in link order. */
  function FilesOf(fs: seq<SubmissionFile>, submissionId: Id): (r: seq<Id>)
    ensures forall f :: f in r <==> SubmissionFile(submissionId, f) in fs
  {
    if fs == [] then []
    else
      var rest := FilesOf(fs[1..], submissionId);
      assert forall f :: f in fs <==> f == fs[0] || f in fs[1..];
      if fs[0].submissionId == submissionId then [fs[0].fileId] + rest else rest
  }

  /** The submission's grade unless it was deleted. */
  function GradeOf(gs: map<Id, Grade>, submissionId: Id): Option<Grade>
  {
    if submissionId in gs && gs[submissionId].deletedAt.None? then Some(gs[submissionId]) else None
  }

  function ViewOf(subs: seq<Submission>, fs: seq<SubmissionFile>, gs: map<Id, Grade>, id: Id): SubmissionView
    requires Has(subs, id)
  {
    SubmissionView(id, subs[id - 1], FilesOf(fs, id), GradeOf(gs, id))
  }

  /* ---------- GET /assignments/:assignmentId/submissions ---------- */

  /** Which submissions of the assignment a reader sees. */
  datatype Scope = AllRows | TeamOrOwn(teamId: Id, userId: Id) | OwnOnly(userId: Id)

  predicate InScope(s: Submission, assignmentId: Id, scope: Scope)
  {
    && LiveSubmission(s)
    && s.assignmentId == assignmentId
    && match scope
       case AllRows => true
       case TeamOrOwn(teamId, userId) => s.teamId == Some(teamId) || s.submitterId == userId
       case OwnOnly(userId) => s.submitterId == userId
  }

  /**
   * A teacher of the class and an admin see every submission; a student who leads their
   * active team sees the team's and their own, any other student only their own.
   */
  function ListScope(ts: seq<ClassTeacher>, teams: seq<Team>, ms: seq<Member>, me: Actor, classId: Id)
    : (r: Result<Scope, HttpError>)
    ensures me.role == Auth.Teacher ==> (r.Ok? <==> IsTeacherOfClass(ts, classId, me.id))
    ensures me.role == Auth.Teacher && r.Err? ==> r.error == Forbidden("Not a teacher of this class")
    ensures me.role == Auth.Admin ==> r == Ok(AllRows)
    ensures me.role == Auth.Student && r.Ok? ==>
      (r.value == OwnOnly(me.id)
       || (r.value.TeamOrOwn? && r.value.userId == me.id
           && Statements.ActiveTeamOf(ms, classId, me.id) == Some(r.value.teamId)
           && Has(teams, r.value.teamId) && teams[r.value.teamId - 1].leaderId == me.id))
  {
    if me.role == Auth.Teacher then
      if IsTeacherOfClass(ts, classId, me.id) then Ok(AllRows) else Err(Forbidden("Not a teacher of this class"))
    else if me.role == Auth.Admin then Ok(AllRows)
    else
      var teamId := Statements.ActiveTeamOf(ms, classId, me.id);
      if teamId.Some? then
        var team :- GetTeam(teams, teamId.value);
        if team.leaderId == me.id then Ok(TeamOrOwn(teamId.value, me.id)) else Ok(OwnOnly(me.id))
      else Ok(OwnOnly(me.id))
  }

  /** The listing's guards: a user, a live assignment, a readable class, then the reader's scope. */
  function ListCheck(ts: seq<ClassTeacher>, es: seq<Enrollment>, teams: seq<Team>, ms: seq<Member>,
                     asgs: seq<Assignment>, user: Option<Actor>, assignmentId: Id): (r: Result<Scope, HttpError>)
    ensures r.Ok? ==> (user.Some? && Assignments.GetAssignment(asgs, assignmentId).Ok?
                       && MayReadClass(ts, es, user.value, asgs[assignmentId - 1].classId)
                       && ListScope(ts, teams, ms, user.value, asgs[assignmentId - 1].classId) == r)
  {
    var me :- RequireUser(user);
    var a :- Assignments.GetAssignment(asgs, assignmentId);
    var _ :- AssertClassReadable(ts, es, user, a.classId);
    ListScope(ts, teams, ms, me, a.classId)
  }

  /** The rows in scope, newest first. */
  function Visible(subs: seq<Submission>, assignmentId: Id, scope: Scope): seq<Id>
  {
    Queries.SelectNewestFirst(subs, (s: Submission) => InScope(s, assignmentId, scope))
  }

  /**
   * What reaches the handler when it evaluates the `inArray(...)` it never imported.
   * The message is illustrative: its wording depends on the JavaScript engine, and
   * what matters is that it holds none of the error hook's keywords.
   */
  const MISSING_IMPORT := ErrorInstance("ReferenceError", "inArray is not defined", [])

  /**
   * The listing as written: the handler returns [] when no row is in scope, and
   * otherwise reaches the file query, whose `inArray` is not imported, and throws.
   */
  function ListSubmissionsAsWritten(ts: seq<ClassTeacher>, es: seq<Enrollment>, teams: seq<Team>, ms: seq<Member>,
                                    asgs: seq<Assignment>, subs: seq<Submission>, user: Option<Actor>,
                                    assignmentId: Id): (r: Result<seq<SubmissionView>, HttpError>)
    ensures r.Ok? ==> r.value == []
  {
    var scope :- ListCheck(ts, es, teams, ms, asgs, user, assignmentId);
    if Visible(subs, assignmentId, scope) == [] then Ok([])
    else Err(ErrorHandler.Handle(MISSING_IMPORT))
  }

  /**
   * As written, a reader who may see any submission of the assignment gets a generic 500:
   * "inarray is not defined" holds no k, u, q or v, so it matches no keyword.
   */
  lemma ListingFailsWheneverARowIsVisible(ts: seq<ClassTeacher>, es: seq<Enrollment>, teams: seq<Team>,
                                          ms: seq<Member>, asgs: seq<Assignment>, subs: seq<Submission>,
                                          user: Option<Actor>, assignmentId: Id)
    requires ListCheck(ts, es, teams, ms, asgs, user, assignmentId).Ok?
    requires Visible(subs, assignmentId, ListCheck(ts, es, teams, ms, asgs, user, assignmentId).value) != []
    ensures ListSubmissionsAsWritten(ts, es, teams, ms, asgs, subs, user, assignmentId)
      == Err(Internal(DEFAULT_FALLBACK))
  {
    MissingImportIsInternal();
  }

  /** The lower-cased message has none of the letters the keyword checks look for. */
  lemma MissingImportLacks()
    ensures var m := Js.ToLower("inArray is not defined");
      'k' !in m && 'u' !in m && 'q' !in m && 'v' !in m
  {
    var s := "inArray is not defined";
    var m := Js.ToLower(s);
    assert Js.Avoids(s, "kKuUqQvV");
    forall i | 0 <= i < |m| ensures m[i] != 'k' && m[i] != 'u' && m[i] != 'q' && m[i] != 'v' {
      assert s[i] !in "kKuUqQvV";
    }
  }

  /** The thrown ReferenceError is classified as a generic 500. */
  lemma MissingImportIsInternal()
    ensures ErrorHandler.Handle(MISSING_IMPORT) == Internal(DEFAULT_FALLBACK)
  {
    var m := Js.ToLower("inArray is not defined");
    MissingImportLacks();
    Js.NotContainsByChar(m, "write blocked", 'k');
    Js.NotContainsByChar(m, "locked", 'k');
    Js.NotContainsByChar(m, "not found", 'u');
    Js.NotContainsByChar(m, "bad request", 'q');
    Js.NotContainsByChar(m, "invalid", 'v');
  }

  function Views(subs: seq<Submission>, fs: seq<SubmissionFile>, gs: map<Id, Grade>, ids: seq<Id>)
    : (r: seq<SubmissionView>)
    requires forall id :: id in ids ==> Has(subs, id)
    ensures |r| == |ids|
    ensures forall i :: 0 <= i < |ids| ==> r[i] == ViewOf(subs, fs, gs, ids[i])
  {
    seq(|ids|, i requires 0 <= i < |ids| => ViewOf(subs, fs, gs, ids[i]))
  }

  function IdsOf(vs: seq<SubmissionView>): (r: seq<Id>)
    ensures |r| == |vs|
    ensures forall i :: 0 <= i < |vs| ==> r[i] == vs[i].id
  {
    seq(|vs|, i requires 0 <= i < |vs| => vs[i].id)
  }

  /**
   * The rows of the assignment in a scope: every live one in it, newest first, each
   * with its linked files and its live grade.
   */
  function InScopeViews(subs: seq<Submission>, fs: seq<SubmissionFile>, gs: map<Id, Grade>, assignmentId: Id,
                        scope: Scope): (r: seq<SubmissionView>)
    ensures forall id :: id in IdsOf(r) <==> Has(subs, id) && InScope(subs[id - 1], assignmentId, scope)
    ensures Queries.Decreasing(IdsOf(r))
    ensures forall v :: v in r ==>
      (Has(subs, v.id) && v.submission == subs[v.id - 1] && v.grade == GradeOf(gs, v.id)
       && (forall f :: f in v.files <==> SubmissionFile(v.id, f) in fs))
  {
    var ids := Visible(subs, assignmentId, scope);
    var vs := Views(subs, fs, gs, ids);
    assert IdsOf(vs) == ids;
    vs
  }

  /** The listing as intended: the guards of the handler, then the rows in the reader's scope. */
  function ListSubmissions(ts: seq<ClassTeacher>, es: seq<Enrollment>, teams: seq<Team>, ms: seq<Member>,
                           asgs: seq<Assignment>, subs: seq<Submission>, fs: seq<SubmissionFile>,
                           gs: map<Id, Grade>, user: Option<Actor>, assignmentId: Id)
    : (r: Result<seq<SubmissionView>, HttpError>)
    ensures r.Ok? <==> ListCheck(ts, es, teams, ms, asgs, user, assignmentId).Ok?
    ensures r.Err? ==> r.error == ListCheck(ts, es, teams, ms, asgs, user, assignmentId).error
    ensures r.Ok? ==> r.value == InScopeViews(subs, fs, gs, assignmentId,
                                              ListCheck(ts, es, teams, ms, asgs, user, assignmentId).value)
  {
    var scope :- ListCheck(ts, es, teams, ms, asgs, user, assignmentId);
    Ok(InScopeViews(subs, fs, gs, assignmentId, scope))
  }

  /** Both listings refuse the same readers with the same error, and agree when nothing is in scope. */
  lemma AsWrittenAgreesWhenNothingVisible(ts: seq<ClassTeacher>, es: seq<Enrollment>, teams: seq<Team>,
                                          ms: seq<Member>, asgs: seq<Assignment>, subs: seq<Submission>,
                                          fs: seq<SubmissionFile>, gs: map<Id, Grade>, user: Option<Actor>,
                                          assignmentId: Id)
    requires ListCheck(ts, es, teams, ms, asgs, user, assignmentId).Err?
      || Visible(subs, assignmentId, ListCheck(ts, es, teams, ms, asgs, user, assignmentId).value) == []
    ensures ListSubmissionsAsWritten(ts, es, teams, ms, asgs, subs, user, assignmentId)
      == ListSubmissions(ts, es, teams, ms, asgs, subs, fs, gs, user, assignmentId)
  {
  }

  /* ---------- GET /submissions/:submissionId ---------- */

  /**
   * The single view's guards: a user, a live submission, a readable class, and for a
   * student who did not hand it in, leadership of the team it was filed under.
   */
  function ReadCheck(ts: seq<ClassTeacher>, es: seq<Enrollment>, teams: seq<Team>, subs: seq<Submission>,
                     user: Option<Actor>, submissionId: Id): (r: Result<Submission, HttpError>)
    ensures r.Ok? ==> (user.Some? && Has(subs, submissionId) && LiveSubmission(subs[submissionId - 1])
                       && r.value == subs[submissionId - 1] && MayReadClass(ts, es, user.value, r.value.classId))
    ensures r.Ok? && user.value.role == Auth.Student ==>
      r.value.submitterId == user.value.id
      || (r.value.teamId.Some? && GetTeam(teams, r.value.teamId.value).Ok?
          && teams[r.value.teamId.value - 1].leaderId == user.value.id)
    ensures user.Some? && !(Has(subs, submissionId) && LiveSubmission(subs[submissionId - 1])) ==>
      r == Err(NotFound("Submission not found"))
  {
    var me :- RequireUser(user);
    if !(Has(subs, submissionId) && LiveSubmission(subs[submissionId - 1])) then Err(NotFound("Submission not found"))
    else
      var sub := subs[submissionId - 1];
      var _ :- AssertClassReadable(ts, es, user, sub.classId);
      if me.role == Auth.Student && sub.submitterId != me.id then
        if sub.teamId.None? then Err(Forbidden("Access denied"))
        else
          var team :- GetTeam(teams, sub.teamId.value);
          if team.leaderId != me.id then Err(Forbidden("Access denied")) else Ok(sub)
      else Ok(sub)
  }

  function GetSubmission(ts: seq<ClassTeacher>, es: seq<Enrollment>, teams: seq<Team>, subs: seq<Submission>,
                         fs: seq<SubmissionFile>, gs: map<Id, Grade>, user: Option<Actor>, submissionId: Id)
    : (r: Result<SubmissionView, HttpError>)
    ensures r.Ok? <==> ReadCheck(ts, es, teams, subs, user, submissionId).Ok?
    ensures r.Ok? ==> (r.value.id == submissionId && r.value.submission == subs[submissionId - 1]
                       && r.value.grade == GradeOf(gs, submissionId)
                       && (forall f :: f in r.value.files <==> SubmissionFile(submissionId, f) in fs))
  {
    var _ :- ReadCheck(ts, es, teams, subs, user, submissionId);
    Ok(ViewOf(subs, fs, gs, submissionId))
  }

  /**
   * What a student is listed they may also open: a row of their own, or one filed under
   * the team they lead (for a submission filed in the assignment's class).
   */
  lemma ListedRowsOpen(ts: seq<ClassTeacher>, es: seq<Enrollment>, teams: seq<Team>, ms: seq<Member>,
                       asgs: seq<Assignment>, subs: seq<Submission>, user: Option<Actor>, assignmentId: Id, id: Id)
    requires ListCheck(ts, es, teams, ms, asgs, user, assignmentId).Ok?
    requires id in Visible(subs, assignmentId, ListCheck(ts, es, teams, ms, asgs, user, assignmentId).value)
    requires subs[id - 1].classId == asgs[assignmentId - 1].classId
    ensures ReadCheck(ts, es, teams, subs, user, id).Ok?
  {
    var me := user.value;
    var scope := ListCheck(ts, es, teams, ms, asgs, user, assignmentId).value;
    if me.role == Auth.Student && subs[id - 1].submitterId != me.id {
      assert scope.TeamOrOwn?;
      assert GetTeam(teams, scope.teamId).Ok?;
    }
  }

  /* ---------- GET /submissions/:submissionId/versions ---------- */

  function Version(s: Submission): int
  {
    s.version
  }

  /**
   * The versions listing: a live submission (looked up before any login check), a
   * readable class, then every live version of the same work by ascending version.
   */
  function ListVersions(ts: seq<ClassTeacher>, es: seq<Enrollment>, subs: seq<Submission>, user: Option<Actor>,
                        submissionId: Id): (r: Result<seq<Id>, HttpError>)
    ensures !(Has(subs, submissionId) && LiveSubmission(subs[submissionId - 1])) ==>
      r == Err(NotFound("Submission not found"))
    ensures r.Ok? <==> (Has(subs, submissionId) && LiveSubmission(subs[submissionId - 1])
                        && user.Some? && MayReadClass(ts, es, user.value, subs[submissionId - 1].classId))
    ensures r.Ok? ==> submissionId in r.value
    ensures r.Ok? ==> forall id :: id in r.value <==>
      Has(subs, id) && InLineage(subs[id - 1], LineageOf(subs[submissionId - 1]))
    ensures r.Ok? ==> Queries.Ascending(subs, Version, r.value)
  {
    if !(Has(subs, submissionId) && LiveSubmission(subs[submissionId - 1])) then Err(NotFound("Submission not found"))
    else
      var sub := subs[submissionId - 1];
      var _ :- AssertClassReadable(ts, es, user, sub.classId);
      Ok(Queries.SelectByKey(subs, (s: Submission) => InLineage(s, LineageOf(sub)), Version))
  }

  /**
   * The versions listing has no ownership check: whenever the single view refuses a
   * student with "Access denied", the versions of that same work, the refused row
   * among them, are served.
   */
  lemma VersionsIgnoreOwnership(ts: seq<ClassTeacher>, es: seq<Enrollment>, teams: seq<Team>,
                                subs: seq<Submission>, user: Option<Actor>, submissionId: Id)
    requires ReadCheck(ts, es, teams, subs, user, submissionId) == Err(Forbidden("Access denied"))
    ensures ListVersions(ts, es, subs, user, submissionId).Ok?
    ensures submissionId in ListVersions(ts, es, subs, user, submissionId).value
  {
  }
}
