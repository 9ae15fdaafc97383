/**
 * The project handlers of server/src/routes/v1/projects.ts: a team leader creates a
 * draft, edits and submits it, a teacher of the class reviews it. Approval fires the
 * activation triggers (the team is locked and its five stages are created), and every
 * active member of the team is told of the review. A handler that fails changes nothing.
 */
module Projects {
  import opened Wrappers
  import opened Schema
  import opened HttpErrors
  import opened Store
  import opened Helpers
  import Statements
  import Queries
  import Auth
  import Teams
  import ErrorMapper
  import JsonValue
  import Js

  const PROJECTS_TABLE := "projects"
  const CREATE_ACTION := "project.create"
  const UPDATE_ACTION := "project.update"
  const SUBMIT_ACTION := "project.submit"

  /** The status text stored in the projects table. */
  function StatusName(s: ProjectStatus): string
  {
    match s
    case Draft => "draft"
    case Submitted => "submitted"
    case Active => "active"
    case Declined => "rejected"
  }

  /** Different statuses are stored as different texts, so a status filter selects one status. */
  lemma StatusNameInjective(a: ProjectStatus, b: ProjectStatus)
    ensures StatusName(a) == StatusName(b) <==> a == b
  {
  }

  /** Whether the team has a live project. */
  predicate HasLiveProject(ps: seq<Project>, teamId: Id)
  {
    exists i :: 0 <= i < |ps| && LiveProject(ps[i]) && ps[i].teamId == teamId
  }

  /* ---------- POST /teams/:teamId/projects ---------- */

  /**
   * The checks of the creation handler, in its order: the caller leads the team, the
   * team's class is live and writable, and the team has no live project. Returns the team.
   */
  function CreateCheck(classes: seq<Class>, teams: seq<Team>, ts: seq<ClassTeacher>, es: seq<Enrollment>,
                       ps: seq<Project>, user: Option<Actor>, teamId: Id): (r: Result<Team, HttpError>)
    ensures user.None? ==> r == Err(Unauthorized("Login required"))
    ensures r.Ok? <==>
      (AssertTeamLeader(teams, ts, es, user, teamId).Ok?
       && Teams.ClassWritable(classes, teams[teamId - 1].classId)
       && !HasLiveProject(ps, teamId))
    ensures r.Ok? ==> r.value == teams[teamId - 1]
    ensures (AssertTeamLeader(teams, ts, es, user, teamId).Ok? && Teams.ClassWritable(classes, teams[teamId - 1].classId)
             && r.Err?) ==> r == Err(BadRequest("Project already exists for this team"))
  {
    var team :- AssertTeamLeader(teams, ts, es, user, teamId);
    var cls :- GetClass(classes, team.classId);
    var _ :- AssertClassWritable(cls);
    if HasLiveProject(ps, teamId) then Err(BadRequest("Project already exists for this team"))
    else Ok(team)
  }

  /** The row the creation handler inserts: a draft in the team's class, created by the caller. */
  function NewProject(teamId: Id, classId: Id, sourceType: SourceType, caseId: Option<Id>, name: string,
                      background: Option<string>, techStack: Option<string>, createdBy: Id): Project
  {
    Project(teamId, classId, sourceType, caseId, name, background, techStack, Draft, createdBy,
            None, None, None, None, None)
  }

  /** A live row for a team without a live project keeps the one-project index. */
  lemma AppendForNewTeamKeepsUnique(ps: seq<Project>, p: Project)
    requires ProjectsUnique(ps) && !HasLiveProject(ps, p.teamId)
    ensures ProjectsUnique(ps + [p])
  {
    var ps' := ps + [p];
    forall i, j | 0 <= i < j < |ps'| && LiveProject(ps'[i]) && LiveProject(ps'[j])
      ensures ps'[i].teamId != ps'[j].teamId
    {
      if j < |ps| {
        assert ps'[i] == ps[i] && ps'[j] == ps[j];
      } else {
        assert ps'[i] == ps[i];
      }
    }
  }

  /**
   * INSERT INTO projects for a team of a writable class that has no live project: no
   * guard and no index refuses it, and the row takes the next id.
   */
  method AddProject(db: Db, p: Project) returns (pid: Id)
    requires db.Valid() && Teams.ClassWritable(db.classes, p.classId)
    requires Has(db.teams, p.teamId) && db.teams[p.teamId - 1].classId == p.classId
    requires !HasLiveProject(db.projects, p.teamId)
    modifies db`projects
    ensures db.Valid()
    ensures pid == |old(db.projects)| + 1 && db.projects == old(db.projects) + [p]
  {
    AppendForNewTeamKeepsUnique(db.projects, p);
    var ps := Statements.InsertProject(db.classes, db.teams, db.flags, db.projects, p);
    pid := |db.projects| + 1;
    db.projects := ps.value;
  }

  /**
   * The leader of a team in a writable class, with no live project yet, creates one: a
   * draft of the team's class, created by them, appended with the next id and audited.
   */
  method CreateProject(db: Db, ctx: Ctx, teamId: Id, sourceType: SourceType, caseId: Option<Id>, name: string,
                       background: Option<string>, techStack: Option<string>) returns (r: Result<Id, HttpError>)
    requires db.Valid()
    modifies db`projects, db.journal`audit
    ensures db.Valid()
    ensures r.Ok? <==> old(CreateCheck(db.classes, db.teams, db.classTeachers, db.enrollments, db.projects, ctx.user, teamId)).Ok?
    ensures r.Err? ==> r.error == old(CreateCheck(db.classes, db.teams, db.classTeachers, db.enrollments, db.projects, ctx.user, teamId)).error
    ensures r.Err? ==> db.projects == old(db.projects) && db.journal.audit == old(db.journal.audit)
    ensures r.Ok? ==>
      var classId := db.teams[teamId - 1].classId;
      var p := NewProject(teamId, classId, sourceType, caseId, name, background, techStack, ctx.user.value.id);
      r.value == |old(db.projects)| + 1
      && db.projects == old(db.projects) + [p]
      && db.journal.audit == old(db.journal.audit) + [AuditRow(ctx, ctx.user.value, CREATE_ACTION, PROJECTS_TABLE, IdText(r.value),
                                                             None, Some(ProjectSnap(r.value, p)), Some(classId), Some(teamId), Some(r.value))]
  {
    var team :- CreateCheck(db.classes, db.teams, db.classTeachers, db.enrollments, db.projects, ctx.user, teamId);
    var p := NewProject(teamId, team.classId, sourceType, caseId, name, background, techStack, ctx.user.value.id);
    var pid := AddProject(db, p);
    db.journal.WriteAudit(ctx, CREATE_ACTION, PROJECTS_TABLE, IdText(pid), None, Some(ProjectSnap(pid, p)),
                          Some(team.classId), Some(teamId), Some(pid));
    r := Ok(pid);
  }

  /** Once a team has a project, a second creation for it is refused, whoever asks. */
  lemma SecondCreateRefused(classes: seq<Class>, teams: seq<Team>, ts: seq<ClassTeacher>, es: seq<Enrollment>,
                            ps: seq<Project>, user: Option<Actor>, teamId: Id, p: Project)
    requires LiveProject(p) && p.teamId == teamId
    ensures CreateCheck(classes, teams, ts, es, ps + [p], user, teamId).Err?
  {
    assert (ps + [p])[|ps|] == p;
  }

  /* ---------- GET /classes/:classId/projects ---------- */

  /**
   * The WHERE clause of the listing: live projects of the class, of the filtered status
   * when one is given, and of the filtered team when one is given.
   */
  predicate Listed(p: Project, classId: Id, status: Option<string>, team: Option<Id>)
  {
    p.classId == classId && LiveProject(p)
    && (status.None? || StatusName(p.status) == status.value)
    && (team.None? || p.teamId == team.value)
  }

  /** A query parameter given and non-empty. */
  function Given(s: Option<string>): Option<string>
  {
    if s.Some? && s.value != "" then s else None
  }

  /**
   * The project listing of a class, newest first: a student sees only the project of
   * their active team in the class, and nothing without one; staff see every live project
   * of the class, narrowed to one team on request. Both may narrow by status.
   */
  function ListProjects(ps: seq<Project>, ts: seq<ClassTeacher>, es: seq<Enrollment>, ms: seq<Member>,
                        user: Option<Actor>, classId: Id, status: Option<string>, teamFilter: Option<Id>)
    : (r: Result<seq<Id>, HttpError>)
    ensures r.Ok? <==> AssertClassReadable(ts, es, user, classId).Ok?
    ensures r.Err? ==> r == Err(AssertClassReadable(ts, es, user, classId).error)
    ensures r.Ok? ==> Queries.Decreasing(r.value)
    ensures r.Ok? && user.value.role == Auth.Student ==>
      var own := Statements.ActiveTeamOf(ms, classId, user.value.id);
      forall id :: id in r.value <==> own.Some? && Has(ps, id) && Listed(ps[id - 1], classId, Given(status), own)
    ensures r.Ok? && user.value.role != Auth.Student ==>
      forall id :: id in r.value <==> Has(ps, id) && Listed(ps[id - 1], classId, Given(status), teamFilter)
  {
    var _ :- AssertClassReadable(ts, es, user, classId);
    var me := user.value;
    var st := Given(status);
    if me.role == Auth.Student then
      var own := Statements.ActiveTeamOf(ms, classId, me.id);
      if own.None? then Ok([])
      else Ok(Queries.SelectNewestFirst(ps, (p: Project) => Listed(p, classId, st, own)))
    else Ok(Queries.SelectNewestFirst(ps, (p: Project) => Listed(p, classId, st, teamFilter)))
  }

  /**
   * With the one-project index, a student's listing holds at most one project, and only
   * one of their own team.
   */
  lemma StudentListsAtMostOne(ps: seq<Project>, ts: seq<ClassTeacher>, es: seq<Enrollment>, ms: seq<Member>,
                              user: Option<Actor>, classId: Id, status: Option<string>, teamFilter: Option<Id>)
    requires ProjectsUnique(ps)
    requires user.Some? && user.value.role == Auth.Student
    requires ListProjects(ps, ts, es, ms, user, classId, status, teamFilter).Ok?
    ensures |ListProjects(ps, ts, es, ms, user, classId, status, teamFilter).value| <= 1
    ensures forall id :: id in ListProjects(ps, ts, es, ms, user, classId, status, teamFilter).value ==>
      Statements.ActiveTeamOf(ms, classId, user.value.id) == Some(ps[id - 1].teamId)
  {
    var ids := ListProjects(ps, ts, es, ms, user, classId, status, teamFilter).value;
    FirstTwo(ids);
  }

  /** The first two ids of a newest-first list, when there are two. */
  lemma FirstTwo(ids: seq<Id>)
    requires Queries.Decreasing(ids)
    ensures |ids| >= 2 ==> ids[0] in ids && ids[1] in ids && ids[1] < ids[0]
  {
  }

  /* ---------- GET /projects/:projectId ---------- */

  /** The order of the stage row with that id (rows outside the table sort first). */
  function OrderOf(ss: seq<Stage>, id: Id): int
  {
    if Has(ss, id) then ss[id - 1].order else 0
  }

  /** The stage ids are in non-decreasing stage order. */
  predicate ByOrder(ss: seq<Stage>, xs: seq<Id>)
  {
    forall i, j :: 0 <= i < j < |xs| ==> OrderOf(ss, xs[i]) <= OrderOf(ss, xs[j])
  }

  function StageOrder(s: Stage): int
  {
    s.order
  }

  predicate StageOf(s: Stage, projectId: Id)
  {
    s.projectId == projectId && LiveStage(s)
  }

  /** A project with its live stages, by stage order. */
  datatype ProjectDetail = ProjectDetail(project: Project, stages: seq<Id>)

  /**
   * `WHERE project_id = ? AND deleted_at IS NULL ORDER BY order`: each live stage of the
   * project once, by ascending order.
   */
  function LiveStagesByOrder(ss: seq<Stage>, projectId: Id): (r: seq<Id>)
    ensures forall id :: id in r <==> Has(ss, id) && StageOf(ss[id - 1], projectId)
    ensures forall id :: multiset(r)[id] <= 1
    ensures ByOrder(ss, r)
  {
    var r := Queries.SelectByKey(ss, (s: Stage) => StageOf(s, projectId), StageOrder);
    assert forall id :: OrderOf(ss, id) == Queries.KeyOf(ss, StageOrder, id);
    r
  }

  /** The project detail: a readable project and its live stages by order. */
  function GetProjectDetail(ps: seq<Project>, ss: seq<Stage>, ts: seq<ClassTeacher>, es: seq<Enrollment>,
                            user: Option<Actor>, projectId: Id): (r: Result<ProjectDetail, HttpError>)
    ensures r.Ok? <==> AssertProjectReadable(ps, ts, es, user, projectId).Ok?
    ensures r.Err? ==> r == Err(AssertProjectReadable(ps, ts, es, user, projectId).error)
    ensures r.Ok? ==> r.value == ProjectDetail(ps[projectId - 1], LiveStagesByOrder(ss, projectId))
  {
    var p :- AssertProjectReadable(ps, ts, es, user, projectId);
    Ok(ProjectDetail(p, LiveStagesByOrder(ss, projectId)))
  }

  /** With the stage indexes in place a project's live stages have strictly increasing orders. */
  lemma StagesStrictlyOrdered(ss: seq<Stage>, projectId: Id)
    requires StagesUnique(ss)
    ensures var xs := LiveStagesByOrder(ss, projectId);
      forall i, j :: 0 <= i < j < |xs| ==> OrderOf(ss, xs[i]) < OrderOf(ss, xs[j])
  {
    DistinctStagesStrict(ss, LiveStagesByOrder(ss, projectId), projectId);
  }

  /** Live stages of one project, each once and sorted by order, have strictly increasing orders. */
  lemma DistinctStagesStrict(ss: seq<Stage>, xs: seq<Id>, projectId: Id)
    requires StagesUnique(ss) && ByOrder(ss, xs)
    requires forall id :: multiset(xs)[id] <= 1
    requires forall id :: id in xs ==> Has(ss, id) && StageOf(ss[id - 1], projectId)
    ensures forall i, j :: 0 <= i < j < |xs| ==> OrderOf(ss, xs[i]) < OrderOf(ss, xs[j])
  {
    forall i, j | 0 <= i < j < |xs| ensures OrderOf(ss, xs[i]) < OrderOf(ss, xs[j]) {
      assert xs[i] in xs && xs[j] in xs;
      if xs[i] == xs[j] {
        TwiceInMultiset(xs, i, j);
      }
      var a, b := xs[i] - 1, xs[j] - 1;
      assert OrderOf(ss, xs[i]) <= OrderOf(ss, xs[j]);
      if a < b {
        assert ss[a].order != ss[b].order;
      } else {
        assert ss[b].order != ss[a].order;
      }
    }
  }

  /** The same id at two positions occurs at least twice. */
  lemma TwiceInMultiset(xs: seq<Id>, i: nat, j: nat)
    requires i < j < |xs| && xs[i] == xs[j]
    ensures multiset(xs)[xs[i]] >= 2
  {
    assert xs == xs[..i] + [xs[i]] + xs[i + 1..j] + [xs[j]] + xs[j + 1..];
  }

  /* ---------- PATCH /projects/:projectId ---------- */

  /** Who may change a project: any admin, or the student who leads its team. */
  predicate MayChange(me: Actor, team: Team)
  {
    me.role == Auth.Admin || (me.role == Auth.Student && team.leaderId == me.id)
  }

  predicate Editable(s: ProjectStatus)
  {
    s == Draft || s == Declined
  }

  /**
   * The checks of the edit handler, in its order: login, a live project, a readable (not
   * necessarily writable) class, a live team, an admin or the leader, and a draft or
   * rejected project. Returns the project.
   */
  function EditCheck(ps: seq<Project>, teams: seq<Team>, ts: seq<ClassTeacher>, es: seq<Enrollment>,
                     user: Option<Actor>, projectId: Id): (r: Result<Project, HttpError>)
    ensures user.None? ==> r == Err(Unauthorized("Login required"))
    ensures user.Some? && GetProject(ps, projectId).Err? ==> r == Err(NotFound("Project not found"))
    ensures r.Ok? <==>
      (AssertProjectReadable(ps, ts, es, user, projectId).Ok?
       && GetTeam(teams, ps[projectId - 1].teamId).Ok?
       && MayChange(user.value, teams[ps[projectId - 1].teamId - 1])
       && Editable(ps[projectId - 1].status))
    ensures r.Ok? ==> r.value == ps[projectId - 1]
    ensures (AssertProjectReadable(ps, ts, es, user, projectId).Ok? && GetTeam(teams, ps[projectId - 1].teamId).Ok?
             && !MayChange(user.value, teams[ps[projectId - 1].teamId - 1])) ==> r == Err(Forbidden("Leader required"))
  {
    var me :- RequireUser(user);
    var p :- GetProject(ps, projectId);
    var _ :- AssertClassReadable(ts, es, user, p.classId);
    var team :- GetTeam(teams, p.teamId);
    if !MayChange(me, team) then Err(Forbidden("Leader required"))
    else if !Editable(p.status) then Err(BadRequest("Only draft or rejected can be edited"))
    else Ok(p)
  }

  /** The fields an edit may carry; an absent one keeps the stored value. */
  datatype ProjectPatch = ProjectPatch(sourceType: Option<SourceType>, caseId: Option<Id>, name: Option<string>,
                                       background: Option<string>, techStack: Option<string>)

  function Or<T>(given: Option<T>, stored: T): T
  {
    if given.Some? then given.value else stored
  }

  /** The edited row: each supplied field replaces the stored one, `??` style. */
  function Patched(p: Project, b: ProjectPatch): (q: Project)
    ensures q.(sourceType := p.sourceType, caseId := p.caseId, name := p.name, background := p.background,
               techStack := p.techStack) == p
  {
    p.(name := Or(b.name, p.name),
       background := if b.background.Some? then b.background else p.background,
       techStack := if b.techStack.Some? then b.techStack else p.techStack,
       sourceType := Or(b.sourceType, p.sourceType),
       caseId := if b.caseId.Some? then b.caseId else p.caseId)
  }

  /** An empty patch changes nothing, and applying a patch twice is applying it once. */
  lemma PatchIdentityAndIdempotence(p: Project, b: ProjectPatch)
    ensures Patched(p, ProjectPatch(None, None, None, None, None)) == p
    ensures Patched(Patched(p, b), b) == Patched(p, b)
  {
  }

  /** A supplied field is what the edited row holds; an absent one is the stored value. */
  lemma PatchedFields(p: Project, b: ProjectPatch)
    ensures Patched(p, b).name == (if b.name.Some? then b.name.value else p.name)
    ensures Patched(p, b).background == (if b.background.Some? then b.background else p.background)
    ensures Patched(p, b).techStack == (if b.techStack.Some? then b.techStack else p.techStack)
    ensures Patched(p, b).sourceType == (if b.sourceType.Some? then b.sourceType.value else p.sourceType)
    ensures Patched(p, b).caseId == (if b.caseId.Some? then b.caseId else p.caseId)
  {
  }

  /**
   * UPDATE projects for a row whose team and liveness stay and which does not become
   * active: only the archived guard and the class-consistency guard can abort it.
   */
  method Rewrite(db: Db, id: Id, q: Project, now: Time) returns (r: Result<(), string>)
    requires db.Valid() && Has(db.projects, id)
    requires q.teamId == db.projects[id - 1].teamId && q.deletedAt == db.projects[id - 1].deletedAt
    requires !Statements.Activates(db.projects[id - 1], q)
    modifies db`projects
    ensures db.Valid()
    ensures r.Err? <==> ArchivedBlocks(db.classes, db.flags, q.classId) || ClassMismatch(db.teams, q.teamId, q.classId)
    ensures r.Err? ==> db.projects == old(db.projects)
                       && r.error == (if ClassMismatch(db.teams, q.teamId, q.classId) then ErrorMapper.PROJECT_CLASS_MISMATCH
                                      else ErrorMapper.CLASS_ARCHIVED_READONLY)
    ensures r.Ok? ==> db.projects == old(db.projects)[id - 1 := q]
  {
    Statements.SameTeamKeepsProjectsUnique(db.projects, id, q);
    var w := Statements.UpdateProject(db.classes, db.flags, db.teams, db.projects, db.stages, id, q, now);
    if w.Err? {
      return Err(w.error);
    }
    db.projects := w.value.projects;
    r := Ok(());
  }

  /**
   * An admin, or the student leading the team, edits a draft or rejected project: the
   * supplied fields replace the stored ones and the edit is audited with the row before
   * and after. The class is only checked to be readable, so on an archived class the
   * archived write guard aborts the update instead, and that is answered as a 500.
   */
  method EditProject(db: Db, ctx: Ctx, projectId: Id, b: ProjectPatch) returns (r: Result<Project, HttpError>)
    requires db.Valid()
    modifies db`projects, db.journal`audit
    ensures db.Valid()
    ensures old(EditCheck(db.projects, db.teams, db.classTeachers, db.enrollments, ctx.user, projectId)).Err? ==>
      r == Err(old(EditCheck(db.projects, db.teams, db.classTeachers, db.enrollments, ctx.user, projectId)).error)
    ensures r.Err? ==> db.projects == old(db.projects) && db.journal.audit == old(db.journal.audit)
    ensures old(EditCheck(db.projects, db.teams, db.classTeachers, db.enrollments, ctx.user, projectId)).Ok? ==>
      var p := old(db.projects)[projectId - 1];
      if ClassMismatch(db.teams, p.teamId, p.classId) then r == Err(DbError(ErrorMapper.PROJECT_CLASS_MISMATCH))
      else if ArchivedBlocks(db.classes, db.flags, p.classId) then r == Err(DbError(ErrorMapper.CLASS_ARCHIVED_READONLY))
      else r == Ok(Patched(p, b))
    ensures r.Ok? ==>
      var p := old(db.projects)[projectId - 1];
      db.projects == old(db.projects)[projectId - 1 := r.value]
      && db.journal.audit == old(db.journal.audit) + [AuditRow(ctx, ctx.user.value, UPDATE_ACTION, PROJECTS_TABLE, IdText(projectId),
                                                             Some(ProjectSnap(projectId, p)), Some(ProjectSnap(projectId, r.value)),
                                                             Some(p.classId), Some(p.teamId), Some(projectId))]
  {
    var p :- EditCheck(db.projects, db.teams, db.classTeachers, db.enrollments, ctx.user, projectId);
    var after := Patched(p, b);
    var w := Rewrite(db, projectId, after, ctx.now);
    if w.Err? {
      return Err(DbError(w.error));
    }
    db.journal.WriteAudit(ctx, UPDATE_ACTION, PROJECTS_TABLE, IdText(projectId), Some(ProjectSnap(projectId, p)),
                          Some(ProjectSnap(projectId, after)), Some(p.classId), Some(p.teamId), Some(projectId));
    r := Ok(after);
  }

  /**
   * Editing a project of an archived class passes every check of the handler and is
   * answered as a generic 500, not the 403 the other handlers give for archived classes.
   */
  lemma EditOnArchivedClassIsInternal(ps: seq<Project>, teams: seq<Team>, ts: seq<ClassTeacher>, es: seq<Enrollment>,
                                      classes: seq<Class>, flags: WriteFlags, user: Option<Actor>, projectId: Id)
    requires EditCheck(ps, teams, ts, es, user, projectId).Ok?
    requires ArchivedBlocks(classes, flags, ps[projectId - 1].classId)
    ensures AssertClassWritable(classes[ps[projectId - 1].classId - 1]).Err?
    ensures DbError(ErrorMapper.CLASS_ARCHIVED_READONLY) == Internal(DEFAULT_FALLBACK)
  {
    ArchivedAbortIsInternal();
  }

  /* ---------- POST /projects/:projectId/submit ---------- */

  /**
   * The checks of the submit handler, in its order: login, a live project, a readable
   * class, a live team, an admin or the leader, a live and writable class, and a draft or
   * rejected project. Returns the project.
   */
  function SubmitCheck(classes: seq<Class>, ps: seq<Project>, teams: seq<Team>, ts: seq<ClassTeacher>,
                       es: seq<Enrollment>, user: Option<Actor>, projectId: Id): (r: Result<Project, HttpError>)
    ensures user.None? ==> r == Err(Unauthorized("Login required"))
    ensures r.Ok? <==>
      (AssertProjectReadable(ps, ts, es, user, projectId).Ok?
       && GetTeam(teams, ps[projectId - 1].teamId).Ok?
       && MayChange(user.value, teams[ps[projectId - 1].teamId - 1])
       && Teams.ClassWritable(classes, ps[projectId - 1].classId)
       && Editable(ps[projectId - 1].status))
    ensures r.Ok? ==> r.value == ps[projectId - 1]
    ensures (AssertProjectReadable(ps, ts, es, user, projectId).Ok? && GetTeam(teams, ps[projectId - 1].teamId).Ok?
             && MayChange(user.value, teams[ps[projectId - 1].teamId - 1]) && Teams.ClassWritable(classes, ps[projectId - 1].classId)
             && r.Err?) ==> r == Err(BadRequest("Cannot submit"))
  {
    var me :- RequireUser(user);
    var p :- GetProject(ps, projectId);
    var _ :- AssertClassReadable(ts, es, user, p.classId);
    var team :- GetTeam(teams, p.teamId);
    if !MayChange(me, team) then Err(Forbidden("Leader required"))
    else
      var cls :- GetClass(classes, p.classId);
      var _ :- AssertClassWritable(cls);
      if !Editable(p.status) then Err(BadRequest("Cannot submit"))
      else Ok(p)
  }

  function SubmittedRow(p: Project, now: Time): Project
  {
    p.(status := Submitted, submittedAt := Some(now))
  }

  /**
   * An admin, or the student leading the team, submits a draft or rejected project of a
   * writable class: it becomes submitted, stamped now, and the submission is audited.
   */
  method SubmitProject(db: Db, ctx: Ctx, projectId: Id) returns (r: Result<Project, HttpError>)
    requires db.Valid()
    modifies db`projects, db.journal`audit
    ensures db.Valid()
    ensures old(SubmitCheck(db.classes, db.projects, db.teams, db.classTeachers, db.enrollments, ctx.user, projectId)).Err? ==>
      r == Err(old(SubmitCheck(db.classes, db.projects, db.teams, db.classTeachers, db.enrollments, ctx.user, projectId)).error)
    ensures r.Err? ==> db.projects == old(db.projects) && db.journal.audit == old(db.journal.audit)
    ensures old(SubmitCheck(db.classes, db.projects, db.teams, db.classTeachers, db.enrollments, ctx.user, projectId)).Ok? ==>
      var p := old(db.projects)[projectId - 1];
      if ClassMismatch(db.teams, p.teamId, p.classId) then r == Err(DbError(ErrorMapper.PROJECT_CLASS_MISMATCH))
      else r == Ok(SubmittedRow(p, ctx.now))
    ensures r.Ok? ==>
      var p := old(db.projects)[projectId - 1];
      r.value.status == Submitted && r.value.submittedAt == Some(ctx.now)
      && db.projects == old(db.projects)[projectId - 1 := r.value]
      && db.journal.audit == old(db.journal.audit) + [AuditRow(ctx, ctx.user.value, SUBMIT_ACTION, PROJECTS_TABLE, IdText(projectId),
                                                             Some(ProjectSnap(projectId, p)), Some(ProjectSnap(projectId, r.value)),
                                                             Some(p.classId), Some(p.teamId), Some(projectId))]
  {
    var p :- SubmitCheck(db.classes, db.projects, db.teams, db.classTeachers, db.enrollments, ctx.user, projectId);
    var after := SubmittedRow(p, ctx.now);
    var w := Rewrite(db, projectId, after, ctx.now);
    if w.Err? {
      return Err(DbError(w.error));
    }
    db.journal.WriteAudit(ctx, SUBMIT_ACTION, PROJECTS_TABLE, IdText(projectId), Some(ProjectSnap(projectId, p)),
                          Some(ProjectSnap(projectId, after)), Some(p.classId), Some(p.teamId), Some(projectId));
    r := Ok(after);
  }

  /** A submitted project can be neither edited nor submitted again by anyone. */
  lemma SubmittedIsFrozen(classes: seq<Class>, ps: seq<Project>, teams: seq<Team>, ts: seq<ClassTeacher>,
                          es: seq<Enrollment>, user: Option<Actor>, projectId: Id, now: Time)
    requires Has(ps, projectId)
    ensures var ps' := ps[projectId - 1 := SubmittedRow(ps[projectId - 1], now)];
      EditCheck(ps', teams, ts, es, user, projectId).Err? && SubmitCheck(classes, ps', teams, ts, es, user, projectId).Err?
  {
  }

  /* ---------- POST /projects/:projectId/reviews ---------- */

  /**
   * The checks of the review handler, in its order: login, a live project, a teacher of
   * its class unless an admin, a live and writable class, and a submitted project.
   */
  function ReviewCheck(classes: seq<Class>, ps: seq<Project>, ts: seq<ClassTeacher>, user: Option<Actor>,
                       projectId: Id): (r: Result<Project, HttpError>)
    ensures user.None? ==> r == Err(Unauthorized("Login required"))
    ensures r.Ok? <==>
      (user.Some? && GetProject(ps, projectId).Ok?
       && AssertClassTeacher(ts, user, ps[projectId - 1].classId).Ok?
       && Teams.ClassWritable(classes, ps[projectId - 1].classId)
       && ps[projectId - 1].status == Submitted)
    ensures r.Ok? ==> r.value == ps[projectId - 1]
    ensures user.Some? && user.value.role == Auth.Student && GetProject(ps, projectId).Ok? ==>
      r == Err(Forbidden("Teacher required"))
    ensures (user.Some? && GetProject(ps, projectId).Ok? && AssertClassTeacher(ts, user, ps[projectId - 1].classId).Ok?
             && Teams.ClassWritable(classes, ps[projectId - 1].classId) && r.Err?) ==>
      r == Err(BadRequest("Project is not submitted"))
  {
    var me :- RequireUser(user);
    var p :- GetProject(ps, projectId);
    var _ :- if me.role != Auth.Admin then AssertClassTeacher(ts, user, p.classId) else Ok(());
    var cls :- GetClass(classes, p.classId);
    var _ :- AssertClassWritable(cls);
    if p.status != Submitted then Err(BadRequest("Project is not submitted"))
    else Ok(p)
  }

  /** The reviewed row: approved becomes active, rejected rejected; reviewer, time and feedback stored. */
  function ReviewedRow(p: Project, d: Teams.Decision, reviewerId: Id, now: Time, feedback: Option<string>): Project
  {
    p.(status := if d == Teams.Approve then Active else Declined,
       reviewedAt := Some(now), reviewedBy := Some(reviewerId), reviewFeedback := feedback)
  }

  function ReviewAction(d: Teams.Decision): string
  {
    "project.review." + Teams.DecisionName(d)
  }

  /** The notice each active member receives. */
  function ReviewNotice(userId: Id, projectId: Id, d: Teams.Decision, feedback: Option<string>): Notification
  {
    NotificationRow(userId, "project.review", Some("Project " + Teams.DecisionName(d)), feedback,
                    JsonValue.Obj([JsonValue.Field("projectId", JsonValue.Num(Js.Finite(projectId as real))),
                                   JsonValue.Field("decision", JsonValue.Str(Teams.DecisionName(d)))]))
  }

  /** One notice per recipient, in the recipients' order. */
  function ReviewNotices(ids: seq<Id>, projectId: Id, d: Teams.Decision, feedback: Option<string>): (r: seq<Notification>)
    ensures |r| == |ids|
    ensures forall k :: 0 <= k < |ids| ==> r[k] == ReviewNotice(ids[k], projectId, d, feedback)
  {
    if ids == [] then []
    else ReviewNotices(ids[..|ids| - 1], projectId, d, feedback) + [ReviewNotice(ids[|ids| - 1], projectId, d, feedback)]
  }

  /** The notification loop: one notify per recipient, in order. */
  method NotifyAll(journal: Journal, ids: seq<Id>, projectId: Id, d: Teams.Decision, feedback: Option<string>)
    modifies journal`notifications
    ensures journal.notifications == old(journal.notifications) + ReviewNotices(ids, projectId, d, feedback)
  {
    var k := 0;
    while k < |ids|
      invariant 0 <= k <= |ids|
      invariant journal.notifications == old(journal.notifications) + ReviewNotices(ids[..k], projectId, d, feedback)
    {
      var n := ReviewNotice(ids[k], projectId, d, feedback);
      journal.Notify(n.userId, n.kind, n.title, n.message, n.payload);
      assert ids[..k + 1][..k] == ids[..k];
      k := k + 1;
    }
    assert ids[..k] == ids;
  }

  /** The team's active members are exactly the users told of the review. */
  lemma ReviewNotifiesExactlyTheTeam(ms: seq<Member>, teamId: Id, projectId: Id, d: Teams.Decision,
                                     feedback: Option<string>, userId: Id)
    ensures (exists n :: n in ReviewNotices(Teams.ActiveMemberIds(ms, teamId), projectId, d, feedback) && n.userId == userId)
            <==> IsTeamMember(ms, teamId, userId)
  {
    var ids := Teams.ActiveMemberIds(ms, teamId);
    var ns := ReviewNotices(ids, projectId, d, feedback);
    if IsTeamMember(ms, teamId, userId) {
      var k :| 0 <= k < |ids| && ids[k] == userId;
      assert ns[k] in ns && ns[k].userId == userId;
    }
    if exists n :: n in ns && n.userId == userId {
      var n :| n in ns && n.userId == userId;
      var k :| 0 <= k < |ns| && ns[k] == n;
      assert ids[k] in ids;
    }
  }

  /**
   * The UPDATE of the review: the project row, and on approval the team lock and the
   * stage rows of the activation triggers, exactly as the statement leaves them.
   */
  method ApplyReview(db: Db, id: Id, q: Project, now: Time) returns (r: Result<(), string>)
    requires db.Valid() && Has(db.projects, id)
    modifies db`projects, db`teams, db`stages
    ensures db.Valid()
    ensures var w := old(Statements.UpdateProject(db.classes, db.flags, db.teams, db.projects, db.stages, id, q, now));
      (r.Err? <==> w.Err?)
      && (r.Err? ==> r.error == w.error && db.projects == old(db.projects) && db.teams == old(db.teams)
                     && db.stages == old(db.stages))
      && (r.Ok? ==> db.projects == w.value.projects && db.teams == w.value.teams && db.stages == w.value.stages)
  {
    var w := Statements.UpdateProject(db.classes, db.flags, db.teams, db.projects, db.stages, id, q, now);
    if w.Err? {
      return Err(w.error);
    }
    if Statements.Activates(db.projects[id - 1], q) && Has(db.teams, q.teamId) {
      Statements.SameClassKeepsConsistency(db.teams, q.teamId, Statements.LockTeam(db.teams[q.teamId - 1], now),
                                           db.members, db.joinRequests);
    }
    db.projects := w.value.projects;
    db.teams := w.value.teams;
    db.stages := w.value.stages;
    r := Ok(());
  }

  /**
   * A teacher of the class, or an admin, reviews a submitted project of a writable class:
   * the row takes the decision, the reviewer, the time and the feedback; on approval the
   * activation triggers lock the team and create its stages. The review is audited and
   * every active member of the team is notified.
   */
  method ReviewProject(db: Db, ctx: Ctx, projectId: Id, d: Teams.Decision, feedback: Option<string>)
    returns (r: Result<Project, HttpError>)
    requires db.Valid()
    modifies db`projects, db`teams, db`stages, db.journal
    ensures db.Valid()
    ensures old(ReviewCheck(db.classes, db.projects, db.classTeachers, ctx.user, projectId)).Err? ==>
      r == Err(old(ReviewCheck(db.classes, db.projects, db.classTeachers, ctx.user, projectId)).error)
    ensures r.Err? ==> db.projects == old(db.projects) && db.teams == old(db.teams) && db.stages == old(db.stages)
                       && db.journal.audit == old(db.journal.audit) && db.journal.notifications == old(db.journal.notifications)
    ensures old(ReviewCheck(db.classes, db.projects, db.classTeachers, ctx.user, projectId)).Ok? ==>
      var p := old(db.projects)[projectId - 1];
      var w := old(Statements.UpdateProject(db.classes, db.flags, db.teams, db.projects, db.stages, projectId,
                                            ReviewedRow(p, d, ctx.user.value.id, ctx.now, feedback), ctx.now));
      if w.Err? then r == Err(DbError(w.error))
      else r == Ok(ReviewedRow(p, d, ctx.user.value.id, ctx.now, feedback))
           && db.projects == w.value.projects && db.teams == w.value.teams && db.stages == w.value.stages
    ensures r.Ok? ==>
      var p := old(db.projects)[projectId - 1];
      db.journal.audit == old(db.journal.audit) + [AuditRow(ctx, ctx.user.value, ReviewAction(d), PROJECTS_TABLE, IdText(projectId),
                                                           Some(ProjectSnap(projectId, p)), Some(ProjectSnap(projectId, r.value)),
                                                           Some(p.classId), Some(p.teamId), Some(projectId))]
      && db.journal.notifications == old(db.journal.notifications)
                                     + ReviewNotices(Teams.ActiveMemberIds(db.members, p.teamId), projectId, d, feedback)
  {
    var p :- ReviewCheck(db.classes, db.projects, db.classTeachers, ctx.user, projectId);
    var after := ReviewedRow(p, d, ctx.user.value.id, ctx.now, feedback);
    var w := ApplyReview(db, projectId, after, ctx.now);
    if w.Err? {
      return Err(DbError(w.error));
    }
    db.journal.WriteAudit(ctx, ReviewAction(d), PROJECTS_TABLE, IdText(projectId), Some(ProjectSnap(projectId, p)),
                          Some(ProjectSnap(projectId, after)), Some(p.classId), Some(p.teamId), Some(projectId));
    NotifyAll(db.journal, Teams.ActiveMemberIds(db.members, p.teamId), projectId, d, feedback);
    r := Ok(after);
  }

  /**
   * Approving a submitted project that has no live stages yet, in a consistent and
   * writable class: the statement succeeds, the team is locked, and exactly the five
   * stages are appended, the first open.
   */
  lemma ApprovalActivates(classes: seq<Class>, flags: WriteFlags, teams: seq<Team>, ps: seq<Project>,
                          ss: seq<Stage>, id: Id, reviewerId: Id, now: Time, feedback: Option<string>)
    requires ProjectsUnique(ps) && StagesUnique(ss) && Has(ps, id) && ps[id - 1].status == Submitted
    requires Has(teams, ps[id - 1].teamId) && teams[ps[id - 1].teamId - 1].classId == ps[id - 1].classId
    requires !ArchivedBlocks(classes, flags, ps[id - 1].classId)
    requires forall i :: 0 <= i < |ss| && LiveStage(ss[i]) ==> ss[i].projectId != id
    ensures var p := ps[id - 1];
      var q := ReviewedRow(p, Teams.Approve, reviewerId, now, feedback);
      Statements.UpdateProject(classes, flags, teams, ps, ss, id, q, now)
      == Ok(Statements.ProjectWrite(teams[p.teamId - 1 := Statements.LockTeam(teams[p.teamId - 1], now)],
                                    ps[id - 1 := q], ss + Statements.InitStageRows(id, 0, now)))
  {
    var p := ps[id - 1];
    var q := ReviewedRow(p, Teams.Approve, reviewerId, now, feedback);
    Statements.SameTeamKeepsProjectsUnique(ps, id, q);
    Statements.NoLiveStagesCountZero(ss, id);
    Statements.InitOnEmptyKeepsStagesUnique(ss, id, now);
  }

  /** A rejected review fires no trigger: only the project row changes. */
  lemma RejectionChangesOnlyTheRow(classes: seq<Class>, flags: WriteFlags, teams: seq<Team>, ps: seq<Project>,
                                   ss: seq<Stage>, id: Id, reviewerId: Id, now: Time, feedback: Option<string>)
    requires ProjectsUnique(ps) && StagesUnique(ss) && Has(ps, id) && ps[id - 1].status == Submitted
    requires !ArchivedBlocks(classes, flags, ps[id - 1].classId) && !ClassMismatch(teams, ps[id - 1].teamId, ps[id - 1].classId)
    ensures var q := ReviewedRow(ps[id - 1], Teams.Reject, reviewerId, now, feedback);
      Statements.UpdateProject(classes, flags, teams, ps, ss, id, q, now) == Ok(Statements.ProjectWrite(teams, ps[id - 1 := q], ss))
  {
    Statements.SameTeamKeepsProjectsUnique(ps, id, ReviewedRow(ps[id - 1], Teams.Reject, reviewerId, now, feedback));
  }

  /** A reviewed project is no longer submitted, so it cannot be reviewed twice. */
  lemma ReviewedOnce(classes: seq<Class>, ps: seq<Project>, ts: seq<ClassTeacher>, user: Option<Actor>,
                     projectId: Id, d: Teams.Decision, reviewerId: Id, now: Time, feedback: Option<string>)
    requires Has(ps, projectId)
    ensures ReviewCheck(classes, ps[projectId - 1 := ReviewedRow(ps[projectId - 1], d, reviewerId, now, feedback)],
                        ts, user, projectId).Err?
  {
  }
}
