/**
 * The stage handlers of server/src/routes/v1/stages.ts: the stage listing, a status
 * change (a leader may only pass the open stage; staff may set any status), and the
 * staff rollback that resets every stage of a project around a target stage. Stage rows
 * have no guard triggers; passing a stage also fires the trigger that opens the next one.
 */
module StageRoutes {
  import opened Wrappers
  import opened Schema
  import opened HttpErrors
  import opened Store
  import opened Helpers
  import Statements
  import Queries
  import Auth
  import Stages
  import Projects
  import Teams
  import JsonValue

  const STAGES_TABLE := "project_stages"
  const UPDATE_ACTION := "stage.update"
  const ROLLBACK_ACTION := "stage.rollback"

  /** The `:stageKey` route parameter names one of the five stages. */
  predicate KeyParam(stageKey: string)
  {
    Stages.IsStageKey(JsonValue.Str(stageKey))
  }

  /** The live stage of the project with that key. */
  function StageByKey(ss: seq<Stage>, projectId: Id, stageKey: string): Option<Id>
  {
    Queries.First(ss, (s: Stage) => Projects.StageOf(s, projectId) && s.key == stageKey)
  }

  /** The live stage of the project with that order. */
  function StageAtOrder(ss: seq<Stage>, projectId: Id, order: int): Option<Id>
  {
    Queries.First(ss, (s: Stage) => Projects.StageOf(s, projectId) && s.order == order)
  }

  /**
   * UPDATE project_stages SET ... WHERE id: no guard aborts it, the pass trigger runs
   * when the row enters passed, and the stage indexes keep holding.
   */
  method WriteStage(db: Db, id: Id, status: Stages.StageStatus, openedAt: Option<Time>, passedAt: Option<Time>,
                    lastRollbackAt: Option<Time>, now: Time)
    requires db.Valid() && Has(db.stages, id)
    modifies db`stages
    ensures db.Valid()
    ensures db.stages == Statements.UpdateStage(old(db.stages), id, status, openedAt, passedAt, lastRollbackAt, now)
  {
    var ss := Statements.UpdateStage(db.stages, id, status, openedAt, passedAt, lastRollbackAt, now);
    Statements.UpdateStageKeepsShape(db.stages, id, status, openedAt, passedAt, lastRollbackAt, now);
    Statements.SameShapeKeepsUnique(db.stages, ss);
    db.stages := ss;
  }

  /* ---------- GET /projects/:projectId/stages ---------- */

  datatype StagesView = StagesView(projectId: Id, classId: Id, teamId: Id, stages: seq<Id>)

  /** A readable project's class, team and live stages, by ascending order. */
  function ListStages(ps: seq<Project>, ss: seq<Stage>, ts: seq<ClassTeacher>, es: seq<Enrollment>,
                      user: Option<Actor>, projectId: Id): (r: Result<StagesView, HttpError>)
    ensures r.Ok? <==> AssertProjectReadable(ps, ts, es, user, projectId).Ok?
    ensures r.Err? ==> r == Err(AssertProjectReadable(ps, ts, es, user, projectId).error)
    ensures r.Ok? ==> r.value.classId == ps[projectId - 1].classId && r.value.teamId == ps[projectId - 1].teamId
    ensures r.Ok? ==> r.value.stages == Projects.LiveStagesByOrder(ss, projectId)
  {
    var p :- AssertProjectReadable(ps, ts, es, user, projectId);
    Ok(StagesView(projectId, p.classId, p.teamId, Projects.LiveStagesByOrder(ss, projectId)))
  }

  /* ---------- PATCH /projects/:projectId/stages/:stageKey ---------- */

  /** What the status-change checks let through: the project, the stage row and the new status. */
  datatype StatusChange = StatusChange(project: Project, stageId: Id, status: Stages.StageStatus)

  /**
   * The checks of the status-change handler, in its order: a stage key, login, a live
   * project of a readable, live and writable class, the live stage with that key, a
   * status literal; then a student must lead the team and may only pass the open stage,
   * a teacher must teach the class, and an admin passes.
   */
  function StatusCheck(classes: seq<Class>, ps: seq<Project>, teams: seq<Team>, ts: seq<ClassTeacher>,
                       es: seq<Enrollment>, ss: seq<Stage>, user: Option<Actor>, projectId: Id,
                       stageKey: string, status: string): (r: Result<StatusChange, HttpError>)
    ensures !KeyParam(stageKey) ==> r == Err(BadRequest("Invalid stageKey"))
    ensures r.Ok? ==>
      user.Some? && GetProject(ps, projectId).Ok? && r.value.project == ps[projectId - 1]
      && AssertClassReadable(ts, es, user, r.value.project.classId).Ok?
      && Teams.ClassWritable(classes, r.value.project.classId)
      && StageByKey(ss, projectId, stageKey) == Some(r.value.stageId)
      && Stages.ParseStageStatus(status) == Some(r.value.status)
    ensures r.Ok? && user.value.role == Auth.Student ==>
      GetTeam(teams, r.value.project.teamId).Ok? && teams[r.value.project.teamId - 1].leaderId == user.value.id
      && r.value.status == Stages.Passed && ss[r.value.stageId - 1].status == Stages.Open
    ensures r.Ok? && user.value.role == Auth.Teacher ==> IsTeacherOfClass(ts, r.value.project.classId, user.value.id)
  {
    if !KeyParam(stageKey) then Err(BadRequest("Invalid stageKey"))
    else
      var me :- RequireUser(user);
      var p :- GetProject(ps, projectId);
      var _ :- AssertClassReadable(ts, es, user, p.classId);
      var cls :- GetClass(classes, p.classId);
      var _ :- AssertClassWritable(cls);
      var sid := StageByKey(ss, projectId, stageKey);
      if sid.None? then Err(NotFound("Stage not found"))
      else
        var st := Stages.ParseStageStatus(status);
        if st.None? then Err(BadRequest("Invalid stage status"))
        else if me.role == Auth.Student then
          var team :- GetTeam(teams, p.teamId);
          if team.leaderId != me.id then Err(Forbidden("Leader required"))
          else if st.value != Stages.Passed || ss[sid.value - 1].status != Stages.Open then Err(Forbidden("Invalid transition"))
          else Ok(StatusChange(p, sid.value, st.value))
        else if me.role == Auth.Teacher && !IsTeacherOfClass(ts, p.classId, me.id) then
          Err(Forbidden("Not a teacher of this class"))
        else Ok(StatusChange(p, sid.value, st.value))
  }

  /** A leader who is not an admin or teacher can only ever pass the open stage. */
  lemma LeaderOnlyPassesOpen(classes: seq<Class>, ps: seq<Project>, teams: seq<Team>, ts: seq<ClassTeacher>,
                             es: seq<Enrollment>, ss: seq<Stage>, user: Option<Actor>, projectId: Id,
                             stageKey: string, status: string)
    requires user.Some? && user.value.role == Auth.Student
    requires status != "passed" || StageByKey(ss, projectId, stageKey).None?
             || ss[StageByKey(ss, projectId, stageKey).value - 1].status != Stages.Open
    ensures StatusCheck(classes, ps, teams, ts, es, ss, user, projectId, stageKey, status).Err?
  {
  }

  /** The row update of the handler: the status, and the open or pass time stamped now. */
  function StatusWrite(ss: seq<Stage>, sid: Id, st: Stages.StageStatus, now: Time): seq<Stage>
    requires Has(ss, sid)
  {
    var s := ss[sid - 1];
    Statements.UpdateStage(ss, sid, st, if st == Stages.Open then Some(now) else s.openedAt,
                           if st == Stages.Passed then Some(now) else s.passedAt, s.lastRollbackAt, now)
  }

  /**
   * The handler's own auto-advance after a pass: the live stage of the project at the
   * next order, if it is locked, is opened, keeping an open time it already had.
   */
  function FollowUp(ss: seq<Stage>, projectId: Id, order: int, now: Time): seq<Stage>
  {
    var next := StageAtOrder(ss, projectId, order + 1);
    if next.Some? && ss[next.value - 1].status == Stages.Locked then
      var n := ss[next.value - 1];
      Statements.UpdateStage(ss, next.value, Stages.Open, if n.openedAt.Some? then n.openedAt else Some(now),
                             n.passedAt, n.lastRollbackAt, now)
    else ss
  }

  /** The stage table after the handler: the row update, then on a pass the follow-up. */
  function StatusChanged(ss: seq<Stage>, projectId: Id, sid: Id, st: Stages.StageStatus, now: Time): seq<Stage>
    requires Has(ss, sid)
  {
    var ss1 := StatusWrite(ss, sid, st, now);
    if st == Stages.Passed then FollowUp(ss1, projectId, ss[sid - 1].order, now) else ss1
  }

  /**
   * Passing a stage that was not passed fires the trigger, which opens every locked live
   * stage at the next order; the handler's own follow-up then finds nothing locked there
   * and changes nothing. The auto-advance happens once, stamped now.
   */
  lemma FollowUpRedundantAfterTrigger(ss: seq<Stage>, projectId: Id, sid: Id, now: Time)
    requires Has(ss, sid) && Projects.StageOf(ss[sid - 1], projectId) && ss[sid - 1].status != Stages.Passed
    ensures StatusChanged(ss, projectId, sid, Stages.Passed, now) == StatusWrite(ss, sid, Stages.Passed, now)
    ensures var ss1 := StatusWrite(ss, sid, Stages.Passed, now);
      forall i :: 0 <= i < |ss| && Statements.OpensOnPass(ss[i], projectId, ss[sid - 1].order) ==>
        ss1[i] == ss[i].(status := Stages.Open, openedAt := Some(now))
  {
    var s := ss[sid - 1];
    var ss1 := StatusWrite(ss, sid, Stages.Passed, now);
    var ss0 := ss[sid - 1 := s.(status := Stages.Passed, passedAt := Some(now))];
    assert ss1 == Statements.PassOpensNext(ss0, projectId, s.order, now);
    forall i | 0 <= i < |ss1| && Projects.StageOf(ss1[i], projectId) && ss1[i].order == s.order + 1
      ensures ss1[i].status != Stages.Locked
    {
      if ss0[i].status == Stages.Locked {
        assert Statements.OpensOnPass(ss0[i], projectId, s.order);
      }
    }
    NothingLockedNext(ss1, projectId, s.order, now);
  }

  /** With no locked live stage at the next order, the follow-up changes nothing. */
  lemma NothingLockedNext(ss: seq<Stage>, projectId: Id, order: int, now: Time)
    requires forall i :: 0 <= i < |ss| && Projects.StageOf(ss[i], projectId) && ss[i].order == order + 1 ==>
      ss[i].status != Stages.Locked
    ensures FollowUp(ss, projectId, order, now) == ss
  {
  }

  /**
   * Passing a stage that was already passed fires no trigger: only the handler's own
   * follow-up can open the next stage.
   */
  lemma RepassFiresNoTrigger(ss: seq<Stage>, sid: Id, now: Time)
    requires Has(ss, sid) && ss[sid - 1].status == Stages.Passed
    ensures StatusWrite(ss, sid, Stages.Passed, now) == ss[sid - 1 := ss[sid - 1].(passedAt := Some(now))]
  {
  }

  /** The handler's writes for a checked change, exactly as StatusChanged describes them. */
  method ApplyStatus(db: Db, projectId: Id, sid: Id, st: Stages.StageStatus, now: Time)
    requires db.Valid() && Has(db.stages, sid)
    modifies db`stages
    ensures db.Valid()
    ensures db.stages == StatusChanged(old(db.stages), projectId, sid, st, now)
  {
    var s := db.stages[sid - 1];
    var openedAt := if st == Stages.Open then Some(now) else s.openedAt;
    var passedAt := if st == Stages.Passed then Some(now) else s.passedAt;
    WriteStage(db, sid, st, openedAt, passedAt, s.lastRollbackAt, now);
    if st == Stages.Passed {
      WriteFollowUp(db, projectId, s.order, now);
    }
  }

  /** The handler's auto-advance, exactly as FollowUp describes it. */
  method WriteFollowUp(db: Db, projectId: Id, order: int, now: Time)
    requires db.Valid()
    modifies db`stages
    ensures db.Valid()
    ensures db.stages == FollowUp(old(db.stages), projectId, order, now)
  {
    var next := StageAtOrder(db.stages, projectId, order + 1);
    if next.Some? && db.stages[next.value - 1].status == Stages.Locked {
      var n := db.stages[next.value - 1];
      WriteStage(db, next.value, Stages.Open, if n.openedAt.Some? then n.openedAt else Some(now),
                 n.passedAt, n.lastRollbackAt, now);
    }
  }

  /**
   * A permitted caller sets a stage's status: the row takes the status and, for open or
   * passed, the time; a pass opens the next locked stage. The change is audited with the
   * row before and after, and the updated row is returned.
   */
  method UpdateStageStatus(db: Db, ctx: Ctx, projectId: Id, stageKey: string, status: string)
    returns (r: Result<Stage, HttpError>)
    requires db.Valid()
    modifies db`stages, db.journal`audit
    ensures db.Valid()
    ensures old(StatusCheck(db.classes, db.projects, db.teams, db.classTeachers, db.enrollments, db.stages,
                            ctx.user, projectId, stageKey, status)).Err? ==>
      r == Err(old(StatusCheck(db.classes, db.projects, db.teams, db.classTeachers, db.enrollments, db.stages,
                               ctx.user, projectId, stageKey, status)).error)
    ensures r.Err? ==> db.stages == old(db.stages) && db.journal.audit == old(db.journal.audit)
    ensures old(StatusCheck(db.classes, db.projects, db.teams, db.classTeachers, db.enrollments, db.stages,
                            ctx.user, projectId, stageKey, status)).Ok? ==>
      var c := old(StatusCheck(db.classes, db.projects, db.teams, db.classTeachers, db.enrollments, db.stages,
                               ctx.user, projectId, stageKey, status)).value;
      db.stages == StatusChanged(old(db.stages), projectId, c.stageId, c.status, ctx.now)
      && r == Ok(db.stages[c.stageId - 1])
      && db.journal.audit == old(db.journal.audit)
           + [AuditRow(ctx, ctx.user.value, UPDATE_ACTION, STAGES_TABLE, IdText(c.stageId),
                       Some(StageSnap(c.stageId, old(db.stages)[c.stageId - 1])), Some(StageSnap(c.stageId, db.stages[c.stageId - 1])),
                       Some(c.project.classId), Some(c.project.teamId), Some(projectId))]
  {
    var c :- StatusCheck(db.classes, db.projects, db.teams, db.classTeachers, db.enrollments, db.stages,
                         ctx.user, projectId, stageKey, status);
    var before := db.stages[c.stageId - 1];
    ApplyStatus(db, projectId, c.stageId, c.status, ctx.now);
    var after := db.stages[c.stageId - 1];
    db.journal.WriteAudit(ctx, UPDATE_ACTION, STAGES_TABLE, IdText(c.stageId), Some(StageSnap(c.stageId, before)),
                          Some(StageSnap(c.stageId, after)), Some(c.project.classId), Some(c.project.teamId), Some(projectId));
    r := Ok(after);
  }

  /* ---------- POST /projects/:projectId/stages/:stageKey/rollback ---------- */

  /** Whether one of the listed stages has the key. */
  predicate ListedKey(ss: seq<Stage>, ids: seq<Id>, stageKey: string)
  {
    exists k :: 0 <= k < |ids| && Has(ss, ids[k]) && ss[ids[k] - 1].key == stageKey
  }

  /**
   * The checks of the rollback handler, in its order: login, a stage key, a live project
   * of a readable class, a teacher of it unless an admin, a live and writable class, at
   * least one live stage, and a live stage with the key. Returns the project.
   */
  function RollbackCheck(classes: seq<Class>, ps: seq<Project>, ts: seq<ClassTeacher>, es: seq<Enrollment>,
                         ss: seq<Stage>, user: Option<Actor>, projectId: Id, stageKey: string)
    : (r: Result<Project, HttpError>)
    ensures user.None? ==> r == Err(Unauthorized("Login required"))
    ensures user.Some? && !KeyParam(stageKey) ==> r == Err(BadRequest("Invalid stageKey"))
    ensures r.Ok? <==>
      (user.Some? && KeyParam(stageKey) && GetProject(ps, projectId).Ok?
       && AssertClassReadable(ts, es, user, ps[projectId - 1].classId).Ok?
       && AssertClassTeacher(ts, user, ps[projectId - 1].classId).Ok?
       && Teams.ClassWritable(classes, ps[projectId - 1].classId)
       && ListedKey(ss, Projects.LiveStagesByOrder(ss, projectId), stageKey))
    ensures r.Ok? ==> r.value == ps[projectId - 1]
  {
    var me :- RequireUser(user);
    if !KeyParam(stageKey) then Err(BadRequest("Invalid stageKey"))
    else
      var p :- GetProject(ps, projectId);
      var _ :- AssertClassReadable(ts, es, user, p.classId);
      var _ :- if me.role != Auth.Admin then AssertClassTeacher(ts, user, p.classId) else Ok(());
      var cls :- GetClass(classes, p.classId);
      var _ :- AssertClassWritable(cls);
      var ids := Projects.LiveStagesByOrder(ss, projectId);
      if |ids| == 0 then Err(BadRequest("No stages"))
      else if !ListedKey(ss, ids, stageKey) then Err(NotFound("Stage not found"))
      else Ok(p)
  }

  /** A stage row after a rollback to the target order: its status by order, stamped now. */
  function Rolled(s: Stage, target: int, now: Time): (r: Stage)
  {
    var st := Stages.RollbackStatus(s.order, target);
    s.(status := st, lastRollbackAt := Some(now),
       openedAt := if st == Stages.Open then Some(now) else s.openedAt,
       passedAt := if st == Stages.Passed then Some(now) else None)
  }

  /** The stage table after a rollback: every live stage of the project rolled, every other row as it was. */
  function RolledBack(ss: seq<Stage>, projectId: Id, target: int, now: Time): (r: seq<Stage>)
    ensures |r| == |ss|
    ensures forall i :: 0 <= i < |ss| ==> r[i] == if Projects.StageOf(ss[i], projectId) then Rolled(ss[i], target, now) else ss[i]
  {
    seq(|ss|, i requires 0 <= i < |ss| => if Projects.StageOf(ss[i], projectId) then Rolled(ss[i], target, now) else ss[i])
  }

  /**
   * The loop state after the stages before `pending` were written: the table keeps its
   * shape, and every row not still pending already holds its final value.
   */
  predicate RollbackSoFar(orig: seq<Stage>, cur: seq<Stage>, pending: seq<Id>, projectId: Id, target: int, now: Time)
  {
    Statements.SameStageShape(orig, cur)
    && forall i :: 0 <= i < |orig| && (i + 1) !in pending ==> cur[i] == RolledBack(orig, projectId, target, now)[i]
  }

  /** The loop's write of one stage, from the row as read before the loop. */
  function RollbackWrite(orig: seq<Stage>, cur: seq<Stage>, id: Id, target: int, now: Time): seq<Stage>
    requires Has(orig, id) && Has(cur, id)
  {
    var s := orig[id - 1];
    var st := Stages.RollbackStatus(s.order, target);
    Statements.UpdateStage(cur, id, st, if st == Stages.Open then Some(now) else s.openedAt,
                           if st == Stages.Passed then Some(now) else None, Some(now), now)
  }

  /**
   * One step of the rollback loop. Rows written earlier have an order no greater than
   * the current one, so a pass trigger fired by this write (which opens rows at the next
   * order) can only touch rows still to be written.
   */
  lemma RollbackStep(orig: seq<Stage>, cur: seq<Stage>, ids: seq<Id>, k: nat, projectId: Id, target: int, now: Time)
    requires k < |ids| && Projects.ByOrder(orig, ids)
    requires forall id :: id in ids <==> Has(orig, id) && Projects.StageOf(orig[id - 1], projectId)
    requires RollbackSoFar(orig, cur, ids[k..], projectId, target, now)
    ensures Has(cur, ids[k])
    ensures RollbackSoFar(orig, RollbackWrite(orig, cur, ids[k], target, now), ids[k + 1..], projectId, target, now)
  {
    var id := ids[k];
    assert id in ids;
    assert ids[k..] == [id] + ids[k + 1..];
    var s := orig[id - 1];
    var st := Stages.RollbackStatus(s.order, target);
    var op := if st == Stages.Open then Some(now) else s.openedAt;
    var pa := if st == Stages.Passed then Some(now) else None;
    var next := RollbackWrite(orig, cur, id, target, now);
    var rb := RolledBack(orig, projectId, target, now);
    Statements.UpdateStageKeepsShape(cur, id, st, op, pa, Some(now), now);
    Statements.UpdateStageEffect(cur, id, st, op, pa, Some(now), now);
    WrittenNotAhead(orig, ids, k, projectId);
    forall i | 0 <= i < |orig| && (i + 1) !in ids[k + 1..] ensures next[i] == rb[i] {
      if i != id - 1 {
        assert (i + 1) !in ids[k..];
        assert !Statements.OpensOnPass(cur[i], cur[id - 1].projectId, cur[id - 1].order);
      }
    }
  }

  /**
   * The stages written so far or now come no later than the current one in the order,
   * so none of them is at the next order.
   */
  lemma WrittenNotAhead(orig: seq<Stage>, ids: seq<Id>, k: nat, projectId: Id)
    requires k < |ids| && Projects.ByOrder(orig, ids)
    requires forall id :: id in ids <==> Has(orig, id) && Projects.StageOf(orig[id - 1], projectId)
    ensures Has(orig, ids[k])
    ensures forall i :: 0 <= i < |orig| && (i + 1) !in ids[k + 1..] && Projects.StageOf(orig[i], projectId) ==>
      orig[i].order <= orig[ids[k] - 1].order
  {
    assert ids[k] in ids;
    LaterPositions(ids, k);
    forall i | 0 <= i < |orig| && (i + 1) !in ids[k + 1..] && Projects.StageOf(orig[i], projectId)
      ensures orig[i].order <= orig[ids[k] - 1].order
    {
      assert i + 1 in ids;
      var m :| 0 <= m < |ids| && ids[m] == i + 1;
      assert Projects.OrderOf(orig, ids[m]) <= Projects.OrderOf(orig, ids[k]);
    }
  }

  /** Every entry after position k is in the suffix after k. */
  lemma LaterPositions(ids: seq<Id>, k: nat)
    requires k < |ids|
    ensures forall m :: k < m < |ids| ==> ids[m] in ids[k + 1..]
  {
    forall m | k < m < |ids| ensures ids[m] in ids[k + 1..] {
      assert ids[m] == ids[k + 1..][m - k - 1];
    }
  }

  /**
   * The rollback loop over the project's live stages in order: each row is rewritten
   * from its value before the loop, and the table ends rolled back.
   */
  method RollbackRows(db: Db, projectId: Id, target: int, now: Time)
    requires db.Valid()
    modifies db`stages
    ensures db.Valid()
    ensures db.stages == RolledBack(old(db.stages), projectId, target, now)
  {
    var orig := db.stages;
    var ids := Projects.LiveStagesByOrder(orig, projectId);
    var k := 0;
    while k < |ids|
      invariant 0 <= k <= |ids| && db.Valid()
      invariant RollbackSoFar(orig, db.stages, ids[k..], projectId, target, now)
    {
      RollbackStep(orig, db.stages, ids, k, projectId, target, now);
      var s := orig[ids[k] - 1];
      var st := Stages.RollbackStatus(s.order, target);
      WriteStage(db, ids[k], st, if st == Stages.Open then Some(now) else s.openedAt,
                 if st == Stages.Passed then Some(now) else None, Some(now), now);
      k := k + 1;
    }
  }

  /**
   * Staff roll a project back to a stage: every live stage before it is passed, it is
   * open, every later one locked, all stamped now. The rollback is audited against the
   * project with the stage key, and the project's stages are returned by order.
   */
  method RollbackStages(db: Db, ctx: Ctx, projectId: Id, stageKey: string) returns (r: Result<seq<Id>, HttpError>)
    requires db.Valid()
    modifies db`stages, db.journal`audit
    ensures db.Valid()
    ensures old(RollbackCheck(db.classes, db.projects, db.classTeachers, db.enrollments, db.stages, ctx.user, projectId, stageKey)).Err? ==>
      r == Err(old(RollbackCheck(db.classes, db.projects, db.classTeachers, db.enrollments, db.stages, ctx.user, projectId, stageKey)).error)
    ensures r.Err? ==> db.stages == old(db.stages) && db.journal.audit == old(db.journal.audit)
    ensures r.Ok? ==>
      var p := old(db.projects)[projectId - 1];
      KeyParam(stageKey)
      && db.stages == RolledBack(old(db.stages), projectId, Stages.StageOrder(stageKey), ctx.now)
      && r.value == Projects.LiveStagesByOrder(db.stages, projectId)
      && db.journal.audit == old(db.journal.audit)
           + [AuditRow(ctx, ctx.user.value, ROLLBACK_ACTION, Projects.PROJECTS_TABLE, IdText(projectId), None,
                       Some(Fields(KeyObject(stageKey))), Some(p.classId), Some(p.teamId), Some(projectId))]
    ensures old(RollbackCheck(db.classes, db.projects, db.classTeachers, db.enrollments, db.stages, ctx.user, projectId, stageKey)).Ok? ==> r.Ok?
  {
    var p :- RollbackCheck(db.classes, db.projects, db.classTeachers, db.enrollments, db.stages, ctx.user, projectId, stageKey);
    RollbackRows(db, projectId, Stages.StageOrder(stageKey), ctx.now);
    db.journal.WriteAudit(ctx, ROLLBACK_ACTION, Projects.PROJECTS_TABLE, IdText(projectId), None,
                          Some(Fields(KeyObject(stageKey))), Some(p.classId), Some(p.teamId), Some(projectId));
    r := Ok(Projects.LiveStagesByOrder(db.stages, projectId));
  }

  /** The `{ stageKey }` object the rollback audits. */
  function KeyObject(stageKey: string): JsonValue.Json
  {
    JsonValue.Obj([JsonValue.Field("stageKey", JsonValue.Str(stageKey))])
  }


  /* ---------- the routes against the status-vector model ---------- */

  /** The status of a stage row, Locked for an id with no row. */
  function StatusOf(ss: seq<Stage>, id: Id): Stages.StageStatus
  {
    if Has(ss, id) then ss[id - 1].status else Stages.Locked
  }

  /** The statuses of the listed stages, in list order. */
  function Statuses(ss: seq<Stage>, ids: seq<Id>): (v: seq<Stages.StageStatus>)
    ensures |v| == |ids|
  {
    seq(|ids|, k requires 0 <= k < |ids| => StatusOf(ss, ids[k]))
  }

  /** The listed stages have orders 1, 2, ... in list order, as activation creates them. */
  predicate Numbered(ss: seq<Stage>, ids: seq<Id>)
  {
    forall k :: 0 <= k < |ids| ==> Has(ss, ids[k]) && ss[ids[k] - 1].order == k + 1
  }

  /** The list holds exactly the project's live stages. */
  ghost predicate ListsStagesOf(ss: seq<Stage>, ids: seq<Id>, projectId: Id)
  {
    forall id :: id in ids <==> Has(ss, id) && Projects.StageOf(ss[id - 1], projectId)
  }

  /**
   * On a project whose stages are listed numbered 1..n, the rollback handler's writes
   * give the status vector the rollback model gives, and so leave the frontier at the
   * target. The listing the handlers use, LiveStagesByOrder, lists exactly these stages.
   */
  lemma RollbackMatchesVector(ss: seq<Stage>, ids: seq<Id>, projectId: Id, target: int, now: Time)
    requires ListsStagesOf(ss, ids, projectId) && Numbered(ss, ids)
    ensures Statuses(RolledBack(ss, projectId, target, now), ids) == Stages.Rollback(Statuses(ss, ids), target)
    ensures 1 <= target <= |ids| ==> Stages.FrontierAt(Statuses(RolledBack(ss, projectId, target, now), ids), target - 1)
  {
    var rb := RolledBack(ss, projectId, target, now);
    forall k | 0 <= k < |ids| ensures Statuses(rb, ids)[k] == Stages.Rollback(Statuses(ss, ids), target)[k] {
      assert ids[k] in ids;
    }
    if 1 <= target <= |ids| {
      Stages.RollbackIsFrontier(Statuses(ss, ids), target);
    }
  }

  /** The status of each row after a first pass of stage sid: it is passed, the trigger opens the next, the rest keep theirs. */
  lemma PassRowStatus(ss: seq<Stage>, projectId: Id, sid: Id, now: Time, j: nat)
    requires Has(ss, sid) && Projects.StageOf(ss[sid - 1], projectId) && ss[sid - 1].status != Stages.Passed
    requires j < |ss|
    ensures StatusWrite(ss, sid, Stages.Passed, now)[j].status ==
      if j == sid - 1 then Stages.Passed
      else if Statements.OpensOnPass(ss[j], projectId, ss[sid - 1].order) then Stages.Open
      else ss[j].status
  {
    var s := ss[sid - 1];
    var ss0 := ss[sid - 1 := s.(status := Stages.Passed, passedAt := Some(now))];
    assert StatusWrite(ss, sid, Stages.Passed, now) == Statements.PassOpensNext(ss0, projectId, s.order, now);
  }

  /**
   * On a project whose stages are listed numbered 1..n, passing the open stage through
   * the status handler gives the status vector the pass model gives: that stage passed
   * and the next one opened if it was locked, nothing else changed.
   */
  lemma PassMatchesVector(ss: seq<Stage>, ids: seq<Id>, projectId: Id, sid: Id, now: Time)
    requires ListsStagesOf(ss, ids, projectId) && Numbered(ss, ids)
    requires Has(ss, sid) && Projects.StageOf(ss[sid - 1], projectId) && ss[sid - 1].status == Stages.Open
    ensures 1 <= ss[sid - 1].order <= |ids|
    ensures Statuses(StatusChanged(ss, projectId, sid, Stages.Passed, now), ids)
            == Stages.Pass(Statuses(ss, ids), ss[sid - 1].order - 1)
  {
    assert sid in ids;
    var i :| 0 <= i < |ids| && ids[i] == sid;
    FollowUpRedundantAfterTrigger(ss, projectId, sid, now);
    var ss1 := StatusWrite(ss, sid, Stages.Passed, now);
    var v := Statuses(ss, ids);
    var w := Statuses(ss1, ids);
    forall k | 0 <= k < |ids|
      ensures w[k] == if k == i then Stages.Passed else if k == i + 1 && v[k] == Stages.Locked then Stages.Open else v[k]
    {
      PassVectorEntry(ss, ids, projectId, sid, now, i, k);
    }
    assert ss[sid - 1].order == i + 1;
    PassByEntries(v, w, i);
  }

  /** A vector that agrees with a pass entry by entry is that pass. */
  lemma PassByEntries(v: seq<Stages.StageStatus>, w: seq<Stages.StageStatus>, i: nat)
    requires i < |v| && |w| == |v|
    requires forall k :: 0 <= k < |v| ==>
      w[k] == if k == i then Stages.Passed else if k == i + 1 && v[k] == Stages.Locked then Stages.Open else v[k]
    ensures w == Stages.Pass(v, i)
  {
    var p := Stages.Pass(v, i);
    forall k | 0 <= k < |v| ensures w[k] == p[k] {
    }
  }

  /** One entry of PassMatchesVector: the stage passed, the next one opened if locked, the rest kept. */
  lemma PassVectorEntry(ss: seq<Stage>, ids: seq<Id>, projectId: Id, sid: Id, now: Time, i: nat, k: nat)
    requires ListsStagesOf(ss, ids, projectId) && Numbered(ss, ids)
    requires Has(ss, sid) && Projects.StageOf(ss[sid - 1], projectId) && ss[sid - 1].status == Stages.Open
    requires i < |ids| && ids[i] == sid && k < |ids|
    ensures StatusOf(StatusWrite(ss, sid, Stages.Passed, now), ids[k]) ==
      if k == i then Stages.Passed
      else if k == i + 1 && StatusOf(ss, ids[k]) == Stages.Locked then Stages.Open
      else StatusOf(ss, ids[k])
  {
    var j := ids[k] - 1;
    assert ids[k] in ids;
    PassRowStatus(ss, projectId, sid, now, j);
    assert ss[j].order == k + 1 && ss[sid - 1].order == i + 1;
  }

  /**
   * A leader's pass from a frontier vector moves the frontier one stage on: the route
   * keeps the invariant the stage model states.
   */
  lemma LeaderPassAdvancesFrontier(ss: seq<Stage>, ids: seq<Id>, projectId: Id, sid: Id, now: Time, k: nat)
    requires ListsStagesOf(ss, ids, projectId) && Numbered(ss, ids)
    requires Stages.FrontierAt(Statuses(ss, ids), k)
    requires Has(ss, sid) && Projects.StageOf(ss[sid - 1], projectId) && ss[sid - 1].status == Stages.Open
    ensures Stages.FrontierAt(Statuses(StatusChanged(ss, projectId, sid, Stages.Passed, now), ids), k + 1)
  {
    PassMatchesVector(ss, ids, projectId, sid, now);
    var i := ss[sid - 1].order - 1;
    assert sid in ids;
    assert Statuses(ss, ids)[i] == Stages.Open;
    Stages.PassAdvancesFrontier(Statuses(ss, ids), k, i);
  }
}
