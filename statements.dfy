/**
 * The SQL statements the handlers issue, each with the triggers that fire on it
 * (buildSqliteTriggers in server/src/db/schema.ts) and the unique indexes it must keep.
 * A statement either yields the new table(s) or the abort message that stops it, and a
 * stopped statement changes nothing.
 *
 * SQLite fires the BEFORE triggers of one table and event newest first, so they are
 * taken in the reverse of the order the schema creates them (consistency guard, locked
 * guard, archived guard); the unique indexes are checked after them, and the AFTER
 * triggers, again newest first, after those.
 */
module Statements {
  import opened Wrappers
  import opened Stages
  import opened Schema
  import opened ErrorMapper

  /* ---------- teams ---------- */

  /** INSERT INTO teams: only the archived guard fires. */
  function InsertTeam(classes: seq<Class>, flags: WriteFlags, teams: seq<Team>, t: Team)
    : (r: Result<seq<Team>, string>)
    ensures r.Err? <==> ArchivedBlocks(classes, flags, t.classId)
    ensures r.Err? ==> r.error == CLASS_ARCHIVED_READONLY
    ensures r.Ok? ==> r.value == teams + [t]
  {
    if ArchivedBlocks(classes, flags, t.classId) then Err(CLASS_ARCHIVED_READONLY) else Ok(teams + [t])
  }

  /** UPDATE teams SET ... WHERE id: the archived guard fires; teams has no locked guard. */
  function UpdateTeam(classes: seq<Class>, flags: WriteFlags, teams: seq<Team>, id: Id, t: Team)
    : (r: Result<seq<Team>, string>)
    requires Has(teams, id)
    ensures r.Err? <==> ArchivedBlocks(classes, flags, t.classId)
    ensures r.Err? ==> r.error == CLASS_ARCHIVED_READONLY
    ensures r.Ok? ==> r.value == teams[id - 1 := t]
  {
    if ArchivedBlocks(classes, flags, t.classId) then Err(CLASS_ARCHIVED_READONLY) else Ok(teams[id - 1 := t])
  }

  /* ---------- team_members ---------- */

  /**
   * INSERT INTO team_members: class consistency, locked guard, archived guard, then the
   * two active-membership indexes.
   */
  function InsertMember(classes: seq<Class>, teams: seq<Team>, flags: WriteFlags, ms: seq<Member>, m: Member)
    : (r: Result<seq<Member>, string>)
    ensures ClassMismatch(teams, m.teamId, m.classId) ==> r == Err(TEAM_MEMBER_CLASS_MISMATCH)
    ensures !ClassMismatch(teams, m.teamId, m.classId) && LockedBlocks(teams, flags, m.teamId) ==> r == Err(TEAM_LOCKED)
    ensures (!ClassMismatch(teams, m.teamId, m.classId) && !LockedBlocks(teams, flags, m.teamId)
             && ArchivedBlocks(classes, flags, m.classId)) ==> r == Err(CLASS_ARCHIVED_READONLY)
    ensures r.Err? <==>
      ArchivedBlocks(classes, flags, m.classId) || LockedBlocks(teams, flags, m.teamId)
      || ClassMismatch(teams, m.teamId, m.classId) || !MembersUnique(ms + [m])
    ensures r.Ok? ==> r.value == ms + [m] && MembersUnique(r.value)
  {
    if ClassMismatch(teams, m.teamId, m.classId) then Err(TEAM_MEMBER_CLASS_MISMATCH)
    else if LockedBlocks(teams, flags, m.teamId) then Err(TEAM_LOCKED)
    else if ArchivedBlocks(classes, flags, m.classId) then Err(CLASS_ARCHIVED_READONLY)
    else if !MembersUnique(ms + [m]) then Err(UniqueFailed("team_members.class_id, team_members.student_id"))
    else Ok(ms + [m])
  }

  /** The first active, live membership of the student in the class, by row id. */
  function ActiveTeamOf(ms: seq<Member>, classId: Id, studentId: Id): (r: Option<Id>)
    ensures r.None? <==> forall i :: 0 <= i < |ms| && ActiveMember(ms[i]) ==>
      ms[i].classId != classId || ms[i].studentId != studentId
    ensures r.Some? ==> exists i :: (0 <= i < |ms| && ActiveMember(ms[i]) && ms[i].classId == classId
      && ms[i].studentId == studentId && ms[i].teamId == r.value)
  {
    if ms == [] then None
    else if ActiveMember(ms[0]) && ms[0].classId == classId && ms[0].studentId == studentId then Some(ms[0].teamId)
    else
      var r := ActiveTeamOf(ms[1..], classId, studentId);
      assert forall i :: 1 <= i < |ms| ==> ms[i] == ms[1..][i - 1];
      r
  }

  /**
   * The check every membership insert is preceded by: when the student has no active
   * membership in the class and the new row names an existing team of that class, the
   * insert keeps both active-membership indexes.
   */
  lemma {:induction false} InsertAfterNoActiveTeamKeepsUnique(teams: seq<Team>, ms: seq<Member>, m: Member)
    requires MembersUnique(ms) && MembersConsistent(teams, ms)
    requires ActiveTeamOf(ms, m.classId, m.studentId).None?
    requires Has(teams, m.teamId) && teams[m.teamId - 1].classId == m.classId
    ensures MembersUnique(ms + [m])
    ensures MembersConsistent(teams, ms + [m])
  {
    var ms' := ms + [m];
    forall i, j | 0 <= i < j < |ms'| && ActiveMember(ms'[i]) && ActiveMember(ms'[j]) && ms'[i].studentId == ms'[j].studentId
      ensures ms'[i].classId != ms'[j].classId && ms'[i].teamId != ms'[j].teamId
    {
      if j == |ms| {
        assert ms'[i] == ms[i];
        assert ms[i].classId != m.classId;
      }
    }
  }

  /** A new team's id names no row yet, so no active membership can point at it. */
  lemma NewTeamHasNoMembers(teams: seq<Team>, ms: seq<Member>, t: Team)
    requires MembersConsistent(teams, ms)
    ensures MembersConsistent(teams + [t], ms)
    ensures forall i :: 0 <= i < |ms| && ActiveMember(ms[i]) ==> ms[i].teamId != |teams| + 1
  {
    forall i | 0 <= i < |ms| && ActiveMember(ms[i]) ensures ms[i].teamId != |teams| + 1 {
      assert Has(teams, ms[i].teamId);
    }
  }

  /** Once the student has no active team in the class, the new membership is the one found. */
  lemma {:induction false} ActiveTeamAfterInsert(ms: seq<Member>, m: Member)
    requires ActiveTeamOf(ms, m.classId, m.studentId).None? && ActiveMember(m)
    ensures ActiveTeamOf(ms + [m], m.classId, m.studentId) == Some(m.teamId)
  {
    if ms != [] {
      assert (ms + [m])[1..] == ms[1..] + [m];
      ActiveTeamAfterInsert(ms[1..], m);
    }
  }

  /**
   * Appending a team, or replacing one by a row of the same class, keeps both
   * consistency invariants (no handler moves a team to another class).
   */
  lemma AppendTeamKeepsConsistency(teams: seq<Team>, t: Team, ms: seq<Member>, rs: seq<JoinRequest>)
    requires MembersConsistent(teams, ms) && RequestsConsistent(teams, rs)
    ensures MembersConsistent(teams + [t], ms) && RequestsConsistent(teams + [t], rs)
  {
    forall i | 0 <= i < |ms| && ActiveMember(ms[i])
      ensures (teams + [t])[ms[i].teamId - 1] == teams[ms[i].teamId - 1] {}
    forall i | 0 <= i < |rs|
      ensures (teams + [t])[rs[i].teamId - 1] == teams[rs[i].teamId - 1] {}
  }

  lemma SameClassKeepsConsistency(teams: seq<Team>, id: Id, t: Team, ms: seq<Member>, rs: seq<JoinRequest>)
    requires MembersConsistent(teams, ms) && RequestsConsistent(teams, rs)
    requires Has(teams, id) && t.classId == teams[id - 1].classId
    ensures MembersConsistent(teams[id - 1 := t], ms) && RequestsConsistent(teams[id - 1 := t], rs)
  {
  }

  /** A request accepted by the consistency trigger for an existing team keeps the invariant. */
  lemma InsertRequestKeepsConsistency(classes: seq<Class>, teams: seq<Team>, flags: WriteFlags, rs: seq<JoinRequest>, q: JoinRequest)
    requires RequestsConsistent(teams, rs) && Has(teams, q.teamId)
    requires InsertRequest(classes, teams, flags, rs, q).Ok?
    ensures RequestsConsistent(teams, InsertRequest(classes, teams, flags, rs, q).value)
  {
    var rs' := rs + [q];
    assert forall i :: 0 <= i < |rs| ==> rs'[i] == rs[i];
  }

  /**
   * UPDATE team_members SET is_active = 0, left_at = now WHERE team_id, student_id,
   * is_active, deleted_at IS NULL: each matched row fires the locked guard, then the
   * archived guard.
   */
  function DeactivateMembers(classes: seq<Class>, teams: seq<Team>, flags: WriteFlags, ms: seq<Member>,
                             teamId: Id, studentId: Id, now: Time): (r: Result<seq<Member>, string>)
    ensures r.Ok? ==> |r.value| == |ms|
    ensures r.Ok? ==> forall i :: 0 <= i < |ms| ==>
      r.value[i] == (if MatchesLeave(ms[i], teamId, studentId) then ms[i].(isActive := false, leftAt := Some(now)) else ms[i])
    ensures r.Err? <==> exists i :: (0 <= i < |ms| && MatchesLeave(ms[i], teamId, studentId)
      && (ArchivedBlocks(classes, flags, ms[i].classId) || LockedBlocks(teams, flags, teamId)))
    ensures ((exists i :: 0 <= i < |ms| && MatchesLeave(ms[i], teamId, studentId)) && LockedBlocks(teams, flags, teamId))
            ==> r == Err(TEAM_LOCKED)
    ensures !LockedBlocks(teams, flags, teamId) && r.Err? ==> r == Err(CLASS_ARCHIVED_READONLY)
  {
    if (exists i :: 0 <= i < |ms| && MatchesLeave(ms[i], teamId, studentId)) && LockedBlocks(teams, flags, teamId) then
      Err(TEAM_LOCKED)
    else if exists i :: 0 <= i < |ms| && MatchesLeave(ms[i], teamId, studentId) && ArchivedBlocks(classes, flags, ms[i].classId) then
      Err(CLASS_ARCHIVED_READONLY)
    else
      Ok(seq(|ms|, i requires 0 <= i < |ms| =>
        if MatchesLeave(ms[i], teamId, studentId) then ms[i].(isActive := false, leftAt := Some(now)) else ms[i]))
  }

  predicate MatchesLeave(m: Member, teamId: Id, studentId: Id)
  {
    m.teamId == teamId && m.studentId == studentId && ActiveMember(m)
  }

  /** Deactivating rows never breaks an index over active rows. */
  lemma {:induction false} DeactivateKeepsInvariants(teams: seq<Team>, ms: seq<Member>, ms': seq<Member>)
    requires MembersUnique(ms) && MembersConsistent(teams, ms)
    requires |ms'| == |ms|
    requires forall i :: 0 <= i < |ms| ==> ms'[i] == ms[i] || (ms'[i] == ms[i].(isActive := false, leftAt := ms'[i].leftAt))
    ensures MembersUnique(ms') && MembersConsistent(teams, ms')
  {
    forall i, j | 0 <= i < j < |ms'| && ActiveMember(ms'[i]) && ActiveMember(ms'[j]) && ms'[i].studentId == ms'[j].studentId
      ensures ms'[i].classId != ms'[j].classId && ms'[i].teamId != ms'[j].teamId
    {
      assert ms'[i] == ms[i] && ms'[j] == ms[j];
    }
    forall i | 0 <= i < |ms'| && ActiveMember(ms'[i])
      ensures Has(teams, ms'[i].teamId) && teams[ms'[i].teamId - 1].classId == ms'[i].classId
    {
      assert ms'[i] == ms[i];
    }
  }

  /* ---------- team_join_requests ---------- */

  /** INSERT INTO team_join_requests: consistency, locked, archived, one pending per (team, student). */
  function InsertRequest(classes: seq<Class>, teams: seq<Team>, flags: WriteFlags, rs: seq<JoinRequest>, q: JoinRequest)
    : (r: Result<seq<JoinRequest>, string>)
    ensures ClassMismatch(teams, q.teamId, q.classId) ==> r == Err(TEAM_JOIN_REQ_CLASS_MISMATCH)
    ensures !ClassMismatch(teams, q.teamId, q.classId) && LockedBlocks(teams, flags, q.teamId) ==> r == Err(TEAM_LOCKED)
    ensures (!ClassMismatch(teams, q.teamId, q.classId) && !LockedBlocks(teams, flags, q.teamId)
             && ArchivedBlocks(classes, flags, q.classId)) ==> r == Err(CLASS_ARCHIVED_READONLY)
    ensures r.Err? <==>
      ArchivedBlocks(classes, flags, q.classId) || LockedBlocks(teams, flags, q.teamId)
      || ClassMismatch(teams, q.teamId, q.classId) || !RequestsUnique(rs + [q])
    ensures r.Ok? ==> r.value == rs + [q]
  {
    if ClassMismatch(teams, q.teamId, q.classId) then Err(TEAM_JOIN_REQ_CLASS_MISMATCH)
    else if LockedBlocks(teams, flags, q.teamId) then Err(TEAM_LOCKED)
    else if ArchivedBlocks(classes, flags, q.classId) then Err(CLASS_ARCHIVED_READONLY)
    else if !RequestsUnique(rs + [q]) then Err(UniqueFailed("team_join_requests.team_id, team_join_requests.student_id"))
    else Ok(rs + [q])
  }

  /** UPDATE team_join_requests SET ... WHERE id: the locked guard fires, then the archived one. */
  function UpdateRequest(classes: seq<Class>, teams: seq<Team>, flags: WriteFlags, rs: seq<JoinRequest>, id: Id, q: JoinRequest)
    : (r: Result<seq<JoinRequest>, string>)
    requires Has(rs, id)
    ensures LockedBlocks(teams, flags, q.teamId) ==> r == Err(TEAM_LOCKED)
    ensures !LockedBlocks(teams, flags, q.teamId) && ArchivedBlocks(classes, flags, q.classId) ==> r == Err(CLASS_ARCHIVED_READONLY)
    ensures r.Err? <==>
      ArchivedBlocks(classes, flags, q.classId) || LockedBlocks(teams, flags, q.teamId) || !RequestsUnique(rs[id - 1 := q])
    ensures r.Ok? ==> r.value == rs[id - 1 := q]
  {
    if LockedBlocks(teams, flags, q.teamId) then Err(TEAM_LOCKED)
    else if ArchivedBlocks(classes, flags, q.classId) then Err(CLASS_ARCHIVED_READONLY)
    else if !RequestsUnique(rs[id - 1 := q]) then Err(UniqueFailed("team_join_requests.team_id, team_join_requests.student_id"))
    else Ok(rs[id - 1 := q])
  }

  /** A request that stops being pending cannot break the one-pending index. */
  lemma LeavingPendingKeepsUnique(rs: seq<JoinRequest>, id: Id, q: JoinRequest)
    requires RequestsUnique(rs) && Has(rs, id) && !PendingRequest(q)
    ensures RequestsUnique(rs[id - 1 := q])
  {
    var rs' := rs[id - 1 := q];
    forall i, j | 0 <= i < j < |rs'| && PendingRequest(rs'[i]) && PendingRequest(rs'[j])
      ensures rs'[i].teamId != rs'[j].teamId || rs'[i].studentId != rs'[j].studentId
    {
      assert rs'[i] == rs[i] && rs'[j] == rs[j];
    }
  }

  /* ---------- projects and their activation triggers ---------- */

  /** INSERT INTO projects: class consistency, archived guard, one live project per team. */
  function InsertProject(classes: seq<Class>, teams: seq<Team>, flags: WriteFlags, ps: seq<Project>, p: Project)
    : (r: Result<seq<Project>, string>)
    ensures r.Err? <==>
      ArchivedBlocks(classes, flags, p.classId) || ClassMismatch(teams, p.teamId, p.classId) || !ProjectsUnique(ps + [p])
    ensures ClassMismatch(teams, p.teamId, p.classId) ==> r == Err(PROJECT_CLASS_MISMATCH)
    ensures !ClassMismatch(teams, p.teamId, p.classId) && ArchivedBlocks(classes, flags, p.classId) ==> r == Err(CLASS_ARCHIVED_READONLY)
    ensures r.Ok? ==> r.value == ps + [p]
  {
    if ClassMismatch(teams, p.teamId, p.classId) then Err(PROJECT_CLASS_MISMATCH)
    else if ArchivedBlocks(classes, flags, p.classId) then Err(CLASS_ARCHIVED_READONLY)
    else if !ProjectsUnique(ps + [p]) then Err(UniqueFailed("projects.team_id"))
    else Ok(ps + [p])
  }

  /** trg_projects_active_lock_team: the team is locked, and a lockedAt already set is kept. */
  function LockTeam(t: Team, now: Time): (r: Team)
    ensures r.status == TeamLocked && r.isLocked
    ensures r.lockedAt == (if t.lockedAt.Some? then t.lockedAt else Some(now))
    ensures r.(status := t.status, isLocked := t.isLocked, lockedAt := t.lockedAt) == t
  {
    t.(status := TeamLocked, isLocked := true, lockedAt := if t.lockedAt.Some? then t.lockedAt else Some(now))
  }

  /** The number of live stages of a project. */
  function LiveStageCount(ss: seq<Stage>, projectId: Id): nat
  {
    if ss == [] then 0
    else
      var last := if LiveStage(ss[|ss| - 1]) && ss[|ss| - 1].projectId == projectId then 1 else 0;
      LiveStageCount(ss[..|ss| - 1], projectId) + last
  }

  /** The stage row trg_projects_active_init_stages inserts for an order. */
  function InitialStage(projectId: Id, order: nat, now: Time): (s: Stage)
    requires 1 <= order <= STAGE_COUNT
    ensures s.key == KeyOfOrder(order) && s.order == order && LiveStage(s) && s.projectId == projectId
    ensures s.status == (if order == 1 then Open else Locked)
  {
    Stage(projectId, KeyOfOrder(order), order, if order == 1 then Open else Locked,
          if order == 1 then Some(now) else None, None, None, None)
  }

  /**
   * trg_projects_active_init_stages: five conditional INSERTs, each guarded by the
   * live-stage count the previous ones left. From `count` live stages it inserts the
   * orders count+1 .. 5, and nothing from five or more.
   */
  function InitStageRows(projectId: Id, count: nat, now: Time): (rows: seq<Stage>)
    ensures |rows| == if count >= STAGE_COUNT then 0 else STAGE_COUNT - count
    ensures forall k :: 0 <= k < |rows| ==> rows[k] == InitialStage(projectId, count + k + 1, now)
  {
    if count >= STAGE_COUNT then []
    else seq(STAGE_COUNT - count, k requires 0 <= k < STAGE_COUNT - count => InitialStage(projectId, count + k + 1, now))
  }

  /** A project with no live stages receives exactly the five stages, in STAGE_KEYS order, requirements open. */
  lemma ActivationCreatesFiveStages(projectId: Id, now: Time)
    ensures |InitStageRows(projectId, 0, now)| == STAGE_COUNT
    ensures forall k :: 0 <= k < STAGE_COUNT ==>
      var s := InitStageRows(projectId, 0, now)[k];
      s.projectId == projectId && s.key == STAGE_KEYS[k] && s.order == k + 1 && LiveStage(s)
      && s.status == (if k == 0 then Open else Locked)
      && s.openedAt == (if k == 0 then Some(now) else None)
  {
  }

  /** What an UPDATE of a project row leaves behind: the teams, projects and stages. */
  datatype ProjectWrite = ProjectWrite(teams: seq<Team>, projects: seq<Project>, stages: seq<Stage>)

  /** Whether an update fires the activation triggers. */
  predicate Activates(before: Project, after: Project)
  {
    before.status != Active && after.status == Active
  }

  /**
   * UPDATE projects SET ... WHERE id: the consistency and archived guards, the
   * one-project index, and on activation the AFTER triggers newest first: the stage
   * initialisation (which must keep the stage indexes), then the team lock (which
   * fires the teams archived guard). The stage indexes hold before the statement.
   */
  function UpdateProject(classes: seq<Class>, flags: WriteFlags, teams: seq<Team>, ps: seq<Project>,
                         ss: seq<Stage>, id: Id, p: Project, now: Time): (r: Result<ProjectWrite, string>)
    requires Has(ps, id) && StagesUnique(ss)
    ensures ClassMismatch(teams, p.teamId, p.classId) ==> r == Err(PROJECT_CLASS_MISMATCH)
    ensures !ClassMismatch(teams, p.teamId, p.classId) && ArchivedBlocks(classes, flags, p.classId) ==> r == Err(CLASS_ARCHIVED_READONLY)
    ensures r.Err? <==>
      ClassMismatch(teams, p.teamId, p.classId) || ArchivedBlocks(classes, flags, p.classId) || !ProjectsUnique(ps[id - 1 := p])
      || (Activates(ps[id - 1], p)
          && (!StagesUnique(ss + InitStageRows(id, LiveStageCount(ss, id), now))
              || (Has(teams, p.teamId) && ArchivedBlocks(classes, flags, teams[p.teamId - 1].classId))))
    ensures r.Ok? ==> r.value.projects == ps[id - 1 := p]
    ensures r.Ok? && !Activates(ps[id - 1], p) ==> r.value.teams == teams && r.value.stages == ss
    ensures r.Ok? && Activates(ps[id - 1], p) ==>
      r.value.stages == ss + InitStageRows(id, LiveStageCount(ss, id), now)
      && r.value.teams == (if Has(teams, p.teamId) then teams[p.teamId - 1 := LockTeam(teams[p.teamId - 1], now)] else teams)
    ensures r.Ok? ==> ProjectsUnique(r.value.projects) && StagesUnique(r.value.stages)
  {
    if ClassMismatch(teams, p.teamId, p.classId) then Err(PROJECT_CLASS_MISMATCH)
    else if ArchivedBlocks(classes, flags, p.classId) then Err(CLASS_ARCHIVED_READONLY)
    else
      var ps' := ps[id - 1 := p];
      if !ProjectsUnique(ps') then Err(UniqueFailed("projects.team_id"))
      else if !Activates(ps[id - 1], p) then Ok(ProjectWrite(teams, ps', ss))
      else
        var ss' := ss + InitStageRows(id, LiveStageCount(ss, id), now);
        if !StagesUnique(ss') then Err(UniqueFailed("project_stages.project_id, project_stages.key"))
        else if Has(teams, p.teamId) && ArchivedBlocks(classes, flags, teams[p.teamId - 1].classId) then
          Err(CLASS_ARCHIVED_READONLY)
        else
          var teams' := if Has(teams, p.teamId) then teams[p.teamId - 1 := LockTeam(teams[p.teamId - 1], now)] else teams;
          Ok(ProjectWrite(teams', ps', ss'))
  }

  /** An update that keeps a row's team and liveness cannot break the one-project index. */
  lemma SameTeamKeepsProjectsUnique(ps: seq<Project>, id: Id, p: Project)
    requires ProjectsUnique(ps) && Has(ps, id)
    requires p.teamId == ps[id - 1].teamId && p.deletedAt == ps[id - 1].deletedAt
    ensures ProjectsUnique(ps[id - 1 := p])
  {
    var ps' := ps[id - 1 := p];
    forall i, j | 0 <= i < j < |ps'| && LiveProject(ps'[i]) && LiveProject(ps'[j])
      ensures ps'[i].teamId != ps'[j].teamId
    {
      assert LiveProject(ps[i]) && LiveProject(ps[j]);
    }
  }

  /** A project whose live stages are none receives rows that keep both stage indexes. */
  lemma {:induction false} InitOnEmptyKeepsStagesUnique(ss: seq<Stage>, id: Id, now: Time)
    requires StagesUnique(ss)
    requires forall i :: 0 <= i < |ss| && LiveStage(ss[i]) ==> ss[i].projectId != id
    ensures StagesUnique(ss + InitStageRows(id, 0, now))
  {
    var rows := InitStageRows(id, 0, now);
    var ss' := ss + rows;
    forall i, j | 0 <= i < j < |ss'| && LiveStage(ss'[i]) && LiveStage(ss'[j]) && ss'[i].projectId == ss'[j].projectId
      ensures ss'[i].key != ss'[j].key && ss'[i].order != ss'[j].order
    {
      if j < |ss| {
        assert ss'[i] == ss[i] && ss'[j] == ss[j];
      } else if |ss| <= i {
        assert ss'[i] == rows[i - |ss|] && ss'[j] == rows[j - |ss|];
        StageOrderBijection(ss'[i].key, ss'[i].order);
        StageOrderBijection(ss'[j].key, ss'[j].order);
      }
    }
  }

  /** With no live stages, the count the init trigger sees is zero. */
  lemma {:induction false} NoLiveStagesCountZero(ss: seq<Stage>, id: Id)
    requires forall i :: 0 <= i < |ss| && LiveStage(ss[i]) ==> ss[i].projectId != id
    ensures LiveStageCount(ss, id) == 0
  {
    if ss != [] {
      NoLiveStagesCountZero(ss[..|ss| - 1], id);
    }
  }

  /* ---------- project_stages ---------- */

  /**
   * trg_project_stages_pass_opens_next: every live stage of the project at order + 1
   * that is locked becomes open, stamped now; all other rows are untouched.
   */
  function PassOpensNext(ss: seq<Stage>, projectId: Id, order: int, now: Time): (r: seq<Stage>)
    ensures |r| == |ss|
    ensures forall i :: 0 <= i < |ss| ==>
      r[i] == (if OpensOnPass(ss[i], projectId, order) then ss[i].(status := Open, openedAt := Some(now)) else ss[i])
  {
    seq(|ss|, i requires 0 <= i < |ss| =>
      if OpensOnPass(ss[i], projectId, order) then ss[i].(status := Open, openedAt := Some(now)) else ss[i])
  }

  predicate OpensOnPass(s: Stage, projectId: Id, order: int)
  {
    s.projectId == projectId && s.order == order + 1 && s.status == Locked && LiveStage(s)
  }

  /** Passing the last stage (order 5) opens nothing when all stage orders are at most 5. */
  lemma PassingLastOpensNothing(ss: seq<Stage>, projectId: Id, now: Time)
    requires forall i :: 0 <= i < |ss| ==> ss[i].order <= STAGE_COUNT
    ensures PassOpensNext(ss, projectId, STAGE_COUNT, now) == ss
  {
    var r := PassOpensNext(ss, projectId, STAGE_COUNT, now);
    assert forall i :: 0 <= i < |ss| ==> r[i] == ss[i];
  }

  /**
   * UPDATE project_stages SET status, opened_at, passed_at, last_rollback_at WHERE id;
   * when the row enters passed from another status, the pass trigger then runs. Stage
   * rows have no guard triggers.
   */
  function UpdateStage(ss: seq<Stage>, id: Id, status: StageStatus, openedAt: Option<Time>,
                       passedAt: Option<Time>, lastRollbackAt: Option<Time>, now: Time): (r: seq<Stage>)
    requires Has(ss, id)
    ensures |r| == |ss|
  {
    var s := ss[id - 1];
    var ss' := ss[id - 1 := s.(status := status, openedAt := openedAt, passedAt := passedAt, lastRollbackAt := lastRollbackAt)];
    if s.status != Passed && status == Passed then PassOpensNext(ss', s.projectId, s.order, now) else ss'
  }

  /**
   * What the update does row by row: the row named gets the new status and times, and
   * only a pass from another status opens the project's next locked stage.
   */
  lemma UpdateStageEffect(ss: seq<Stage>, id: Id, status: StageStatus, openedAt: Option<Time>,
                          passedAt: Option<Time>, lastRollbackAt: Option<Time>, now: Time)
    requires Has(ss, id)
    ensures var r := UpdateStage(ss, id, status, openedAt, passedAt, lastRollbackAt, now);
      r[id - 1] == ss[id - 1].(status := status, openedAt := openedAt, passedAt := passedAt, lastRollbackAt := lastRollbackAt)
      && forall i :: 0 <= i < |ss| && i != id - 1 ==>
        r[i] == (if ss[id - 1].status != Passed && status == Passed && OpensOnPass(ss[i], ss[id - 1].projectId, ss[id - 1].order)
                 then ss[i].(status := Open, openedAt := Some(now)) else ss[i])
  {
  }

  /** Status-and-time updates keep the key, order, project and liveness of every row. */
  predicate SameStageShape(a: seq<Stage>, b: seq<Stage>)
  {
    |a| == |b| && forall i :: 0 <= i < |a| ==>
      b[i].projectId == a[i].projectId && b[i].key == a[i].key && b[i].order == a[i].order && b[i].deletedAt == a[i].deletedAt
  }

  lemma UpdateStageKeepsShape(ss: seq<Stage>, id: Id, status: StageStatus, openedAt: Option<Time>,
                              passedAt: Option<Time>, lastRollbackAt: Option<Time>, now: Time)
    requires Has(ss, id)
    ensures SameStageShape(ss, UpdateStage(ss, id, status, openedAt, passedAt, lastRollbackAt, now))
  {
  }

  lemma SameShapeKeepsUnique(a: seq<Stage>, b: seq<Stage>)
    requires SameStageShape(a, b) && StagesUnique(a)
    ensures StagesUnique(b)
  {
    forall i, j | 0 <= i < j < |b| && LiveStage(b[i]) && LiveStage(b[j]) && b[i].projectId == b[j].projectId
      ensures b[i].key != b[j].key && b[i].order != b[j].order
    {
      assert LiveStage(a[i]) && LiveStage(a[j]);
    }
  }

  /* ---------- class-scoped rows with only the archived guard ---------- */

  function InsertAssignment(classes: seq<Class>, flags: WriteFlags, xs: seq<Assignment>, a: Assignment)
    : (r: Result<seq<Assignment>, string>)
    ensures r.Err? <==> ArchivedBlocks(classes, flags, a.classId)
    ensures r.Err? ==> r.error == CLASS_ARCHIVED_READONLY
    ensures r.Ok? ==> r.value == xs + [a]
  {
    if ArchivedBlocks(classes, flags, a.classId) then Err(CLASS_ARCHIVED_READONLY) else Ok(xs + [a])
  }

  function UpdateAssignment(classes: seq<Class>, flags: WriteFlags, xs: seq<Assignment>, id: Id, a: Assignment)
    : (r: Result<seq<Assignment>, string>)
    requires Has(xs, id)
    ensures r.Err? <==> ArchivedBlocks(classes, flags, a.classId)
    ensures r.Err? ==> r.error == CLASS_ARCHIVED_READONLY
    ensures r.Ok? ==> r.value == xs[id - 1 := a]
  {
    if ArchivedBlocks(classes, flags, a.classId) then Err(CLASS_ARCHIVED_READONLY) else Ok(xs[id - 1 := a])
  }

  function InsertWindow(classes: seq<Class>, flags: WriteFlags, ws: seq<Window>, w: Window)
    : (r: Result<seq<Window>, string>)
    ensures r.Err? <==> ArchivedBlocks(classes, flags, w.classId)
    ensures r.Err? ==> r.error == CLASS_ARCHIVED_READONLY
    ensures r.Ok? ==> r.value == ws + [w]
  {
    if ArchivedBlocks(classes, flags, w.classId) then Err(CLASS_ARCHIVED_READONLY) else Ok(ws + [w])
  }

  function UpdateWindow(classes: seq<Class>, flags: WriteFlags, ws: seq<Window>, id: Id, w: Window)
    : (r: Result<seq<Window>, string>)
    requires Has(ws, id)
    ensures r.Err? <==> ArchivedBlocks(classes, flags, w.classId)
    ensures r.Err? ==> r.error == CLASS_ARCHIVED_READONLY
    ensures r.Ok? ==> r.value == ws[id - 1 := w]
  {
    if ArchivedBlocks(classes, flags, w.classId) then Err(CLASS_ARCHIVED_READONLY) else Ok(ws[id - 1 := w])
  }

  function InsertCase(classes: seq<Class>, flags: WriteFlags, cs: seq<CaseEntry>, c: CaseEntry)
    : (r: Result<seq<CaseEntry>, string>)
    ensures r.Err? <==> ArchivedBlocks(classes, flags, c.classId)
    ensures r.Err? ==> r.error == CLASS_ARCHIVED_READONLY
    ensures r.Ok? ==> r.value == cs + [c]
  {
    if ArchivedBlocks(classes, flags, c.classId) then Err(CLASS_ARCHIVED_READONLY) else Ok(cs + [c])
  }

  function UpdateCase(classes: seq<Class>, flags: WriteFlags, cs: seq<CaseEntry>, id: Id, c: CaseEntry)
    : (r: Result<seq<CaseEntry>, string>)
    requires Has(cs, id)
    ensures r.Err? <==> ArchivedBlocks(classes, flags, c.classId)
    ensures r.Err? ==> r.error == CLASS_ARCHIVED_READONLY
    ensures r.Ok? ==> r.value == cs[id - 1 := c]
  {
    if ArchivedBlocks(classes, flags, c.classId) then Err(CLASS_ARCHIVED_READONLY) else Ok(cs[id - 1 := c])
  }

  /* ---------- submissions ---------- */

  /**
   * INSERT INTO submissions: the consistency trigger's five checks in order (assignment
   * class, project class, stage project, team assignment needs a team, individual
   * assignment forbids one), then the archived guard, then the version index.
   */
  function InsertSubmission(classes: seq<Class>, flags: WriteFlags, assignments: seq<Assignment>,
                            projects: seq<Project>, stages: seq<Stage>, subs: seq<Submission>, s: Submission)
    : (r: Result<seq<Submission>, string>)
    ensures r.Err? <==>
      ArchivedBlocks(classes, flags, s.classId) || SubmissionMismatch(assignments, projects, stages, s).Some?
      || !SubmissionsUnique(subs + [s])
    ensures SubmissionMismatch(assignments, projects, stages, s).Some? ==>
      r == Err(SubmissionMismatch(assignments, projects, stages, s).value)
    ensures SubmissionMismatch(assignments, projects, stages, s).None? && ArchivedBlocks(classes, flags, s.classId) ==>
      r == Err(CLASS_ARCHIVED_READONLY)
    ensures r.Ok? ==> r.value == subs + [s]
  {
    var mismatch := SubmissionMismatch(assignments, projects, stages, s);
    if mismatch.Some? then Err(mismatch.value)
    else if ArchivedBlocks(classes, flags, s.classId) then Err(CLASS_ARCHIVED_READONLY)
    else if !SubmissionsUnique(subs + [s]) then Err(UniqueFailed(SUBMISSION_VERSION_COLUMNS))
    else Ok(subs + [s])
  }

  const SUBMISSION_VERSION_COLUMNS := "submissions.assignment_id, submissions.stage_id, submissions.project_id, submissions.team_id, submissions.submitter_id, submissions.version"

  /** trg_submissions_consistency_insert: the first of its checks that fails. */
  function SubmissionMismatch(assignments: seq<Assignment>, projects: seq<Project>, stages: seq<Stage>, s: Submission)
    : (r: Option<string>)
    ensures r.None? <==>
      (Has(assignments, s.assignmentId) ==>
         assignments[s.assignmentId - 1].classId == s.classId
         && (assignments[s.assignmentId - 1].kind == TeamWork ==> s.teamId.Some?)
         && (assignments[s.assignmentId - 1].kind == Individual ==> s.teamId.None?))
      && (Has(projects, s.projectId) ==> projects[s.projectId - 1].classId == s.classId)
      && (Has(stages, s.stageId) ==> stages[s.stageId - 1].projectId == s.projectId)
  {
    var hasA := Has(assignments, s.assignmentId);
    if hasA && assignments[s.assignmentId - 1].classId != s.classId then Some(SUBMISSION_CLASS_ASSIGNMENT_MISMATCH)
    else if Has(projects, s.projectId) && projects[s.projectId - 1].classId != s.classId then Some(SUBMISSION_CLASS_PROJECT_MISMATCH)
    else if Has(stages, s.stageId) && stages[s.stageId - 1].projectId != s.projectId then Some(SUBMISSION_STAGE_PROJECT_MISMATCH)
    else if hasA && assignments[s.assignmentId - 1].kind == TeamWork && s.teamId.None? then Some(TEAM_ASSIGNMENT_REQUIRES_TEAM)
    else if hasA && assignments[s.assignmentId - 1].kind == Individual && s.teamId.Some? then Some(INDIVIDUAL_ASSIGNMENT_FORBIDS_TEAM)
    else None
  }

  /** INSERT INTO submission_files: only its (submission, file) index. */
  function InsertSubmissionFile(fs: seq<SubmissionFile>, f: SubmissionFile): (r: Result<seq<SubmissionFile>, string>)
    ensures r.Err? <==> f in fs
    ensures r.Ok? ==> r.value == fs + [f] && (SubmissionFilesUnique(fs) ==> SubmissionFilesUnique(r.value))
  {
    if f in fs then Err(UniqueFailed("submission_files.submission_id, submission_files.file_id")) else Ok(fs + [f])
  }

  /* ---------- grades, reviews, adoptions: archived guard on INSERT only ---------- */

  /** The class a grade's submission lies in is archived (the submission row may be deleted). */
  predicate GradeBlocked(classes: seq<Class>, flags: WriteFlags, subs: seq<Submission>, submissionId: Id)
  {
    Has(subs, submissionId) && ArchivedBlocks(classes, flags, subs[submissionId - 1].classId)
  }

  /**
   * INSERT INTO grades ... ON CONFLICT(submission_id) DO UPDATE: the BEFORE INSERT guard
   * fires first either way; then the row for the submission is created or overwritten.
   */
  function UpsertGrade(classes: seq<Class>, flags: WriteFlags, subs: seq<Submission>, gs: map<Id, Grade>,
                       submissionId: Id, g: Grade): (r: Result<map<Id, Grade>, string>)
    ensures r.Err? <==> GradeBlocked(classes, flags, subs, submissionId)
    ensures r.Ok? ==> r.value == gs[submissionId := g]
  {
    if GradeBlocked(classes, flags, subs, submissionId) then Err(CLASS_ARCHIVED_READONLY) else Ok(gs[submissionId := g])
  }

  /** INSERT INTO peer_reviews: the archived guard, then uniq_peer_review_once. */
  function InsertReview(classes: seq<Class>, flags: WriteFlags, rs: seq<Review>, rv: Review)
    : (r: Result<seq<Review>, string>)
    ensures r.Err? <==> ArchivedBlocks(classes, flags, rv.classId) || !ReviewsUnique(rs + [rv])
    ensures r.Ok? ==> r.value == rs + [rv]
  {
    if ArchivedBlocks(classes, flags, rv.classId) then Err(CLASS_ARCHIVED_READONLY)
    else if !ReviewsUnique(rs + [rv]) then
      Err(UniqueFailed("peer_reviews.window_id, peer_reviews.team_id, peer_reviews.reviewer_id, peer_reviews.reviewee_id"))
    else Ok(rs + [rv])
  }

  /** A review that repeats a live one for the same (window, team, reviewer, reviewee) is refused. */
  lemma DuplicateReviewRefused(classes: seq<Class>, flags: WriteFlags, rs: seq<Review>, rv: Review, i: nat)
    requires i < |rs| && LiveReview(rs[i]) && LiveReview(rv)
    requires rs[i].windowId == rv.windowId && rs[i].teamId == rv.teamId
    requires rs[i].reviewerId == rv.reviewerId && rs[i].revieweeId == rv.revieweeId
    ensures InsertReview(classes, flags, rs, rv).Err?
  {
    var rs' := rs + [rv];
    assert rs'[i] == rs[i] && rs'[|rs|] == rv;
  }

  /** The first live adoption row for (window, team), if any. */
  function AdoptionFor(xs: seq<Adoption>, windowId: Id, teamId: Id): (r: Option<nat>)
    ensures r.Some? ==> r.value < |xs| && LiveAdoption(xs[r.value]) && xs[r.value].windowId == windowId && xs[r.value].teamId == teamId
    ensures r.None? ==> forall i :: 0 <= i < |xs| && LiveAdoption(xs[i]) ==> xs[i].windowId != windowId || xs[i].teamId != teamId
  {
    if xs == [] then None
    else
      var r := AdoptionFor(xs[..|xs| - 1], windowId, teamId);
      if r.Some? then r
      else if LiveAdoption(xs[|xs| - 1]) && xs[|xs| - 1].windowId == windowId && xs[|xs| - 1].teamId == teamId then Some(|xs| - 1)
      else None
  }

  /**
   * What SQLite answers when an upsert's conflict target matches no unique index: a
   * partial index only matches a target that repeats its WHERE clause. It is written
   * in pieces, cut after spaces, so that its characters can be inspected piece by piece.
   */
  const ON_CONFLICT_NO_MATCH := "ON CONFLICT " + "clause does " + "not match " + "any PRIMARY " + "KEY or UNIQUE " + "constraint"

  /**
   * The adoption upsert as the decision handler writes it: the conflict target is
   * (window_id, team_id) without `WHERE deleted_at IS NULL`, and the only unique index
   * on those columns is the partial uniq_peer_review_adoption, so the statement cannot
   * be prepared. It fails before any trigger runs, whatever the tables hold.
   */
  function UpsertAdoptionAsWritten(classes: seq<Class>, flags: WriteFlags, ws: seq<Window>, xs: seq<Adoption>, a: Adoption)
    : (r: Result<seq<Adoption>, string>)
    ensures r.Err? && r.error == ON_CONFLICT_NO_MATCH
  {
    Err(ON_CONFLICT_NO_MATCH)
  }

  /**
   * INSERT INTO peer_review_adoptions ... ON CONFLICT(window_id, team_id) WHERE
   * deleted_at IS NULL DO UPDATE, the upsert the partial index accepts: the guard looks
   * the class up through the window; a live row for the pair is overwritten, otherwise
   * one is appended.
   */
  function UpsertAdoption(classes: seq<Class>, flags: WriteFlags, ws: seq<Window>, xs: seq<Adoption>, a: Adoption)
    : (r: Result<seq<Adoption>, string>)
    requires LiveAdoption(a)
    ensures r.Err? <==> Has(ws, a.windowId) && ArchivedBlocks(classes, flags, ws[a.windowId - 1].classId)
    ensures r.Ok? ==> AdoptionsUnique(xs) ==> AdoptionsUnique(r.value)
    ensures r.Ok? ==> exists i :: 0 <= i < |r.value| && r.value[i] == a
    ensures r.Ok? ==> |r.value| == |xs| || r.value == xs + [a]
  {
    if Has(ws, a.windowId) && ArchivedBlocks(classes, flags, ws[a.windowId - 1].classId) then Err(CLASS_ARCHIVED_READONLY)
    else
      var at := AdoptionFor(xs, a.windowId, a.teamId);
      if at.Some? then
        var xs' := xs[at.value := a];
        assert xs'[at.value] == a;
        assert AdoptionsUnique(xs) ==> AdoptionsUnique(xs') by {
          if AdoptionsUnique(xs) {
            forall i, j | 0 <= i < j < |xs'| && LiveAdoption(xs'[i]) && LiveAdoption(xs'[j])
              ensures xs'[i].windowId != xs'[j].windowId || xs'[i].teamId != xs'[j].teamId
            {
              if i != at.value && j != at.value {
                assert xs'[i] == xs[i] && xs'[j] == xs[j];
              } else if i == at.value {
                assert xs'[j] == xs[j];
              } else {
                assert xs'[i] == xs[i];
              }
            }
          }
        }
        Ok(xs')
      else
        var xs' := xs + [a];
        assert xs'[|xs|] == a;
        assert AdoptionsUnique(xs) ==> AdoptionsUnique(xs') by {
          if AdoptionsUnique(xs) {
            forall i, j | 0 <= i < j < |xs'| && LiveAdoption(xs'[i]) && LiveAdoption(xs'[j])
              ensures xs'[i].windowId != xs'[j].windowId || xs'[i].teamId != xs'[j].teamId
            {
              assert xs'[i] == xs[i];
            }
          }
        }
        Ok(xs')
  }

  /* ---------- roster ---------- */

  /** The student already holds an active, live enrolment in the class. */
  predicate Enrolled(es: seq<Enrollment>, classId: Id, studentId: Id)
  {
    exists i :: 0 <= i < |es| && ActiveEnrollment(es[i]) && es[i].classId == classId && es[i].studentId == studentId
  }

  /**
   * INSERT INTO class_students ... ON CONFLICT DO NOTHING: the archived guard fires;
   * an active enrolment that would clash with a live active one is skipped.
   */
  function InsertEnrollmentOrIgnore(classes: seq<Class>, flags: WriteFlags, es: seq<Enrollment>, e: Enrollment)
    : (r: Result<seq<Enrollment>, string>)
    requires ActiveEnrollment(e)
    ensures r.Err? <==> ArchivedBlocks(classes, flags, e.classId)
    ensures r.Ok? ==> r.value == (if Enrolled(es, e.classId, e.studentId) then es else es + [e])
    ensures r.Ok? ==> Enrolled(r.value, e.classId, e.studentId)
    ensures r.Ok? && EnrollmentsUnique(es) ==> EnrollmentsUnique(r.value)
  {
    if ArchivedBlocks(classes, flags, e.classId) then Err(CLASS_ARCHIVED_READONLY)
    else if Enrolled(es, e.classId, e.studentId) then Ok(es)
    else
      var es' := es + [e];
      assert es'[|es|] == e;
      assert EnrollmentsUnique(es) ==> EnrollmentsUnique(es') by {
        if EnrollmentsUnique(es) {
          forall i, j | 0 <= i < j < |es'| && ActiveEnrollment(es'[i]) && ActiveEnrollment(es'[j])
            ensures es'[i].classId != es'[j].classId || es'[i].studentId != es'[j].studentId
          {
            assert es'[i] == es[i];
          }
        }
      }
      Ok(es')
  }

  /** UPDATE class_students SET ... WHERE id: the archived guard, then the active-enrolment index. */
  function UpdateEnrollment(classes: seq<Class>, flags: WriteFlags, es: seq<Enrollment>, id: Id, e: Enrollment)
    : (r: Result<seq<Enrollment>, string>)
    requires Has(es, id)
    ensures r.Err? <==> ArchivedBlocks(classes, flags, e.classId) || !EnrollmentsUnique(es[id - 1 := e])
    ensures r.Ok? ==> r.value == es[id - 1 := e]
  {
    if ArchivedBlocks(classes, flags, e.classId) then Err(CLASS_ARCHIVED_READONLY)
    else if !EnrollmentsUnique(es[id - 1 := e]) then Err(UniqueFailed("class_students.class_id, class_students.student_id"))
    else Ok(es[id - 1 := e])
  }

  /**
   * UPDATE class_students SET is_active = 0, left_at = now, deleted_at = now WHERE
   * class_id, student_id, deleted_at IS NULL.
   */
  function RemoveEnrollments(classes: seq<Class>, flags: WriteFlags, es: seq<Enrollment>, classId: Id, studentId: Id, now: Time)
    : (r: Result<seq<Enrollment>, string>)
    ensures r.Err? <==> (ArchivedBlocks(classes, flags, classId)
      && exists i :: 0 <= i < |es| && RemovesEnrollment(es[i], classId, studentId))
    ensures r.Ok? ==> |r.value| == |es| && forall i :: 0 <= i < |es| ==>
      r.value[i] == (if RemovesEnrollment(es[i], classId, studentId)
                     then es[i].(isActive := false, leftAt := Some(now), deletedAt := Some(now)) else es[i])
  {
    if ArchivedBlocks(classes, flags, classId) && exists i :: 0 <= i < |es| && RemovesEnrollment(es[i], classId, studentId) then
      Err(CLASS_ARCHIVED_READONLY)
    else
      Ok(seq(|es|, i requires 0 <= i < |es| =>
        if RemovesEnrollment(es[i], classId, studentId)
        then es[i].(isActive := false, leftAt := Some(now), deletedAt := Some(now)) else es[i]))
  }

  predicate RemovesEnrollment(e: Enrollment, classId: Id, studentId: Id)
  {
    e.classId == classId && e.studentId == studentId && e.deletedAt.None?
  }

  /** The teacher holds a live class_teachers row for the class. */
  predicate Teaches(ts: seq<ClassTeacher>, classId: Id, teacherId: Id)
  {
    exists i :: 0 <= i < |ts| && LiveTeacher(ts[i]) && ts[i].classId == classId && ts[i].teacherId == teacherId
  }

  /** INSERT INTO class_teachers ... ON CONFLICT DO NOTHING. */
  function InsertTeacherOrIgnore(classes: seq<Class>, flags: WriteFlags, ts: seq<ClassTeacher>, t: ClassTeacher)
    : (r: Result<seq<ClassTeacher>, string>)
    requires LiveTeacher(t)
    ensures r.Err? <==> ArchivedBlocks(classes, flags, t.classId)
    ensures r.Ok? ==> r.value == (if Teaches(ts, t.classId, t.teacherId) then ts else ts + [t])
    ensures r.Ok? && TeachersUnique(ts) ==> TeachersUnique(r.value)
  {
    if ArchivedBlocks(classes, flags, t.classId) then Err(CLASS_ARCHIVED_READONLY)
    else if Teaches(ts, t.classId, t.teacherId) then Ok(ts)
    else
      var ts' := ts + [t];
      assert ts'[|ts|] == t;
      assert TeachersUnique(ts) ==> TeachersUnique(ts') by {
        if TeachersUnique(ts) {
          forall i, j | 0 <= i < j < |ts'| && LiveTeacher(ts'[i]) && LiveTeacher(ts'[j])
            ensures ts'[i].classId != ts'[j].classId || ts'[i].teacherId != ts'[j].teacherId
          {
            assert ts'[i] == ts[i];
          }
        }
      }
      Ok(ts')
  }

  /** INSERT INTO class_teachers without ON CONFLICT: the archived guard, then the one-live-row index. */
  function InsertTeacher(classes: seq<Class>, flags: WriteFlags, ts: seq<ClassTeacher>, t: ClassTeacher)
    : (r: Result<seq<ClassTeacher>, string>)
    requires LiveTeacher(t)
    ensures r.Err? <==> ArchivedBlocks(classes, flags, t.classId) || Teaches(ts, t.classId, t.teacherId)
    ensures r.Ok? ==> r.value == ts + [t]
  {
    if ArchivedBlocks(classes, flags, t.classId) then Err(CLASS_ARCHIVED_READONLY)
    else if Teaches(ts, t.classId, t.teacherId) then Err(UniqueFailed("class_teachers.class_id, class_teachers.teacher_id"))
    else Ok(ts + [t])
  }

  predicate RemovesTeacher(t: ClassTeacher, classId: Id, teacherId: Id)
  {
    t.classId == classId && t.teacherId == teacherId && LiveTeacher(t)
  }

  /** UPDATE class_teachers SET deleted_at = now WHERE class_id, teacher_id, deleted_at IS NULL. */
  function RemoveTeachers(classes: seq<Class>, flags: WriteFlags, ts: seq<ClassTeacher>, classId: Id, teacherId: Id, now: Time)
    : (r: Result<seq<ClassTeacher>, string>)
    ensures r.Err? <==> (ArchivedBlocks(classes, flags, classId)
      && exists i :: 0 <= i < |ts| && RemovesTeacher(ts[i], classId, teacherId))
    ensures r.Ok? ==> |r.value| == |ts| && forall i :: 0 <= i < |ts| ==>
      r.value[i] == (if RemovesTeacher(ts[i], classId, teacherId) then ts[i].(deletedAt := Some(now)) else ts[i])
  {
    if ArchivedBlocks(classes, flags, classId) && exists i :: 0 <= i < |ts| && RemovesTeacher(ts[i], classId, teacherId) then
      Err(CLASS_ARCHIVED_READONLY)
    else
      Ok(seq(|ts|, i requires 0 <= i < |ts| =>
        if RemovesTeacher(ts[i], classId, teacherId) then ts[i].(deletedAt := Some(now)) else ts[i]))
  }

  /* ---------- users ---------- */

  /** INSERT INTO users: users.username is UNIQUE (deleted rows included). */
  function InsertUser(us: seq<User>, u: User): (r: Result<seq<User>, string>)
    ensures r.Err? <==> exists i :: 0 <= i < |us| && us[i].username == u.username
    ensures r.Ok? ==> r.value == us + [u] && (UsernamesUnique(us) ==> UsernamesUnique(r.value))
  {
    if exists i :: 0 <= i < |us| && us[i].username == u.username then Err(UniqueFailed("users.username"))
    else
      assert (us + [u])[|us|] == u;
      Ok(us + [u])
  }

  /** INSERT INTO student_profiles: user_id is the primary key and student_no is UNIQUE. */
  function InsertStudentProfile(ps: seq<StudentProfile>, p: StudentProfile): (r: Result<seq<StudentProfile>, string>)
    ensures r.Err? <==> exists i :: 0 <= i < |ps| && (ps[i].userId == p.userId || ps[i].studentNo == p.studentNo)
    ensures r.Ok? ==> r.value == ps + [p]
    ensures r.Ok? && StudentNosUnique(ps) ==> StudentNosUnique(r.value)
    ensures r.Ok? && ProfileUsersUnique(ps) ==> ProfileUsersUnique(r.value)
  {
    if exists i :: 0 <= i < |ps| && ps[i].userId == p.userId then Err(UniqueFailed("student_profiles.user_id"))
    else if exists i :: 0 <= i < |ps| && ps[i].studentNo == p.studentNo then Err(UniqueFailed("student_profiles.student_no"))
    else
      assert (ps + [p])[|ps|] == p;
      Ok(ps + [p])
  }

  /** INSERT INTO teacher_profiles: user_id is the primary key and teacher_no is UNIQUE (NULLs never clash). */
  function InsertTeacherProfile(ps: seq<TeacherProfile>, p: TeacherProfile): (r: Result<seq<TeacherProfile>, string>)
    ensures r.Err? <==>
      exists i :: 0 <= i < |ps| && (ps[i].userId == p.userId || (p.teacherNo.Some? && ps[i].teacherNo == p.teacherNo))
    ensures r.Ok? ==> r.value == ps + [p]
  {
    if exists i :: 0 <= i < |ps| && ps[i].userId == p.userId then Err(UniqueFailed("teacher_profiles.user_id"))
    else if exists i :: 0 <= i < |ps| && p.teacherNo.Some? && ps[i].teacherNo == p.teacherNo then
      Err(UniqueFailed("teacher_profiles.teacher_no"))
    else Ok(ps + [p])
  }

  /** INSERT INTO admin_profiles: user_id is the primary key. */
  function InsertAdminProfile(ps: seq<AdminProfile>, p: AdminProfile): (r: Result<seq<AdminProfile>, string>)
    ensures r.Err? <==> exists i :: 0 <= i < |ps| && ps[i].userId == p.userId
    ensures r.Ok? ==> r.value == ps + [p]
  {
    if exists i :: 0 <= i < |ps| && ps[i].userId == p.userId then Err(UniqueFailed("admin_profiles.user_id"))
    else Ok(ps + [p])
  }
}
