/**
 * The team handlers of server/src/routes/v1/teams.ts: creating a team, join requests
 * and their decision or cancellation, leaving and removal, leadership transfer, the
 * unassigned-student list and staff assignment. Each handler checks its guards in the
 * source's order, then issues its statements; a handler that fails changes nothing.
 */
module Teams {
  import opened Wrappers
  import opened Schema
  import opened HttpErrors
  import opened Store
  import opened Helpers
  import Statements
  import Queries
  import Auth
  import ErrorMapper

  /** The row every membership insert writes: active, joined now. */
  function Joined(teamId: Id, classId: Id, studentId: Id, now: Time): Member
  {
    Member(teamId, classId, studentId, true, now, None, None)
  }

  /** A new team: recruiting and unlocked. */
  function NewTeam(classId: Id, name: string, description: Option<string>, leaderId: Id): Team
  {
    Team(classId, name, description, leaderId, Recruiting, false, None, None)
  }

  predicate IsStudent(user: Option<Actor>)
  {
    user.Some? && user.value.role == Auth.Student
  }

  /** The class exists, is live and is not archived. */
  predicate ClassWritable(classes: seq<Class>, classId: Id)
  {
    GetClass(classes, classId).Ok? && classes[classId - 1].status != Archived
  }

  /* ---------- the writes the handlers share ---------- */

  /** INSERT INTO teams for a writable class: the new row takes the next id. */
  method AddTeam(db: Db, t: Team) returns (tid: Id)
    requires db.Valid() && ClassWritable(db.classes, t.classId)
    modifies db`teams
    ensures db.Valid()
    ensures tid == |old(db.teams)| + 1 && db.teams == old(db.teams) + [t]
  {
    var teams := Statements.InsertTeam(db.classes, db.flags, db.teams, t);
    Statements.AppendTeamKeepsConsistency(db.teams, t, db.members, db.joinRequests);
    tid := |db.teams| + 1;
    db.teams := teams.value;
  }

  /**
   * INSERT INTO team_members for a student with no active team in the class of an
   * unlocked team of a writable class: no guard aborts, and the row becomes the
   * student's active membership in the class.
   */
  method AdmitMember(db: Db, teamId: Id, studentId: Id, now: Time)
    requires db.Valid() && GetTeam(db.teams, teamId).Ok?
    requires ClassWritable(db.classes, db.teams[teamId - 1].classId) && AssertNotLocked(db.teams[teamId - 1]).Ok?
    requires Statements.ActiveTeamOf(db.members, db.teams[teamId - 1].classId, studentId).None?
    modifies db`members
    ensures db.Valid()
    ensures db.members == old(db.members) + [Joined(teamId, db.teams[teamId - 1].classId, studentId, now)]
    ensures Statements.ActiveTeamOf(db.members, db.teams[teamId - 1].classId, studentId) == Some(teamId)
  {
    var m := Joined(teamId, db.teams[teamId - 1].classId, studentId, now);
    Statements.InsertAfterNoActiveTeamKeepsUnique(db.teams, db.members, m);
    Statements.ActiveTeamAfterInsert(db.members, m);
    var members := Statements.InsertMember(db.classes, db.teams, db.flags, db.members, m);
    db.members := members.value;
  }

  /**
   * UPDATE team_join_requests taking a pending request out of pending: only the two
   * write guards can abort it, the locked one first.
   */
  method CloseRequest(db: Db, requestId: Id, q: JoinRequest) returns (r: Result<(), string>)
    requires db.Valid() && Has(db.joinRequests, requestId) && !PendingRequest(q)
    requires q.teamId == db.joinRequests[requestId - 1].teamId && q.classId == db.joinRequests[requestId - 1].classId
    modifies db`joinRequests
    ensures db.Valid()
    ensures r.Err? <==> ArchivedBlocks(db.classes, db.flags, q.classId) || LockedBlocks(db.teams, db.flags, q.teamId)
    ensures r.Err? ==> db.joinRequests == old(db.joinRequests)
                       && r.error == (if LockedBlocks(db.teams, db.flags, q.teamId) then ErrorMapper.TEAM_LOCKED
                                      else ErrorMapper.CLASS_ARCHIVED_READONLY)
    ensures r.Ok? ==> db.joinRequests == old(db.joinRequests)[requestId - 1 := q]
  {
    Statements.LeavingPendingKeepsUnique(db.joinRequests, requestId, q);
    var rs := Statements.UpdateRequest(db.classes, db.teams, db.flags, db.joinRequests, requestId, q);
    if rs.Err? {
      return Err(rs.error);
    }
    assert forall i :: 0 <= i < |rs.value| ==> rs.value[i].teamId == db.joinRequests[i].teamId
                                               && rs.value[i].classId == db.joinRequests[i].classId;
    db.joinRequests := rs.value;
    r := Ok(());
  }

  /* ---------- POST /classes/:classId/teams ---------- */

  /**
   * The checks of the team-creation handler, in its order: a student who may read the
   * class, the class live and writable, and no active team of theirs in it.
   */
  function CreateCheck(classes: seq<Class>, ts: seq<ClassTeacher>, es: seq<Enrollment>, ms: seq<Member>,
                       user: Option<Actor>, classId: Id): (r: Result<(), HttpError>)
    ensures user.None? ==> r == Err(Unauthorized("Login required"))
    ensures user.Some? && user.value.role != Auth.Student ==> r == Err(Forbidden("Student required"))
    ensures r.Ok? <==>
      (IsStudent(user)
       && AssertClassReadable(ts, es, user, classId).Ok?
       && ClassWritable(classes, classId)
       && Statements.ActiveTeamOf(ms, classId, user.value.id).None?)
    ensures r.Ok? ==> IsStudentInClass(es, classId, user.value.id)
    ensures (IsStudent(user) && AssertClassReadable(ts, es, user, classId).Ok? && ClassWritable(classes, classId)
             && r.Err?) ==> r == Err(BadRequest("Already in a team"))
  {
    var me :- RequireUser(user);
    if me.role != Auth.Student then Err(Forbidden("Student required"))
    else
      var _ :- AssertClassReadable(ts, es, user, classId);
      var cls :- GetClass(classes, classId);
      var _ :- AssertClassWritable(cls);
      if Statements.ActiveTeamOf(ms, classId, me.id).Some? then Err(BadRequest("Already in a team"))
      else Ok(())
  }

  const CREATE_ACTION := "team.create"

  /**
   * A student with no active team in a writable class they belong to founds a team: it
   * is appended as their team with them as leader, and their membership of it becomes
   * their one active membership in the class.
   */
  method CreateTeam(db: Db, ctx: Ctx, classId: Id, name: string, description: Option<string>)
    returns (r: Result<Id, HttpError>)
    requires db.Valid()
    modifies db`teams, db`members, db.journal`audit
    ensures db.Valid()
    ensures r.Ok? <==> old(CreateCheck(db.classes, db.classTeachers, db.enrollments, db.members, ctx.user, classId)).Ok?
    ensures r.Err? ==> r.error == old(CreateCheck(db.classes, db.classTeachers, db.enrollments, db.members, ctx.user, classId)).error
    ensures r.Err? ==> db.teams == old(db.teams) && db.members == old(db.members) && db.journal.audit == old(db.journal.audit)
    ensures r.Ok? ==>
      var me := ctx.user.value;
      var t := NewTeam(classId, name, description, me.id);
      r.value == |old(db.teams)| + 1
      && db.teams == old(db.teams) + [t]
      && db.members == old(db.members) + [Joined(r.value, classId, me.id, ctx.now)]
      && Statements.ActiveTeamOf(db.members, classId, me.id) == Some(r.value)
      && db.journal.audit == old(db.journal.audit) + [AuditRow(ctx, me, CREATE_ACTION, TEAMS_TABLE, IdText(r.value), None,
                                               Some(TeamSnap(r.value, t)), Some(classId), Some(r.value), None)]
  {
    var _ :- CreateCheck(db.classes, db.classTeachers, db.enrollments, db.members, ctx.user, classId);
    var t := NewTeam(classId, name, description, ctx.user.value.id);
    var tid := FoundTeam(db, t, ctx.now);
    db.journal.WriteAudit(ctx, CREATE_ACTION, TEAMS_TABLE, IdText(tid), None, Some(TeamSnap(tid, t)), Some(classId), Some(tid), None);
    r := Ok(tid);
  }

  /* ---------- GET /classes/:classId/teams and GET /teams/:teamId ---------- */

  /** The ids of a team's active members, in membership row order. */
  function ActiveMemberIds(ms: seq<Member>, teamId: Id): (ids: seq<Id>)
    ensures forall s :: s in ids <==> IsTeamMember(ms, teamId, s)
  {
    if ms == [] then []
    else
      var prev := ActiveMemberIds(ms[..|ms| - 1], teamId);
      var last := ms[|ms| - 1];
      assert forall i :: 0 <= i < |ms| - 1 ==> ms[i] == ms[..|ms| - 1][i];
      if ActiveMember(last) && last.teamId == teamId then prev + [last.studentId] else prev
  }

  /** One entry of the team listing: the row, its active members and their number. */
  datatype TeamView = TeamView(id: Id, team: Team, members: seq<Id>, memberCount: nat)

  function ViewOf(teams: seq<Team>, ms: seq<Member>, id: Id): TeamView
    requires Has(teams, id)
  {
    var members := ActiveMemberIds(ms, id);
    TeamView(id, teams[id - 1], members, |members|)
  }

  /**
   * The team listing of a class: readers of the class see every live team of the class,
   * by ascending id, each with exactly its active members.
   */
  function ListTeams(teams: seq<Team>, ts: seq<ClassTeacher>, es: seq<Enrollment>, ms: seq<Member>,
                     user: Option<Actor>, classId: Id): (r: Result<seq<TeamView>, HttpError>)
    ensures r.Ok? <==> AssertClassReadable(ts, es, user, classId).Ok?
    ensures r.Err? ==> r == Err(AssertClassReadable(ts, es, user, classId).error)
    ensures r.Ok? ==> forall k :: 0 <= k < |r.value| ==>
      var v := r.value[k];
      Has(teams, v.id) && teams[v.id - 1].classId == classId && teams[v.id - 1].deletedAt.None?
      && v.team == teams[v.id - 1] && v.memberCount == |v.members|
      && (forall s :: s in v.members <==> IsTeamMember(ms, v.id, s))
    ensures r.Ok? ==> forall id :: Has(teams, id) && teams[id - 1].classId == classId && teams[id - 1].deletedAt.None? ==>
      exists k :: 0 <= k < |r.value| && r.value[k].id == id
    ensures r.Ok? ==> forall i, j :: 0 <= i < j < |r.value| ==> r.value[i].id < r.value[j].id
  {
    var _ :- AssertClassReadable(ts, es, user, classId);
    var ids := Queries.Select(teams, (t: Team) => t.classId == classId && t.deletedAt.None?);
    var views := seq(|ids|, k requires 0 <= k < |ids| => ViewOf(teams, ms, ids[k]));
    assert forall id :: id in ids ==> views[IndexIn(ids, id)].id == id;
    Ok(views)
  }

  function IndexIn(ids: seq<Id>, id: Id): (k: nat)
    requires id in ids
    ensures k < |ids| && ids[k] == id
  {
    if ids[0] == id then 0 else 1 + IndexIn(ids[1..], id)
  }

  /** A single team: students outside it see no members; everyone else sees the active ones. */
  datatype TeamDetail = TeamDetail(team: Team, members: seq<Id>)

  function GetTeamDetail(teams: seq<Team>, ts: seq<ClassTeacher>, es: seq<Enrollment>, ms: seq<Member>,
                         user: Option<Actor>, teamId: Id): (r: Result<TeamDetail, HttpError>)
    ensures r.Ok? <==> AssertTeamReadable(teams, ts, es, user, teamId).Ok?
    ensures r.Ok? ==> r.value.team == teams[teamId - 1]
    ensures r.Ok? && user.value.role == Auth.Student && !IsTeamMember(ms, teamId, user.value.id) ==> r.value.members == []
    ensures r.Ok? && (user.value.role != Auth.Student || IsTeamMember(ms, teamId, user.value.id)) ==>
      forall s :: s in r.value.members <==> IsTeamMember(ms, teamId, s)
  {
    var team :- AssertTeamReadable(teams, ts, es, user, teamId);
    var me := user.value;
    var canSeeMembers := me.role != Auth.Student || IsTeamMember(ms, teamId, me.id);
    Ok(TeamDetail(team, if canSeeMembers then ActiveMemberIds(ms, teamId) else []))
  }

  /* ---------- POST /teams/:teamId/join-requests ---------- */

  const JOIN_REQUEST_COLUMNS := "team_join_requests.team_id, team_join_requests.student_id"

  /**
   * The checks of the join-request handler, in its order: a student, a live team, a
   * readable and writable class, an unlocked team, enrolment, no active team. Returns
   * the team.
   */
  function JoinCheck(classes: seq<Class>, teams: seq<Team>, ts: seq<ClassTeacher>, es: seq<Enrollment>,
                     ms: seq<Member>, user: Option<Actor>, teamId: Id): (r: Result<Team, HttpError>)
    ensures user.None? ==> r == Err(Unauthorized("Login required"))
    ensures user.Some? && user.value.role != Auth.Student ==> r == Err(Forbidden("Student required"))
    ensures r.Ok? <==>
      (IsStudent(user)
       && GetTeam(teams, teamId).Ok?
       && AssertClassReadable(ts, es, user, teams[teamId - 1].classId).Ok?
       && ClassWritable(classes, teams[teamId - 1].classId)
       && AssertNotLocked(teams[teamId - 1]).Ok?
       && Statements.ActiveTeamOf(ms, teams[teamId - 1].classId, user.value.id).None?)
    ensures r.Ok? ==> r.value == teams[teamId - 1] && IsStudentInClass(es, r.value.classId, user.value.id)
    ensures (IsStudent(user) && GetTeam(teams, teamId).Ok?
             && AssertClassReadable(ts, es, user, teams[teamId - 1].classId).Ok?
             && ClassWritable(classes, teams[teamId - 1].classId) && AssertNotLocked(teams[teamId - 1]).Ok?
             && r.Err?) ==> r == Err(BadRequest("Already in a team"))
  {
    var me :- RequireUser(user);
    if me.role != Auth.Student then Err(Forbidden("Student required"))
    else
      var team :- GetTeam(teams, teamId);
      var _ :- AssertClassReadable(ts, es, user, team.classId);
      var cls :- GetClass(classes, team.classId);
      var _ :- AssertClassWritable(cls);
      var _ :- AssertNotLocked(team);
      if !IsStudentInClass(es, team.classId, me.id) then Err(Forbidden("Not enrolled"))
      else if Statements.ActiveTeamOf(ms, team.classId, me.id).Some? then Err(BadRequest("Already in a team"))
      else Ok(team)
  }

  function PendingRow(teamId: Id, classId: Id, studentId: Id): JoinRequest
  {
    JoinRequest(teamId, classId, studentId, Pending, None, None, None, None)
  }

  /**
   * INSERT INTO team_join_requests for an unlocked team of a writable class: only the
   * one-pending index can refuse it, and then nothing changes.
   */
  method AddRequest(db: Db, q: JoinRequest) returns (r: Result<Id, string>)
    requires db.Valid() && GetTeam(db.teams, q.teamId).Ok? && q.classId == db.teams[q.teamId - 1].classId
    requires ClassWritable(db.classes, q.classId) && AssertNotLocked(db.teams[q.teamId - 1]).Ok?
    modifies db`joinRequests
    ensures db.Valid()
    ensures r.Ok? <==> RequestsUnique(old(db.joinRequests) + [q])
    ensures r.Err? ==> r.error == UniqueFailed(JOIN_REQUEST_COLUMNS) && db.joinRequests == old(db.joinRequests)
    ensures r.Ok? ==> r.value == |old(db.joinRequests)| + 1 && db.joinRequests == old(db.joinRequests) + [q]
  {
    NotLockedPassesGuard(db.teams, db.flags, q.teamId);
    var rs := Statements.InsertRequest(db.classes, db.teams, db.flags, db.joinRequests, q);
    if rs.Err? {
      return Err(rs.error);
    }
    Statements.InsertRequestKeepsConsistency(db.classes, db.teams, db.flags, db.joinRequests, q);
    r := Ok(|db.joinRequests| + 1);
    db.joinRequests := rs.value;
  }

  const REQUEST_ACTION := "team.join_request.create"

  /** The notice the team's leader receives about a new request. */
  function RequestNotice(leaderId: Id, username: string, teamName: string, teamId: Id): Notification
  {
    NotificationRow(leaderId, "team", Some("Team Join Request"),
                    Some("Student " + username + " requested to join your team " + teamName), RefPayload(teamId))
  }

  /**
   * An enrolled student without a team asks to join an unlocked team of a writable class:
   * one pending request is appended and the leader is notified. A second pending request
   * for the same team is stopped by the one-pending index and answered as a server error.
   */
  method RequestToJoin(db: Db, ctx: Ctx, teamId: Id) returns (r: Result<Id, HttpError>)
    requires db.Valid()
    modifies db`joinRequests, db.journal
    ensures db.Valid()
    ensures old(JoinCheck(db.classes, db.teams, db.classTeachers, db.enrollments, db.members, ctx.user, teamId)).Err? ==>
      r.Err? && r.error == old(JoinCheck(db.classes, db.teams, db.classTeachers, db.enrollments, db.members, ctx.user, teamId)).error
    ensures r.Err? ==> db.joinRequests == old(db.joinRequests) && db.journal.audit == old(db.journal.audit)
                       && db.journal.notifications == old(db.journal.notifications)
    ensures old(JoinCheck(db.classes, db.teams, db.classTeachers, db.enrollments, db.members, ctx.user, teamId)).Ok? ==>
      var q := PendingRow(teamId, db.teams[teamId - 1].classId, ctx.user.value.id);
      if RequestsUnique(old(db.joinRequests) + [q]) then r.Ok?
      else r == Err(DbError(UniqueFailed(JOIN_REQUEST_COLUMNS)))
    ensures r.Ok? ==>
      var me := ctx.user.value;
      var team := db.teams[teamId - 1];
      r.value == |old(db.joinRequests)| + 1
      && db.joinRequests == old(db.joinRequests) + [PendingRow(teamId, team.classId, me.id)]
      && db.journal.audit == old(db.journal.audit) + [AuditRow(ctx, me, REQUEST_ACTION, REQUESTS_TABLE, IdText(r.value),
                                               None, None, Some(team.classId), Some(teamId), None)]
      && db.journal.notifications == old(db.journal.notifications) + [RequestNotice(team.leaderId, me.username, team.name, teamId)]
  {
    var team :- JoinCheck(db.classes, db.teams, db.classTeachers, db.enrollments, db.members, ctx.user, teamId);
    var me := ctx.user.value;
    var added := AddRequest(db, PendingRow(teamId, team.classId, me.id));
    if added.Err? {
      return Err(DbError(added.error));
    }
    var rid := added.value;
    db.journal.WriteAudit(ctx, REQUEST_ACTION, REQUESTS_TABLE, IdText(rid), None, None, Some(team.classId), Some(teamId), None);
    var notice := RequestNotice(team.leaderId, me.username, team.name, teamId);
    db.journal.Notify(notice.userId, notice.kind, notice.title, notice.message, notice.payload);
    r := Ok(rid);
  }

  /* ---------- GET /teams/:teamId/join-requests ---------- */

  /**
   * A team's live join requests, newest first; a student other than the leader is
   * refused. The team is looked up before the login check.
   */
  function ListJoinRequests(teams: seq<Team>, ts: seq<ClassTeacher>, es: seq<Enrollment>, rs: seq<JoinRequest>,
                            user: Option<Actor>, teamId: Id): (r: Result<seq<Id>, HttpError>)
    ensures GetTeam(teams, teamId).Err? ==> r == Err(NotFound("Team not found"))
    ensures r.Ok? <==> AssertTeamReadable(teams, ts, es, user, teamId).Ok?
                       && (user.value.role == Auth.Student ==> user.value.id == teams[teamId - 1].leaderId)
    ensures r.Ok? ==> forall id :: id in r.value <==> Has(rs, id) && rs[id - 1].teamId == teamId && rs[id - 1].deletedAt.None?
    ensures r.Ok? ==> Queries.Decreasing(r.value)
  {
    var team :- GetTeam(teams, teamId);
    var me :- RequireUser(user);
    var _ :- AssertClassReadable(ts, es, user, team.classId);
    if me.role == Auth.Student && me.id != team.leaderId then Err(Forbidden("Leader required"))
    else Ok(Queries.SelectNewestFirst(rs, (q: JoinRequest) => q.teamId == teamId && q.deletedAt.None?))
  }

  /* ---------- PATCH /teams/:teamId/join-requests/:requestId ---------- */

  datatype Decision = Approve | Reject

  function DecisionStatus(d: Decision): JoinStatus
  {
    if d == Approve then Approved else Rejected
  }

  function DecisionName(d: Decision): string
  {
    if d == Approve then "approved" else "rejected"
  }

  /** The live request with that id on that team. */
  predicate RequestOfTeam(rs: seq<JoinRequest>, requestId: Id, teamId: Id)
  {
    Has(rs, requestId) && rs[requestId - 1].teamId == teamId && rs[requestId - 1].deletedAt.None?
  }

  /**
   * The checks of the decision handler, in its order: the caller leads the team, the
   * class is writable, the team is unlocked, the request is a live request of the team
   * and still pending, and an approved student has no active team in the class.
   */
  function DecideCheck(classes: seq<Class>, teams: seq<Team>, ts: seq<ClassTeacher>, es: seq<Enrollment>,
                       ms: seq<Member>, rs: seq<JoinRequest>, user: Option<Actor>, teamId: Id, requestId: Id,
                       d: Decision): (r: Result<Team, HttpError>)
    ensures user.None? ==> r == Err(Unauthorized("Login required"))
    ensures r.Ok? <==>
      (AssertTeamLeader(teams, ts, es, user, teamId).Ok?
       && ClassWritable(classes, teams[teamId - 1].classId)
       && AssertNotLocked(teams[teamId - 1]).Ok?
       && RequestOfTeam(rs, requestId, teamId)
       && rs[requestId - 1].status == Pending
       && (d == Approve ==> Statements.ActiveTeamOf(ms, teams[teamId - 1].classId, rs[requestId - 1].studentId).None?))
    ensures r.Ok? ==> r.value == teams[teamId - 1]
    ensures (AssertTeamLeader(teams, ts, es, user, teamId).Ok?
             && ClassWritable(classes, teams[teamId - 1].classId) && AssertNotLocked(teams[teamId - 1]).Ok?
             && !RequestOfTeam(rs, requestId, teamId)) ==> r == Err(NotFound("Join request not found"))
  {
    var team :- AssertTeamLeader(teams, ts, es, user, teamId);
    var cls :- GetClass(classes, team.classId);
    var _ :- AssertClassWritable(cls);
    var _ :- AssertNotLocked(team);
    if !RequestOfTeam(rs, requestId, teamId) then Err(NotFound("Join request not found"))
    else
      var jr := rs[requestId - 1];
      if jr.status != Pending then Err(BadRequest("Request is not pending"))
      else if d == Approve && Statements.ActiveTeamOf(ms, team.classId, jr.studentId).Some? then
        Err(BadRequest("Student already in a team"))
      else Ok(team)
  }

  /** The decided request row: the decision, the leader as reviewer, the time and the reason. */
  function Decided(jr: JoinRequest, d: Decision, reviewerId: Id, now: Time, reason: Option<string>): JoinRequest
  {
    jr.(status := DecisionStatus(d), reviewerId := Some(reviewerId), reviewedAt := Some(now), reason := reason)
  }

  /**
   * The decision's two writes on a request that passed the checks: the membership on
   * approval, then the request update; neither guard aborts.
   */
  method ApplyDecision(db: Db, teamId: Id, requestId: Id, d: Decision, reason: Option<string>, now: Time)
    requires db.Valid() && GetTeam(db.teams, teamId).Ok?
    requires ClassWritable(db.classes, db.teams[teamId - 1].classId) && AssertNotLocked(db.teams[teamId - 1]).Ok?
    requires RequestOfTeam(db.joinRequests, requestId, teamId) && db.joinRequests[requestId - 1].status == Pending
    requires d == Approve ==>
      Statements.ActiveTeamOf(db.members, db.teams[teamId - 1].classId, db.joinRequests[requestId - 1].studentId).None?
    modifies db`members, db`joinRequests
    ensures db.Valid()
    ensures
      var team := db.teams[teamId - 1];
      var jr := old(db.joinRequests)[requestId - 1];
      db.joinRequests == old(db.joinRequests)[requestId - 1 := Decided(jr, d, team.leaderId, now, reason)]
      && db.members == (if d == Approve then old(db.members) + [Joined(teamId, team.classId, jr.studentId, now)]
                        else old(db.members))
      && (d == Approve ==> Statements.ActiveTeamOf(db.members, team.classId, jr.studentId) == Some(teamId))
  {
    var team := db.teams[teamId - 1];
    var jr := db.joinRequests[requestId - 1];
    var q := Decided(jr, d, team.leaderId, now, reason);
    assert q.teamId == teamId && q.classId == team.classId;
    NotLockedPassesGuard(db.teams, db.flags, teamId);
    assert !ArchivedBlocks(db.classes, db.flags, q.classId);
    if d == Approve {
      AdmitMember(db, teamId, jr.studentId, now);
    }
    var closed := CloseRequest(db, requestId, q);
    assert closed.Ok?;
  }

  /**
   * The leader of an unlocked team in a writable class decides a pending request: on
   * approval the student, who must have no active team, becomes an active member; the
   * request takes the decision, the leader as reviewer and the time.
   */
  method DecideJoinRequest(db: Db, ctx: Ctx, teamId: Id, requestId: Id, d: Decision, reason: Option<string>)
    returns (r: Result<(), HttpError>)
    requires db.Valid()
    modifies db`members, db`joinRequests, db.journal
    ensures db.Valid()
    ensures r.Ok? <==> old(DecideCheck(db.classes, db.teams, db.classTeachers, db.enrollments, db.members, db.joinRequests,
                                     ctx.user, teamId, requestId, d)).Ok?
    ensures r.Err? ==> r.error == old(DecideCheck(db.classes, db.teams, db.classTeachers, db.enrollments, db.members, db.joinRequests,
                                     ctx.user, teamId, requestId, d)).error
    ensures r.Err? ==> db.members == old(db.members) && db.joinRequests == old(db.joinRequests)
                       && db.journal.audit == old(db.journal.audit) && db.journal.notifications == old(db.journal.notifications)
    ensures r.Ok? ==>
      var team := db.teams[teamId - 1];
      var jr := old(db.joinRequests)[requestId - 1];
      db.joinRequests == old(db.joinRequests)[requestId - 1 := Decided(jr, d, team.leaderId, ctx.now, reason)]
      && db.members == (if d == Approve then old(db.members) + [Joined(teamId, team.classId, jr.studentId, ctx.now)]
                        else old(db.members))
      && (d == Approve ==> Statements.ActiveTeamOf(db.members, team.classId, jr.studentId) == Some(teamId))
      && db.journal.audit == old(db.journal.audit) + [AuditRow(ctx, ctx.user.value, REVIEW_ACTION, REQUESTS_TABLE,
                                               IdText(requestId), None, None, Some(team.classId), Some(teamId), None)]
      && db.journal.notifications == old(db.journal.notifications) + [DecisionNotice(jr.studentId, team.name, teamId, d)]
  {
    var team :- DecideCheck(db.classes, db.teams, db.classTeachers, db.enrollments, db.members, db.joinRequests,
                            ctx.user, teamId, requestId, d);
    var jr := db.joinRequests[requestId - 1];
    ApplyDecision(db, teamId, requestId, d, reason, ctx.now);
    db.journal.WriteAudit(ctx, REVIEW_ACTION, REQUESTS_TABLE, IdText(requestId), None, None,
                  Some(team.classId), Some(teamId), None);
    var notice := DecisionNotice(jr.studentId, team.name, teamId, d);
    db.journal.Notify(notice.userId, notice.kind, notice.title, notice.message, notice.payload);
    r := Ok(());
  }

  const REVIEW_ACTION := "team.join_request.review"
  const REQUESTS_TABLE := "team_join_requests"

  /** The notice the requester receives about the decision. */
  function DecisionNotice(studentId: Id, teamName: string, teamId: Id, d: Decision): Notification
  {
    NotificationRow(studentId, "team", Some("Join Request Update"),
                    Some("Your request to join team " + teamName + " was " + DecisionName(d)), RefPayload(teamId))
  }

  /* ---------- DELETE /teams/:teamId/join-requests/:requestId ---------- */

  /**
   * The checks of the cancel handler, in its order: a student, a live request of the
   * team, their own, still pending, then a live team in a writable class. The team's
   * lock is not among them. Returns the team.
   */
  function CancelCheck(classes: seq<Class>, teams: seq<Team>, rs: seq<JoinRequest>, user: Option<Actor>,
                       teamId: Id, requestId: Id): (r: Result<Team, HttpError>)
    ensures user.None? ==> r == Err(Unauthorized("Login required"))
    ensures user.Some? && user.value.role != Auth.Student ==> r == Err(Forbidden("Student required"))
    ensures r.Ok? <==>
      (IsStudent(user)
       && RequestOfTeam(rs, requestId, teamId)
       && rs[requestId - 1].studentId == user.value.id
       && rs[requestId - 1].status == Pending
       && GetTeam(teams, teamId).Ok?
       && ClassWritable(classes, teams[teamId - 1].classId))
    ensures r.Ok? ==> r.value == teams[teamId - 1]
    ensures (IsStudent(user) && RequestOfTeam(rs, requestId, teamId) && rs[requestId - 1].studentId != user.value.id)
            ==> r == Err(Forbidden("Not your request"))
  {
    var me :- RequireUser(user);
    if me.role != Auth.Student then Err(Forbidden("Student required"))
    else if !RequestOfTeam(rs, requestId, teamId) then Err(NotFound("Join request not found"))
    else
      var jr := rs[requestId - 1];
      if jr.studentId != me.id then Err(Forbidden("Not your request"))
      else if jr.status != Pending then Err(BadRequest("Request is not pending"))
      else
        var team :- GetTeam(teams, teamId);
        var cls :- GetClass(classes, team.classId);
        var _ :- AssertClassWritable(cls);
        Ok(team)
  }

  const CANCEL_ACTION := "team.join_request.cancel"

  /**
   * The requesting student withdraws a pending request. The handler does not look at
   * the team's lock, but the locked-team write guard does: on a locked team the update
   * aborts with TEAM_LOCKED, which the client sees as 403 with that code as message.
   */
  method CancelJoinRequest(db: Db, ctx: Ctx, teamId: Id, requestId: Id) returns (r: Result<(), HttpError>)
    requires db.Valid()
    modifies db`joinRequests, db.journal`audit
    ensures db.Valid()
    ensures old(CancelCheck(db.classes, db.teams, db.joinRequests, ctx.user, teamId, requestId)).Err? ==>
      r.Err? && r.error == old(CancelCheck(db.classes, db.teams, db.joinRequests, ctx.user, teamId, requestId)).error
    ensures r.Err? ==> db.joinRequests == old(db.joinRequests) && db.journal.audit == old(db.journal.audit)
    ensures old(CancelCheck(db.classes, db.teams, db.joinRequests, ctx.user, teamId, requestId)).Ok? ==>
      if LockedBlocks(db.teams, db.flags, teamId) then r == Err(Forbidden(ErrorMapper.TEAM_LOCKED)) else r.Ok?
    ensures r.Ok? ==>
      db.joinRequests == old(db.joinRequests)[requestId - 1 := old(db.joinRequests)[requestId - 1].(status := Cancelled)]
      && db.journal.audit == old(db.journal.audit) + [AuditRow(ctx, ctx.user.value, CANCEL_ACTION, REQUESTS_TABLE, IdText(requestId),
                                               None, None, Some(db.teams[teamId - 1].classId), Some(teamId), None)]
  {
    var team :- CancelCheck(db.classes, db.teams, db.joinRequests, ctx.user, teamId, requestId);
    var closed := CloseRequest(db, requestId, db.joinRequests[requestId - 1].(status := Cancelled));
    if closed.Err? {
      assert closed.error == ErrorMapper.TEAM_LOCKED;
      LockedAbortIsForbidden();
      return Err(DbError(ErrorMapper.TEAM_LOCKED));
    }
    db.journal.WriteAudit(ctx, CANCEL_ACTION, REQUESTS_TABLE, IdText(requestId), None, None, Some(team.classId), Some(teamId), None);
    r := Ok(());
  }

  /* ---------- POST /teams/:teamId/leave and DELETE /teams/:teamId/members/:userId ---------- */

  /** The memberships after the deactivating UPDATE: only the student's active rows in the team change. */
  predicate DeactivatedIn(before: seq<Member>, after: seq<Member>, teamId: Id, studentId: Id, now: Time)
  {
    |after| == |before|
    && forall i :: 0 <= i < |before| ==>
      after[i] == (if Statements.MatchesLeave(before[i], teamId, studentId)
                   then before[i].(isActive := false, leftAt := Some(now)) else before[i])
  }

  /** After the deactivating UPDATE the student is no longer an active member of the team. */
  lemma DeactivatedIsNotMember(before: seq<Member>, after: seq<Member>, teamId: Id, studentId: Id, now: Time)
    requires DeactivatedIn(before, after, teamId, studentId, now)
    ensures !IsTeamMember(after, teamId, studentId)
  {
    forall i | 0 <= i < |after| && ActiveMember(after[i]) && after[i].teamId == teamId
      ensures after[i].studentId != studentId
    {
      assert after[i] == before[i];
    }
  }

  /** Every other active membership, in this team or any other, survives the deactivation. */
  lemma DeactivationKeepsOthers(before: seq<Member>, after: seq<Member>, teamId: Id, studentId: Id, now: Time, t: Id, s: Id)
    requires DeactivatedIn(before, after, teamId, studentId, now)
    requires t != teamId || s != studentId
    ensures IsTeamMember(after, t, s) <==> IsTeamMember(before, t, s)
  {
    if IsTeamMember(before, t, s) {
      var i :| 0 <= i < |before| && ActiveMember(before[i]) && before[i].teamId == t && before[i].studentId == s;
      assert after[i] == before[i];
    }
    if IsTeamMember(after, t, s) {
      var i :| 0 <= i < |after| && ActiveMember(after[i]) && after[i].teamId == t && after[i].studentId == s;
      assert after[i] == before[i];
    }
  }

  /**
   * UPDATE team_members deactivating one student's rows in an unlocked team of a
   * writable class: no guard aborts, and the student is no longer a member.
   */
  method Deactivate(db: Db, teamId: Id, studentId: Id, now: Time)
    requires db.Valid() && GetTeam(db.teams, teamId).Ok?
    requires ClassWritable(db.classes, db.teams[teamId - 1].classId) && AssertNotLocked(db.teams[teamId - 1]).Ok?
    modifies db`members
    ensures db.Valid()
    ensures DeactivatedIn(old(db.members), db.members, teamId, studentId, now)
    ensures !IsTeamMember(db.members, teamId, studentId)
  {
    var team := db.teams[teamId - 1];
    var ms := Statements.DeactivateMembers(db.classes, db.teams, db.flags, db.members, teamId, studentId, now);
    assert forall i :: 0 <= i < |db.members| && Statements.MatchesLeave(db.members[i], teamId, studentId) ==>
      db.members[i].classId == team.classId;
    Statements.DeactivateKeepsInvariants(db.teams, db.members, ms.value);
    DeactivatedIsNotMember(db.members, ms.value, teamId, studentId, now);
    db.members := ms.value;
  }

  /**
   * The checks of the leave handler, in its order: a student, a live team, a readable
   * and writable class, an unlocked team, and the student is not its leader.
   */
  function LeaveCheck(classes: seq<Class>, teams: seq<Team>, ts: seq<ClassTeacher>, es: seq<Enrollment>,
                      user: Option<Actor>, teamId: Id): (r: Result<Team, HttpError>)
    ensures user.None? ==> r == Err(Unauthorized("Login required"))
    ensures user.Some? && user.value.role != Auth.Student ==> r == Err(Forbidden("Student required"))
    ensures r.Ok? <==>
      (IsStudent(user)
       && GetTeam(teams, teamId).Ok?
       && AssertClassReadable(ts, es, user, teams[teamId - 1].classId).Ok?
       && ClassWritable(classes, teams[teamId - 1].classId)
       && AssertNotLocked(teams[teamId - 1]).Ok?
       && user.value.id != teams[teamId - 1].leaderId)
    ensures r.Ok? ==> r.value == teams[teamId - 1]
    ensures (IsStudent(user) && GetTeam(teams, teamId).Ok? && AssertClassReadable(ts, es, user, teams[teamId - 1].classId).Ok?
             && ClassWritable(classes, teams[teamId - 1].classId) && AssertNotLocked(teams[teamId - 1]).Ok?
             && r.Err?) ==> r == Err(BadRequest("Leader cannot leave; transfer leadership first"))
  {
    var me :- RequireUser(user);
    if me.role != Auth.Student then Err(Forbidden("Student required"))
    else
      var team :- GetTeam(teams, teamId);
      var _ :- AssertClassReadable(ts, es, user, team.classId);
      var cls :- GetClass(classes, team.classId);
      var _ :- AssertClassWritable(cls);
      var _ :- AssertNotLocked(team);
      if me.id == team.leaderId then Err(BadRequest("Leader cannot leave; transfer leadership first"))
      else Ok(team)
  }

  const LEAVE_ACTION := "team.member.leave"
  const REMOVE_ACTION := "team.member.remove"
  const MEMBERS_TABLE := "team_members"

  /** The audit target of a membership change: `${teamId}:${userId}`. */
  function MemberTarget(teamId: Id, userId: Id): string
  {
    IdText(teamId) + ":" + IdText(userId)
  }

  /** A student who is not the leader leaves an unlocked team: their active membership ends now. */
  method LeaveTeam(db: Db, ctx: Ctx, teamId: Id) returns (r: Result<(), HttpError>)
    requires db.Valid()
    modifies db`members, db.journal`audit
    ensures db.Valid()
    ensures r.Ok? <==> old(LeaveCheck(db.classes, db.teams, db.classTeachers, db.enrollments, ctx.user, teamId)).Ok?
    ensures r.Err? ==> r.error == old(LeaveCheck(db.classes, db.teams, db.classTeachers, db.enrollments, ctx.user, teamId)).error
    ensures r.Err? ==> db.members == old(db.members) && db.journal.audit == old(db.journal.audit)
    ensures r.Ok? ==>
      var me := ctx.user.value;
      DeactivatedIn(old(db.members), db.members, teamId, me.id, ctx.now)
      && !IsTeamMember(db.members, teamId, me.id)
      && db.journal.audit == old(db.journal.audit) + [AuditRow(ctx, me, LEAVE_ACTION, MEMBERS_TABLE, MemberTarget(teamId, me.id), None, None,
                                               Some(db.teams[teamId - 1].classId), Some(teamId), None)]
  {
    var team :- LeaveCheck(db.classes, db.teams, db.classTeachers, db.enrollments, ctx.user, teamId);
    var me := ctx.user.value;
    Deactivate(db, teamId, me.id, ctx.now);
    db.journal.WriteAudit(ctx, LEAVE_ACTION, MEMBERS_TABLE, MemberTarget(teamId, me.id), None, None, Some(team.classId), Some(teamId), None);
    r := Ok(());
  }

  /**
   * The leader's checks common to removal and transfer, in their order: the caller leads
   * the team, the class is writable and the team is unlocked.
   */
  function LeaderCheck(classes: seq<Class>, teams: seq<Team>, ts: seq<ClassTeacher>, es: seq<Enrollment>,
                       user: Option<Actor>, teamId: Id): (r: Result<Team, HttpError>)
    ensures user.None? ==> r == Err(Unauthorized("Login required"))
    ensures r.Ok? <==>
      (AssertTeamLeader(teams, ts, es, user, teamId).Ok?
       && ClassWritable(classes, teams[teamId - 1].classId)
       && AssertNotLocked(teams[teamId - 1]).Ok?)
    ensures r.Ok? ==> r.value == teams[teamId - 1] && user.value.id == r.value.leaderId
    ensures (AssertTeamLeader(teams, ts, es, user, teamId).Ok? && ClassWritable(classes, teams[teamId - 1].classId)
             && r.Err?) ==> r == Err(Forbidden("Team is locked."))
  {
    var team :- AssertTeamLeader(teams, ts, es, user, teamId);
    var cls :- GetClass(classes, team.classId);
    var _ :- AssertClassWritable(cls);
    var _ :- AssertNotLocked(team);
    Ok(team)
  }

  /** The leader removes another member of an unlocked team; the leader cannot be removed. */
  method RemoveMember(db: Db, ctx: Ctx, teamId: Id, userId: Id) returns (r: Result<(), HttpError>)
    requires db.Valid()
    modifies db`members, db.journal`audit
    ensures db.Valid()
    ensures old(LeaderCheck(db.classes, db.teams, db.classTeachers, db.enrollments, ctx.user, teamId)).Err? ==>
      r.Err? && r.error == old(LeaderCheck(db.classes, db.teams, db.classTeachers, db.enrollments, ctx.user, teamId)).error
    ensures old(LeaderCheck(db.classes, db.teams, db.classTeachers, db.enrollments, ctx.user, teamId)).Ok? ==>
      if userId == db.teams[teamId - 1].leaderId then r == Err(BadRequest("Cannot remove leader")) else r.Ok?
    ensures r.Err? ==> db.members == old(db.members) && db.journal.audit == old(db.journal.audit)
    ensures r.Ok? ==>
      DeactivatedIn(old(db.members), db.members, teamId, userId, ctx.now)
      && !IsTeamMember(db.members, teamId, userId)
      && db.journal.audit == old(db.journal.audit) + [AuditRow(ctx, ctx.user.value, REMOVE_ACTION, MEMBERS_TABLE, MemberTarget(teamId, userId),
                                               None, None, Some(db.teams[teamId - 1].classId), Some(teamId), None)]
  {
    var team :- LeaderCheck(db.classes, db.teams, db.classTeachers, db.enrollments, ctx.user, teamId);
    if userId == team.leaderId {
      return Err(BadRequest("Cannot remove leader"));
    }
    Deactivate(db, teamId, userId, ctx.now);
    db.journal.WriteAudit(ctx, REMOVE_ACTION, MEMBERS_TABLE, MemberTarget(teamId, userId), None, None, Some(team.classId), Some(teamId), None);
    r := Ok(());
  }

  /* ---------- leader transfer and staff force ---------- */

  /** UPDATE teams SET leader_id: the teams table has only the archived guard. */
  method SetLeader(db: Db, teamId: Id, toUserId: Id)
    requires db.Valid()
    requires GetTeam(db.teams, teamId).Ok? && ClassWritable(db.classes, db.teams[teamId - 1].classId)
    modifies db`teams
    ensures db.Valid()
    ensures db.teams == old(db.teams)[teamId - 1 := old(db.teams)[teamId - 1].(leaderId := toUserId)]
  {
    var t := db.teams[teamId - 1].(leaderId := toUserId);
    var teams := Statements.UpdateTeam(db.classes, db.flags, db.teams, teamId, t);
    Statements.SameClassKeepsConsistency(db.teams, teamId, t, db.members, db.joinRequests);
    db.teams := teams.value;
  }

  const TRANSFER_ACTION := "team.leader.transfer"
  const FORCE_ACTION := "team.leader.force"
  const TEAMS_TABLE := "teams"

  /** The leader hands leadership to an active member of the unlocked team. */
  method TransferLeader(db: Db, ctx: Ctx, teamId: Id, toUserId: Id) returns (r: Result<Team, HttpError>)
    requires db.Valid()
    modifies db`teams, db.journal`audit
    ensures db.Valid()
    ensures old(LeaderCheck(db.classes, db.teams, db.classTeachers, db.enrollments, ctx.user, teamId)).Err? ==>
      r.Err? && r.error == old(LeaderCheck(db.classes, db.teams, db.classTeachers, db.enrollments, ctx.user, teamId)).error
    ensures old(LeaderCheck(db.classes, db.teams, db.classTeachers, db.enrollments, ctx.user, teamId)).Ok? ==>
      if IsTeamMember(db.members, teamId, toUserId) then r.Ok? else r == Err(BadRequest("Target is not a member"))
    ensures r.Err? ==> db.teams == old(db.teams) && db.journal.audit == old(db.journal.audit)
    ensures r.Ok? ==>
      var before := old(db.teams)[teamId - 1];
      r.value == before.(leaderId := toUserId)
      && db.teams == old(db.teams)[teamId - 1 := r.value]
      && db.journal.audit == old(db.journal.audit) + [AuditRow(ctx, ctx.user.value, TRANSFER_ACTION, TEAMS_TABLE, IdText(teamId),
                                               Some(TeamSnap(teamId, before)), Some(TeamSnap(teamId, r.value)),
                                               Some(before.classId), Some(teamId), None)]
  {
    var team :- LeaderCheck(db.classes, db.teams, db.classTeachers, db.enrollments, ctx.user, teamId);
    if !IsTeamMember(db.members, teamId, toUserId) {
      return Err(BadRequest("Target is not a member"));
    }
    SetLeader(db, teamId, toUserId);
    var after := db.teams[teamId - 1];
    db.journal.WriteAudit(ctx, TRANSFER_ACTION, TEAMS_TABLE, IdText(teamId), Some(TeamSnap(teamId, team)),
                  Some(TeamSnap(teamId, after)), Some(team.classId), Some(teamId), None);
    r := Ok(after);
  }

  /**
   * The checks of the force-leader handler, in its order: logged in, a live team, a
   * readable class, staff of the class, a writable class, and the target an active
   * member. The team's lock is not among them.
   */
  function ForceCheck(classes: seq<Class>, teams: seq<Team>, ts: seq<ClassTeacher>, es: seq<Enrollment>,
                      ms: seq<Member>, user: Option<Actor>, teamId: Id, toUserId: Id): (r: Result<Team, HttpError>)
    ensures user.None? ==> r == Err(Unauthorized("Login required"))
    ensures r.Ok? <==>
      (GetTeam(teams, teamId).Ok?
       && AssertClassReadable(ts, es, user, teams[teamId - 1].classId).Ok?
       && AssertClassTeacher(ts, user, teams[teamId - 1].classId).Ok?
       && ClassWritable(classes, teams[teamId - 1].classId)
       && IsTeamMember(ms, teamId, toUserId))
    ensures r.Ok? ==> r.value == teams[teamId - 1]
  {
    var me :- RequireUser(user);
    var team :- GetTeam(teams, teamId);
    var _ :- AssertClassReadable(ts, es, user, team.classId);
    var _ :- if me.role != Auth.Admin then AssertClassTeacher(ts, user, team.classId) else Ok(());
    var cls :- GetClass(classes, team.classId);
    var _ :- AssertClassWritable(cls);
    if !IsTeamMember(ms, teamId, toUserId) then Err(BadRequest("Target is not a member"))
    else Ok(team)
  }

  /** The audit after-image of a forced change: the team, with the reason when one is given. */
  function ForcedSnap(teamId: Id, team: Team, reason: Option<string>): Snapshot
  {
    if reason.Some? && reason.value != "" then TeamWithReason(teamId, team, reason.value) else TeamSnap(teamId, team)
  }

  /** Staff set a team's leader to any active member, whether or not the team is locked. */
  method ForceLeader(db: Db, ctx: Ctx, teamId: Id, toUserId: Id, reason: Option<string>) returns (r: Result<Team, HttpError>)
    requires db.Valid()
    modifies db`teams, db.journal`audit
    ensures db.Valid()
    ensures r.Ok? <==> old(ForceCheck(db.classes, db.teams, db.classTeachers, db.enrollments, db.members, ctx.user, teamId, toUserId)).Ok?
    ensures r.Err? ==>
      r.error == old(ForceCheck(db.classes, db.teams, db.classTeachers, db.enrollments, db.members, ctx.user, teamId, toUserId)).error
    ensures r.Err? ==> db.teams == old(db.teams) && db.journal.audit == old(db.journal.audit)
    ensures r.Ok? ==>
      var before := old(db.teams)[teamId - 1];
      r.value == before.(leaderId := toUserId)
      && db.teams == old(db.teams)[teamId - 1 := r.value]
      && db.journal.audit == old(db.journal.audit) + [AuditRow(ctx, ctx.user.value, FORCE_ACTION, TEAMS_TABLE, IdText(teamId),
                                               Some(TeamSnap(teamId, before)), Some(ForcedSnap(teamId, r.value, reason)),
                                               Some(before.classId), Some(teamId), None)]
  {
    var team :- ForceCheck(db.classes, db.teams, db.classTeachers, db.enrollments, db.members, ctx.user, teamId, toUserId);
    SetLeader(db, teamId, toUserId);
    var after := db.teams[teamId - 1];
    db.journal.WriteAudit(ctx, FORCE_ACTION, TEAMS_TABLE, IdText(teamId), Some(TeamSnap(teamId, team)),
                  Some(ForcedSnap(teamId, after, reason)), Some(team.classId), Some(teamId), None);
    r := Ok(after);
  }

  /** The team with its status set to locked. */
  function Locked(teams: seq<Team>, teamId: Id): (r: seq<Team>)
    requires Has(teams, teamId)
    ensures |r| == |teams| && r[teamId - 1].status == TeamLocked
  {
    teams[teamId - 1 := teams[teamId - 1].(status := TeamLocked)]
  }

  /** Locking a team changes nothing about whether staff may force its leader. */
  lemma ForceIgnoresLock(classes: seq<Class>, teams: seq<Team>, ts: seq<ClassTeacher>, es: seq<Enrollment>,
                         ms: seq<Member>, user: Option<Actor>, teamId: Id, toUserId: Id)
    requires Has(teams, teamId)
    ensures ForceCheck(classes, Locked(teams, teamId), ts, es, ms, user, teamId, toUserId).Ok?
            == ForceCheck(classes, teams, ts, es, ms, user, teamId, toUserId).Ok?
  {
  }

  /** Whereas the leader's own removal and transfer are refused on a locked team. */
  lemma LeaderRefusedWhenLocked(classes: seq<Class>, teams: seq<Team>, ts: seq<ClassTeacher>, es: seq<Enrollment>,
                                user: Option<Actor>, teamId: Id)
    requires Has(teams, teamId)
    ensures LeaderCheck(classes, Locked(teams, teamId), ts, es, user, teamId).Err?
  {
  }

  /* ---------- GET /classes/:classId/students/unassigned ---------- */

  /** The actively enrolled students of the class with no active membership in it, in enrolment order. */
  function Unassigned(es: seq<Enrollment>, ms: seq<Member>, classId: Id): (r: seq<Id>)
    ensures forall s :: s in r <==> IsStudentInClass(es, classId, s) && Statements.ActiveTeamOf(ms, classId, s).None?
  {
    if es == [] then []
    else
      var prev := Unassigned(es[..|es| - 1], ms, classId);
      var e := es[|es| - 1];
      assert forall i :: 0 <= i < |es| - 1 ==> es[i] == es[..|es| - 1][i];
      if ActiveEnrollment(e) && e.classId == classId && Statements.ActiveTeamOf(ms, classId, e.studentId).None?
      then prev + [e.studentId] else prev
  }

  function ListUnassigned(ts: seq<ClassTeacher>, es: seq<Enrollment>, ms: seq<Member>, user: Option<Actor>, classId: Id)
    : (r: Result<seq<Id>, HttpError>)
    ensures r.Ok? <==> AssertClassTeacher(ts, user, classId).Ok?
    ensures user.None? ==> r == Err(Unauthorized("Login required"))
    ensures r.Ok? ==> r.value == Unassigned(es, ms, classId)
  {
    var me :- RequireUser(user);
    if me.role != Auth.Admin then
      var _ :- AssertClassTeacher(ts, user, classId);
      Ok(Unassigned(es, ms, classId))
    else Ok(Unassigned(es, ms, classId))
  }

  /* ---------- POST /classes/:classId/teams/assign ---------- */

  datatype AssignOutcome = AssignOutcome(teamId: Id, created: bool)

  /** The body's teamId is used when truthy (present and not 0). */
  predicate Truthy(teamId: Option<Id>)
  {
    teamId.Some? && teamId.value != 0
  }

  function ForcedTeamName(teamName: Option<string>, studentId: Id): string
  {
    if teamName.Some? && teamName.value != "" then teamName.value else "Team-" + IdText(studentId)
  }

  /**
   * The checks of the assignment handler, in its order: staff of the class, a writable
   * class, an enrolled student without an active team, and for a named team: the team
   * exists, lies in the class and is unlocked.
   */
  function AssignCheck(classes: seq<Class>, teams: seq<Team>, ts: seq<ClassTeacher>, es: seq<Enrollment>,
                       ms: seq<Member>, user: Option<Actor>, classId: Id, studentId: Id, teamId: Option<Id>)
    : (r: Result<(), HttpError>)
    ensures user.None? ==> r == Err(Unauthorized("Login required"))
    ensures r.Ok? <==>
      (AssertClassTeacher(ts, user, classId).Ok?
       && ClassWritable(classes, classId)
       && IsStudentInClass(es, classId, studentId)
       && Statements.ActiveTeamOf(ms, classId, studentId).None?
       && (Truthy(teamId) ==>
             GetTeam(teams, teamId.value).Ok? && teams[teamId.value - 1].classId == classId
             && AssertNotLocked(teams[teamId.value - 1]).Ok?))
    ensures (AssertClassTeacher(ts, user, classId).Ok? && ClassWritable(classes, classId)
             && !IsStudentInClass(es, classId, studentId)) ==> r == Err(BadRequest("Student not enrolled"))
    ensures (AssertClassTeacher(ts, user, classId).Ok? && ClassWritable(classes, classId)
             && IsStudentInClass(es, classId, studentId) && Statements.ActiveTeamOf(ms, classId, studentId).Some?)
            ==> r == Err(BadRequest("Student already in a team"))
  {
    var me :- RequireUser(user);
    var _ :- if me.role != Auth.Admin then AssertClassTeacher(ts, user, classId) else Ok(());
    var cls :- GetClass(classes, classId);
    var _ :- AssertClassWritable(cls);
    if !IsStudentInClass(es, classId, studentId) then Err(BadRequest("Student not enrolled"))
    else if Statements.ActiveTeamOf(ms, classId, studentId).Some? then Err(BadRequest("Student already in a team"))
    else if !Truthy(teamId) then Ok(())
    else
      var team :- GetTeam(teams, teamId.value);
      if team.classId != classId then Err(BadRequest("Class mismatch"))
      else AssertNotLocked(team)
  }

  /**
   * A new team in a writable class led by a student with no active team there, and the
   * student's membership of it, which becomes their active team in the class.
   */
  method FoundTeam(db: Db, t: Team, now: Time) returns (tid: Id)
    requires db.Valid() && ClassWritable(db.classes, t.classId) && t.deletedAt.None?
    requires t.status != TeamLocked && !t.isLocked
    requires Statements.ActiveTeamOf(db.members, t.classId, t.leaderId).None?
    modifies db`teams, db`members
    ensures db.Valid()
    ensures tid == |old(db.teams)| + 1 && db.teams == old(db.teams) + [t]
    ensures db.members == old(db.members) + [Joined(tid, t.classId, t.leaderId, now)]
    ensures Statements.ActiveTeamOf(db.members, t.classId, t.leaderId) == Some(tid)
  {
    tid := AddTeam(db, t);
    AdmitMember(db, tid, t.leaderId, now);
  }

  const ASSIGN_ACTION := "team.force.assign"
  const FORCE_CREATE_ACTION := "team.force.create"

  /** The notice a student placed into an existing team receives. */
  function AssignedNotice(studentId: Id, teamId: Id): Notification
  {
    NotificationRow(studentId, "team", Some("Team Assigned"), Some("You have been assigned to team ID " + IdText(teamId)),
                    RefPayload(teamId))
  }

  /** The named-team branch: the membership, its audit row and the student's notice. */
  method AssignInto(db: Db, ctx: Ctx, tid: Id, studentId: Id)
    requires db.Valid() && ctx.user.Some? && GetTeam(db.teams, tid).Ok?
    requires ClassWritable(db.classes, db.teams[tid - 1].classId) && AssertNotLocked(db.teams[tid - 1]).Ok?
    requires Statements.ActiveTeamOf(db.members, db.teams[tid - 1].classId, studentId).None?
    modifies db`members, db.journal
    ensures db.Valid()
    ensures db.members == old(db.members) + [Joined(tid, db.teams[tid - 1].classId, studentId, ctx.now)]
    ensures Statements.ActiveTeamOf(db.members, db.teams[tid - 1].classId, studentId) == Some(tid)
    ensures db.journal.audit == old(db.journal.audit) + [AuditRow(ctx, ctx.user.value, ASSIGN_ACTION, MEMBERS_TABLE,
                                                  MemberTarget(tid, studentId), None, None,
                                                  Some(db.teams[tid - 1].classId), Some(tid), None)]
    ensures db.journal.notifications == old(db.journal.notifications) + [AssignedNotice(studentId, tid)]
  {
    var classId := db.teams[tid - 1].classId;
    AdmitMember(db, tid, studentId, ctx.now);
    db.journal.WriteAudit(ctx, ASSIGN_ACTION, MEMBERS_TABLE, MemberTarget(tid, studentId), None, None, Some(classId), Some(tid), None);
    var notice := AssignedNotice(studentId, tid);
    db.journal.Notify(notice.userId, notice.kind, notice.title, notice.message, notice.payload);
  }

  /** The branch without a team: a new team the student leads, and its audit row. */
  method AssignFounding(db: Db, ctx: Ctx, classId: Id, studentId: Id, teamName: Option<string>) returns (tid: Id)
    requires db.Valid() && ctx.user.Some? && ClassWritable(db.classes, classId)
    requires Statements.ActiveTeamOf(db.members, classId, studentId).None?
    modifies db`teams, db`members, db.journal`audit
    ensures db.Valid()
    ensures tid == |old(db.teams)| + 1
    ensures db.teams == old(db.teams) + [NewTeam(classId, ForcedTeamName(teamName, studentId), None, studentId)]
    ensures db.members == old(db.members) + [Joined(tid, classId, studentId, ctx.now)]
    ensures Statements.ActiveTeamOf(db.members, classId, studentId) == Some(tid)
    ensures db.journal.audit == old(db.journal.audit) + [AuditRow(ctx, ctx.user.value, FORCE_CREATE_ACTION, TEAMS_TABLE, IdText(tid),
                                                  None, None, Some(classId), Some(tid), None)]
  {
    tid := FoundTeam(db, NewTeam(classId, ForcedTeamName(teamName, studentId), None, studentId), ctx.now);
    db.journal.WriteAudit(ctx, FORCE_CREATE_ACTION, TEAMS_TABLE, IdText(tid), None, None, Some(classId), Some(tid), None);
  }

  /**
   * Staff place an enrolled student with no active team: into the named unlocked team of
   * the class (notifying the student), or, without a team, into a new team the student
   * leads. Either way the new membership becomes the student's active team in the class.
   */
  method ForceAssign(db: Db, ctx: Ctx, classId: Id, studentId: Id, teamId: Option<Id>, teamName: Option<string>)
    returns (r: Result<AssignOutcome, HttpError>)
    requires db.Valid()
    modifies db`teams, db`members, db.journal
    ensures db.Valid()
    ensures r.Ok? <==> old(AssignCheck(db.classes, db.teams, db.classTeachers, db.enrollments, db.members,
                                       ctx.user, classId, studentId, teamId)).Ok?
    ensures r.Err? ==> r.error == old(AssignCheck(db.classes, db.teams, db.classTeachers, db.enrollments, db.members,
                                                  ctx.user, classId, studentId, teamId)).error
    ensures r.Err? ==> db.teams == old(db.teams) && db.members == old(db.members) && db.journal.audit == old(db.journal.audit)
                       && db.journal.notifications == old(db.journal.notifications)
    ensures r.Ok? ==> Statements.ActiveTeamOf(db.members, classId, studentId) == Some(r.value.teamId)
                      && db.members == old(db.members) + [Joined(r.value.teamId, classId, studentId, ctx.now)]
    ensures r.Ok? && !Truthy(teamId) ==>
      r.value == AssignOutcome(|old(db.teams)| + 1, true)
      && db.teams == old(db.teams) + [NewTeam(classId, ForcedTeamName(teamName, studentId), None, studentId)]
      && db.journal.audit == old(db.journal.audit) + [AuditRow(ctx, ctx.user.value, FORCE_CREATE_ACTION, TEAMS_TABLE, IdText(r.value.teamId),
                                               None, None, Some(classId), Some(r.value.teamId), None)]
      && db.journal.notifications == old(db.journal.notifications)
    ensures r.Ok? && Truthy(teamId) ==>
      r.value == AssignOutcome(teamId.value, false) && db.teams == old(db.teams)
      && db.journal.audit == old(db.journal.audit) + [AuditRow(ctx, ctx.user.value, ASSIGN_ACTION, MEMBERS_TABLE,
                                               MemberTarget(teamId.value, studentId), None, None,
                                               Some(classId), Some(teamId.value), None)]
      && db.journal.notifications == old(db.journal.notifications) + [AssignedNotice(studentId, teamId.value)]
  {
    var _ :- AssignCheck(db.classes, db.teams, db.classTeachers, db.enrollments, db.members,
                         ctx.user, classId, studentId, teamId);
    if Truthy(teamId) {
      AssignInto(db, ctx, teamId.value, studentId);
      r := Ok(AssignOutcome(teamId.value, false));
    } else {
      var tid := AssignFounding(db, ctx, classId, studentId, teamName);
      r := Ok(AssignOutcome(tid, true));
    }
  }
}
