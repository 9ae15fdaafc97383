/**
 * The peer-review handlers of server/src/routes/v1/peer_review.ts: staff open review
 * windows per stage and move them from open to sealed to published; students of a team
 * review each other inside the open window of their project's current stage; students
 * see their team's reviews only once a window is published, and without the reviewer;
 * staff record one adoption decision per window and team.
 */
module PeerReview {
  import opened Wrappers
  import opened Schema
  import opened HttpErrors
  import opened Store
  import opened Helpers
  import Statements
  import Queries
  import Auth
  import Stages
  import Teams
  import Projects
  import JsonValue
  import Js

  const WINDOWS_TABLE := "peer_review_windows"
  const REVIEWS_TABLE := "peer_reviews"
  const ADOPTIONS_TABLE := "peer_review_adoptions"
  const OPEN_ACTION := "peer_review.window.open"
  const SUBMIT_ACTION := "peer_review.submit"
  const DECISION_ACTION := "peer_review.decision"
  const REVIEW_COLUMNS := "peer_reviews.window_id, peer_reviews.team_id, peer_reviews.reviewer_id, peer_reviews.reviewee_id"

  /** A live window of the class. */
  predicate ClassWindow(w: Window, classId: Id)
  {
    w.classId == classId && LiveWindow(w)
  }

  /* ---------- GET /classes/:classId/peer-review-windows ---------- */

  /** Staff of the class see its live windows, newest first. */
  function ListWindows(ws: seq<Window>, ts: seq<ClassTeacher>, user: Option<Actor>, classId: Id)
    : (r: Result<seq<Id>, HttpError>)
    ensures r.Ok? <==> AssertClassTeacher(ts, user, classId).Ok?
    ensures r.Err? ==> r.error == AssertClassTeacher(ts, user, classId).error
    ensures r.Ok? ==> forall id :: id in r.value <==> Has(ws, id) && ClassWindow(ws[id - 1], classId)
    ensures r.Ok? ==> Queries.Decreasing(r.value)
  {
    var _ :- StaffOf(ts, user, classId);
    Ok(Queries.SelectNewestFirst(ws, (w: Window) => ClassWindow(w, classId)))
  }

  /* ---------- POST /classes/:classId/peer-review-windows ---------- */

  /**
   * The checks of the window-opening handler, in its order: staff of the class, a live
   * and writable class, and a stage key in the body.
   */
  function OpenCheck(classes: seq<Class>, ts: seq<ClassTeacher>, user: Option<Actor>, classId: Id, stageKey: string)
    : (r: Result<Actor, HttpError>)
    ensures r.Ok? <==>
      (AssertClassTeacher(ts, user, classId).Ok? && Teams.ClassWritable(classes, classId)
       && Stages.IsStageKey(JsonValue.Str(stageKey)))
    ensures AssertClassTeacher(ts, user, classId).Err? ==> r == Err(AssertClassTeacher(ts, user, classId).error)
    ensures r.Ok? ==> r.value == user.value
  {
    var me :- StaffOf(ts, user, classId);
    var cls :- GetClass(classes, classId);
    var _ :- AssertClassWritable(cls);
    if !Stages.IsStageKey(JsonValue.Str(stageKey)) then Err(BadRequest("Invalid stageKey"))
    else Ok(me)
  }

  /** A new window: open from the start (never a draft), opening at the given time or now. */
  function NewWindow(classId: Id, stageKey: Stages.StageKey, startsAt: Option<Time>, endsAt: Option<Time>, me: Actor, now: Time)
    : Window
  {
    Window(classId, stageKey, WindowOpen, Some(startsAt.GetOr(now)), endsAt, None, None, me.id, None)
  }

  /** INSERT INTO peer_review_windows for a writable class: the guard passes and the row takes the next id. */
  method AddWindow(db: Db, w: Window) returns (id: Id)
    requires Teams.ClassWritable(db.classes, w.classId)
    modifies db`windows
    ensures id == |old(db.windows)| + 1 && db.windows == old(db.windows) + [w]
  {
    var ws := Statements.InsertWindow(db.classes, db.flags, db.windows, w);
    id := |db.windows| + 1;
    db.windows := ws.value;
  }

  /** Staff open a window on a stage of a writable class; it is appended open and audited. */
  method OpenWindow(db: Db, ctx: Ctx, classId: Id, stageKey: string, startsAt: Option<Time>, endsAt: Option<Time>)
    returns (r: Result<Id, HttpError>)
    requires db.Valid()
    modifies db`windows, db.journal`audit
    ensures db.Valid()
    ensures r.Ok? <==> old(OpenCheck(db.classes, db.classTeachers, ctx.user, classId, stageKey)).Ok?
    ensures r.Err? ==> r.error == old(OpenCheck(db.classes, db.classTeachers, ctx.user, classId, stageKey)).error
    ensures r.Err? ==> db.windows == old(db.windows) && db.journal.audit == old(db.journal.audit)
    ensures r.Ok? ==>
      Stages.IsStageKey(JsonValue.Str(stageKey))
      && var w := NewWindow(classId, stageKey, startsAt, endsAt, ctx.user.value, ctx.now);
      r.value == |old(db.windows)| + 1
      && db.windows == old(db.windows) + [w]
      && db.journal.audit == old(db.journal.audit)
           + [AuditRow(ctx, ctx.user.value, OPEN_ACTION, WINDOWS_TABLE, IdText(r.value), None,
                       Some(WindowSnap(r.value, w)), Some(classId), None, None)]
  {
    var me :- OpenCheck(db.classes, db.classTeachers, ctx.user, classId, stageKey);
    var w := NewWindow(classId, stageKey, startsAt, endsAt, me, ctx.now);
    var id := AddWindow(db, w);
    db.journal.WriteAudit(ctx, OPEN_ACTION, WINDOWS_TABLE, IdText(id), None, Some(WindowSnap(id, w)), Some(classId), None, None);
    r := Ok(id);
  }

  /* ---------- POST /peer-review-windows/:windowId/close and /publish ---------- */

  datatype WindowAction = Close | Publish

  /** The only moves: close takes an open window to sealed, publish a sealed one to published. */
  function Advance(a: WindowAction, st: WindowStatus): (r: Option<WindowStatus>)
  {
    match a
    case Close => if st == WindowOpen then Some(Sealed) else None
    case Publish => if st == Sealed then Some(Published) else None
  }

  function ActionName(a: WindowAction): string
  {
    match a
    case Close => "peer_review.window.close"
    case Publish => "peer_review.window.publish"
  }

  function RefusedMove(a: WindowAction): string
  {
    match a
    case Close => "Window not open"
    case Publish => "Window not sealed"
  }

  /** The window after the move, stamped now: closing sets the close and seal times, publishing the publish time. */
  function Moved(w: Window, a: WindowAction, now: Time): Window
  {
    match a
    case Close => w.(status := Sealed, closeAt := Some(now), sealedAt := Some(now))
    case Publish => w.(status := Published, publishedAt := Some(now))
  }

  /**
   * The checks of the close and publish handlers, in their order: login, a live window,
   * staff of its class, a live and writable class, and a window in the status the move
   * starts from. Returns the window.
   */
  function MoveCheck(classes: seq<Class>, ws: seq<Window>, ts: seq<ClassTeacher>, user: Option<Actor>,
                     windowId: Id, a: WindowAction): (r: Result<Window, HttpError>)
    ensures user.None? ==> r == Err(Unauthorized("Login required"))
    ensures user.Some? && !(Has(ws, windowId) && LiveWindow(ws[windowId - 1])) ==> r == Err(NotFound("Window not found"))
    ensures r.Ok? <==>
      (user.Some? && Has(ws, windowId) && LiveWindow(ws[windowId - 1])
       && AssertClassTeacher(ts, user, ws[windowId - 1].classId).Ok?
       && Teams.ClassWritable(classes, ws[windowId - 1].classId)
       && Advance(a, ws[windowId - 1].status).Some?)
    ensures r.Ok? ==> r.value == ws[windowId - 1]
  {
    var me :- RequireUser(user);
    if !(Has(ws, windowId) && LiveWindow(ws[windowId - 1])) then Err(NotFound("Window not found"))
    else
      var w := ws[windowId - 1];
      var _ :- StaffOf(ts, user, w.classId);
      var cls :- GetClass(classes, w.classId);
      var _ :- AssertClassWritable(cls);
      if Advance(a, w.status).None? then Err(BadRequest(RefusedMove(a)))
      else Ok(w)
  }

  /**
   * Staff close or publish a window: the row takes the next status with its time stamp,
   * the move is audited with the row before and after, and the new row is returned.
   */
  method MoveWindow(db: Db, ctx: Ctx, windowId: Id, a: WindowAction) returns (r: Result<Window, HttpError>)
    requires db.Valid()
    modifies db`windows, db.journal`audit
    ensures db.Valid()
    ensures r.Ok? <==> old(MoveCheck(db.classes, db.windows, db.classTeachers, ctx.user, windowId, a)).Ok?
    ensures r.Err? ==> r.error == old(MoveCheck(db.classes, db.windows, db.classTeachers, ctx.user, windowId, a)).error
    ensures r.Err? ==> db.windows == old(db.windows) && db.journal.audit == old(db.journal.audit)
    ensures r.Ok? ==>
      var w := old(db.windows)[windowId - 1];
      r.value == Moved(w, a, ctx.now) && Advance(a, w.status) == Some(r.value.status)
      && db.windows == old(db.windows)[windowId - 1 := r.value]
      && db.journal.audit == old(db.journal.audit)
           + [AuditRow(ctx, ctx.user.value, ActionName(a), WINDOWS_TABLE, IdText(windowId), Some(WindowSnap(windowId, w)),
                       Some(WindowSnap(windowId, r.value)), Some(w.classId), None, None)]
  {
    var w :- MoveCheck(db.classes, db.windows, db.classTeachers, ctx.user, windowId, a);
    var w' := Moved(w, a, ctx.now);
    var ws := Statements.UpdateWindow(db.classes, db.flags, db.windows, windowId, w');
    db.windows := ws.value;
    db.journal.WriteAudit(ctx, ActionName(a), WINDOWS_TABLE, IdText(windowId), Some(WindowSnap(windowId, w)),
                          Some(WindowSnap(windowId, w')), Some(w.classId), None, None);
    r := Ok(w');
  }

  /** The statuses a window goes through after the given successful moves, if they are all allowed. */
  function Run(st: WindowStatus, moves: seq<WindowAction>): Option<WindowStatus>
    decreases |moves|
  {
    if moves == [] then Some(st)
    else
      var next := Advance(moves[0], st);
      if next.None? then None else Run(next.value, moves[1..])
  }

  /**
   * From open, the only sequences of moves that all succeed are none, a close, and a
   * close then a publish: a window is published only after it was sealed, and nothing
   * leads back to open or to draft.
   */
  lemma {:induction false} LifecycleFromOpen(moves: seq<WindowAction>)
    ensures Run(WindowOpen, moves).Some? <==> moves == [] || moves == [Close] || moves == [Close, Publish]
    ensures Run(WindowOpen, moves) == Some(Published) <==> moves == [Close, Publish]
    ensures Run(WindowOpen, moves).Some? ==> Run(WindowOpen, moves).value != WindowDraft
  {
    if moves != [] {
      if moves[0] == Close {
        if |moves| > 1 {
          if moves[1] == Publish {
            if |moves| > 2 {
              assert Run(Published, moves[2..]) == None by {
                assert Advance(moves[2], Published) == None;
              }
            }
            assert Run(WindowOpen, moves) == Run(Published, moves[2..]);
          } else {
            assert Run(WindowOpen, moves) == None;
          }
        } else {
          assert Run(WindowOpen, moves) == Run(Sealed, []);
        }
      } else {
        assert Run(WindowOpen, moves) == None;
      }
    }
  }

  /** No live window is a draft: the handlers create windows open and move them only forward. */
  ghost predicate NoDraftWindows(ws: seq<Window>)
  {
    forall i :: 0 <= i < |ws| ==> ws[i].status != WindowDraft
  }

  /** Opening and moving windows keep every window out of draft. */
  lemma WindowsNeverDraft(ws: seq<Window>, classId: Id, stageKey: Stages.StageKey, startsAt: Option<Time>, endsAt: Option<Time>,
                          me: Actor, now: Time, windowId: Id, a: WindowAction)
    requires NoDraftWindows(ws)
    ensures NoDraftWindows(ws + [NewWindow(classId, stageKey, startsAt, endsAt, me, now)])
    ensures Has(ws, windowId) && Advance(a, ws[windowId - 1].status).Some? ==>
      NoDraftWindows(ws[windowId - 1 := Moved(ws[windowId - 1], a, now)])
  {
    var ws' := ws + [NewWindow(classId, stageKey, startsAt, endsAt, me, now)];
    assert forall i :: 0 <= i < |ws| ==> ws'[i] == ws[i];
  }

  /* ---------- POST /projects/:projectId/peer-reviews ---------- */

  /** An open, live stage of the project. */
  predicate OpenStageOf(s: Stage, projectId: Id)
  {
    Projects.StageOf(s, projectId) && s.status == Stages.Open
  }

  /** The open stage of the project with the lowest order, the first by id among equal orders. */
  function LowestOpen(ss: seq<Stage>, projectId: Id): (r: Option<nat>)
    ensures r.Some? ==> r.value < |ss| && OpenStageOf(ss[r.value], projectId)
    ensures r.Some? ==> forall j :: 0 <= j < |ss| && OpenStageOf(ss[j], projectId) ==> ss[r.value].order <= ss[j].order
    ensures r.None? ==> forall j :: 0 <= j < |ss| ==> !OpenStageOf(ss[j], projectId)
  {
    if ss == [] then None
    else
      var prev := ss[..|ss| - 1];
      var r := LowestOpen(prev, projectId);
      var last := ss[|ss| - 1];
      assert forall j :: 0 <= j < |prev| ==> prev[j] == ss[j];
      if OpenStageOf(last, projectId) && (r.None? || last.order < ss[r.value].order) then Some(|ss| - 1) else r
  }

  /** The key of the project's current stage: its lowest open stage, or requirements when none is open. */
  function CurrentStageKey(ss: seq<Stage>, projectId: Id): (k: Stages.StageKey)
    ensures (forall j :: 0 <= j < |ss| ==> !OpenStageOf(ss[j], projectId)) ==> k == Stages.STAGE_KEYS[0]
    ensures (exists j :: 0 <= j < |ss| && OpenStageOf(ss[j], projectId)) ==>
      exists i :: 0 <= i < |ss| && OpenStageOf(ss[i], projectId) && ss[i].key == k
        && forall j :: 0 <= j < |ss| && OpenStageOf(ss[j], projectId) ==> ss[i].order <= ss[j].order
  {
    var lo := LowestOpen(ss, projectId);
    if lo.None? then Stages.STAGE_KEYS[0] else ss[lo.value].key
  }

  /** An open, live window of the class for the stage key. */
  predicate OpenWindowFor(w: Window, classId: Id, key: Stages.StageKey)
  {
    ClassWindow(w, classId) && w.stageKey == key && w.status == WindowOpen
  }

  datatype ReviewTarget = ReviewTarget(project: Project, windowId: Id)

  /**
   * The checks of the review handler, in its order: a logged-in student, a live project
   * of a readable class, its live team with the student an active member, a live and
   * writable class, a reviewee other than the reviewer who is an active member too, and
   * the newest open window of the class for the project's current stage.
   */
  function ReviewCheck(classes: seq<Class>, ps: seq<Project>, teams: seq<Team>, ms: seq<Member>, ts: seq<ClassTeacher>,
                       es: seq<Enrollment>, ss: seq<Stage>, ws: seq<Window>, user: Option<Actor>, projectId: Id,
                       revieweeId: Id): (r: Result<ReviewTarget, HttpError>)
    ensures user.Some? && user.value.role != Auth.Student ==> r == Err(Forbidden("Student required"))
    ensures r.Ok? ==>
      user.Some? && GetProject(ps, projectId).Ok? && r.value.project == ps[projectId - 1]
      && AssertClassReadable(ts, es, user, r.value.project.classId).Ok?
      && GetTeam(teams, r.value.project.teamId).Ok?
      && IsTeamMember(ms, r.value.project.teamId, user.value.id)
      && Teams.ClassWritable(classes, r.value.project.classId)
      && revieweeId != user.value.id && IsTeamMember(ms, r.value.project.teamId, revieweeId)
    ensures r.Ok? <==>
      (user.Some? && user.value.role == Auth.Student && GetProject(ps, projectId).Ok?
       && AssertClassReadable(ts, es, user, ps[projectId - 1].classId).Ok?
       && GetTeam(teams, ps[projectId - 1].teamId).Ok?
       && IsTeamMember(ms, ps[projectId - 1].teamId, user.value.id)
       && Teams.ClassWritable(classes, ps[projectId - 1].classId)
       && revieweeId != user.value.id && IsTeamMember(ms, ps[projectId - 1].teamId, revieweeId)
       && exists id :: Has(ws, id) && OpenWindowFor(ws[id - 1], ps[projectId - 1].classId, CurrentStageKey(ss, projectId)))
    ensures r.Ok? ==>
      var key := CurrentStageKey(ss, projectId);
      Has(ws, r.value.windowId) && OpenWindowFor(ws[r.value.windowId - 1], r.value.project.classId, key)
      && forall id :: Has(ws, id) && id > r.value.windowId ==> !OpenWindowFor(ws[id - 1], r.value.project.classId, key)
  {
    var me :- RequireUser(user);
    if me.role != Auth.Student then Err(Forbidden("Student required"))
    else
      var p :- GetProject(ps, projectId);
      var _ :- AssertClassReadable(ts, es, user, p.classId);
      var team :- GetTeam(teams, p.teamId);
      if !IsTeamMember(ms, p.teamId, me.id) then Err(Forbidden("Not a team member"))
      else
        var cls :- GetClass(classes, p.classId);
        var _ :- AssertClassWritable(cls);
        if revieweeId == me.id then Err(BadRequest("Cannot review yourself"))
        else if !IsTeamMember(ms, p.teamId, revieweeId) then Err(BadRequest("Reviewee not in team"))
        else
          var key := CurrentStageKey(ss, projectId);
          var w := Queries.Newest(ws, (w: Window) => OpenWindowFor(w, p.classId, key));
          if w.None? then Err(BadRequest("No open peer review window"))
          else Ok(ReviewTarget(p, w.value))
  }

  /** When the class has no open window for the project's current stage, no review can be submitted. */
  lemma NoWindowNoReview(classes: seq<Class>, ps: seq<Project>, teams: seq<Team>, ms: seq<Member>, ts: seq<ClassTeacher>,
                         es: seq<Enrollment>, ss: seq<Stage>, ws: seq<Window>, user: Option<Actor>, projectId: Id,
                         revieweeId: Id)
    requires Has(ps, projectId)
    requires forall i :: 0 <= i < |ws| ==> !OpenWindowFor(ws[i], ps[projectId - 1].classId, CurrentStageKey(ss, projectId))
    ensures ReviewCheck(classes, ps, teams, ms, ts, es, ss, ws, user, projectId, revieweeId).Err?
  {
  }

  /** `payload ?? {}`: an absent or null payload is stored as an empty object. */
  function PayloadOrEmpty(payload: Option<JsonValue.Json>): JsonValue.Json
  {
    if payload.None? || payload.value == JsonValue.Null then JsonValue.Obj([]) else payload.value
  }

  function NewReview(t: ReviewTarget, me: Actor, revieweeId: Id, payload: Option<JsonValue.Json>): Review
  {
    Review(t.windowId, t.project.classId, t.project.teamId, me.id, revieweeId, PayloadOrEmpty(payload), None)
  }

  /**
   * INSERT INTO peer_reviews for a writable class: the unique index refuses a second live
   * review for the same window, team, reviewer and reviewee; otherwise the row takes the
   * next id.
   */
  method AddReview(db: Db, rv: Review) returns (r: Result<Id, string>)
    requires db.Valid() && !ArchivedBlocks(db.classes, db.flags, rv.classId)
    modifies db`reviews
    ensures db.Valid()
    ensures !ReviewsUnique(old(db.reviews) + [rv]) ==> r == Err(UniqueFailed(REVIEW_COLUMNS)) && db.reviews == old(db.reviews)
    ensures ReviewsUnique(old(db.reviews) + [rv]) ==> r == Ok(|old(db.reviews)| + 1) && db.reviews == old(db.reviews) + [rv]
  {
    var rs := Statements.InsertReview(db.classes, db.flags, db.reviews, rv);
    if rs.Err? {
      return Err(rs.error);
    }
    r := Ok(|db.reviews| + 1);
    db.reviews := rs.value;
  }

  /**
   * A student reviews a teammate in the current window: the review is appended and
   * audited, unless a live review for the same window, team, reviewer and reviewee
   * exists, in which case the unique index refuses the insert and nothing changes.
   */
  method SubmitReview(db: Db, ctx: Ctx, projectId: Id, revieweeId: Id, payload: Option<JsonValue.Json>)
    returns (r: Result<Id, HttpError>)
    requires db.Valid()
    modifies db`reviews, db.journal`audit
    ensures db.Valid()
    ensures old(ReviewCheck(db.classes, db.projects, db.teams, db.members, db.classTeachers, db.enrollments, db.stages,
                            db.windows, ctx.user, projectId, revieweeId)).Err? ==>
      r == Err(old(ReviewCheck(db.classes, db.projects, db.teams, db.members, db.classTeachers, db.enrollments, db.stages,
                               db.windows, ctx.user, projectId, revieweeId)).error)
    ensures r.Err? ==> db.reviews == old(db.reviews) && db.journal.audit == old(db.journal.audit)
    ensures old(ReviewCheck(db.classes, db.projects, db.teams, db.members, db.classTeachers, db.enrollments, db.stages,
                            db.windows, ctx.user, projectId, revieweeId)).Ok? ==>
      var t := old(ReviewCheck(db.classes, db.projects, db.teams, db.members, db.classTeachers, db.enrollments, db.stages,
                               db.windows, ctx.user, projectId, revieweeId)).value;
      var rv := NewReview(t, ctx.user.value, revieweeId, payload);
      if !ReviewsUnique(old(db.reviews) + [rv]) then r == Err(DbError(UniqueFailed(REVIEW_COLUMNS)))
      else
        r == Ok(|old(db.reviews)| + 1) && db.reviews == old(db.reviews) + [rv]
        && db.journal.audit == old(db.journal.audit)
             + [AuditRow(ctx, ctx.user.value, SUBMIT_ACTION, REVIEWS_TABLE, IdText(r.value), None, None,
                         Some(t.project.classId), Some(t.project.teamId), Some(projectId))]
  {
    var t :- ReviewCheck(db.classes, db.projects, db.teams, db.members, db.classTeachers, db.enrollments, db.stages,
                         db.windows, ctx.user, projectId, revieweeId);
    var rv := NewReview(t, ctx.user.value, revieweeId, payload);
    var added := AddReview(db, rv);
    if added.Err? {
      return Err(DbError(added.error));
    }
    var id := added.value;
    db.journal.WriteAudit(ctx, SUBMIT_ACTION, REVIEWS_TABLE, IdText(id), None, None, Some(t.project.classId),
                          Some(t.project.teamId), Some(projectId));
    r := Ok(id);
  }

  /** Once a review is in, the same review again is refused: reviews are never merged. */
  lemma SecondReviewRefused(classes: seq<Class>, flags: WriteFlags, rs: seq<Review>, t: ReviewTarget, me: Actor,
                            revieweeId: Id, payload1: Option<JsonValue.Json>, payload2: Option<JsonValue.Json>)
    ensures Statements.InsertReview(classes, flags, rs + [NewReview(t, me, revieweeId, payload1)],
                                    NewReview(t, me, revieweeId, payload2)).Err?
  {
    Statements.DuplicateReviewRefused(classes, flags, rs + [NewReview(t, me, revieweeId, payload1)],
                                      NewReview(t, me, revieweeId, payload2), |rs|);
  }

  /* ---------- GET /projects/:projectId/peer-reviews ---------- */

  /** What a reader is shown of a review: students get no reviewer, staff the whole row. */
  datatype ReviewItem =
    | StudentItem(id: Id, windowId: Id, revieweeId: Id, payload: JsonValue.Json)
    | StaffItem(id: Id, review: Review)

  /** A live window of the class the reader may see: for students only published ones. */
  predicate VisibleWindow(w: Window, classId: Id, student: bool)
  {
    ClassWindow(w, classId) && (!student || w.status == Published)
  }

  /** A live review of the team in a window the reader may see. */
  predicate Shown(ws: seq<Window>, rv: Review, classId: Id, teamId: Id, student: bool)
  {
    LiveReview(rv) && rv.teamId == teamId && Has(ws, rv.windowId) && VisibleWindow(ws[rv.windowId - 1], classId, student)
  }

  function ItemOf(rs: seq<Review>, id: Id, student: bool): (item: ReviewItem)
    requires Has(rs, id)
    ensures item.id == id
  {
    var rv := rs[id - 1];
    if student then StudentItem(id, rv.windowId, rv.revieweeId, rv.payload) else StaffItem(id, rv)
  }

  /**
   * The readers' check, in the handler's order: login, a live project of a readable
   * class, its live team, and for students an active membership in it.
   */
  function ReadCheck(ps: seq<Project>, teams: seq<Team>, ms: seq<Member>, ts: seq<ClassTeacher>, es: seq<Enrollment>,
                     user: Option<Actor>, projectId: Id): (r: Result<Project, HttpError>)
    ensures r.Ok? <==>
      (AssertProjectReadable(ps, ts, es, user, projectId).Ok? && GetTeam(teams, ps[projectId - 1].teamId).Ok?
       && (user.value.role == Auth.Student ==> IsTeamMember(ms, ps[projectId - 1].teamId, user.value.id)))
    ensures r.Ok? ==> r.value == ps[projectId - 1]
  {
    var me :- RequireUser(user);
    var p :- GetProject(ps, projectId);
    var _ :- AssertClassReadable(ts, es, user, p.classId);
    var team :- GetTeam(teams, p.teamId);
    if me.role == Auth.Student && !IsTeamMember(ms, p.teamId, me.id) then Err(Forbidden("Not a team member"))
    else Ok(p)
  }

  /**
   * The team's reviews, newest first: for a student only those in published windows of
   * the class and without the reviewer, for staff those in every live window of it.
   */
  function ListReviews(ps: seq<Project>, teams: seq<Team>, ms: seq<Member>, ts: seq<ClassTeacher>, es: seq<Enrollment>,
                       ws: seq<Window>, rs: seq<Review>, user: Option<Actor>, projectId: Id)
    : (r: Result<seq<ReviewItem>, HttpError>)
    ensures r.Ok? <==> ReadCheck(ps, teams, ms, ts, es, user, projectId).Ok?
    ensures r.Err? ==> r.error == ReadCheck(ps, teams, ms, ts, es, user, projectId).error
    ensures r.Ok? ==>
      var p := ps[projectId - 1];
      var student := user.value.role == Auth.Student;
      (forall k :: 0 <= k < |r.value| ==>
         Has(rs, r.value[k].id) && Shown(ws, rs[r.value[k].id - 1], p.classId, p.teamId, student)
         && r.value[k] == ItemOf(rs, r.value[k].id, student))
      && (forall id :: Has(rs, id) && Shown(ws, rs[id - 1], p.classId, p.teamId, student) ==>
            exists k :: 0 <= k < |r.value| && r.value[k].id == id)
      && (forall j, k :: 0 <= j < k < |r.value| ==> r.value[j].id > r.value[k].id)
  {
    var p :- ReadCheck(ps, teams, ms, ts, es, user, projectId);
    Ok(VisibleReviews(ws, rs, p.classId, p.teamId, user.value.role == Auth.Student))
  }

  /**
   * The listing itself: with no window the reader may see, nothing; otherwise the
   * reviews in those windows, newest first, as the reader is shown them.
   */
  function VisibleReviews(ws: seq<Window>, rs: seq<Review>, classId: Id, teamId: Id, student: bool)
    : (items: seq<ReviewItem>)
    ensures forall k :: 0 <= k < |items| ==>
      Has(rs, items[k].id) && Shown(ws, rs[items[k].id - 1], classId, teamId, student)
      && items[k] == ItemOf(rs, items[k].id, student)
    ensures forall id :: Has(rs, id) && Shown(ws, rs[id - 1], classId, teamId, student) ==>
      exists k :: 0 <= k < |items| && items[k].id == id
    ensures forall j, k :: 0 <= j < k < |items| ==> items[j].id > items[k].id
  {
    var allowed := Queries.SelectNewestFirst(ws, (w: Window) => VisibleWindow(w, classId, student));
    var ids := ShownIds(ws, rs, classId, teamId, student);
    if |allowed| == 0 then
      NothingShownWithoutWindows(ws, rs, classId, teamId, student, allowed);
      []
    else
      var items := ItemsOf(rs, ids, student);
      ListingCoversShown(ws, rs, classId, teamId, student, ids, items);
      items
  }

  /** The ids of the reviews the reader is shown, newest first. */
  function ShownIds(ws: seq<Window>, rs: seq<Review>, classId: Id, teamId: Id, student: bool): (ids: seq<Id>)
    ensures forall id :: id in ids <==> Has(rs, id) && Shown(ws, rs[id - 1], classId, teamId, student)
    ensures Queries.Decreasing(ids)
  {
    Queries.SelectNewestFirst(rs, (rv: Review) => Shown(ws, rv, classId, teamId, student))
  }

  /** A review is shown only in a window the reader may see. */
  lemma NothingShownWithoutWindows(ws: seq<Window>, rs: seq<Review>, classId: Id, teamId: Id, student: bool, allowed: seq<Id>)
    requires forall id :: id in allowed <==> Has(ws, id) && VisibleWindow(ws[id - 1], classId, student)
    requires |allowed| == 0
    ensures forall id :: Has(rs, id) ==> !Shown(ws, rs[id - 1], classId, teamId, student)
  {
    forall id | Has(rs, id) ensures !Shown(ws, rs[id - 1], classId, teamId, student) {
      assert rs[id - 1].windowId !in allowed;
    }
  }

  /** The items built for the shown ids are exactly the shown reviews, newest first. */
  lemma ListingCoversShown(ws: seq<Window>, rs: seq<Review>, classId: Id, teamId: Id, student: bool,
                           ids: seq<Id>, items: seq<ReviewItem>)
    requires forall id :: id in ids <==> Has(rs, id) && Shown(ws, rs[id - 1], classId, teamId, student)
    requires Queries.Decreasing(ids)
    requires |items| == |ids|
    requires forall k :: 0 <= k < |ids| ==> Has(rs, ids[k]) && items[k] == ItemOf(rs, ids[k], student)
    ensures forall k :: 0 <= k < |items| ==>
      Has(rs, items[k].id) && Shown(ws, rs[items[k].id - 1], classId, teamId, student)
      && items[k] == ItemOf(rs, items[k].id, student)
    ensures forall id :: Has(rs, id) && Shown(ws, rs[id - 1], classId, teamId, student) ==>
      exists k :: 0 <= k < |items| && items[k].id == id
    ensures forall j, k :: 0 <= j < k < |items| ==> items[j].id > items[k].id
  {
    forall k | 0 <= k < |items|
      ensures Has(rs, items[k].id) && Shown(ws, rs[items[k].id - 1], classId, teamId, student)
    {
      assert ids[k] in ids;
    }
    forall id | Has(rs, id) && Shown(ws, rs[id - 1], classId, teamId, student)
      ensures exists k :: 0 <= k < |items| && items[k].id == id
    {
      var k :| 0 <= k < |ids| && ids[k] == id;
      assert items[k].id == id;
    }
  }

  /** The items for the given ids, in their order. */
  function ItemsOf(rs: seq<Review>, ids: seq<Id>, student: bool): (items: seq<ReviewItem>)
    requires forall id :: id in ids ==> Has(rs, id)
    ensures |items| == |ids|
    ensures forall k :: 0 <= k < |ids| ==> Has(rs, ids[k]) && items[k] == ItemOf(rs, ids[k], student)
  {
    seq(|ids|, k requires 0 <= k < |ids| => assert ids[k] in ids; ItemOf(rs, ids[k], student))
  }

  /** A student sees neither reviewers nor reviews outside published windows. */
  lemma StudentsSeeOnlyPublished(ps: seq<Project>, teams: seq<Team>, ms: seq<Member>, ts: seq<ClassTeacher>,
                                 es: seq<Enrollment>, ws: seq<Window>, rs: seq<Review>, user: Option<Actor>, projectId: Id)
    requires user.Some? && user.value.role == Auth.Student
    requires ListReviews(ps, teams, ms, ts, es, ws, rs, user, projectId).Ok?
    ensures var items := ListReviews(ps, teams, ms, ts, es, ws, rs, user, projectId).value;
      forall k :: 0 <= k < |items| ==>
        items[k].StudentItem? && ws[items[k].windowId - 1].status == Published
        && IsTeamMember(ms, rs[items[k].id - 1].teamId, user.value.id)
  {
  }

  /* ---------- POST /projects/:projectId/peer-reviews/decision ---------- */

  /** The newest live window of the class, whatever its status. */
  function NewestWindow(ws: seq<Window>, classId: Id): Option<Id>
  {
    Queries.Newest(ws, (w: Window) => ClassWindow(w, classId))
  }

  /**
   * The decision target is the newest window of the class even while it is still
   * open: a newer open window wins over an older sealed or published one.
   */
  lemma DecisionIgnoresWindowStatus(ws: seq<Window>, classId: Id, older: Id, newer: Id)
    requires Has(ws, older) && Has(ws, newer) && older < newer
    requires ClassWindow(ws[older - 1], classId) && ws[older - 1].status == Published
    requires ClassWindow(ws[newer - 1], classId) && ws[newer - 1].status == WindowOpen
    ensures NewestWindow(ws, classId).Some? && NewestWindow(ws, classId) != Some(older)
    ensures ws[NewestWindow(ws, classId).value - 1].status == WindowOpen ==> NewestWindow(ws, classId).value >= newer
  {
  }

  datatype DecisionTarget = DecisionTarget(project: Project, windowId: Id)

  /**
   * The checks of the decision handler, in its order: login, a live project, staff of
   * its class, a live and writable class, and a live window in the class.
   */
  function DecisionCheck(classes: seq<Class>, ps: seq<Project>, ts: seq<ClassTeacher>, ws: seq<Window>,
                         user: Option<Actor>, projectId: Id): (r: Result<DecisionTarget, HttpError>)
    ensures r.Ok? <==>
      (user.Some? && GetProject(ps, projectId).Ok?
       && AssertClassTeacher(ts, user, ps[projectId - 1].classId).Ok?
       && Teams.ClassWritable(classes, ps[projectId - 1].classId)
       && NewestWindow(ws, ps[projectId - 1].classId).Some?)
    ensures r.Ok? ==> r.value == DecisionTarget(ps[projectId - 1], NewestWindow(ws, ps[projectId - 1].classId).value)
  {
    var me :- RequireUser(user);
    var p :- GetProject(ps, projectId);
    var _ :- StaffOf(ts, user, p.classId);
    var cls :- GetClass(classes, p.classId);
    var _ :- AssertClassWritable(cls);
    var w := NewestWindow(ws, p.classId);
    if w.None? then Err(BadRequest("No window")) else Ok(DecisionTarget(p, w.value))
  }

  /** The adoption row: no coefficient when adopted, otherwise the forced one or 1. */
  function NewAdoption(t: DecisionTarget, adopt: bool, forced: Option<real>, reason: Option<string>, me: Actor, now: Time)
    : (a: Adoption)
    ensures a.windowId == t.windowId && a.teamId == t.project.teamId && a.decidedBy == me.id && a.deletedAt.None?
    ensures a.forcedCoefficient.None? <==> adopt
    ensures !adopt ==> a.forcedCoefficient == Some(if forced.Some? then forced.value else 1.0)
  {
    Adoption(t.windowId, t.project.teamId, adopt, if adopt then None else Some(forced.GetOr(1.0)), me.id, now, reason, None)
  }

  /** The body as audited; the absent optional fields are dropped by the JSON text. */
  function DecisionFields(adopt: bool, forced: Option<real>, reason: Option<string>): JsonValue.Json
  {
    JsonValue.Obj([JsonValue.Field("adopt", JsonValue.Bool(adopt))]
                  + (if forced.Some? then [JsonValue.Field("forcedCoefficient", JsonValue.Num(Js.Finite(forced.value)))] else [])
                  + (if reason.Some? then [JsonValue.Field("reason", JsonValue.Str(reason.value))] else []))
  }

  /** `${windowId}:${teamId}`, the adoption's audit target. */
  function PairText(windowId: Id, teamId: Id): string
  {
    IdText(windowId) + ":" + IdText(teamId)
  }

  /**
   * Staff decide on the newest window for the project's team: the adoption row for that
   * pair is inserted or overwritten, and the decision is audited.
   */
  method Decide(db: Db, ctx: Ctx, projectId: Id, adopt: bool, forced: Option<real>, reason: Option<string>)
    returns (r: Result<(), HttpError>)
    requires db.Valid()
    modifies db`adoptions, db.journal`audit
    ensures db.Valid()
    ensures r.Ok? <==> old(DecisionCheck(db.classes, db.projects, db.classTeachers, db.windows, ctx.user, projectId)).Ok?
    ensures r.Err? ==> r.error == old(DecisionCheck(db.classes, db.projects, db.classTeachers, db.windows, ctx.user, projectId)).error
    ensures r.Err? ==> db.adoptions == old(db.adoptions) && db.journal.audit == old(db.journal.audit)
    ensures r.Ok? ==>
      var t := old(DecisionCheck(db.classes, db.projects, db.classTeachers, db.windows, ctx.user, projectId)).value;
      var a := NewAdoption(t, adopt, forced, reason, ctx.user.value, ctx.now);
      db.adoptions == Upserted(old(db.adoptions), a)
      && db.journal.audit == old(db.journal.audit)
           + [AuditRow(ctx, ctx.user.value, DECISION_ACTION, ADOPTIONS_TABLE, PairText(t.windowId, t.project.teamId), None,
                       Some(Fields(DecisionFields(adopt, forced, reason))), Some(t.project.classId), Some(t.project.teamId),
                       Some(projectId))]
  {
    var t :- DecisionCheck(db.classes, db.projects, db.classTeachers, db.windows, ctx.user, projectId);
    var a := NewAdoption(t, adopt, forced, reason, ctx.user.value, ctx.now);
    var xs := Statements.UpsertAdoption(db.classes, db.flags, db.windows, db.adoptions, a);
    UpsertIsUpserted(db.classes, db.flags, db.windows, db.adoptions, a);
    SetAdoptions(db, xs.value);
    db.journal.WriteAudit(ctx, DECISION_ACTION, ADOPTIONS_TABLE, PairText(t.windowId, t.project.teamId), None,
                          Some(Fields(DecisionFields(adopt, forced, reason))), Some(t.project.classId), Some(t.project.teamId),
                          Some(projectId));
    r := Ok(());
  }

  /**
   * The decision handler as written: the checks run as in Decide, but its upsert cannot
   * be prepared, so every decision that passes them is answered with a generic 500 and
   * no adoption row and no audit row is written.
   */
  method DecideAsWritten(db: Db, ctx: Ctx, projectId: Id, adopt: bool, forced: Option<real>, reason: Option<string>)
    returns (r: Result<(), HttpError>)
    ensures r.Err?
    ensures DecisionCheck(db.classes, db.projects, db.classTeachers, db.windows, ctx.user, projectId).Err? ==>
      r.error == DecisionCheck(db.classes, db.projects, db.classTeachers, db.windows, ctx.user, projectId).error
    ensures DecisionCheck(db.classes, db.projects, db.classTeachers, db.windows, ctx.user, projectId).Ok? ==>
      r.error == Internal(DEFAULT_FALLBACK)
  {
    var t :- DecisionCheck(db.classes, db.projects, db.classTeachers, db.windows, ctx.user, projectId);
    var a := NewAdoption(t, adopt, forced, reason, ctx.user.value, ctx.now);
    var w := Statements.UpsertAdoptionAsWritten(db.classes, db.flags, db.windows, db.adoptions, a);
    ConflictTargetErrorIsInternal();
    r := Err(DbError(w.error));
  }

  /** SQLite's refusal holds no keyword of the error hook, so it is answered as a generic 500. */
  lemma ConflictTargetErrorIsInternal()
    ensures DbError(Statements.ON_CONFLICT_NO_MATCH) == Internal(DEFAULT_FALLBACK)
  {
    var m := Js.ToLower(Statements.ON_CONFLICT_NO_MATCH);
    ConflictMessageLacks();
    Js.NotContainsByChar(m, "write blocked", 'w');
    Js.NotContainsByPair(m, "locked", 2);
    Js.NotContainsByPair(m, "not found", 5);
    Js.NotContainsByChar(m, "bad request", 'b');
    Js.NotContainsByChar(m, "invalid", 'v');
  }

  /** The lower-cased message has no w, b or v, and never "ck" or "ou". */
  lemma ConflictMessageLacks()
    ensures var m := Js.ToLower(Statements.ON_CONFLICT_NO_MATCH);
      'w' !in m && 'b' !in m && 'v' !in m
      && forall i :: 0 <= i < |m| - 1 ==> !(m[i] == 'c' && m[i + 1] == 'k') && !(m[i] == 'o' && m[i + 1] == 'u')
  {
    var s := Statements.ON_CONFLICT_NO_MATCH;
    var m := Js.ToLower(s);
    ConflictMessageAvoids();
    ConflictMessageNoPair("cC", "kK");
    ConflictMessageNoPair("oO", "uU");
    forall i | 0 <= i < |m| ensures m[i] != 'w' && m[i] != 'b' && m[i] != 'v' {
      assert s[i] !in "wWbBvV";
    }
    forall i | 0 <= i < |m| - 1 ensures !(m[i] == 'c' && m[i + 1] == 'k') && !(m[i] == 'o' && m[i + 1] == 'u') {
      assert !(s[i] in "cC" && s[i + 1] in "kK") && !(s[i] in "oO" && s[i + 1] in "uU");
    }
  }

  /** No character of the message is w, b or v in either case. */
  lemma ConflictMessageAvoids()
    ensures Js.Avoids(Statements.ON_CONFLICT_NO_MATCH, "wWbBvV")
  {
    var ps := ConflictPieces();
    PiecesAvoid();
    Js.AvoidsAppend(ps[0], ps[1], "wWbBvV");
    Js.AvoidsAppend(ps[0] + ps[1], ps[2], "wWbBvV");
    Js.AvoidsAppend(ps[0] + ps[1] + ps[2], ps[3], "wWbBvV");
    Js.AvoidsAppend(ps[0] + ps[1] + ps[2] + ps[3], ps[4], "wWbBvV");
    Js.AvoidsAppend(ps[0] + ps[1] + ps[2] + ps[3] + ps[4], ps[5], "wWbBvV");
  }

  /** No character of `xs` in the message stands directly before one of `ys`. */
  lemma ConflictMessageNoPair(xs: string, ys: string)
    requires (xs == "cC" && ys == "kK") || (xs == "oO" && ys == "uU")
    ensures Js.NoPair(Statements.ON_CONFLICT_NO_MATCH, xs, ys)
  {
    var ps := ConflictPieces();
    PiecesNoPair(xs, ys);
    Js.NoPairAppend(ps[0], ps[1], xs, ys);
    Js.NoPairAppend(ps[0] + ps[1], ps[2], xs, ys);
    Js.NoPairAppend(ps[0] + ps[1] + ps[2], ps[3], xs, ys);
    Js.NoPairAppend(ps[0] + ps[1] + ps[2] + ps[3], ps[4], xs, ys);
    Js.NoPairAppend(ps[0] + ps[1] + ps[2] + ps[3] + ps[4], ps[5], xs, ys);
  }

  /** The pieces `Statements.ON_CONFLICT_NO_MATCH` is written as, in order. */
  function ConflictPieces(): (ps: seq<string>)
    ensures |ps| == 6
    ensures ps[0] + ps[1] + ps[2] + ps[3] + ps[4] + ps[5] == Statements.ON_CONFLICT_NO_MATCH
  {
    ["ON CONFLICT ", "clause does ", "not match ", "any PRIMARY ", "KEY or UNIQUE ", "constraint"]
  }

  /** No piece of the message holds a `w`, `b` or `v` in either case. */
  lemma PiecesAvoid()
    ensures forall k :: 0 <= k < 6 ==> Js.Avoids(ConflictPieces()[k], "wWbBvV")
  {
    FirstPiecesAvoid();
    LastPiecesAvoid();
  }

  /** The first three pieces, one at a time. */
  lemma FirstPiecesAvoid()
    ensures Js.Avoids("ON CONFLICT ", "wWbBvV")
    ensures Js.Avoids("clause does ", "wWbBvV")
    ensures Js.Avoids("not match ", "wWbBvV")
  {
  }

  /** The last three pieces, one at a time. */
  lemma LastPiecesAvoid()
    ensures Js.Avoids("any PRIMARY ", "wWbBvV")
    ensures Js.Avoids("KEY or UNIQUE ", "wWbBvV")
    ensures Js.Avoids("constraint", "wWbBvV")
  {
  }

  /** No piece holds the pair, and every piece but the last ends in a space. */
  lemma PiecesNoPair(xs: string, ys: string)
    requires (xs == "cC" && ys == "kK") || (xs == "oO" && ys == "uU")
    ensures forall k :: 0 <= k < 6 ==> var p := ConflictPieces()[k];
      Js.NoPair(p, xs, ys) && p != [] && (k < 5 ==> p[|p| - 1] == ' ')
  {
    FirstPiecesNoPair(xs, ys);
    LastPiecesNoPair(xs, ys);
  }

  /** The first three pieces, one at a time. */
  lemma FirstPiecesNoPair(xs: string, ys: string)
    requires (xs == "cC" && ys == "kK") || (xs == "oO" && ys == "uU")
    ensures Js.NoPair("ON CONFLICT ", xs, ys)
    ensures Js.NoPair("clause does ", xs, ys)
    ensures Js.NoPair("not match ", xs, ys)
  {
  }

  /** The last three pieces, one at a time. */
  lemma LastPiecesNoPair(xs: string, ys: string)
    requires (xs == "cC" && ys == "kK") || (xs == "oO" && ys == "uU")
    ensures Js.NoPair("any PRIMARY ", xs, ys)
    ensures Js.NoPair("KEY or UNIQUE ", xs, ys)
    ensures Js.NoPair("constraint", xs, ys)
  {
  }

  /**
   * Every decision that passes the handler's checks is one the partial index accepts:
   * the corrected upsert stores it, while the statement as written refuses it.
   */
  lemma AsWrittenRefusesEveryDecision(classes: seq<Class>, flags: WriteFlags, ps: seq<Project>, ts: seq<ClassTeacher>,
                                      ws: seq<Window>, xs: seq<Adoption>, user: Option<Actor>, projectId: Id,
                                      adopt: bool, forced: Option<real>, reason: Option<string>, now: Time)
    requires DecisionCheck(classes, ps, ts, ws, user, projectId).Ok?
    ensures var a := NewAdoption(DecisionCheck(classes, ps, ts, ws, user, projectId).value, adopt, forced, reason, user.value, now);
      Statements.UpsertAdoption(classes, flags, ws, xs, a).Ok?
      && Statements.UpsertAdoption(classes, flags, ws, xs, a).value == Upserted(xs, a)
      && Statements.UpsertAdoptionAsWritten(classes, flags, ws, xs, a).Err?
  {
    var t := DecisionCheck(classes, ps, ts, ws, user, projectId).value;
    var a := NewAdoption(t, adopt, forced, reason, user.value, now);
    assert ws[t.windowId - 1].classId == t.project.classId;
    UpsertIsUpserted(classes, flags, ws, xs, a);
  }

  /** Writes the adoptions back; the database invariant carries over. */
  method SetAdoptions(db: Db, xs: seq<Adoption>)
    requires db.Valid() && AdoptionsUnique(xs)
    modifies db`adoptions
    ensures db.Valid() && db.adoptions == xs
  {
    db.adoptions := xs;
  }

  /** The adoptions after deciding: the live row for the pair overwritten, or the decision appended. */
  function Upserted(xs: seq<Adoption>, a: Adoption): seq<Adoption>
  {
    var at := Statements.AdoptionFor(xs, a.windowId, a.teamId);
    if at.Some? then xs[at.value := a] else xs + [a]
  }

  lemma UpsertIsUpserted(classes: seq<Class>, flags: WriteFlags, ws: seq<Window>, xs: seq<Adoption>, a: Adoption)
    requires LiveAdoption(a)
    requires Statements.UpsertAdoption(classes, flags, ws, xs, a).Ok?
    ensures Statements.UpsertAdoption(classes, flags, ws, xs, a).value == Upserted(xs, a)
  {
  }

  /**
   * After a decision the pair has exactly one live adoption row, the decision itself;
   * deciding again overwrites that row rather than adding one.
   */
  lemma DecisionIsTheOnlyOne(xs: seq<Adoption>, a: Adoption)
    requires AdoptionsUnique(xs) && LiveAdoption(a)
    ensures var ys := Upserted(xs, a);
      (exists i :: 0 <= i < |ys| && ys[i] == a)
      && forall i :: 0 <= i < |ys| && LiveAdoption(ys[i]) && ys[i].windowId == a.windowId && ys[i].teamId == a.teamId ==> ys[i] == a
    ensures |Upserted(Upserted(xs, a), a)| == |Upserted(xs, a)|
  {
    var ys := Upserted(xs, a);
    var at := Statements.AdoptionFor(xs, a.windowId, a.teamId);
    var k := if at.Some? then at.value else |xs|;
    assert forall i :: 0 <= i < |ys| ==> ys[i] == if i == k then a else xs[i];
    OnlyRowForPair(xs, a.windowId, a.teamId);
    assert LiveAdoption(ys[k]) && ys[k].windowId == a.windowId && ys[k].teamId == a.teamId;
  }

  /** Under the unique index, the row AdoptionFor finds is the only live one for the pair. */
  lemma OnlyRowForPair(xs: seq<Adoption>, windowId: Id, teamId: Id)
    requires AdoptionsUnique(xs)
    ensures var at := Statements.AdoptionFor(xs, windowId, teamId);
      forall i :: 0 <= i < |xs| && LiveAdoption(xs[i]) && xs[i].windowId == windowId && xs[i].teamId == teamId ==>
        at.Some? && i == at.value
  {
  }
}
