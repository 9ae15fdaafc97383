/**
 * The assignment routes (server/src/routes/v1/assignments.ts): staff create, edit and
 * soft-delete the assignments of a writable class, and class members list and read the
 * live ones. Every write is audited on the assignments table.
 */
module Assignments {
  import opened Wrappers
  import opened Schema
  import opened HttpErrors
  import opened Store
  import opened Helpers
  import Statements
  import Queries
  import Stages
  import Teams
  import JsonValue

  const ASSIGNMENTS_TABLE := "assignments"
  const CREATE_ACTION := "assignment.create"
  const UPDATE_ACTION := "assignment.update"
  const DELETE_ACTION := "assignment.delete"

  /** The live assignment row, else 404 "Assignment not found". */
  function GetAssignment(asgs: seq<Assignment>, assignmentId: Id): (r: Result<Assignment, HttpError>)
    ensures r.Ok? <==> Has(asgs, assignmentId) && LiveAssignment(asgs[assignmentId - 1])
    ensures r.Ok? ==> r.value == asgs[assignmentId - 1]
    ensures r.Err? ==> r.error == NotFound("Assignment not found")
  {
    if Has(asgs, assignmentId) && LiveAssignment(asgs[assignmentId - 1]) then Ok(asgs[assignmentId - 1])
    else Err(NotFound("Assignment not found"))
  }

  /** isStageKey on the key as sent, else 400 "Invalid stageKey". */
  function CheckStageKey(key: string): (r: Result<Stages.StageKey, HttpError>)
    ensures r.Ok? <==> Stages.IsStageKey(JsonValue.Str(key))
    ensures r.Ok? ==> r.value == key
    ensures r.Err? ==> r.error == BadRequest("Invalid stageKey")
  {
    if Stages.IsStageKey(JsonValue.Str(key)) then
      var k: Stages.StageKey := key;
      Ok(k)
    else Err(BadRequest("Invalid stageKey"))
  }

  /** The row as stored and returned: its id and its columns. */
  datatype Stored = Stored(id: Id, assignment: Assignment)

  /** The write of one row of a writable class: the archived-class guard lets it through. */
  method AddAssignment(db: Db, a: Assignment) returns (id: Id)
    requires Teams.ClassWritable(db.classes, a.classId)
    modifies db`assignments
    ensures id == |old(db.assignments)| + 1 && db.assignments == old(db.assignments) + [a]
  {
    WritableClassPassesGuard(db.classes, db.flags, a.classId);
    var xs := Statements.InsertAssignment(db.classes, db.flags, db.assignments, a);
    id := |db.assignments| + 1;
    db.assignments := xs.value;
  }

  /** UPDATE assignments SET ... WHERE id = ? for a row of a writable class. */
  method SetAssignment(db: Db, id: Id, a: Assignment)
    requires Has(db.assignments, id) && Teams.ClassWritable(db.classes, a.classId)
    modifies db`assignments
    ensures db.assignments == old(db.assignments)[id - 1 := a]
  {
    WritableClassPassesGuard(db.classes, db.flags, a.classId);
    var xs := Statements.UpdateAssignment(db.classes, db.flags, db.assignments, id, a);
    db.assignments := xs.value;
  }

  /* ---------- POST /classes/:classId/assignments ---------- */

  /** The create body: the stage key as sent, the type, the title, an optional description, the deadline. */
  datatype AssignmentBody = AssignmentBody(stageKey: string, kind: AssignmentKind, title: string,
                                           description: Option<string>, deadline: string)

  /**
   * The create guards in order: staff of the class (401/403), a live class (404), not
   * archived (403), then a valid stage key (400). The new row is live and created by the
   * caller.
   */
  function CreateCheck(classes: seq<Class>, ts: seq<ClassTeacher>, user: Option<Actor>, classId: Id,
                       body: AssignmentBody): (r: Result<Assignment, HttpError>)
    ensures r.Ok? <==>
      (AssertClassTeacher(ts, user, classId).Ok? && Teams.ClassWritable(classes, classId)
       && Stages.IsStageKey(JsonValue.Str(body.stageKey)))
    ensures AssertClassTeacher(ts, user, classId).Err? ==> r == Err(AssertClassTeacher(ts, user, classId).error)
    ensures (AssertClassTeacher(ts, user, classId).Ok? && GetClass(classes, classId).Ok?
             && classes[classId - 1].status == Archived) ==> r == Err(Forbidden("Class is archived (read-only)."))
    ensures r.Ok? ==>
      (r.value.classId == classId && r.value.createdBy == user.value.id && r.value.deletedAt.None?
       && r.value.stageKey == body.stageKey && r.value.kind == body.kind && r.value.title == body.title
       && r.value.description == body.description && r.value.deadline == body.deadline)
  {
    var me :- StaffOf(ts, user, classId);
    var cls :- GetClass(classes, classId);
    var _ :- AssertClassWritable(cls);
    var key :- CheckStageKey(body.stageKey);
    Ok(Assignment(classId, key, body.kind, body.title, body.description, body.deadline, me.id, None))
  }

  /** Staff add an assignment to a writable class; it is appended and audited with the new row. */
  method CreateAssignment(db: Db, ctx: Ctx, classId: Id, body: AssignmentBody) returns (r: Result<Stored, HttpError>)
    requires db.Valid()
    modifies db`assignments, db.journal`audit
    ensures db.Valid()
    ensures r.Ok? <==> old(CreateCheck(db.classes, db.classTeachers, ctx.user, classId, body)).Ok?
    ensures r.Err? ==> r.error == old(CreateCheck(db.classes, db.classTeachers, ctx.user, classId, body)).error
    ensures r.Err? ==> db.assignments == old(db.assignments) && db.journal.audit == old(db.journal.audit)
    ensures r.Ok? ==>
      var a := old(CreateCheck(db.classes, db.classTeachers, ctx.user, classId, body)).value;
      r.value == Stored(|old(db.assignments)| + 1, a)
      && db.assignments == old(db.assignments) + [a]
      && db.journal.audit == old(db.journal.audit)
           + [AuditRow(ctx, ctx.user.value, CREATE_ACTION, ASSIGNMENTS_TABLE, IdText(r.value.id), None,
                       Some(AssignmentSnap(r.value.id, a)), Some(classId), None, None)]
  {
    var a :- CreateCheck(db.classes, db.classTeachers, ctx.user, classId, body);
    var id := AddAssignment(db, a);
    db.journal.WriteAudit(ctx, CREATE_ACTION, ASSIGNMENTS_TABLE, IdText(id), None, Some(AssignmentSnap(id, a)),
                          Some(classId), None, None);
    r := Ok(Stored(id, a));
  }

  /* ---------- GET /classes/:classId/assignments and GET /assignments/:assignmentId ---------- */

  /** A live assignment of the class. */
  predicate InClass(a: Assignment, classId: Id)
  {
    a.classId == classId && LiveAssignment(a)
  }

  /** Members of the class see its live assignments, newest first. */
  function ListAssignments(ts: seq<ClassTeacher>, es: seq<Enrollment>, asgs: seq<Assignment>, user: Option<Actor>,
                           classId: Id): (r: Result<seq<Id>, HttpError>)
    ensures r.Ok? <==> AssertClassReadable(ts, es, user, classId).Ok?
    ensures r.Err? ==> r.error == AssertClassReadable(ts, es, user, classId).error
    ensures r.Ok? ==> forall id :: id in r.value <==> Has(asgs, id) && InClass(asgs[id - 1], classId)
    ensures r.Ok? ==> Queries.Decreasing(r.value)
  {
    var _ :- AssertClassReadable(ts, es, user, classId);
    Ok(Queries.SelectNewestFirst(asgs, (a: Assignment) => InClass(a, classId)))
  }

  /**
   * The row lookup comes before any login check: a missing or deleted assignment is 404
   * to everyone; a live one is returned to whoever may read its class.
   */
  function ReadAssignment(ts: seq<ClassTeacher>, es: seq<Enrollment>, asgs: seq<Assignment>, user: Option<Actor>,
                          id: Id): (r: Result<Assignment, HttpError>)
    ensures GetAssignment(asgs, id).Err? ==> r == Err(NotFound("Assignment not found"))
    ensures r.Ok? <==>
      (Has(asgs, id) && LiveAssignment(asgs[id - 1])
       && AssertClassReadable(ts, es, user, asgs[id - 1].classId).Ok?)
    ensures r.Ok? ==> r.value == asgs[id - 1]
  {
    var a :- GetAssignment(asgs, id);
    var _ :- AssertClassReadable(ts, es, user, a.classId);
    Ok(a)
  }

  /* ---------- PATCH and DELETE /assignments/:assignmentId ---------- */

  /**
   * The guards both edits share, in order: a login (401), a live row (404), staff of its
   * class (403), a live class (404) that is not archived (403). The result is the row
   * as it was.
   */
  function WriteCheck(classes: seq<Class>, ts: seq<ClassTeacher>, asgs: seq<Assignment>, user: Option<Actor>,
                      id: Id): (r: Result<Assignment, HttpError>)
    ensures user.None? ==> r == Err(Unauthorized("Login required"))
    ensures user.Some? && GetAssignment(asgs, id).Err? ==> r == Err(NotFound("Assignment not found"))
    ensures r.Ok? <==>
      (user.Some? && Has(asgs, id) && LiveAssignment(asgs[id - 1])
       && AssertClassTeacher(ts, user, asgs[id - 1].classId).Ok?
       && Teams.ClassWritable(classes, asgs[id - 1].classId))
    ensures r.Ok? ==> r.value == asgs[id - 1]
  {
    var me :- RequireUser(user);
    var before :- GetAssignment(asgs, id);
    var _ :- StaffOf(ts, user, before.classId);
    var cls :- GetClass(classes, before.classId);
    var _ :- AssertClassWritable(cls);
    Ok(before)
  }

  /** The edit body: every field optional. */
  datatype AssignmentPatch = AssignmentPatch(stageKey: Option<string>, kind: Option<AssignmentKind>,
                                             title: Option<string>, description: Option<string>,
                                             deadline: Option<string>)

  /** The stage key the edit stores: a supplied key must be a stage key; without one the old key stays. */
  function PatchKey(supplied: Option<string>, before: Stages.StageKey): (r: Result<Stages.StageKey, HttpError>)
    ensures supplied.None? ==> r == Ok(before)
    ensures supplied.Some? ==> (r.Ok? <==> Stages.IsStageKey(JsonValue.Str(supplied.value)))
    ensures supplied.Some? && r.Ok? ==> r.value == supplied.value
    ensures r.Err? ==> r.error == BadRequest("Invalid stageKey")
  {
    if supplied.None? then Ok(before) else CheckStageKey(supplied.value)
  }

  /**
   * The stage key as the handler computes it: the check runs only for a truthy key, so
   * an empty one skips it, and `??` keeps the empty string because it is not nullish.
   */
  function PatchKeyAsWritten(supplied: Option<string>, before: string): (r: Result<string, HttpError>)
    ensures r.Err? <==> supplied.Some? && supplied.value != "" && !Stages.IsStageKey(JsonValue.Str(supplied.value))
    ensures r.Ok? ==> r.value == supplied.GetOr(before)
  {
    if supplied.Some? && supplied.value != "" && !Stages.IsStageKey(JsonValue.Str(supplied.value)) then
      Err(BadRequest("Invalid stageKey"))
    else Ok(supplied.GetOr(before))
  }

  /** An empty stage key gets past the check as written and is stored, though it names no stage. */
  lemma EmptyStageKeyIsStored(before: Stages.StageKey)
    ensures PatchKeyAsWritten(Some(""), before) == Ok("")
    ensures !Stages.IsStageKey(JsonValue.Str(""))
    ensures PatchKey(Some(""), before) == Err(BadRequest("Invalid stageKey"))
  {
  }

  /** On every other input the check as written and the corrected one agree. */
  lemma PatchKeyAgreesUnlessEmpty(supplied: Option<string>, before: Stages.StageKey)
    requires supplied != Some("")
    ensures PatchKeyAsWritten(supplied, before).Ok? <==> PatchKey(supplied, before).Ok?
    ensures PatchKey(supplied, before).Ok? ==> PatchKeyAsWritten(supplied, before).value == PatchKey(supplied, before).value
  {
  }

  /** The edited row: each supplied field replaces the old value; the rest, and the class, stay. */
  function Patched(before: Assignment, key: Stages.StageKey, p: AssignmentPatch): Assignment
  {
    before.(stageKey := key, kind := p.kind.GetOr(before.kind), title := p.title.GetOr(before.title),
            description := if p.description.Some? then p.description else before.description,
            deadline := p.deadline.GetOr(before.deadline))
  }

  /** The edit guards: the shared ones, then the stage key; the result is the row after the edit. */
  function PatchCheck(classes: seq<Class>, ts: seq<ClassTeacher>, asgs: seq<Assignment>, user: Option<Actor>,
                      id: Id, p: AssignmentPatch): (r: Result<Assignment, HttpError>)
    ensures WriteCheck(classes, ts, asgs, user, id).Err? ==> r == Err(WriteCheck(classes, ts, asgs, user, id).error)
    ensures r.Ok? <==>
      (WriteCheck(classes, ts, asgs, user, id).Ok?
       && (p.stageKey.Some? ==> Stages.IsStageKey(JsonValue.Str(p.stageKey.value))))
    ensures r.Ok? ==>
      var before := asgs[id - 1];
      && r.value.classId == before.classId && r.value.createdBy == before.createdBy
      && r.value.deletedAt == before.deletedAt
      && r.value.stageKey == p.stageKey.GetOr(before.stageKey)
      && r.value.kind == p.kind.GetOr(before.kind)
      && r.value.title == p.title.GetOr(before.title)
      && r.value.description == (if p.description.Some? then p.description else before.description)
      && r.value.deadline == p.deadline.GetOr(before.deadline)
  {
    var before :- WriteCheck(classes, ts, asgs, user, id);
    var key :- PatchKey(p.stageKey, before.stageKey);
    Ok(Patched(before, key, p))
  }

  /** An edit that supplies nothing leaves the row as it was. */
  lemma EmptyPatchKeepsRow(classes: seq<Class>, ts: seq<ClassTeacher>, asgs: seq<Assignment>, user: Option<Actor>, id: Id)
    requires WriteCheck(classes, ts, asgs, user, id).Ok?
    ensures PatchCheck(classes, ts, asgs, user, id, AssignmentPatch(None, None, None, None, None)) == Ok(asgs[id - 1])
  {
  }

  /** Repeating an edit on its own result changes nothing more. */
  lemma PatchIdempotent(classes: seq<Class>, ts: seq<ClassTeacher>, asgs: seq<Assignment>, user: Option<Actor>,
                        id: Id, p: AssignmentPatch)
    requires PatchCheck(classes, ts, asgs, user, id, p).Ok?
    ensures var after := PatchCheck(classes, ts, asgs, user, id, p).value;
            PatchCheck(classes, ts, asgs[id - 1 := after], user, id, p) == Ok(after)
  {
    var after := PatchCheck(classes, ts, asgs, user, id, p).value;
    var asgs' := asgs[id - 1 := after];
    assert asgs'[id - 1] == after;
    assert WriteCheck(classes, ts, asgs', user, id) == Ok(after);
  }

  /** Staff edit a live assignment of a writable class; the update is audited with both rows. */
  method PatchAssignment(db: Db, ctx: Ctx, id: Id, p: AssignmentPatch) returns (r: Result<Assignment, HttpError>)
    requires db.Valid()
    modifies db`assignments, db.journal`audit
    ensures db.Valid()
    ensures r.Ok? <==> old(PatchCheck(db.classes, db.classTeachers, db.assignments, ctx.user, id, p)).Ok?
    ensures r.Err? ==> r.error == old(PatchCheck(db.classes, db.classTeachers, db.assignments, ctx.user, id, p)).error
    ensures r.Err? ==> db.assignments == old(db.assignments) && db.journal.audit == old(db.journal.audit)
    ensures r.Ok? ==>
      var before := old(db.assignments)[id - 1];
      r.value == old(PatchCheck(db.classes, db.classTeachers, db.assignments, ctx.user, id, p)).value
      && db.assignments == old(db.assignments)[id - 1 := r.value]
      && db.journal.audit == old(db.journal.audit)
           + [AuditRow(ctx, ctx.user.value, UPDATE_ACTION, ASSIGNMENTS_TABLE, IdText(id),
                       Some(AssignmentSnap(id, before)), Some(AssignmentSnap(id, r.value)),
                       Some(before.classId), None, None)]
  {
    var after :- PatchCheck(db.classes, db.classTeachers, db.assignments, ctx.user, id, p);
    var before := db.assignments[id - 1];
    SetAssignment(db, id, after);
    db.journal.WriteAudit(ctx, UPDATE_ACTION, ASSIGNMENTS_TABLE, IdText(id), Some(AssignmentSnap(id, before)),
                          Some(AssignmentSnap(id, after)), Some(before.classId), None, None);
    r := Ok(after);
  }

  /** The soft delete: the row stays, stamped with the deletion time. */
  function Deleted(a: Assignment, now: Time): Assignment
  {
    a.(deletedAt := Some(now))
  }

  /** Staff soft-delete a live assignment of a writable class; the delete is audited with the old row. */
  method DeleteAssignment(db: Db, ctx: Ctx, id: Id) returns (r: Result<(), HttpError>)
    requires db.Valid()
    modifies db`assignments, db.journal`audit
    ensures db.Valid()
    ensures r.Ok? <==> old(WriteCheck(db.classes, db.classTeachers, db.assignments, ctx.user, id)).Ok?
    ensures r.Err? ==> r.error == old(WriteCheck(db.classes, db.classTeachers, db.assignments, ctx.user, id)).error
    ensures r.Err? ==> db.assignments == old(db.assignments) && db.journal.audit == old(db.journal.audit)
    ensures r.Ok? ==>
      var before := old(db.assignments)[id - 1];
      db.assignments == old(db.assignments)[id - 1 := Deleted(before, ctx.now)]
      && db.journal.audit == old(db.journal.audit)
           + [AuditRow(ctx, ctx.user.value, DELETE_ACTION, ASSIGNMENTS_TABLE, IdText(id),
                       Some(AssignmentSnap(id, before)), None, Some(before.classId), None, None)]
  {
    var before :- WriteCheck(db.classes, db.classTeachers, db.assignments, ctx.user, id);
    SetAssignment(db, id, Deleted(before, ctx.now));
    db.journal.WriteAudit(ctx, DELETE_ACTION, ASSIGNMENTS_TABLE, IdText(id), Some(AssignmentSnap(id, before)),
                          None, Some(before.classId), None, None);
    r := Ok(());
  }

  /**
   * After a soft delete the assignment is gone from every route: reading it is 404 to
   * everyone, editing or deleting it again is 404 to any logged-in user, and the class
   * listing leaves it out.
   */
  lemma DeletedAssignmentIsGone(classes: seq<Class>, ts: seq<ClassTeacher>, es: seq<Enrollment>,
                                asgs: seq<Assignment>, user: Option<Actor>, id: Id, now: Time, p: AssignmentPatch)
    requires Has(asgs, id)
    ensures var gone := asgs[id - 1 := Deleted(asgs[id - 1], now)];
      && ReadAssignment(ts, es, gone, user, id) == Err(NotFound("Assignment not found"))
      && (user.Some? ==> WriteCheck(classes, ts, gone, user, id) == Err(NotFound("Assignment not found")))
      && (user.Some? ==> PatchCheck(classes, ts, gone, user, id, p) == Err(NotFound("Assignment not found")))
      && (ListAssignments(ts, es, gone, user, asgs[id - 1].classId).Ok? ==>
            id !in ListAssignments(ts, es, gone, user, asgs[id - 1].classId).value)
  {
    var gone := asgs[id - 1 := Deleted(asgs[id - 1], now)];
    assert !LiveAssignment(gone[id - 1]);
  }

  /** Deleting an assignment leaves every other row as it was, and the class listing loses exactly it. */
  lemma DeleteTakesOnlyThatRow(ts: seq<ClassTeacher>, es: seq<Enrollment>, asgs: seq<Assignment>,
                               user: Option<Actor>, id: Id, now: Time)
    requires Has(asgs, id) && LiveAssignment(asgs[id - 1])
    requires ListAssignments(ts, es, asgs, user, asgs[id - 1].classId).Ok?
    ensures var classId := asgs[id - 1].classId;
      var gone := asgs[id - 1 := Deleted(asgs[id - 1], now)];
      && ListAssignments(ts, es, gone, user, classId).Ok?
      && (forall other :: other != id ==>
            (other in ListAssignments(ts, es, gone, user, classId).value
             <==> other in ListAssignments(ts, es, asgs, user, classId).value))
      && id in ListAssignments(ts, es, asgs, user, classId).value
  {
    var classId := asgs[id - 1].classId;
    var gone := asgs[id - 1 := Deleted(asgs[id - 1], now)];
    forall other | other != id && Has(asgs, other) ensures gone[other - 1] == asgs[other - 1] {
    }
  }
}
