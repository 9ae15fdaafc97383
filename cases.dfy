/**
 * The case library routes (server/src/routes/v1/cases.ts): staff of a writable class
 * add, edit and soft-delete the project cases students may choose from; class members
 * list and read the live ones. Every write is audited on the case_library table.
 */
module Cases {
  import opened Wrappers
  import opened Schema
  import opened HttpErrors
  import opened Store
  import opened Helpers
  import Statements
  import Queries
  import Teams

  const CASES_TABLE := "case_library"
  const CREATE_ACTION := "case.create"
  const UPDATE_ACTION := "case.update"
  const DELETE_ACTION := "case.delete"

  predicate LiveCase(c: CaseEntry)
  {
    c.deletedAt.None?
  }

  /** The live case row, else 404 "Case not found". */
  function GetCase(cs: seq<CaseEntry>, caseId: Id): (r: Result<CaseEntry, HttpError>)
    ensures r.Ok? <==> Has(cs, caseId) && LiveCase(cs[caseId - 1])
    ensures r.Ok? ==> r.value == cs[caseId - 1]
    ensures r.Err? ==> r.error == NotFound("Case not found")
  {
    if Has(cs, caseId) && LiveCase(cs[caseId - 1]) then Ok(cs[caseId - 1]) else Err(NotFound("Case not found"))
  }

  /** UPDATE case_library SET ... WHERE id = ? for a row of a writable class. */
  method SetCase(db: Db, id: Id, c: CaseEntry)
    requires Has(db.cases, id) && Teams.ClassWritable(db.classes, c.classId)
    modifies db`cases
    ensures db.cases == old(db.cases)[id - 1 := c]
  {
    WritableClassPassesGuard(db.classes, db.flags, c.classId);
    var xs := Statements.UpdateCase(db.classes, db.flags, db.cases, id, c);
    db.cases := xs.value;
  }

  /* ---------- POST /classes/:classId/cases ---------- */

  /** The create body: a title, and optional description, tags and attachment file ids. */
  datatype CaseBody = CaseBody(title: string, description: Option<string>, tags: Option<string>,
                               attachmentFileIds: Option<seq<Id>>)

  /**
   * The create guards in order: a login (401), staff of the class (403), a live class
   * (404) that is not archived (403). The new row is live, created by the caller, and
   * carries an empty attachment list when none is given.
   */
  function CreateCheck(classes: seq<Class>, ts: seq<ClassTeacher>, user: Option<Actor>, classId: Id, b: CaseBody)
    : (r: Result<CaseEntry, HttpError>)
    ensures AssertClassTeacher(ts, user, classId).Err? ==> r == Err(AssertClassTeacher(ts, user, classId).error)
    ensures AssertClassTeacher(ts, user, classId).Ok? && GetClass(classes, classId).Err? ==>
      r == Err(NotFound("Class not found"))
    ensures r.Ok? <==> AssertClassTeacher(ts, user, classId).Ok? && Teams.ClassWritable(classes, classId)
    ensures r.Ok? ==>
      r.value == CaseEntry(classId, user.value.id, b.title, b.description, b.tags, b.attachmentFileIds.GetOr([]), None)
  {
    var me :- StaffOf(ts, user, classId);
    var cls :- GetClass(classes, classId);
    var _ :- AssertClassWritable(cls);
    Ok(CaseEntry(classId, me.id, b.title, b.description, b.tags, b.attachmentFileIds.GetOr([]), None))
  }

  /** Staff add a case to a writable class; it is appended and audited with the new row. */
  method CreateCase(db: Db, ctx: Ctx, classId: Id, b: CaseBody) returns (r: Result<Id, HttpError>)
    requires db.Valid()
    modifies db`cases, db.journal`audit
    ensures db.Valid()
    ensures r.Ok? <==> old(CreateCheck(db.classes, db.classTeachers, ctx.user, classId, b)).Ok?
    ensures r.Err? ==> r.error == old(CreateCheck(db.classes, db.classTeachers, ctx.user, classId, b)).error
    ensures r.Err? ==> db.cases == old(db.cases) && db.journal.audit == old(db.journal.audit)
    ensures r.Ok? ==>
      var c := old(CreateCheck(db.classes, db.classTeachers, ctx.user, classId, b)).value;
      r.value == |old(db.cases)| + 1
      && db.cases == old(db.cases) + [c]
      && db.journal.audit == old(db.journal.audit)
           + [AuditRow(ctx, ctx.user.value, CREATE_ACTION, CASES_TABLE, IdText(r.value), None,
                       Some(CaseSnap(r.value, c)), Some(classId), None, None)]
  {
    var c :- CreateCheck(db.classes, db.classTeachers, ctx.user, classId, b);
    WritableClassPassesGuard(db.classes, db.flags, classId);
    var xs := Statements.InsertCase(db.classes, db.flags, db.cases, c);
    var id := |db.cases| + 1;
    db.cases := xs.value;
    db.journal.WriteAudit(ctx, CREATE_ACTION, CASES_TABLE, IdText(id), None, Some(CaseSnap(id, c)),
                          Some(classId), None, None);
    r := Ok(id);
  }

  /* ---------- GET /classes/:classId/cases and GET /cases/:caseId ---------- */

  predicate InClass(c: CaseEntry, classId: Id)
  {
    c.classId == classId && LiveCase(c)
  }

  /** Members of the class see its live cases, newest first. */
  function ListCases(ts: seq<ClassTeacher>, es: seq<Enrollment>, cs: seq<CaseEntry>, user: Option<Actor>, classId: Id)
    : (r: Result<seq<Id>, HttpError>)
    ensures r.Ok? <==> AssertClassReadable(ts, es, user, classId).Ok?
    ensures r.Err? ==> r.error == AssertClassReadable(ts, es, user, classId).error
    ensures r.Ok? ==> forall id :: id in r.value <==> Has(cs, id) && InClass(cs[id - 1], classId)
    ensures r.Ok? ==> Queries.Decreasing(r.value)
  {
    var _ :- AssertClassReadable(ts, es, user, classId);
    Ok(Queries.SelectNewestFirst(cs, (c: CaseEntry) => InClass(c, classId)))
  }

  /**
   * The login comes first, so an anonymous caller learns nothing about which cases
   * exist; then the live row (404) and the readability of its class (403).
   */
  function ReadCase(ts: seq<ClassTeacher>, es: seq<Enrollment>, cs: seq<CaseEntry>, user: Option<Actor>, id: Id)
    : (r: Result<CaseEntry, HttpError>)
    ensures user.None? ==> r == Err(Unauthorized("Login required"))
    ensures user.Some? && GetCase(cs, id).Err? ==> r == Err(NotFound("Case not found"))
    ensures r.Ok? <==>
      user.Some? && Has(cs, id) && LiveCase(cs[id - 1]) && MayReadClass(ts, es, user.value, cs[id - 1].classId)
    ensures r.Ok? ==> r.value == cs[id - 1]
  {
    var _ :- RequireUser(user);
    var c :- GetCase(cs, id);
    var _ :- AssertClassReadable(ts, es, user, c.classId);
    Ok(c)
  }

  /** Whether a case exists is hidden from anonymous callers: they see the same 401 for any id. */
  lemma AnonymousReadRevealsNothing(ts: seq<ClassTeacher>, es: seq<Enrollment>, cs: seq<CaseEntry>, id1: Id, id2: Id)
    ensures ReadCase(ts, es, cs, None, id1) == ReadCase(ts, es, cs, None, id2)
  {
  }

  /** A case the class listing shows is one its reader may open. */
  lemma ListedCaseIsReadable(ts: seq<ClassTeacher>, es: seq<Enrollment>, cs: seq<CaseEntry>, user: Option<Actor>,
                             classId: Id, id: Id)
    requires ListCases(ts, es, cs, user, classId).Ok? && id in ListCases(ts, es, cs, user, classId).value
    ensures ReadCase(ts, es, cs, user, id) == Ok(cs[id - 1])
  {
  }

  /* ---------- PATCH and DELETE /cases/:caseId ---------- */

  /**
   * The guards both edits share, in order: a login (401), a live row (404), staff of its
   * class (403), a live class (404) that is not archived (403). The result is the row
   * as it was.
   */
  function WriteCheck(classes: seq<Class>, ts: seq<ClassTeacher>, cs: seq<CaseEntry>, user: Option<Actor>, id: Id)
    : (r: Result<CaseEntry, HttpError>)
    ensures user.None? ==> r == Err(Unauthorized("Login required"))
    ensures user.Some? && GetCase(cs, id).Err? ==> r == Err(NotFound("Case not found"))
    ensures r.Ok? <==>
      (user.Some? && Has(cs, id) && LiveCase(cs[id - 1])
       && AssertClassTeacher(ts, user, cs[id - 1].classId).Ok?
       && Teams.ClassWritable(classes, cs[id - 1].classId))
    ensures r.Ok? ==> r.value == cs[id - 1]
  {
    var me :- RequireUser(user);
    var before :- GetCase(cs, id);
    var _ :- StaffOf(ts, user, before.classId);
    var cls :- GetClass(classes, before.classId);
    var _ :- AssertClassWritable(cls);
    Ok(before)
  }

  /** The edit body: every field optional. */
  datatype CasePatch = CasePatch(title: Option<string>, description: Option<string>, tags: Option<string>,
                                 attachmentFileIds: Option<seq<Id>>)

  /**
   * The edited row: each supplied field replaces the old one (an attachment list, even
   * an empty one, is truthy and replaces the old list); the class, the creator and the
   * deletion mark stay.
   */
  function Patched(before: CaseEntry, p: CasePatch): (r: CaseEntry)
    ensures r.classId == before.classId && r.createdBy == before.createdBy && r.deletedAt == before.deletedAt
    ensures p.title.None? ==> r.title == before.title
    ensures p.title.Some? ==> r.title == p.title.value
    ensures p.description.None? ==> r.description == before.description
    ensures p.description.Some? ==> r.description == p.description
    ensures p.tags.None? ==> r.tags == before.tags
    ensures p.tags.Some? ==> r.tags == p.tags
    ensures p.attachmentFileIds.None? ==> r.attachments == before.attachments
    ensures p.attachmentFileIds.Some? ==> r.attachments == p.attachmentFileIds.value
  {
    before.(title := p.title.GetOr(before.title),
            description := if p.description.Some? then p.description else before.description,
            tags := if p.tags.Some? then p.tags else before.tags,
            attachments := p.attachmentFileIds.GetOr(before.attachments))
  }

  /** An edit that supplies nothing leaves the row as it was. */
  lemma EmptyPatchKeepsCase(before: CaseEntry)
    ensures Patched(before, CasePatch(None, None, None, None)) == before
  {
  }

  /** Applying the same edit twice is the same as applying it once. */
  lemma PatchIdempotent(before: CaseEntry, p: CasePatch)
    ensures Patched(Patched(before, p), p) == Patched(before, p)
  {
  }

  /** Staff edit a live case of a writable class; the update is audited with both rows. */
  method PatchCase(db: Db, ctx: Ctx, id: Id, p: CasePatch) returns (r: Result<CaseEntry, HttpError>)
    requires db.Valid()
    modifies db`cases, db.journal`audit
    ensures db.Valid()
    ensures r.Ok? <==> old(WriteCheck(db.classes, db.classTeachers, db.cases, ctx.user, id)).Ok?
    ensures r.Err? ==> r.error == old(WriteCheck(db.classes, db.classTeachers, db.cases, ctx.user, id)).error
    ensures r.Err? ==> db.cases == old(db.cases) && db.journal.audit == old(db.journal.audit)
    ensures r.Ok? ==>
      var before := old(db.cases)[id - 1];
      r.value == Patched(before, p)
      && db.cases == old(db.cases)[id - 1 := r.value]
      && db.journal.audit == old(db.journal.audit)
           + [AuditRow(ctx, ctx.user.value, UPDATE_ACTION, CASES_TABLE, IdText(id),
                       Some(CaseSnap(id, before)), Some(CaseSnap(id, r.value)), Some(before.classId), None, None)]
  {
    var before :- WriteCheck(db.classes, db.classTeachers, db.cases, ctx.user, id);
    var after := Patched(before, p);
    SetCase(db, id, after);
    db.journal.WriteAudit(ctx, UPDATE_ACTION, CASES_TABLE, IdText(id), Some(CaseSnap(id, before)),
                          Some(CaseSnap(id, after)), Some(before.classId), None, None);
    r := Ok(after);
  }

  /** The soft delete: the row stays, stamped with the deletion time. */
  function Deleted(c: CaseEntry, now: Time): (r: CaseEntry)
    ensures !LiveCase(r)
    ensures r.(deletedAt := c.deletedAt) == c
  {
    c.(deletedAt := Some(now))
  }

  /** Staff soft-delete a live case of a writable class; the delete is audited with the old row. */
  method DeleteCase(db: Db, ctx: Ctx, id: Id) returns (r: Result<(), HttpError>)
    requires db.Valid()
    modifies db`cases, db.journal`audit
    ensures db.Valid()
    ensures r.Ok? <==> old(WriteCheck(db.classes, db.classTeachers, db.cases, ctx.user, id)).Ok?
    ensures r.Err? ==> r.error == old(WriteCheck(db.classes, db.classTeachers, db.cases, ctx.user, id)).error
    ensures r.Err? ==> db.cases == old(db.cases) && db.journal.audit == old(db.journal.audit)
    ensures r.Ok? ==>
      var before := old(db.cases)[id - 1];
      db.cases == old(db.cases)[id - 1 := Deleted(before, ctx.now)]
      && db.journal.audit == old(db.journal.audit)
           + [AuditRow(ctx, ctx.user.value, DELETE_ACTION, CASES_TABLE, IdText(id),
                       Some(CaseSnap(id, before)), None, Some(before.classId), None, None)]
  {
    var before :- WriteCheck(db.classes, db.classTeachers, db.cases, ctx.user, id);
    SetCase(db, id, Deleted(before, ctx.now));
    db.journal.WriteAudit(ctx, DELETE_ACTION, CASES_TABLE, IdText(id), Some(CaseSnap(id, before)),
                          None, Some(before.classId), None, None);
    r := Ok(());
  }

  /**
   * After a soft delete the case is gone from every route: a logged-in reader and any
   * later edit or delete get 404, and the class listing leaves it out.
   */
  lemma DeletedCaseIsGone(classes: seq<Class>, ts: seq<ClassTeacher>, es: seq<Enrollment>, cs: seq<CaseEntry>,
                          user: Option<Actor>, id: Id, now: Time)
    requires Has(cs, id) && user.Some?
    ensures var gone := cs[id - 1 := Deleted(cs[id - 1], now)];
      && ReadCase(ts, es, gone, user, id) == Err(NotFound("Case not found"))
      && WriteCheck(classes, ts, gone, user, id) == Err(NotFound("Case not found"))
      && (ListCases(ts, es, gone, user, cs[id - 1].classId).Ok? ==>
            id !in ListCases(ts, es, gone, user, cs[id - 1].classId).value)
  {
    var gone := cs[id - 1 := Deleted(cs[id - 1], now)];
    assert !LiveCase(gone[id - 1]);
  }
}
