/**
 * The class routes (server/src/routes/v1/classes.ts): creating a class, listing and
 * reading classes, editing a class's names, status and settings, the roster (add,
 * import, edit and remove students), the teacher list (add and remove teachers), and
 * the caller's active class.
 *
 * The classes table has no triggers; class_students and class_teachers carry the
 * archived-class write guard, which the handlers' own writability check makes moot.
 */
module Classes {
  import opened Wrappers
  import opened Schema
  import opened HttpErrors
  import opened Store
  import opened Helpers
  import Statements
  import Queries
  import Teams
  import Auth
  import Js
  import JsonValue
  import ErrorHandler

  const CLASSES_TABLE := "classes"
  const STUDENTS_TABLE := "class_students"
  const TEACHERS_TABLE := "class_teachers"
  const CREATE_ACTION := "class.create"
  const UPDATE_ACTION := "class.update"
  const STATUS_ACTION := "class.status"
  const SETTINGS_ACTION := "class.settings"
  const STUDENT_ADD_ACTION := "class.student.add"
  const STUDENT_IMPORT_ACTION := "class.student.import"
  const STUDENT_UPDATE_ACTION := "class.student.update"
  const STUDENT_REMOVE_ACTION := "class.student.remove"
  const TEACHER_ADD_ACTION := "class.teacher.add"
  const TEACHER_REMOVE_ACTION := "class.teacher.remove"

  /** `${classId}:${userId}`, the target id of the roster and teacher audits. */
  function PairText(classId: Id, userId: Id): string
  {
    IdText(classId) + ":" + IdText(userId)
  }

  /** A class row as stored and returned: its id and its columns. */
  datatype Stored = Stored(id: Id, row: Class)

  /** UPDATE classes SET ... WHERE id = ?: the table has no triggers, so the write always lands. */
  method SetClass(db: Db, id: Id, c: Class)
    requires Has(db.classes, id)
    modifies db`classes
    ensures db.classes == old(db.classes)[id - 1 := c]
  {
    db.classes := db.classes[id - 1 := c];
  }

  /* ---------- POST /classes ---------- */

  /** The create body; `config` is whatever JSON was sent, `ownerTeacherId` an admin's choice. */
  datatype ClassBody = ClassBody(courseName: string, term: string, config: Option<JsonValue.Json>,
                                 ownerTeacherId: Option<Id>)

  /** The create guards: a login (401), then the teacher or admin role (403 "Teacher required"). */
  function CreateCheck(user: Option<Actor>): (r: Result<Actor, HttpError>)
    ensures r.Ok? <==> user.Some? && (user.value.role == Auth.Teacher || user.value.role == Auth.Admin)
    ensures user.None? ==> r == Err(Unauthorized("Login required"))
    ensures user.Some? && r.Err? ==> r.error == Forbidden("Teacher required")
    ensures r.Ok? ==> r.value == user.value
  {
    var me :- RequireUser(user);
    if me.role != Auth.Teacher && me.role != Auth.Admin then Err(Forbidden("Teacher required")) else Ok(me)
  }

  /** The owner of a new class: a teacher creates for themselves; an admin names one, by default themselves. */
  function OwnerOf(me: Actor, ownerTeacherId: Option<Id>): Id
  {
    if me.role == Auth.Teacher then me.id else ownerTeacherId.GetOr(me.id)
  }

  /** `config ?? {}`: a missing or null config is stored as the empty object. */
  function ConfigOf(config: Option<JsonValue.Json>): JsonValue.Json
  {
    if config.None? || config.value.Null? then JsonValue.Obj([]) else config.value
  }

  /** The row the insert stores: the names and config as sent, the column defaults for the rest. */
  function NewClass(body: ClassBody): (c: Class)
    ensures c.status == ClassActive && c.deletedAt.None? && c.allowStudentDownloadAfterArchived
    ensures c.courseName == body.courseName && c.term == body.term
    ensures body.config.None? ==> c.config == JsonValue.Obj([])
    ensures body.config.Some? && !body.config.value.Null? ==> c.config == body.config.value
  {
    Class(body.courseName, body.term, ConfigOf(body.config), ClassActive, true, None)
  }

  /**
   * What the handler meets at `db.transcation(...)`: the database object has no such
   * method. The message is illustrative: its wording depends on the JavaScript engine,
   * and what matters is that it holds none of the error hook's keywords.
   */
  const TRANSACTION_TYPO: Thrown := ErrorInstance("TypeError", "db.transcation is not a function", [])

  /**
   * POST /classes as written: past the role check the handler calls the misspelt
   * `db.transcation`, which throws before any statement runs; the hook answers it.
   */
  function CreateClassAsWritten(user: Option<Actor>, body: ClassBody): (r: Result<Stored, HttpError>)
    ensures CreateCheck(user).Err? ==> r == Err(CreateCheck(user).error)
    ensures CreateCheck(user).Ok? ==> r == Err(ErrorHandler.Handle(TRANSACTION_TYPO))
  {
    var _ :- CreateCheck(user);
    Err(ErrorHandler.Handle(TRANSACTION_TYPO))
  }

  /** The TypeError matches no keyword of the error hook, so it is answered with a generic 500. */
  lemma TransactionTypoIsInternal()
    ensures ErrorHandler.Handle(TRANSACTION_TYPO) == Internal(DEFAULT_FALLBACK)
  {
    TypoMessageIsInternal();
  }

  lemma TypoMessageIsInternal()
    ensures ErrorHandler.Classify("db.transcation is not a function") == Internal(DEFAULT_FALLBACK)
  {
    var m := Js.ToLower("db.transcation is not a function");
    TypoMessageIsLowerCase();
    TypoMessageHasNoOu();
    Js.NotContainsByChar(m, "write blocked", 'k');
    Js.NotContainsByChar(m, "locked", 'k');
    Js.NotContainsByPair(m, "not found", 5);
    Js.NotContainsByChar(m, "bad request", 'q');
    Js.NotContainsByChar(m, "invalid", 'v');
  }

  lemma TypoMessageIsLowerCase()
    ensures Js.ToLower("db.transcation is not a function") == "db.transcation is not a function"
  {
    var s := "db.transcation is not a function";
    forall i | 0 <= i < |s| ensures Js.LowerChar(s[i]) == s[i] {
      assert s[i] in "abcdefghijklmnopqrstuvwxyz. ";
    }
  }

  lemma TypoMessageHasNoOu()
    ensures var s := "db.transcation is not a function";
      'k' !in s && 'q' !in s && 'v' !in s
      && forall i :: 0 <= i < |s| - 1 ==> !(s[i] == 'o' && s[i + 1] == 'u')
  {
    var s := "db.transcation is not a function";
    forall i | 0 <= i < |s| ensures s[i] != 'k' && s[i] != 'q' && s[i] != 'v' {
      assert s[i] in "abcdefghijlmnoprstuwxyz. ";
    }
  }

  /** As written, no request creates a class: teachers and admins get a generic 500. */
  lemma CreateNeverSucceedsAsWritten(user: Option<Actor>, body: ClassBody)
    ensures CreateClassAsWritten(user, body).Err?
    ensures user.Some? && user.value.role != Auth.Student ==>
      CreateClassAsWritten(user, body) == Err(Internal(DEFAULT_FALLBACK))
  {
    TransactionTypoIsInternal();
  }

  /** No class_teachers row names the id the next class will get. */
  lemma NextClassHasNoTeachers(classes: seq<Class>, ts: seq<ClassTeacher>, teacherId: Id)
    requires TeachersOfClasses(classes, ts)
    ensures !Statements.Teaches(ts, |classes| + 1, teacherId)
  {
  }

  /**
   * POST /classes as intended: in one transaction the class is inserted, its owner
   * gets an owner row in class_teachers, and the creation is audited; the class is
   * returned. Every statement succeeds, so there is nothing to roll back.
   */
  method CreateClass(db: Db, ctx: Ctx, body: ClassBody) returns (r: Result<Stored, HttpError>)
    requires db.Valid()
    modifies db`classes, db`classTeachers, db.journal`audit
    ensures db.Valid()
    ensures r.Ok? <==> CreateCheck(ctx.user).Ok?
    ensures r.Err? ==> r.error == CreateCheck(ctx.user).error
    ensures r.Err? ==> (db.classes == old(db.classes) && db.classTeachers == old(db.classTeachers)
                        && db.journal.audit == old(db.journal.audit))
    ensures r.Ok? ==>
      var id := |old(db.classes)| + 1;
      r.value == Stored(id, NewClass(body))
      && db.classes == old(db.classes) + [NewClass(body)]
      && db.classTeachers == old(db.classTeachers)
           + [ClassTeacher(id, OwnerOf(ctx.user.value, body.ownerTeacherId), Owner, None)]
      && db.journal.audit == old(db.journal.audit)
           + [AuditRow(ctx, ctx.user.value, CREATE_ACTION, CLASSES_TABLE, IdText(id), None,
                       Some(ClassSnap(id, NewClass(body))), Some(id), None, None)]
  {
    var me :- CreateCheck(ctx.user);
    var c := NewClass(body);
    var id := |db.classes| + 1;
    var owner := ClassTeacher(id, OwnerOf(me, body.ownerTeacherId), Owner, None);
    NextClassHasNoTeachers(db.classes, db.classTeachers, owner.teacherId);
    var classes' := db.classes + [c];
    var ts := Statements.InsertTeacher(classes', db.flags, db.classTeachers, owner);
    assert TeachersUnique(ts.value) by {
      var ts' := ts.value;
      assert ts'[|db.classTeachers|] == owner;
      forall i, j | 0 <= i < j < |ts'| && LiveTeacher(ts'[i]) && LiveTeacher(ts'[j])
        ensures ts'[i].classId != ts'[j].classId || ts'[i].teacherId != ts'[j].teacherId
      {
        if j == |db.classTeachers| {
          assert ts'[i] == db.classTeachers[i];
        }
      }
    }
    db.classes := classes';
    db.classTeachers := ts.value;
    db.journal.WriteAudit(ctx, CREATE_ACTION, CLASSES_TABLE, IdText(id), None, Some(ClassSnap(id, c)), Some(id), None, None);
    r := Ok(Stored(id, c));
  }

  /**
   * After the create, the owner it names holds the class's owner row: a teacher who
   * creates a class owns it and passes its teacher check, and an admin's choice of
   * owner, or the admin, owns it.
   */
  lemma CreatorOwnsClass(classes: seq<Class>, ts: seq<ClassTeacher>, c: Class, me: Actor, ownerTeacherId: Option<Id>)
    requires TeachersOfClasses(classes, ts) && TeachersUnique(ts)
    ensures var id := |classes| + 1;
      var ts' := ts + [ClassTeacher(id, OwnerOf(me, ownerTeacherId), Owner, None)];
      IsOwnerTeacherOfClass(ts', id, OwnerOf(me, ownerTeacherId))
      && (me.role == Auth.Teacher ==> OwnerOf(me, ownerTeacherId) == me.id
                                      && AssertClassTeacher(ts', Some(me), id).Ok?)
      && (me.role == Auth.Admin ==> OwnerOf(me, ownerTeacherId) == ownerTeacherId.GetOr(me.id))
  {
    var id := |classes| + 1;
    var owner := ClassTeacher(id, OwnerOf(me, ownerTeacherId), Owner, None);
    var ts' := ts + [owner];
    NextClassHasNoTeachers(classes, ts, owner.teacherId);
    assert ts'[|ts|] == owner;
    assert TeachersUnique(ts') by {
      forall i, j | 0 <= i < j < |ts'| && LiveTeacher(ts'[i]) && LiveTeacher(ts'[j])
        ensures ts'[i].classId != ts'[j].classId || ts'[i].teacherId != ts'[j].teacherId
      {
        if j == |ts| {
          assert ts'[i] == ts[i];
        }
      }
    }
    OwnerIffLiveOwnerRow(ts', id, owner.teacherId);
    assert Statements.RemovesTeacher(ts'[|ts|], id, owner.teacherId);
    assert Statements.Teaches(ts', id, owner.teacherId);
  }

  /* ---------- GET /classes and GET /me/classes ---------- */

  /** The ids 1..n that `keep` accepts, highest first. */
  function NewestFirst(n: nat, keep: Id -> bool): (r: seq<Id>)
    ensures forall id :: id in r <==> 1 <= id <= n && keep(id)
    ensures Queries.Decreasing(r)
  {
    if n == 0 then []
    else
      var rest := NewestFirst(n - 1, keep);
      assert forall k :: 0 <= k < |rest| ==> rest[k] in rest;
      if keep(n) then [n] + rest else rest
  }

  /**
   * The live classes GET /classes lists: all of them for an admin, those with a live
   * teacher row for a teacher, those with an active live enrolment otherwise.
   */
  predicate Listed(classes: seq<Class>, ts: seq<ClassTeacher>, es: seq<Enrollment>, me: Actor, id: Id)
  {
    Has(classes, id) && classes[id - 1].deletedAt.None?
    && (if me.role == Auth.Admin then true
        else if me.role == Auth.Teacher then IsTeacherOfClass(ts, id, me.id)
        else IsStudentInClass(es, id, me.id))
  }

  /** The ids of the listed classes, newest first; no user sees an empty list. */
  function ListClassIds(classes: seq<Class>, ts: seq<ClassTeacher>, es: seq<Enrollment>, user: Option<Actor>)
    : (r: seq<Id>)
    ensures user.None? ==> r == []
    ensures user.Some? ==> forall id :: id in r <==> Listed(classes, ts, es, user.value, id)
    ensures Queries.Decreasing(r)
  {
    if user.None? then []
    else NewestFirst(|classes|, (id: Id) => Listed(classes, ts, es, user.value, id))
  }

  /** One listed class; a teacher also sees their role in it. */
  datatype ClassEntry = ClassEntry(id: Id, row: Class, teacherRole: Option<TeacherRole>)

  function EntryOf(classes: seq<Class>, ts: seq<ClassTeacher>, es: seq<Enrollment>, me: Actor, id: Id): ClassEntry
    requires Listed(classes, ts, es, me, id)
  {
    if me.role == Auth.Teacher then
      ClassEntry(id, classes[id - 1], Some(ts[FirstTeacherRow(ts, id, me.id).value].role))
    else ClassEntry(id, classes[id - 1], None)
  }

  /** GET /classes: the listed classes, newest first, each with its row. */
  function ListClasses(classes: seq<Class>, ts: seq<ClassTeacher>, es: seq<Enrollment>, user: Option<Actor>)
    : (r: seq<ClassEntry>)
    ensures |r| == |ListClassIds(classes, ts, es, user)|
    ensures forall k :: 0 <= k < |r| ==>
      (Listed(classes, ts, es, user.value, ListClassIds(classes, ts, es, user)[k])
       && r[k] == EntryOf(classes, ts, es, user.value, ListClassIds(classes, ts, es, user)[k]))
  {
    var ids := ListClassIds(classes, ts, es, user);
    assert forall k :: 0 <= k < |ids| ==> ids[k] in ids;
    seq(|ids|, k requires 0 <= k < |ids| => EntryOf(classes, ts, es, user.value, ids[k]))
  }

  /** GET /me/classes: students only; their actively enrolled live classes, newest first. */
  function MyClasses(classes: seq<Class>, es: seq<Enrollment>, user: Option<Actor>): (r: Result<seq<Id>, HttpError>)
    ensures user.None? ==> r == Err(Unauthorized("Login required"))
    ensures user.Some? && user.value.role != Auth.Student ==> r == Err(Forbidden("Student required"))
    ensures r.Ok? <==> user.Some? && user.value.role == Auth.Student
    ensures r.Ok? ==> forall id :: id in r.value <==>
      Has(classes, id) && classes[id - 1].deletedAt.None? && IsStudentInClass(es, id, user.value.id)
    ensures r.Ok? ==> Queries.Decreasing(r.value)
  {
    var me :- RequireUser(user);
    if me.role != Auth.Student then Err(Forbidden("Student required"))
    else Ok(NewestFirst(|classes|, (id: Id) => Has(classes, id) && classes[id - 1].deletedAt.None?
                                              && IsStudentInClass(es, id, me.id)))
  }

  /** For a student, /me/classes and GET /classes list the same classes in the same order. */
  lemma {:induction false} MyClassesIsStudentListing(classes: seq<Class>, ts: seq<ClassTeacher>, es: seq<Enrollment>,
                                                     me: Actor)
    requires me.role == Auth.Student
    ensures MyClasses(classes, es, Some(me)) == Ok(ListClassIds(classes, ts, es, Some(me)))
  {
    SameKeepSameIds(|classes|, (id: Id) => Has(classes, id) && classes[id - 1].deletedAt.None?
                                          && IsStudentInClass(es, id, me.id),
                    (id: Id) => Listed(classes, ts, es, me, id));
  }

  lemma {:induction false} SameKeepSameIds(n: nat, p: Id -> bool, q: Id -> bool)
    requires forall id :: 1 <= id <= n ==> p(id) == q(id)
    ensures NewestFirst(n, p) == NewestFirst(n, q)
  {
    if n > 0 {
      SameKeepSameIds(n - 1, p, q);
    }
  }

  /* ---------- GET /classes/:classId ---------- */

  /** The membership check comes first (401/403), then the lookup (404). */
  function ReadClass(classes: seq<Class>, ts: seq<ClassTeacher>, es: seq<Enrollment>, user: Option<Actor>, id: Id)
    : (r: Result<Class, HttpError>)
    ensures AssertClassReadable(ts, es, user, id).Err? ==> r == Err(AssertClassReadable(ts, es, user, id).error)
    ensures AssertClassReadable(ts, es, user, id).Ok? && GetClass(classes, id).Err? ==> r == Err(NotFound("Class not found"))
    ensures r.Ok? <==> user.Some? && MayReadClass(ts, es, user.value, id)
                       && Has(classes, id) && classes[id - 1].deletedAt.None?
    ensures r.Ok? ==> r.value == classes[id - 1]
  {
    var _ :- AssertClassReadable(ts, es, user, id);
    GetClass(classes, id)
  }

  /** A class is in the caller's list exactly when the caller may fetch it. */
  lemma ListedIffReadable(classes: seq<Class>, ts: seq<ClassTeacher>, es: seq<Enrollment>, me: Actor, id: Id)
    ensures id in ListClassIds(classes, ts, es, Some(me)) <==> ReadClass(classes, ts, es, Some(me), id).Ok?
  {
  }

  /* ---------- guards the edits share ---------- */

  /** Staff of the class (401/403), then a live class (404); the class as it is. */
  function StaffClass(classes: seq<Class>, ts: seq<ClassTeacher>, user: Option<Actor>, id: Id)
    : (r: Result<Class, HttpError>)
    ensures AssertClassTeacher(ts, user, id).Err? ==> r == Err(AssertClassTeacher(ts, user, id).error)
    ensures AssertClassTeacher(ts, user, id).Ok? && GetClass(classes, id).Err? ==> r == Err(NotFound("Class not found"))
    ensures r.Ok? <==> AssertClassTeacher(ts, user, id).Ok? && GetClass(classes, id).Ok?
    ensures r.Ok? ==> r.value == classes[id - 1]
  {
    var _ :- StaffOf(ts, user, id);
    GetClass(classes, id)
  }

  /** StaffClass, then a class that is not archived (403). */
  function StaffWritable(classes: seq<Class>, ts: seq<ClassTeacher>, user: Option<Actor>, id: Id)
    : (r: Result<Class, HttpError>)
    ensures StaffClass(classes, ts, user, id).Err? ==> r == Err(StaffClass(classes, ts, user, id).error)
    ensures StaffClass(classes, ts, user, id).Ok? && classes[id - 1].status == Archived ==>
      r == Err(Forbidden("Class is archived (read-only)."))
    ensures r.Ok? <==> AssertClassTeacher(ts, user, id).Ok? && Teams.ClassWritable(classes, id)
    ensures r.Ok? ==> r.value == classes[id - 1]
  {
    var cls :- StaffClass(classes, ts, user, id);
    var _ :- AssertClassWritable(cls);
    Ok(cls)
  }

  /* ---------- PATCH /classes/:classId ---------- */

  datatype ClassPatch = ClassPatch(courseName: Option<string>, term: Option<string>)

  /** `courseName ?? cls.courseName`, `term ?? cls.term`; nothing else changes. */
  function Renamed(before: Class, p: ClassPatch): (c: Class)
    ensures c.courseName == (if p.courseName.Some? then p.courseName.value else before.courseName)
    ensures c.term == (if p.term.Some? then p.term.value else before.term)
    ensures c.config == before.config && c.status == before.status && c.deletedAt == before.deletedAt
    ensures c.allowStudentDownloadAfterArchived == before.allowStudentDownloadAfterArchived
  {
    before.(courseName := p.courseName.GetOr(before.courseName), term := p.term.GetOr(before.term))
  }

  /** An empty patch leaves the class as it was, and renaming twice with the same patch is renaming once. */
  lemma RenameIdempotent(before: Class, p: ClassPatch)
    ensures Renamed(before, ClassPatch(None, None)) == before
    ensures Renamed(Renamed(before, p), p) == Renamed(before, p)
  {
  }

  /** PATCH /classes/:classId: staff rename a writable class; audited with both rows. */
  method PatchClass(db: Db, ctx: Ctx, id: Id, p: ClassPatch) returns (r: Result<Class, HttpError>)
    requires db.Valid()
    modifies db`classes, db.journal`audit
    ensures db.Valid()
    ensures r.Ok? <==> old(StaffWritable(db.classes, db.classTeachers, ctx.user, id)).Ok?
    ensures r.Err? ==> r.error == old(StaffWritable(db.classes, db.classTeachers, ctx.user, id)).error
    ensures r.Err? ==> db.classes == old(db.classes) && db.journal.audit == old(db.journal.audit)
    ensures r.Ok? ==>
      var before := old(db.classes)[id - 1];
      r.value == Renamed(before, p)
      && db.classes == old(db.classes)[id - 1 := Renamed(before, p)]
      && db.journal.audit == old(db.journal.audit)
           + [AuditRow(ctx, ctx.user.value, UPDATE_ACTION, CLASSES_TABLE, IdText(id), Some(ClassSnap(id, before)),
                       Some(ClassSnap(id, Renamed(before, p))), Some(id), None, None)]
  {
    var before :- StaffWritable(db.classes, db.classTeachers, ctx.user, id);
    var after := Renamed(before, p);
    SetClass(db, id, after);
    db.journal.WriteAudit(ctx, UPDATE_ACTION, CLASSES_TABLE, IdText(id), Some(ClassSnap(id, before)),
                          Some(ClassSnap(id, after)), Some(id), None, None);
    r := Ok(after);
  }

  /* ---------- PATCH /classes/:classId/status ---------- */

  /**
   * PATCH /classes/:classId/status: staff set the status of a live class, whatever it
   * is now (an archived class can be reopened); audited with both rows.
   */
  method SetStatus(db: Db, ctx: Ctx, id: Id, status: ClassStatus) returns (r: Result<Class, HttpError>)
    requires db.Valid()
    modifies db`classes, db.journal`audit
    ensures db.Valid()
    ensures r.Ok? <==> old(StaffClass(db.classes, db.classTeachers, ctx.user, id)).Ok?
    ensures r.Err? ==> r.error == old(StaffClass(db.classes, db.classTeachers, ctx.user, id)).error
    ensures r.Err? ==> db.classes == old(db.classes) && db.journal.audit == old(db.journal.audit)
    ensures r.Ok? ==>
      var before := old(db.classes)[id - 1];
      r.value == before.(status := status)
      && db.classes == old(db.classes)[id - 1 := before.(status := status)]
      && db.journal.audit == old(db.journal.audit)
           + [AuditRow(ctx, ctx.user.value, STATUS_ACTION, CLASSES_TABLE, IdText(id), Some(ClassSnap(id, before)),
                       Some(ClassSnap(id, before.(status := status))), Some(id), None, None)]
  {
    var before :- StaffClass(db.classes, db.classTeachers, ctx.user, id);
    var after := before.(status := status);
    SetClass(db, id, after);
    db.journal.WriteAudit(ctx, STATUS_ACTION, CLASSES_TABLE, IdText(id), Some(ClassSnap(id, before)),
                          Some(ClassSnap(id, after)), Some(id), None, None);
    r := Ok(after);
  }

  /**
   * The status change does not depend on the status: whoever may change it for an
   * active class may for an archived one and back. Archiving closes every writable-only
   * route to everyone, reopening opens them again to staff.
   */
  lemma StatusFromAnyState(classes: seq<Class>, ts: seq<ClassTeacher>, user: Option<Actor>, id: Id, s: ClassStatus)
    requires Has(classes, id)
    ensures var classes' := classes[id - 1 := classes[id - 1].(status := s)];
      (StaffClass(classes', ts, user, id).Ok? <==> StaffClass(classes, ts, user, id).Ok?)
      && (s == Archived && StaffClass(classes, ts, user, id).Ok? ==>
            StaffWritable(classes', ts, user, id) == Err(Forbidden("Class is archived (read-only).")))
      && (s == ClassActive ==>
            (StaffWritable(classes', ts, user, id).Ok? <==> StaffClass(classes, ts, user, id).Ok?))
  {
  }

  /* ---------- PATCH /classes/:classId/settings ---------- */

  /**
   * The settings body: a boolean download flag, and a config that replaces the stored
   * one unless it is missing or null.
   */
  datatype SettingsBody = SettingsBody(allowStudentDownloadAfterArchived: Option<bool>, config: Option<JsonValue.Json>)

  function WithSettings(before: Class, b: SettingsBody): (c: Class)
    ensures b.allowStudentDownloadAfterArchived.Some? ==>
      c.allowStudentDownloadAfterArchived == b.allowStudentDownloadAfterArchived.value
    ensures b.allowStudentDownloadAfterArchived.None? ==>
      c.allowStudentDownloadAfterArchived == before.allowStudentDownloadAfterArchived
    ensures c.config == (if b.config.Some? && !b.config.value.Null? then b.config.value else before.config)
    ensures c.courseName == before.courseName && c.term == before.term
    ensures c.status == before.status && c.deletedAt == before.deletedAt
  {
    before.(allowStudentDownloadAfterArchived := b.allowStudentDownloadAfterArchived.GetOr(before.allowStudentDownloadAfterArchived),
            config := if b.config.Some? && !b.config.value.Null? then b.config.value else before.config)
  }

  /** PATCH /classes/:classId/settings: staff of a live class, archived or not; audited with both rows. */
  method UpdateSettings(db: Db, ctx: Ctx, id: Id, b: SettingsBody) returns (r: Result<Class, HttpError>)
    requires db.Valid()
    modifies db`classes, db.journal`audit
    ensures db.Valid()
    ensures r.Ok? <==> old(StaffClass(db.classes, db.classTeachers, ctx.user, id)).Ok?
    ensures r.Err? ==> r.error == old(StaffClass(db.classes, db.classTeachers, ctx.user, id)).error
    ensures r.Err? ==> db.classes == old(db.classes) && db.journal.audit == old(db.journal.audit)
    ensures r.Ok? ==>
      var before := old(db.classes)[id - 1];
      r.value == WithSettings(before, b)
      && db.classes == old(db.classes)[id - 1 := WithSettings(before, b)]
      && db.journal.audit == old(db.journal.audit)
           + [AuditRow(ctx, ctx.user.value, SETTINGS_ACTION, CLASSES_TABLE, IdText(id), Some(ClassSnap(id, before)),
                       Some(ClassSnap(id, WithSettings(before, b))), Some(id), None, None)]
  {
    var before :- StaffClass(db.classes, db.classTeachers, ctx.user, id);
    var after := WithSettings(before, b);
    SetClass(db, id, after);
    db.journal.WriteAudit(ctx, SETTINGS_ACTION, CLASSES_TABLE, IdText(id), Some(ClassSnap(id, before)),
                          Some(ClassSnap(id, after)), Some(id), None, None);
    r := Ok(after);
  }

  /* ---------- GET /classes/:classId/students ---------- */

  /** A live enrolment of the class whose student has a users row (the inner join). */
  predicate OnRoster(users: seq<User>, e: Enrollment, classId: Id)
  {
    e.classId == classId && e.deletedAt.None? && Has(users, e.studentId)
  }

  /** The profile the left join finds for a user: the row with that user id (its primary key), if any. */
  function ProfileOf(ps: seq<StudentProfile>, userId: Id): (r: Option<StudentProfile>)
    ensures r.Some? ==> r.value in ps && r.value.userId == userId
    ensures r.None? ==> forall i :: 0 <= i < |ps| ==> ps[i].userId != userId
  {
    var k := Queries.First(ps, (p: StudentProfile) => p.userId == userId);
    if k.Some? then Some(ps[k.value - 1])
    else
      assert forall i :: 0 <= i < |ps| ==> ps[i].userId != userId by {
        forall i | 0 <= i < |ps| ensures ps[i].userId != userId {
          assert Has(ps, i + 1);
        }
      }
      None
  }

  /** A roster row: what a student sees of a classmate, and what staff see. */
  datatype StudentRow =
    | Masked(userId: Id, shownName: string, isActive: bool)
    | Full(userId: Id, username: string, studentNo: Option<string>, realName: Option<string>,
           isActive: bool, joinedAt: Time, leftAt: Option<Time>)

  /** The row of one enrolment; the masked form shows the real name, or the username when there is no profile. */
  function RowOf(users: seq<User>, ps: seq<StudentProfile>, e: Enrollment, masked: bool): StudentRow
    requires Has(users, e.studentId)
  {
    var u := users[e.studentId - 1];
    var p := ProfileOf(ps, e.studentId);
    if masked then Masked(e.studentId, if p.Some? then p.value.realName else u.username, e.isActive)
    else Full(e.studentId, u.username, if p.Some? then Some(p.value.studentNo) else None,
              if p.Some? then Some(p.value.realName) else None, e.isActive, e.joinedAt, e.leftAt)
  }

  /** The enrolments the roster shows, in enrolment id order. */
  function RosterIds(users: seq<User>, es: seq<Enrollment>, classId: Id): (r: seq<Id>)
    ensures forall id :: id in r <==> Has(es, id) && OnRoster(users, es[id - 1], classId)
    ensures Queries.Increasing(r)
  {
    Queries.Select(es, (e: Enrollment) => OnRoster(users, e, classId))
  }

  /**
   * GET /classes/:classId/students: members of the class see its live enrolments,
   * inactive ones included; a student sees only ids, names and the active flag.
   */
  function ListStudents(users: seq<User>, ps: seq<StudentProfile>, ts: seq<ClassTeacher>, es: seq<Enrollment>,
                        user: Option<Actor>, classId: Id): (r: Result<seq<StudentRow>, HttpError>)
    ensures r.Ok? <==> AssertClassReadable(ts, es, user, classId).Ok?
    ensures r.Err? ==> r.error == AssertClassReadable(ts, es, user, classId).error
    ensures r.Ok? ==> |r.value| == |RosterIds(users, es, classId)|
    ensures r.Ok? ==> forall k :: 0 <= k < |r.value| ==>
      (Has(es, RosterIds(users, es, classId)[k]) && OnRoster(users, es[RosterIds(users, es, classId)[k] - 1], classId)
       && r.value[k] == RowOf(users, ps, es[RosterIds(users, es, classId)[k] - 1], user.value.role == Auth.Student))
    ensures r.Ok? ==> forall k :: 0 <= k < |r.value| ==> (r.value[k].Masked? <==> user.value.role == Auth.Student)
  {
    var _ :- AssertClassReadable(ts, es, user, classId);
    var me := user.value;
    var ids := RosterIds(users, es, classId);
    assert forall k :: 0 <= k < |ids| ==> ids[k] in ids;
    Ok(seq(|ids|, k requires 0 <= k < |ids| => RowOf(users, ps, es[ids[k] - 1], me.role == Auth.Student)))
  }

  /* ---------- enrolling and creating students ---------- */

  /** The enrolment the roster inserts: active, joined now. */
  function NewEnrollment(classId: Id, studentId: Id, now: Time): Enrollment
  {
    Enrollment(classId, studentId, true, now, None, None)
  }

  /**
   * INSERT ... ON CONFLICT DO NOTHING into class_students of a writable class: the
   * student ends up enrolled, once, and every enrolment already there is kept.
   */
  function EnrollStudent(es: seq<Enrollment>, classId: Id, studentId: Id, now: Time): (r: seq<Enrollment>)
    ensures IsStudentInClass(r, classId, studentId)
    ensures Statements.Enrolled(es, classId, studentId) ==> r == es
    ensures !Statements.Enrolled(es, classId, studentId) ==> r == es + [NewEnrollment(classId, studentId, now)]
    ensures EnrollmentsUnique(es) ==> EnrollmentsUnique(r)
  {
    var e := NewEnrollment(classId, studentId, now);
    if Statements.Enrolled(es, classId, studentId) then es
    else
      var es' := es + [e];
      assert es'[|es|] == e;
      assert EnrollmentsUnique(es) ==> EnrollmentsUnique(es') by {
        if EnrollmentsUnique(es) {
          forall i, j | 0 <= i < j < |es'| && ActiveEnrollment(es'[i]) && ActiveEnrollment(es'[j])
            ensures es'[i].classId != es'[j].classId || es'[i].studentId != es'[j].studentId
          {
            assert es'[i] == es[i];
          }
        }
      }
      es'
  }

  /** Enrolling keeps every enrolment that was active: nobody loses a class by someone else joining. */
  lemma EnrollKeepsEnrolled(es: seq<Enrollment>, classId: Id, studentId: Id, now: Time, c: Id, s: Id)
    requires IsStudentInClass(es, c, s)
    ensures IsStudentInClass(EnrollStudent(es, classId, studentId, now), c, s)
  {
    var i :| 0 <= i < |es| && ActiveEnrollment(es[i]) && es[i].classId == c && es[i].studentId == s;
    assert EnrollStudent(es, classId, studentId, now)[i] == es[i];
  }

  /** The statement on a class that passed the writability check. */
  method Enroll(db: Db, classId: Id, studentId: Id, now: Time)
    requires Teams.ClassWritable(db.classes, classId)
    modifies db`enrollments
    ensures db.enrollments == EnrollStudent(old(db.enrollments), classId, studentId, now)
  {
    WritableClassPassesGuard(db.classes, db.flags, classId);
    var es := Statements.InsertEnrollmentOrIgnore(db.classes, db.flags, db.enrollments, NewEnrollment(classId, studentId, now));
    db.enrollments := es.value;
  }

  /**
   * The password side of creating students: the default student password (defined in
   * a constants file that is not part of this model) and hashPassword, whose scrypt
   * call and random salt are folded into one function.
   */
  datatype Hashing = Hashing(defaultStudentPassword: string, hash: string -> string)

  /** A user row for a new student: must change the password at first login. */
  function NewStudentUser(username: string, passwordHash: string): User
  {
    User(username, passwordHash, true, Auth.Student, None)
  }

  datatype Accounts = Accounts(users: seq<User>, profiles: seq<StudentProfile>)

  predicate UsernameTaken(users: seq<User>, username: string)
  {
    exists i :: 0 <= i < |users| && users[i].username == username
  }

  /**
   * INSERT INTO users, then INSERT INTO student_profiles, outside any transaction. A
   * taken username (deleted users included) stops the first and nothing changes; a
   * taken user id or student number stops the second, and the user row stays.
   */
  function CreateStudent(acc: Accounts, studentNo: string, realName: string, passwordHash: string)
    : (r: (Accounts, Result<Id, HttpError>))
    ensures UsernameTaken(acc.users, studentNo) ==> r == (acc, Err(DbError(UniqueFailed("users.username"))))
    ensures !UsernameTaken(acc.users, studentNo) ==> r.0.users == acc.users + [NewStudentUser(studentNo, passwordHash)]
    ensures r.1.Ok? <==>
      (!UsernameTaken(acc.users, studentNo)
       && !exists i :: 0 <= i < |acc.profiles|
            && (acc.profiles[i].userId == |acc.users| + 1 || acc.profiles[i].studentNo == studentNo))
    ensures r.1.Ok? ==>
      r.1.value == |acc.users| + 1 && r.0.profiles == acc.profiles + [StudentProfile(|acc.users| + 1, studentNo, realName, None)]
    ensures r.1.Err? ==> r.0.profiles == acc.profiles
    ensures AccountsValid(acc.users, acc.profiles) ==> AccountsValid(r.0.users, r.0.profiles)
  {
    match Statements.InsertUser(acc.users, NewStudentUser(studentNo, passwordHash))
    case Err(msg) => (acc, Err(DbError(msg)))
    case Ok(users') =>
      var id := |acc.users| + 1;
      match Statements.InsertStudentProfile(acc.profiles, StudentProfile(id, studentNo, realName, None))
      case Err(msg) => (Accounts(users', acc.profiles), Err(DbError(msg)))
      case Ok(ps') => (Accounts(users', ps'), Ok(id))
  }

  /* ---------- POST /classes/:classId/students ---------- */

  /** The add body: an existing student's id, or the number and name of a student to create. */
  datatype AddStudentBody = AddStudentBody(studentId: Option<Id>, studentNo: Option<string>, realName: Option<string>)

  /** `studentId` is truthy: present and not 0. */
  predicate NamesStudent(b: AddStudentBody)
  {
    b.studentId.Some? && b.studentId.value != 0
  }

  /** A truthy string: present and not empty. */
  predicate Given(s: Option<string>)
  {
    s.Some? && s.value != ""
  }

  /** Staff of a writable class, then, when no student is named, a student number and a name (400). */
  function AddStudentCheck(classes: seq<Class>, ts: seq<ClassTeacher>, user: Option<Actor>, classId: Id,
                           b: AddStudentBody): (r: Result<(), HttpError>)
    ensures StaffWritable(classes, ts, user, classId).Err? ==> r == Err(StaffWritable(classes, ts, user, classId).error)
    ensures r.Ok? <==>
      StaffWritable(classes, ts, user, classId).Ok? && (NamesStudent(b) || (Given(b.studentNo) && Given(b.realName)))
    ensures StaffWritable(classes, ts, user, classId).Ok? && r.Err? ==> r.error == BadRequest("studentNo and realName required")
  {
    var _ :- StaffWritable(classes, ts, user, classId);
    if !NamesStudent(b) && (!Given(b.studentNo) || !Given(b.realName)) then
      Err(BadRequest("studentNo and realName required"))
    else Ok(())
  }

  /**
   * POST /classes/:classId/students: a named student is enrolled; otherwise a student
   * account with the default password is created first. The enrolment is skipped when
   * the student is already active in the class; the add is audited either way.
   */
  method AddStudent(db: Db, ctx: Ctx, hashing: Hashing, classId: Id, b: AddStudentBody) returns (r: Result<Id, HttpError>)
    requires db.Valid()
    modifies db`users, db`studentProfiles, db`enrollments, db.journal`audit
    ensures db.Valid()
    ensures old(AddStudentCheck(db.classes, db.classTeachers, ctx.user, classId, b)).Err? ==>
      (r == Err(old(AddStudentCheck(db.classes, db.classTeachers, ctx.user, classId, b)).error)
       && db.users == old(db.users) && db.studentProfiles == old(db.studentProfiles)
       && db.enrollments == old(db.enrollments) && db.journal.audit == old(db.journal.audit))
    ensures old(AddStudentCheck(db.classes, db.classTeachers, ctx.user, classId, b)).Ok? && NamesStudent(b) ==>
      (r == Ok(b.studentId.value)
       && db.users == old(db.users) && db.studentProfiles == old(db.studentProfiles)
       && db.enrollments == EnrollStudent(old(db.enrollments), classId, b.studentId.value, ctx.now)
       && db.journal.audit == old(db.journal.audit)
            + [AuditRow(ctx, ctx.user.value, STUDENT_ADD_ACTION, STUDENTS_TABLE, PairText(classId, b.studentId.value),
                        None, None, Some(classId), None, None)])
    ensures old(AddStudentCheck(db.classes, db.classTeachers, ctx.user, classId, b)).Ok? && !NamesStudent(b) ==>
      var c := CreateStudent(Accounts(old(db.users), old(db.studentProfiles)), b.studentNo.value, b.realName.value,
                             hashing.hash(hashing.defaultStudentPassword));
      db.users == c.0.users && db.studentProfiles == c.0.profiles
      && (c.1.Err? ==> r == Err(c.1.error) && db.enrollments == old(db.enrollments)
                       && db.journal.audit == old(db.journal.audit))
      && (c.1.Ok? ==>
            r == Ok(c.1.value)
            && db.enrollments == EnrollStudent(old(db.enrollments), classId, c.1.value, ctx.now)
            && db.journal.audit == old(db.journal.audit)
                 + [AuditRow(ctx, ctx.user.value, STUDENT_ADD_ACTION, STUDENTS_TABLE, PairText(classId, c.1.value),
                             None, None, Some(classId), None, None)])
  {
    var _ :- AddStudentCheck(db.classes, db.classTeachers, ctx.user, classId, b);
    var studentId: Id;
    if NamesStudent(b) {
      studentId := b.studentId.value;
    } else {
      var c := CreateStudent(Accounts(db.users, db.studentProfiles), b.studentNo.value, b.realName.value,
                             hashing.hash(hashing.defaultStudentPassword));
      db.users := c.0.users;
      db.studentProfiles := c.0.profiles;
      if c.1.Err? {
        return Err(c.1.error);
      }
      studentId := c.1.value;
    }
    Enroll(db, classId, studentId, ctx.now);
    db.journal.WriteAudit(ctx, STUDENT_ADD_ACTION, STUDENTS_TABLE, PairText(classId, studentId), None, None,
                          Some(classId), None, None);
    r := Ok(studentId);
  }

  /* ---------- POST /classes/:classId/students/import ---------- */

  /** One entry of the import list as validated: both fields are strings, possibly empty. */
  datatype ImportEntry = ImportEntry(studentNo: string, realName: string)

  /** An entry the loop does not skip: both fields are truthy. */
  predicate Complete(e: ImportEntry)
  {
    e.studentNo != "" && e.realName != ""
  }

  /** `defaultPassword || DEFAULT_STUDENT_PASSWORD`: an empty supplied password falls back too. */
  function InitialPassword(defaultPassword: Option<string>, hashing: Hashing): (p: string)
    ensures defaultPassword.Some? && defaultPassword.value != "" ==> p == defaultPassword.value
    ensures defaultPassword.None? || defaultPassword.value == "" ==> p == hashing.defaultStudentPassword
  {
    if defaultPassword.Some? && defaultPassword.value != "" then defaultPassword.value else hashing.defaultStudentPassword
  }

  /** The live user with that username, as the loop's `.get()` finds it. */
  function LiveUserNamed(users: seq<User>, username: string): (r: Option<Id>)
    ensures r.Some? ==> Has(users, r.value) && users[r.value - 1].username == username && users[r.value - 1].deletedAt.None?
    ensures r.None? ==> forall id :: Has(users, id) ==> !(users[id - 1].username == username && users[id - 1].deletedAt.None?)
  {
    Queries.First(users, (u: User) => u.username == username && u.deletedAt.None?)
  }

  /** What the import loop carries: the three tables it writes, and the ids it has collected. */
  datatype Roster = Roster(users: seq<User>, profiles: seq<StudentProfile>, enrollments: seq<Enrollment>, created: seq<Id>)

  /** The state a pass, or the loop, leaves, and the error that stopped it, if any. */
  datatype Outcome = Outcome(roster: Roster, error: Option<HttpError>)

  predicate RosterOk(st: Roster)
  {
    AccountsValid(st.users, st.profiles) && EnrollmentsUnique(st.enrollments)
  }

  /** Writes the three tables of a roster back; the database invariant carries over. */
  method SetRoster(db: Db, st: Roster)
    requires db.Valid() && RosterOk(st)
    modifies db`users, db`studentProfiles, db`enrollments
    ensures db.Valid()
    ensures db.users == st.users && db.studentProfiles == st.profiles && db.enrollments == st.enrollments
  {
    db.users := st.users;
    db.studentProfiles := st.profiles;
    db.enrollments := st.enrollments;
  }

  /** Writes the enrolments back; the database invariant carries over. */
  method SetEnrollments(db: Db, es: seq<Enrollment>)
    requires db.Valid() && EnrollmentsUnique(es)
    modifies db`enrollments
    ensures db.Valid() && db.enrollments == es
  {
    db.enrollments := es;
  }

  /** Every collected id is actively enrolled in the class. */
  predicate CreatedEnrolled(st: Roster, classId: Id)
  {
    forall k :: 0 <= k < |st.created| ==> IsStudentInClass(st.enrollments, classId, st.created[k])
  }

  /**
   * One pass of the loop on a writable class: an incomplete entry is skipped; otherwise
   * the live user with that username is reused, or a student user and its profile are
   * created, and that user is enrolled and collected. A failed insert ends the pass
   * with what was written so far.
   */
  function ImportOne(st: Roster, classId: Id, now: Time, passwordHash: string, e: ImportEntry): (o: Outcome)
    ensures !Complete(e) ==> o == Outcome(st, None)
    ensures Complete(e) && LiveUserNamed(st.users, e.studentNo).Some? ==>
      o.error.None? && o.roster.users == st.users && o.roster.profiles == st.profiles
      && o.roster.created == st.created + [LiveUserNamed(st.users, e.studentNo).value]
    ensures o.error.None? && Complete(e) ==> |o.roster.created| == |st.created| + 1
    ensures o.error.Some? ==> o.roster.enrollments == st.enrollments && o.roster.created == st.created
    ensures RosterOk(st) ==> RosterOk(o.roster)
    ensures CreatedEnrolled(st, classId) ==> CreatedEnrolled(o.roster, classId)
  {
    if !Complete(e) then Outcome(st, None)
    else
      var found := LiveUserNamed(st.users, e.studentNo);
      var c := if found.Some? then (Accounts(st.users, st.profiles), Ok(found.value))
               else CreateStudent(Accounts(st.users, st.profiles), e.studentNo, e.realName, passwordHash);
      if c.1.Err? then Outcome(st.(users := c.0.users, profiles := c.0.profiles), Some(c.1.error))
      else
        var id := c.1.value;
        var es := EnrollStudent(st.enrollments, classId, id, now);
        var st' := Roster(c.0.users, c.0.profiles, es, st.created + [id]);
        assert CreatedEnrolled(st, classId) ==> CreatedEnrolled(st', classId) by {
          if CreatedEnrolled(st, classId) {
            forall k | 0 <= k < |st'.created| ensures IsStudentInClass(es, classId, st'.created[k]) {
              if k < |st.created| {
                EnrollKeepsEnrolled(st.enrollments, classId, id, now, classId, st.created[k]);
              }
            }
          }
        }
        Outcome(st', None)
  }

  /** The loop over the list, pass by pass, up to the first failure. */
  function ImportAll(st: Roster, classId: Id, now: Time, passwordHash: string, entries: seq<ImportEntry>): (o: Outcome)
    ensures RosterOk(st) ==> RosterOk(o.roster)
    ensures CreatedEnrolled(st, classId) ==> CreatedEnrolled(o.roster, classId)
  {
    if entries == [] then Outcome(st, None)
    else
      var o := ImportAll(st, classId, now, passwordHash, entries[..|entries| - 1]);
      if o.error.Some? then o else ImportOne(o.roster, classId, now, passwordHash, entries[|entries| - 1])
  }

  /** Once a pass fails, the loop is over: the later entries change nothing. */
  lemma {:induction false} ImportStopsAtError(st: Roster, classId: Id, now: Time, passwordHash: string,
                                              entries: seq<ImportEntry>, n: nat)
    requires n <= |entries| && ImportAll(st, classId, now, passwordHash, entries[..n]).error.Some?
    ensures ImportAll(st, classId, now, passwordHash, entries) == ImportAll(st, classId, now, passwordHash, entries[..n])
    decreases |entries|
  {
    if n < |entries| {
      var init := entries[..|entries| - 1];
      assert init[..n] == entries[..n];
      ImportStopsAtError(st, classId, now, passwordHash, init, n);
    } else {
      assert entries[..n] == entries;
    }
  }

  /** The number of entries the loop does not skip. */
  function CompleteCount(entries: seq<ImportEntry>): nat
  {
    if entries == [] then 0
    else CompleteCount(entries[..|entries| - 1]) + (if Complete(entries[|entries| - 1]) then 1 else 0)
  }

  /**
   * An import that runs to the end collects one id per complete entry, skipping the
   * rest, and every collected id is then an active student of the class.
   */
  lemma {:induction false} ImportCountsCompleteEntries(st: Roster, classId: Id, now: Time, passwordHash: string,
                                                       entries: seq<ImportEntry>)
    requires ImportAll(st, classId, now, passwordHash, entries).error.None?
    ensures |ImportAll(st, classId, now, passwordHash, entries).roster.created| == |st.created| + CompleteCount(entries)
    ensures CreatedEnrolled(st, classId) ==> CreatedEnrolled(ImportAll(st, classId, now, passwordHash, entries).roster, classId)
  {
    if entries != [] {
      ImportCountsCompleteEntries(st, classId, now, passwordHash, entries[..|entries| - 1]);
    }
  }

  /** Staff of a writable class, then a non-empty list (400 "students required"). */
  function ImportCheck(classes: seq<Class>, ts: seq<ClassTeacher>, user: Option<Actor>, classId: Id,
                       students: seq<ImportEntry>): (r: Result<(), HttpError>)
    ensures StaffWritable(classes, ts, user, classId).Err? ==> r == Err(StaffWritable(classes, ts, user, classId).error)
    ensures StaffWritable(classes, ts, user, classId).Ok? && students == [] ==> r == Err(BadRequest("students required"))
    ensures r.Ok? <==> StaffWritable(classes, ts, user, classId).Ok? && students != []
  {
    var _ :- StaffWritable(classes, ts, user, classId);
    if students == [] then Err(BadRequest("students required")) else Ok(())
  }

  /** The `{ count }` object the import audits. */
  function CountJson(n: nat): JsonValue.Json
  {
    JsonValue.Obj([JsonValue.Field("count", JsonValue.Num(Js.Finite(n as real)))])
  }

  /**
   * The import loop itself: entry by entry, each pass written back before the next,
   * stopping at the first failed insert.
   */
  method RunImport(db: Db, classId: Id, now: Time, passwordHash: string, students: seq<ImportEntry>) returns (o: Outcome)
    requires db.Valid()
    modifies db`users, db`studentProfiles, db`enrollments
    ensures db.Valid()
    ensures o == ImportAll(Roster(old(db.users), old(db.studentProfiles), old(db.enrollments), []), classId, now,
                           passwordHash, students)
    ensures db.users == o.roster.users && db.studentProfiles == o.roster.profiles && db.enrollments == o.roster.enrollments
  {
    ghost var st0 := Roster(db.users, db.studentProfiles, db.enrollments, []);
    var created: seq<Id> := [];
    var i := 0;
    while i < |students|
      invariant 0 <= i <= |students|
      invariant ImportAll(st0, classId, now, passwordHash, students[..i])
                == Outcome(Roster(db.users, db.studentProfiles, db.enrollments, created), None)
      invariant db.Valid()
    {
      var step := ImportOne(Roster(db.users, db.studentProfiles, db.enrollments, created), classId, now, passwordHash,
                            students[i]);
      assert students[..i + 1][..i] == students[..i];
      SetRoster(db, step.roster);
      if step.error.Some? {
        ImportStopsAtError(st0, classId, now, passwordHash, students, i + 1);
        return step;
      }
      created := step.roster.created;
      i := i + 1;
    }
    assert students[..i] == students;
    o := Outcome(Roster(db.users, db.studentProfiles, db.enrollments, created), None);
  }

  /**
   * POST /classes/:classId/students/import: the loop runs entry by entry with no
   * transaction; when it completes, the import is audited with the count and the
   * collected ids are returned. A failed insert ends the request with the rows written
   * so far and no audit.
   */
  method ImportStudents(db: Db, ctx: Ctx, hashing: Hashing, classId: Id, students: seq<ImportEntry>,
                        defaultPassword: Option<string>) returns (r: Result<seq<Id>, HttpError>)
    requires db.Valid()
    modifies db`users, db`studentProfiles, db`enrollments, db.journal`audit
    ensures db.Valid()
    ensures old(ImportCheck(db.classes, db.classTeachers, ctx.user, classId, students)).Err? ==>
      (r == Err(old(ImportCheck(db.classes, db.classTeachers, ctx.user, classId, students)).error)
       && db.users == old(db.users) && db.studentProfiles == old(db.studentProfiles)
       && db.enrollments == old(db.enrollments) && db.journal.audit == old(db.journal.audit))
    ensures old(ImportCheck(db.classes, db.classTeachers, ctx.user, classId, students)).Ok? ==>
      var o := ImportAll(Roster(old(db.users), old(db.studentProfiles), old(db.enrollments), []), classId, ctx.now,
                         hashing.hash(InitialPassword(defaultPassword, hashing)), students);
      db.users == o.roster.users && db.studentProfiles == o.roster.profiles && db.enrollments == o.roster.enrollments
      && (o.error.Some? ==> r == Err(o.error.value) && db.journal.audit == old(db.journal.audit))
      && (o.error.None? ==>
            r == Ok(o.roster.created)
            && db.journal.audit == old(db.journal.audit)
                 + [AuditRow(ctx, ctx.user.value, STUDENT_IMPORT_ACTION, STUDENTS_TABLE, IdText(classId), None,
                             Some(Fields(CountJson(|o.roster.created|))), Some(classId), None, None)])
  {
    var _ :- ImportCheck(db.classes, db.classTeachers, ctx.user, classId, students);
    var passwordHash := hashing.hash(InitialPassword(defaultPassword, hashing));
    var o := RunImport(db, classId, ctx.now, passwordHash, students);
    if o.error.Some? {
      return Err(o.error.value);
    }
    db.journal.WriteAudit(ctx, STUDENT_IMPORT_ACTION, STUDENTS_TABLE, IdText(classId), None,
                          Some(Fields(CountJson(|o.roster.created|))), Some(classId), None, None);
    r := Ok(o.roster.created);
  }

  /* ---------- PATCH /classes/:classId/students/:studentId ---------- */

  /** The edit body: the new active flag, and when deactivating, an optional leaving time. */
  datatype StudentPatch = StudentPatch(isActive: bool, leftAt: Option<Time>)

  /**
   * Staff of a writable class, then the live enrolment of the student, the one with
   * the lowest id (404 "Enrollment not found"); the result is its id.
   */
  function PatchStudentCheck(classes: seq<Class>, ts: seq<ClassTeacher>, es: seq<Enrollment>, user: Option<Actor>,
                             classId: Id, studentId: Id): (r: Result<Id, HttpError>)
    ensures StaffWritable(classes, ts, user, classId).Err? ==> r == Err(StaffWritable(classes, ts, user, classId).error)
    ensures r.Ok? <==>
      StaffWritable(classes, ts, user, classId).Ok?
      && exists i :: 0 <= i < |es| && Statements.RemovesEnrollment(es[i], classId, studentId)
    ensures StaffWritable(classes, ts, user, classId).Ok? && r.Err? ==> r.error == NotFound("Enrollment not found")
    ensures r.Ok? ==> Has(es, r.value) && Statements.RemovesEnrollment(es[r.value - 1], classId, studentId)
    ensures r.Ok? ==> forall id :: Has(es, id) && id < r.value ==> !Statements.RemovesEnrollment(es[id - 1], classId, studentId)
  {
    var _ :- StaffWritable(classes, ts, user, classId);
    var row := Queries.First(es, (e: Enrollment) => Statements.RemovesEnrollment(e, classId, studentId));
    if row.None? then
      assert !exists i :: 0 <= i < |es| && Statements.RemovesEnrollment(es[i], classId, studentId) by {
        forall i | 0 <= i < |es| ensures !Statements.RemovesEnrollment(es[i], classId, studentId) {
          assert Has(es, i + 1);
        }
      }
      Err(NotFound("Enrollment not found"))
    else
      assert Statements.RemovesEnrollment(es[row.value - 1], classId, studentId);
      Ok(row.value)
  }

  /**
   * The row after the edit: activating clears the leaving time; deactivating sets it
   * to the time supplied or now. The joining time, never null, is kept either way.
   */
  function Reenrolled(row: Enrollment, p: StudentPatch, now: Time): (e: Enrollment)
    ensures e.isActive == p.isActive
    ensures p.isActive ==> e.leftAt.None?
    ensures !p.isActive ==> e.leftAt == Some(if p.leftAt.Some? then p.leftAt.value else now)
    ensures e.joinedAt == row.joinedAt
    ensures e.classId == row.classId && e.studentId == row.studentId && e.deletedAt == row.deletedAt
  {
    row.(isActive := p.isActive, leftAt := if p.isActive then None else Some(p.leftAt.GetOr(now)))
  }

  /** Deactivating can never clash with the one-active-enrolment index. */
  lemma DeactivationKeepsUnique(es: seq<Enrollment>, id: Id, p: StudentPatch, now: Time)
    requires Has(es, id) && !p.isActive && EnrollmentsUnique(es)
    ensures EnrollmentsUnique(es[id - 1 := Reenrolled(es[id - 1], p, now)])
  {
    var es' := es[id - 1 := Reenrolled(es[id - 1], p, now)];
    forall i, j | 0 <= i < j < |es'| && ActiveEnrollment(es'[i]) && ActiveEnrollment(es'[j])
      ensures es'[i].classId != es'[j].classId || es'[i].studentId != es'[j].studentId
    {
      assert es'[i] == es[i] && es'[j] == es[j];
    }
  }

  /**
   * PATCH /classes/:classId/students/:studentId: the enrolment found is rewritten; an
   * activation that would give the student a second active enrolment is stopped by
   * the index and changes nothing. Audited with the old row and the new values.
   */
  method PatchStudent(db: Db, ctx: Ctx, classId: Id, studentId: Id, p: StudentPatch) returns (r: Result<Enrollment, HttpError>)
    requires db.Valid()
    modifies db`enrollments, db.journal`audit
    ensures db.Valid()
    ensures old(PatchStudentCheck(db.classes, db.classTeachers, db.enrollments, ctx.user, classId, studentId)).Err? ==>
      (r == Err(old(PatchStudentCheck(db.classes, db.classTeachers, db.enrollments, ctx.user, classId, studentId)).error)
       && db.enrollments == old(db.enrollments) && db.journal.audit == old(db.journal.audit))
    ensures old(PatchStudentCheck(db.classes, db.classTeachers, db.enrollments, ctx.user, classId, studentId)).Ok? ==>
      var id := old(PatchStudentCheck(db.classes, db.classTeachers, db.enrollments, ctx.user, classId, studentId)).value;
      var e := Reenrolled(old(db.enrollments)[id - 1], p, ctx.now);
      (!EnrollmentsUnique(old(db.enrollments)[id - 1 := e]) ==>
         r == Err(DbError(UniqueFailed("class_students.class_id, class_students.student_id")))
         && db.enrollments == old(db.enrollments) && db.journal.audit == old(db.journal.audit))
      && (EnrollmentsUnique(old(db.enrollments)[id - 1 := e]) ==>
            r == Ok(e) && db.enrollments == old(db.enrollments)[id - 1 := e]
            && db.journal.audit == old(db.journal.audit)
                 + [AuditRow(ctx, ctx.user.value, STUDENT_UPDATE_ACTION, STUDENTS_TABLE, PairText(classId, studentId),
                             Some(EnrollmentSnap(id, old(db.enrollments)[id - 1])),
                             Some(EnrollmentChange(e.isActive, e.joinedAt, e.leftAt)), Some(classId), None, None)])
  {
    var id :- PatchStudentCheck(db.classes, db.classTeachers, db.enrollments, ctx.user, classId, studentId);
    WritableClassPassesGuard(db.classes, db.flags, classId);
    r := RewriteEnrollment(db, ctx, classId, studentId, id, p);
  }

  /** The write half of the edit, on an enrolment already found in a writable class. */
  method RewriteEnrollment(db: Db, ctx: Ctx, classId: Id, studentId: Id, id: Id, p: StudentPatch)
    returns (r: Result<Enrollment, HttpError>)
    requires db.Valid() && ctx.user.Some? && Has(db.enrollments, id)
    requires db.enrollments[id - 1].classId == classId && !ArchivedBlocks(db.classes, db.flags, classId)
    modifies db`enrollments, db.journal`audit
    ensures db.Valid()
    ensures var e := Reenrolled(old(db.enrollments)[id - 1], p, ctx.now);
      (!EnrollmentsUnique(old(db.enrollments)[id - 1 := e]) ==>
         r == Err(DbError(UniqueFailed("class_students.class_id, class_students.student_id")))
         && db.enrollments == old(db.enrollments) && db.journal.audit == old(db.journal.audit))
      && (EnrollmentsUnique(old(db.enrollments)[id - 1 := e]) ==>
            r == Ok(e) && db.enrollments == old(db.enrollments)[id - 1 := e]
            && db.journal.audit == old(db.journal.audit)
                 + [AuditRow(ctx, ctx.user.value, STUDENT_UPDATE_ACTION, STUDENTS_TABLE, PairText(classId, studentId),
                             Some(EnrollmentSnap(id, old(db.enrollments)[id - 1])),
                             Some(EnrollmentChange(e.isActive, e.joinedAt, e.leftAt)), Some(classId), None, None)])
  {
    var row := db.enrollments[id - 1];
    var e := Reenrolled(row, p, ctx.now);
    var es := Statements.UpdateEnrollment(db.classes, db.flags, db.enrollments, id, e);
    if es.Err? {
      return Err(DbError(es.error));
    }
    SetEnrollments(db, es.value);
    db.journal.WriteAudit(ctx, STUDENT_UPDATE_ACTION, STUDENTS_TABLE, PairText(classId, studentId),
                          Some(EnrollmentSnap(id, row)), Some(EnrollmentChange(e.isActive, e.joinedAt, e.leftAt)),
                          Some(classId), None, None);
    r := Ok(e);
  }

  /* ---------- DELETE /classes/:classId/students/:studentId ---------- */

  /**
   * Every live enrolment of the student in the class is closed and soft-deleted; the
   * student is then no longer in the class, and every other student's standing is kept.
   */
  function WithoutStudent(es: seq<Enrollment>, classId: Id, studentId: Id, now: Time): (r: seq<Enrollment>)
    ensures |r| == |es|
    ensures forall i :: 0 <= i < |es| ==>
      r[i] == (if Statements.RemovesEnrollment(es[i], classId, studentId)
               then es[i].(isActive := false, leftAt := Some(now), deletedAt := Some(now)) else es[i])
    ensures !IsStudentInClass(r, classId, studentId)
    ensures forall c, s :: IsStudentInClass(r, c, s) ==> IsStudentInClass(es, c, s)
    ensures EnrollmentsUnique(es) ==> EnrollmentsUnique(r)
  {
    var r := seq(|es|, i requires 0 <= i < |es| =>
      if Statements.RemovesEnrollment(es[i], classId, studentId)
      then es[i].(isActive := false, leftAt := Some(now), deletedAt := Some(now)) else es[i]);
    assert forall c, s :: IsStudentInClass(r, c, s) ==> IsStudentInClass(es, c, s) by {
      forall c, s | IsStudentInClass(r, c, s) ensures IsStudentInClass(es, c, s) {
        var i :| 0 <= i < |r| && ActiveEnrollment(r[i]) && r[i].classId == c && r[i].studentId == s;
        assert r[i] == es[i];
      }
    }
    r
  }

  /** DELETE /classes/:classId/students/:studentId: staff of a writable class; audited with the pair. */
  method RemoveStudent(db: Db, ctx: Ctx, classId: Id, studentId: Id) returns (r: Result<(), HttpError>)
    requires db.Valid()
    modifies db`enrollments, db.journal`audit
    ensures db.Valid()
    ensures r.Ok? <==> old(StaffWritable(db.classes, db.classTeachers, ctx.user, classId)).Ok?
    ensures r.Err? ==> r.error == old(StaffWritable(db.classes, db.classTeachers, ctx.user, classId)).error
    ensures r.Err? ==> db.enrollments == old(db.enrollments) && db.journal.audit == old(db.journal.audit)
    ensures r.Ok? ==>
      db.enrollments == WithoutStudent(old(db.enrollments), classId, studentId, ctx.now)
      && db.journal.audit == old(db.journal.audit)
           + [AuditRow(ctx, ctx.user.value, STUDENT_REMOVE_ACTION, STUDENTS_TABLE, PairText(classId, studentId),
                       None, None, Some(classId), None, None)]
  {
    var _ :- StaffWritable(db.classes, db.classTeachers, ctx.user, classId);
    WritableClassPassesGuard(db.classes, db.flags, classId);
    var es := Statements.RemoveEnrollments(db.classes, db.flags, db.enrollments, classId, studentId, ctx.now);
    assert es.value == WithoutStudent(db.enrollments, classId, studentId, ctx.now);
    db.enrollments := es.value;
    db.journal.WriteAudit(ctx, STUDENT_REMOVE_ACTION, STUDENTS_TABLE, PairText(classId, studentId), None, None,
                          Some(classId), None, None);
    r := Ok(());
  }

  /** A removed student can no longer read the class, or make it their active class. */
  lemma RemovedStudentLosesClass(ts: seq<ClassTeacher>, es: seq<Enrollment>, classId: Id, me: Actor, now: Time)
    requires me.role == Auth.Student
    ensures var es' := WithoutStudent(es, classId, me.id, now);
      AssertClassReadable(ts, es', Some(me), classId) == Err(Forbidden("Not a member of this class"))
      && ActiveClassCheck(ts, es', Some(me), classId) == Err(Forbidden("Not enrolled"))
  {
  }

  /* ---------- GET /classes/:classId/teachers ---------- */

  /** A live teacher row of the class whose teacher has a users row (the inner join). */
  predicate OnStaff(users: seq<User>, t: ClassTeacher, classId: Id)
  {
    t.classId == classId && LiveTeacher(t) && Has(users, t.teacherId)
  }

  /** A row of the teacher list; the teacher profile columns are not part of this model. */
  datatype TeacherRow = TeacherRow(userId: Id, username: string, role: TeacherRole)

  /** GET /classes/:classId/teachers: members of the class see its live teacher rows in row order. */
  function ListTeachers(users: seq<User>, ts: seq<ClassTeacher>, es: seq<Enrollment>, user: Option<Actor>, classId: Id)
    : (r: Result<seq<TeacherRow>, HttpError>)
    ensures r.Ok? <==> AssertClassReadable(ts, es, user, classId).Ok?
    ensures r.Err? ==> r.error == AssertClassReadable(ts, es, user, classId).error
    ensures r.Ok? ==> |r.value| == |Queries.Select(ts, (t: ClassTeacher) => OnStaff(users, t, classId))|
    ensures r.Ok? ==> forall k :: 0 <= k < |r.value| ==>
      var id := Queries.Select(ts, (t: ClassTeacher) => OnStaff(users, t, classId))[k];
      Has(ts, id) && OnStaff(users, ts[id - 1], classId)
      && r.value[k] == TeacherRow(ts[id - 1].teacherId, users[ts[id - 1].teacherId - 1].username, ts[id - 1].role)
  {
    var _ :- AssertClassReadable(ts, es, user, classId);
    var ids := Queries.Select(ts, (t: ClassTeacher) => OnStaff(users, t, classId));
    assert forall k :: 0 <= k < |ids| ==> ids[k] in ids;
    Ok(seq(|ids|, k requires 0 <= k < |ids| =>
      TeacherRow(ts[ids[k] - 1].teacherId, users[ts[ids[k] - 1].teacherId - 1].username, ts[ids[k] - 1].role)))
  }

  /* ---------- POST and DELETE /classes/:classId/teachers ---------- */

  /**
   * The teacher-list edits: a login (401); unless admin, the teacher role (403
   * "Teacher required") and the owner row (403 "Owner required"); then a live (404),
   * writable (403) class, which is the result.
   */
  function OwnerCheck(classes: seq<Class>, ts: seq<ClassTeacher>, user: Option<Actor>, classId: Id)
    : (r: Result<Class, HttpError>)
    ensures user.None? ==> r == Err(Unauthorized("Login required"))
    ensures user.Some? && user.value.role == Auth.Student ==> r == Err(Forbidden("Teacher required"))
    ensures user.Some? && user.value.role == Auth.Teacher && !IsOwnerTeacherOfClass(ts, classId, user.value.id) ==>
      r == Err(Forbidden("Owner required"))
    ensures r.Ok? <==>
      (user.Some?
       && (user.value.role == Auth.Admin
           || (user.value.role == Auth.Teacher && IsOwnerTeacherOfClass(ts, classId, user.value.id)))
       && Teams.ClassWritable(classes, classId))
    ensures r.Ok? ==> r.value == classes[classId - 1]
  {
    var me :- RequireUser(user);
    var _ :- if me.role == Auth.Admin then Ok(())
             else if me.role != Auth.Teacher then Err(Forbidden("Teacher required"))
             else if !IsOwnerTeacherOfClass(ts, classId, me.id) then Err(Forbidden("Owner required"))
             else Ok(());
    var cls :- GetClass(classes, classId);
    var _ :- AssertClassWritable(cls);
    Ok(cls)
  }

  /** Whoever may edit the teacher list may also act as a teacher of the class: an owner is a teacher. */
  lemma OwnerIsStaff(classes: seq<Class>, ts: seq<ClassTeacher>, user: Option<Actor>, classId: Id)
    requires OwnerCheck(classes, ts, user, classId).Ok?
    ensures StaffWritable(classes, ts, user, classId).Ok?
  {
    if user.value.role == Auth.Teacher {
      var row := FirstTeacherRow(ts, classId, user.value.id);
      assert Statements.RemovesTeacher(ts[row.value], classId, user.value.id);
    }
  }

  /** The add body: the teacher's id and a role, `teacher` when not given. */
  datatype TeacherBody = TeacherBody(teacherId: Id, role: Option<TeacherRole>)

  function NewTeacherRow(classId: Id, b: TeacherBody): ClassTeacher
  {
    ClassTeacher(classId, b.teacherId, b.role.GetOr(Instructor), None)
  }

  /**
   * POST /classes/:classId/teachers: the row is inserted unless the teacher already
   * teaches the class; audited with the pair either way.
   */
  method AddTeacher(db: Db, ctx: Ctx, classId: Id, b: TeacherBody) returns (r: Result<(), HttpError>)
    requires db.Valid()
    modifies db`classTeachers, db.journal`audit
    ensures db.Valid()
    ensures r.Ok? <==> old(OwnerCheck(db.classes, db.classTeachers, ctx.user, classId)).Ok?
    ensures r.Err? ==> r.error == old(OwnerCheck(db.classes, db.classTeachers, ctx.user, classId)).error
    ensures r.Err? ==> db.classTeachers == old(db.classTeachers) && db.journal.audit == old(db.journal.audit)
    ensures r.Ok? ==>
      db.classTeachers == (if Statements.Teaches(old(db.classTeachers), classId, b.teacherId) then old(db.classTeachers)
                           else old(db.classTeachers) + [NewTeacherRow(classId, b)])
      && db.journal.audit == old(db.journal.audit)
           + [AuditRow(ctx, ctx.user.value, TEACHER_ADD_ACTION, TEACHERS_TABLE, PairText(classId, b.teacherId),
                       None, None, Some(classId), None, None)]
  {
    var _ :- OwnerCheck(db.classes, db.classTeachers, ctx.user, classId);
    WritableClassPassesGuard(db.classes, db.flags, classId);
    var ts := Statements.InsertTeacherOrIgnore(db.classes, db.flags, db.classTeachers, NewTeacherRow(classId, b));
    assert (db.classTeachers + [NewTeacherRow(classId, b)])[|db.classTeachers|] == NewTeacherRow(classId, b);
    db.classTeachers := ts.value;
    db.journal.WriteAudit(ctx, TEACHER_ADD_ACTION, TEACHERS_TABLE, PairText(classId, b.teacherId), None, None,
                          Some(classId), None, None);
    r := Ok(());
  }

  /** After an add, the teacher teaches the class, and one with the teacher role passes its teacher check. */
  lemma AddedTeacherTeaches(ts: seq<ClassTeacher>, classId: Id, b: TeacherBody, t: Actor)
    requires t.id == b.teacherId && t.role == Auth.Teacher
    ensures var ts' := if Statements.Teaches(ts, classId, b.teacherId) then ts else ts + [NewTeacherRow(classId, b)];
      IsTeacherOfClass(ts', classId, b.teacherId) && AssertClassTeacher(ts', Some(t), classId).Ok?
  {
    if !Statements.Teaches(ts, classId, b.teacherId) {
      assert (ts + [NewTeacherRow(classId, b)])[|ts|] == NewTeacherRow(classId, b);
    }
  }

  /** `count(1)` of the live teacher rows of the class. */
  function LiveTeacherCount(ts: seq<ClassTeacher>, classId: Id): nat
  {
    if ts == [] then 0
    else LiveTeacherCount(ts[..|ts| - 1], classId) + (if LiveTeacher(ts[|ts| - 1]) && ts[|ts| - 1].classId == classId then 1 else 0)
  }

  predicate TeachesClass(t: ClassTeacher, classId: Id)
  {
    LiveTeacher(t) && t.classId == classId
  }

  lemma {:induction false} CountedRowExists(ts: seq<ClassTeacher>, classId: Id)
    requires LiveTeacherCount(ts, classId) >= 1
    ensures exists i :: 0 <= i < |ts| && TeachesClass(ts[i], classId)
  {
    var init := ts[..|ts| - 1];
    if !TeachesClass(ts[|ts| - 1], classId) {
      CountedRowExists(init, classId);
      var i :| 0 <= i < |init| && TeachesClass(init[i], classId);
      assert ts[i] == init[i];
    }
  }

  lemma {:induction false} TwoCountedRows(ts: seq<ClassTeacher>, classId: Id)
    requires LiveTeacherCount(ts, classId) >= 2
    ensures exists i, j :: 0 <= i < j < |ts| && TeachesClass(ts[i], classId) && TeachesClass(ts[j], classId)
  {
    var init := ts[..|ts| - 1];
    if TeachesClass(ts[|ts| - 1], classId) {
      CountedRowExists(init, classId);
      var i :| 0 <= i < |init| && TeachesClass(init[i], classId);
      assert ts[i] == init[i];
      assert TeachesClass(ts[i], classId) && TeachesClass(ts[|ts| - 1], classId);
    } else {
      TwoCountedRows(init, classId);
      var i, j :| 0 <= i < j < |init| && TeachesClass(init[i], classId) && TeachesClass(init[j], classId);
      assert ts[i] == init[i] && ts[j] == init[j];
    }
  }

  lemma {:induction false} RowCounts(ts: seq<ClassTeacher>, classId: Id, i: nat)
    requires i < |ts| && TeachesClass(ts[i], classId)
    ensures LiveTeacherCount(ts, classId) >= 1
  {
    if i < |ts| - 1 {
      RowCounts(ts[..|ts| - 1], classId, i);
    }
  }

  /**
   * UPDATE class_teachers SET deleted_at = now for the teacher's live rows of the
   * class; every other row is kept.
   */
  function WithoutTeacher(ts: seq<ClassTeacher>, classId: Id, teacherId: Id, now: Time): (r: seq<ClassTeacher>)
    ensures |r| == |ts|
    ensures forall i :: 0 <= i < |ts| ==>
      r[i] == (if Statements.RemovesTeacher(ts[i], classId, teacherId) then ts[i].(deletedAt := Some(now)) else ts[i])
    ensures !IsTeacherOfClass(r, classId, teacherId)
    ensures TeachersUnique(ts) ==> TeachersUnique(r)
  {
    seq(|ts|, i requires 0 <= i < |ts| =>
      if Statements.RemovesTeacher(ts[i], classId, teacherId) then ts[i].(deletedAt := Some(now)) else ts[i])
  }

  /**
   * The last-teacher rule keeps every class staffed: when the class had two or more
   * live teacher rows, at most one belongs to the removed teacher, so one stays.
   */
  lemma LastTeacherStays(ts: seq<ClassTeacher>, classId: Id, teacherId: Id, now: Time)
    requires TeachersUnique(ts) && LiveTeacherCount(ts, classId) > 1
    ensures LiveTeacherCount(WithoutTeacher(ts, classId, teacherId, now), classId) >= 1
  {
    TwoCountedRows(ts, classId);
    var i, j :| 0 <= i < j < |ts| && TeachesClass(ts[i], classId) && TeachesClass(ts[j], classId);
    var r := WithoutTeacher(ts, classId, teacherId, now);
    if ts[i].teacherId != teacherId {
      assert r[i] == ts[i];
      RowCounts(r, classId, i);
    } else {
      assert r[j] == ts[j];
      RowCounts(r, classId, j);
    }
  }

  /** The owner check, then more than one live teacher row (400 "Cannot remove last teacher"). */
  function RemoveTeacherCheck(classes: seq<Class>, ts: seq<ClassTeacher>, user: Option<Actor>, classId: Id)
    : (r: Result<(), HttpError>)
    ensures OwnerCheck(classes, ts, user, classId).Err? ==> r == Err(OwnerCheck(classes, ts, user, classId).error)
    ensures OwnerCheck(classes, ts, user, classId).Ok? && LiveTeacherCount(ts, classId) <= 1 ==>
      r == Err(BadRequest("Cannot remove last teacher"))
    ensures r.Ok? <==> OwnerCheck(classes, ts, user, classId).Ok? && LiveTeacherCount(ts, classId) > 1
  {
    var _ :- OwnerCheck(classes, ts, user, classId);
    if LiveTeacherCount(ts, classId) <= 1 then Err(BadRequest("Cannot remove last teacher")) else Ok(())
  }

  /**
   * DELETE /classes/:classId/teachers/:teacherId: the teacher's live rows are
   * soft-deleted (none, if they do not teach the class); audited with the pair.
   */
  method RemoveTeacher(db: Db, ctx: Ctx, classId: Id, teacherId: Id) returns (r: Result<(), HttpError>)
    requires db.Valid()
    modifies db`classTeachers, db.journal`audit
    ensures db.Valid()
    ensures r.Ok? <==> old(RemoveTeacherCheck(db.classes, db.classTeachers, ctx.user, classId)).Ok?
    ensures r.Err? ==> r.error == old(RemoveTeacherCheck(db.classes, db.classTeachers, ctx.user, classId)).error
    ensures r.Err? ==> db.classTeachers == old(db.classTeachers) && db.journal.audit == old(db.journal.audit)
    ensures r.Ok? ==>
      db.classTeachers == WithoutTeacher(old(db.classTeachers), classId, teacherId, ctx.now)
      && LiveTeacherCount(db.classTeachers, classId) >= 1
      && db.journal.audit == old(db.journal.audit)
           + [AuditRow(ctx, ctx.user.value, TEACHER_REMOVE_ACTION, TEACHERS_TABLE, PairText(classId, teacherId),
                       None, None, Some(classId), None, None)]
  {
    var _ :- RemoveTeacherCheck(db.classes, db.classTeachers, ctx.user, classId);
    WritableClassPassesGuard(db.classes, db.flags, classId);
    var ts := Statements.RemoveTeachers(db.classes, db.flags, db.classTeachers, classId, teacherId, ctx.now);
    assert ts.value == WithoutTeacher(db.classTeachers, classId, teacherId, ctx.now);
    LastTeacherStays(db.classTeachers, classId, teacherId, ctx.now);
    db.classTeachers := ts.value;
    db.journal.WriteAudit(ctx, TEACHER_REMOVE_ACTION, TEACHERS_TABLE, PairText(classId, teacherId), None, None,
                          Some(classId), None, None);
    r := Ok(());
  }

  /* ---------- PUT and DELETE /me/classes/active ---------- */

  /**
   * A login (401); a student must be actively enrolled (403 "Not enrolled"), a teacher
   * must teach the class (403 "Not a teacher of this class"); an admin may choose any id.
   */
  function ActiveClassCheck(ts: seq<ClassTeacher>, es: seq<Enrollment>, user: Option<Actor>, classId: Id)
    : (r: Result<Actor, HttpError>)
    ensures user.None? ==> r == Err(Unauthorized("Login required"))
    ensures user.Some? && user.value.role == Auth.Student && !IsStudentInClass(es, classId, user.value.id) ==>
      r == Err(Forbidden("Not enrolled"))
    ensures user.Some? && user.value.role == Auth.Teacher && !IsTeacherOfClass(ts, classId, user.value.id) ==>
      r == Err(Forbidden("Not a teacher of this class"))
    ensures r.Ok? <==> user.Some? && MayReadClass(ts, es, user.value, classId)
    ensures r.Ok? ==> r.value == user.value
  {
    var me :- RequireUser(user);
    if me.role == Auth.Student && !IsStudentInClass(es, classId, me.id) then Err(Forbidden("Not enrolled"))
    else if me.role == Auth.Teacher && !IsTeacherOfClass(ts, classId, me.id) then Err(Forbidden("Not a teacher of this class"))
    else Ok(me)
  }

  /** PUT /me/classes/active: the caller's settings row is created or updated with the class id. */
  method SetActiveClass(db: Db, ctx: Ctx, classId: Id) returns (r: Result<Id, HttpError>)
    modifies db`settings
    ensures r.Ok? <==> old(ActiveClassCheck(db.classTeachers, db.enrollments, ctx.user, classId)).Ok?
    ensures r.Err? ==> r.error == old(ActiveClassCheck(db.classTeachers, db.enrollments, ctx.user, classId)).error
    ensures r.Err? ==> db.settings == old(db.settings)
    ensures r.Ok? ==> r.value == classId && db.settings == old(db.settings)[ctx.user.value.id := Settings(Some(classId))]
  {
    var me :- ActiveClassCheck(db.classTeachers, db.enrollments, ctx.user, classId);
    db.settings := db.settings[me.id := Settings(Some(classId))];
    r := Ok(classId);
  }

  /** DELETE /me/classes/active: the caller's active class is cleared. */
  method ClearActiveClass(db: Db, ctx: Ctx) returns (r: Result<(), HttpError>)
    modifies db`settings
    ensures r.Ok? <==> ctx.user.Some?
    ensures r.Err? ==> r.error == Unauthorized("Login required") && db.settings == old(db.settings)
    ensures r.Ok? ==> db.settings == old(db.settings)[ctx.user.value.id := Settings(None)]
  {
    var me :- RequireUser(ctx.user);
    db.settings := db.settings[me.id := Settings(None)];
    r := Ok(());
  }
}
