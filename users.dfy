/**
 * The user routes (server/src/routes/v1/users.ts): the staff user directory with a
 * teacher's scope, reading one user or their profile, changing one's own password, and
 * a teacher resetting an enrolled student's password to the default.
 */
module Users {
  import opened Wrappers
  import opened Schema
  import opened HttpErrors
  import opened Store
  import opened Helpers
  import Statements
  import Queries
  import Teams
  import Auth
  import Js
  import Password
  import ErrorHandler

  const USERS_TABLE := "users"
  const RESET_ACTION := "student.password_reset"

  /* ---------- assertTeacherCanAccessUser ---------- */

  /** The teacher has a live class_teachers row. */
  predicate TeachesAny(ts: seq<ClassTeacher>, teacherId: Id)
  {
    exists i :: 0 <= i < |ts| && LiveTeacher(ts[i]) && ts[i].teacherId == teacherId
  }

  /**
   * Through one of the teacher's live rows: the user is an active student, or a live
   * teacher, of that row's class.
   */
  predicate SharesClassRow(ts: seq<ClassTeacher>, es: seq<Enrollment>, teacherId: Id, userId: Id)
  {
    exists i :: 0 <= i < |ts| && LiveTeacher(ts[i]) && ts[i].teacherId == teacherId
      && (IsStudentInClass(es, ts[i].classId, userId) || IsTeacherOfClass(ts, ts[i].classId, userId))
  }

  /** Some class the teacher teaches has the user as an active student or as a teacher. */
  ghost predicate SharesClass(ts: seq<ClassTeacher>, es: seq<Enrollment>, teacherId: Id, userId: Id)
  {
    exists classId :: IsTeacherOfClass(ts, classId, teacherId)
      && (IsStudentInClass(es, classId, userId) || IsTeacherOfClass(ts, classId, userId))
  }

  lemma SharesClassByRow(ts: seq<ClassTeacher>, es: seq<Enrollment>, teacherId: Id)
    ensures forall userId :: SharesClassRow(ts, es, teacherId, userId) <==> SharesClass(ts, es, teacherId, userId)
  {
    forall userId ensures SharesClassRow(ts, es, teacherId, userId) <==> SharesClass(ts, es, teacherId, userId) {
      if SharesClass(ts, es, teacherId, userId) {
        var classId :| IsTeacherOfClass(ts, classId, teacherId)
          && (IsStudentInClass(es, classId, userId) || IsTeacherOfClass(ts, classId, userId));
        var i :| 0 <= i < |ts| && LiveTeacher(ts[i]) && ts[i].classId == classId && ts[i].teacherId == teacherId;
        assert ts[i].classId == classId;
      }
      if SharesClassRow(ts, es, teacherId, userId) {
        var i :| 0 <= i < |ts| && LiveTeacher(ts[i]) && ts[i].teacherId == teacherId
          && (IsStudentInClass(es, ts[i].classId, userId) || IsTeacherOfClass(ts, ts[i].classId, userId));
        assert Statements.Teaches(ts, ts[i].classId, teacherId);
      }
    }
  }

  /**
   * assertTeacherCanAccessUser: 403 "Access denied" for a teacher without classes, and
   * for a user who is neither an active student nor a teacher of any of them.
   */
  function TeacherAccess(ts: seq<ClassTeacher>, es: seq<Enrollment>, teacherId: Id, userId: Id)
    : (r: Result<(), HttpError>)
    ensures r.Ok? <==> SharesClass(ts, es, teacherId, userId)
    ensures r.Err? ==> r.error == Forbidden("Access denied")
  {
    SharesClassByRow(ts, es, teacherId);
    if !TeachesAny(ts, teacherId) then Err(Forbidden("Access denied"))
    else if !SharesClassRow(ts, es, teacherId, userId) then Err(Forbidden("Access denied"))
    else Ok(())
  }

  /* ---------- the joined user row ---------- */

  /** The first profile row of the user (user_id is the key of each profile table). */
  function StudentProfileOf(sps: seq<StudentProfile>, userId: Id): (r: Option<StudentProfile>)
    ensures r.Some? ==> r.value in sps && r.value.userId == userId
    ensures r.None? ==> forall i :: 0 <= i < |sps| ==> sps[i].userId != userId
  {
    var k := Queries.First(sps, (p: StudentProfile) => p.userId == userId);
    if k.Some? then Some(sps[k.value - 1])
    else
      assert forall i :: 0 <= i < |sps| ==> sps[i].userId != userId by {
        forall i | 0 <= i < |sps| ensures sps[i].userId != userId {
          assert Has(sps, i + 1);
        }
      }
      None
  }

  function TeacherProfileOf(tps: seq<TeacherProfile>, userId: Id): (r: Option<TeacherProfile>)
    ensures r.Some? ==> r.value in tps && r.value.userId == userId
    ensures r.None? ==> forall i :: 0 <= i < |tps| ==> tps[i].userId != userId
  {
    var k := Queries.First(tps, (p: TeacherProfile) => p.userId == userId);
    if k.Some? then Some(tps[k.value - 1])
    else
      assert forall i :: 0 <= i < |tps| ==> tps[i].userId != userId by {
        forall i | 0 <= i < |tps| ensures tps[i].userId != userId {
          assert Has(tps, i + 1);
        }
      }
      None
  }

  /** The directory row: the student's real name before the teacher's, the numbers when present. */
  datatype UserRow = UserRow(id: Id, username: string, role: Auth.Role, realName: Option<string>,
                             studentNo: Option<string>, teacherNo: Option<string>, mustChangePassword: bool)

  /** A users row left-joined with both profile tables (neither join filters deleted profiles). */
  function UserRowOf(users: seq<User>, sps: seq<StudentProfile>, tps: seq<TeacherProfile>, id: Id): (r: UserRow)
    requires Has(users, id)
    ensures r.id == id && r.username == users[id - 1].username && r.role == users[id - 1].role
    ensures r.mustChangePassword == users[id - 1].mustChangePassword
    ensures StudentProfileOf(sps, id).Some? ==> r.realName == Some(StudentProfileOf(sps, id).value.realName)
    ensures StudentProfileOf(sps, id).None? && TeacherProfileOf(tps, id).Some? ==>
      r.realName == Some(TeacherProfileOf(tps, id).value.realName)
    ensures StudentProfileOf(sps, id).None? && TeacherProfileOf(tps, id).None? ==> r.realName.None?
  {
    var u := users[id - 1];
    var sp := StudentProfileOf(sps, id);
    var tp := TeacherProfileOf(tps, id);
    UserRow(id, u.username, u.role,
            if sp.Some? then Some(sp.value.realName) else if tp.Some? then Some(tp.value.realName) else None,
            if sp.Some? then Some(sp.value.studentNo) else None,
            if tp.Some? then tp.value.teacherNo else None,
            u.mustChangePassword)
  }

  /* ---------- GET /users ---------- */

  /** The search term: the query trimmed, with every double and single quote removed. */
  function StripQuotes(s: string): (r: string)
    ensures |r| <= |s|
    ensures forall k :: 0 <= k < |r| ==> r[k] != '"' && r[k] != '\''
    ensures (forall k :: 0 <= k < |s| ==> s[k] != '"' && s[k] != '\'') ==> r == s
  {
    if s == [] then []
    else
      var rest := StripQuotes(s[1..]);
      if s[0] == '"' || s[0] == '\'' then rest else [s[0]] + rest
  }

  function SearchTerm(q: Option<string>): (r: string)
    ensures forall k :: 0 <= k < |r| ==> r[k] != '"' && r[k] != '\''
  {
    StripQuotes(Js.Trim(q.GetOr("")))
  }

  /** Stripping quotes a second time changes nothing. */
  lemma StripQuotesIdempotent(s: string)
    ensures StripQuotes(StripQuotes(s)) == StripQuotes(s)
  {
  }

  /** `LIKE '%term%'` on the username, the student number and name, the teacher number and name. */
  predicate Matches(term: string, users: seq<User>, sps: seq<StudentProfile>, tps: seq<TeacherProfile>, id: Id)
    requires Has(users, id)
  {
    var sp := StudentProfileOf(sps, id);
    var tp := TeacherProfileOf(tps, id);
    term == ""
    || Js.Contains(users[id - 1].username, term)
    || (sp.Some? && (Js.Contains(sp.value.studentNo, term) || Js.Contains(sp.value.realName, term)))
    || (tp.Some? && ((tp.value.teacherNo.Some? && Js.Contains(tp.value.teacherNo.value, term))
                     || Js.Contains(tp.value.realName, term)))
  }

  /**
   * A teacher's scope: themself, every live user with the teacher role (colleagues to
   * add), and the active students and the teachers of the classes they teach.
   */
  predicate InScopeRow(users: seq<User>, ts: seq<ClassTeacher>, es: seq<Enrollment>, me: Actor, id: Id)
  {
    id == me.id
    || (Has(users, id) && users[id - 1].role == Auth.Teacher && users[id - 1].deletedAt.None?)
    || SharesClassRow(ts, es, me.id, id)
  }

  /** What the directory keeps of a row: live, in the scope unless the caller is an admin, and matching. */
  predicate Shown(users: seq<User>, sps: seq<StudentProfile>, tps: seq<TeacherProfile>, ts: seq<ClassTeacher>,
                  es: seq<Enrollment>, me: Actor, term: string, id: Id)
  {
    Has(users, id) && users[id - 1].deletedAt.None?
    && (me.role == Auth.Admin || InScopeRow(users, ts, es, me, id))
    && Matches(term, users, sps, tps, id)
  }

  /** The users rows paired with their ids, so a filter may look at both. */
  function Numbered(users: seq<User>): (r: seq<(Id, User)>)
    ensures |r| == |users|
    ensures forall i :: 0 <= i < |users| ==> r[i] == (i + 1, users[i])
  {
    seq(|users|, i requires 0 <= i < |users| => (i + 1, users[i]))
  }

  /**
   * The ids the directory lists: 401 without a user, 403 "Insufficient permissions" for
   * a student; for an admin every live matching user, for a teacher only those in their
   * scope; ascending by id.
   */
  function ListUserIds(users: seq<User>, sps: seq<StudentProfile>, tps: seq<TeacherProfile>, ts: seq<ClassTeacher>,
                       es: seq<Enrollment>, user: Option<Actor>, q: Option<string>): (r: Result<seq<Id>, HttpError>)
    ensures user.None? ==> r == Err(Unauthorized("Login required"))
    ensures user.Some? && user.value.role == Auth.Student ==> r == Err(Forbidden("Insufficient permissions"))
    ensures r.Ok? <==> user.Some? && user.value.role != Auth.Student
    ensures r.Ok? ==> Queries.Increasing(r.value)
    ensures r.Ok? ==> forall id :: id in r.value <==>
      (Has(users, id) && users[id - 1].deletedAt.None?
       && (user.value.role == Auth.Admin || id == user.value.id || users[id - 1].role == Auth.Teacher
           || SharesClass(ts, es, user.value.id, id))
       && Matches(SearchTerm(q), users, sps, tps, id))
  {
    var me :- RequireUser(user);
    if me.role == Auth.Student then Err(Forbidden("Insufficient permissions"))
    else
      var term := SearchTerm(q);
      var rows := Numbered(users);
      SharesClassByRow(ts, es, me.id);
      var ids := Queries.Select(rows, (p: (Id, User)) => Shown(users, sps, tps, ts, es, me, term, p.0));
      assert forall id :: Has(rows, id) ==> rows[id - 1].0 == id;
      Ok(ids)
  }

  /** GET /users: the listed ids, each with its joined row. */
  function ListUsers(users: seq<User>, sps: seq<StudentProfile>, tps: seq<TeacherProfile>, ts: seq<ClassTeacher>,
                     es: seq<Enrollment>, user: Option<Actor>, q: Option<string>): (r: Result<seq<UserRow>, HttpError>)
    ensures r.Ok? <==> ListUserIds(users, sps, tps, ts, es, user, q).Ok?
    ensures r.Err? ==> r.error == ListUserIds(users, sps, tps, ts, es, user, q).error
    ensures r.Ok? ==> |r.value| == |ListUserIds(users, sps, tps, ts, es, user, q).value|
    ensures r.Ok? ==> forall k :: 0 <= k < |r.value| ==>
      var id := ListUserIds(users, sps, tps, ts, es, user, q).value[k];
      Has(users, id) && r.value[k] == UserRowOf(users, sps, tps, id)
  {
    var ids :- ListUserIds(users, sps, tps, ts, es, user, q);
    assert forall k :: 0 <= k < |ids| ==> ids[k] in ids;
    Ok(seq(|ids|, k requires 0 <= k < |ids| => UserRowOf(users, sps, tps, ids[k])))
  }

  /** A teacher who teaches no class sees only themself and the other teachers. */
  lemma ClasslessTeacherSeesTeachers(users: seq<User>, sps: seq<StudentProfile>, tps: seq<TeacherProfile>,
                                     ts: seq<ClassTeacher>, es: seq<Enrollment>, me: Actor, q: Option<string>, id: Id)
    requires me.role == Auth.Teacher && !TeachesAny(ts, me.id)
    requires id in ListUserIds(users, sps, tps, ts, es, Some(me), q).value
    ensures id == me.id || users[id - 1].role == Auth.Teacher
  {
    SharesClassByRow(ts, es, me.id);
    assert !SharesClassRow(ts, es, me.id, id);
  }

  /* ---------- GET /users/:userId and GET /users/:userId/profile ---------- */

  /** Who may look another user up: an admin, the user themself, or a teacher sharing a class. */
  ghost predicate MayFetch(ts: seq<ClassTeacher>, es: seq<Enrollment>, me: Actor, userId: Id)
  {
    me.role == Auth.Admin || me.id == userId || (me.role == Auth.Teacher && SharesClass(ts, es, me.id, userId))
  }

  /** The role gate both lookups open with: a student may ask only about themself. */
  function RoleGate(user: Option<Actor>, userId: Id): (r: Result<Actor, HttpError>)
    ensures user.None? ==> r == Err(Unauthorized("Login required"))
    ensures r.Ok? <==>
      user.Some? && (user.value.role == Auth.Admin || user.value.role == Auth.Teacher || user.value.id == userId)
    ensures user.Some? && r.Err? ==> r.error == Forbidden("Insufficient permissions")
    ensures r.Ok? ==> r.value == user.value
  {
    var me :- RequireUser(user);
    if me.role != Auth.Admin && me.id != userId && me.role != Auth.Teacher then Err(Forbidden("Insufficient permissions"))
    else Ok(me)
  }

  /** A teacher asking about someone else must share a class with them. */
  function AssociationGate(ts: seq<ClassTeacher>, es: seq<Enrollment>, me: Actor, userId: Id): (r: Result<(), HttpError>)
    ensures r.Ok? <==> me.role != Auth.Teacher || me.id == userId || SharesClass(ts, es, me.id, userId)
    ensures r.Err? ==> r.error == Forbidden("Access denied")
  {
    if me.role == Auth.Teacher && me.id != userId then TeacherAccess(ts, es, me.id, userId) else Ok(())
  }

  /**
   * GET /users/:userId: the role gate (401/403), the live user (404 "User not found"),
   * then a teacher's association with them (403). The existence check comes before the
   * association check.
   */
  function ReadUser(users: seq<User>, sps: seq<StudentProfile>, tps: seq<TeacherProfile>, ts: seq<ClassTeacher>,
                    es: seq<Enrollment>, user: Option<Actor>, userId: Id): (r: Result<UserRow, HttpError>)
    ensures RoleGate(user, userId).Err? ==> r == Err(RoleGate(user, userId).error)
    ensures RoleGate(user, userId).Ok? && !(Has(users, userId) && users[userId - 1].deletedAt.None?) ==>
      r == Err(NotFound("User not found"))
    ensures r.Ok? <==>
      user.Some? && Has(users, userId) && users[userId - 1].deletedAt.None? && MayFetch(ts, es, user.value, userId)
    ensures r.Ok? ==> r.value == UserRowOf(users, sps, tps, userId)
  {
    var me :- RoleGate(user, userId);
    if !(Has(users, userId) && users[userId - 1].deletedAt.None?) then Err(NotFound("User not found"))
    else
      var _ :- AssociationGate(ts, es, me, userId);
      Ok(UserRowOf(users, sps, tps, userId))
  }

  /** Every user a teacher's directory lists, other than a fellow teacher, the teacher may also open. */
  lemma ListedStudentIsReadable(users: seq<User>, sps: seq<StudentProfile>, tps: seq<TeacherProfile>,
                                ts: seq<ClassTeacher>, es: seq<Enrollment>, me: Actor, q: Option<string>, id: Id)
    requires me.role == Auth.Teacher
    requires id in ListUserIds(users, sps, tps, ts, es, Some(me), q).value
    requires users[id - 1].role != Auth.Teacher
    ensures ReadUser(users, sps, tps, ts, es, Some(me), id) == Ok(UserRowOf(users, sps, tps, id))
  {
    assert MayFetch(ts, es, me, id);
    assert RoleGate(Some(me), id) == Ok(me);
    assert AssociationGate(ts, es, me, id) == Ok(());
  }

  /**
   * The directory lists every live teacher to every teacher, but opening one who shares
   * no class with the caller is refused.
   */
  lemma ListedColleagueMayBeRefused(users: seq<User>, sps: seq<StudentProfile>, tps: seq<TeacherProfile>,
                                    ts: seq<ClassTeacher>, es: seq<Enrollment>, me: Actor, id: Id)
    requires me.role == Auth.Teacher && id != me.id
    requires Has(users, id) && users[id - 1].deletedAt.None? && users[id - 1].role == Auth.Teacher
    requires !SharesClass(ts, es, me.id, id)
    ensures id in ListUserIds(users, sps, tps, ts, es, Some(me), None).value
    ensures ReadUser(users, sps, tps, ts, es, Some(me), id) == Err(Forbidden("Access denied"))
  {
    assert SearchTerm(None) == "" by {
      Js.TrimOfEmpty();
    }
  }

  /** The profile a lookup returns: whichever live one exists, the student's first. */
  datatype Profile =
    | OfStudent(student: StudentProfile)
    | OfTeacher(teacher: TeacherProfile)
    | OfAdmin(admin: AdminProfile)

  function LiveStudentProfile(sps: seq<StudentProfile>, userId: Id): (r: Option<StudentProfile>)
    ensures r.Some? ==> r.value in sps && r.value.userId == userId && r.value.deletedAt.None?
    ensures r.None? ==> forall i :: 0 <= i < |sps| ==> !(sps[i].userId == userId && sps[i].deletedAt.None?)
  {
    var k := Queries.First(sps, (p: StudentProfile) => p.userId == userId && p.deletedAt.None?);
    if k.Some? then Some(sps[k.value - 1])
    else
      assert forall i :: 0 <= i < |sps| ==> !(sps[i].userId == userId && sps[i].deletedAt.None?) by {
        forall i | 0 <= i < |sps| ensures !(sps[i].userId == userId && sps[i].deletedAt.None?) {
          assert Has(sps, i + 1);
        }
      }
      None
  }

  function LiveTeacherProfile(tps: seq<TeacherProfile>, userId: Id): (r: Option<TeacherProfile>)
    ensures r.Some? ==> r.value in tps && r.value.userId == userId && r.value.deletedAt.None?
    ensures r.None? ==> forall i :: 0 <= i < |tps| ==> !(tps[i].userId == userId && tps[i].deletedAt.None?)
  {
    var k := Queries.First(tps, (p: TeacherProfile) => p.userId == userId && p.deletedAt.None?);
    if k.Some? then Some(tps[k.value - 1])
    else
      assert forall i :: 0 <= i < |tps| ==> !(tps[i].userId == userId && tps[i].deletedAt.None?) by {
        forall i | 0 <= i < |tps| ensures !(tps[i].userId == userId && tps[i].deletedAt.None?) {
          assert Has(tps, i + 1);
        }
      }
      None
  }

  function LiveAdminProfile(aps: seq<AdminProfile>, userId: Id): (r: Option<AdminProfile>)
    ensures r.Some? ==> r.value in aps && r.value.userId == userId && r.value.deletedAt.None?
    ensures r.None? ==> forall i :: 0 <= i < |aps| ==> !(aps[i].userId == userId && aps[i].deletedAt.None?)
  {
    var k := Queries.First(aps, (p: AdminProfile) => p.userId == userId && p.deletedAt.None?);
    if k.Some? then Some(aps[k.value - 1])
    else
      assert forall i :: 0 <= i < |aps| ==> !(aps[i].userId == userId && aps[i].deletedAt.None?) by {
        forall i | 0 <= i < |aps| ensures !(aps[i].userId == userId && aps[i].deletedAt.None?) {
          assert Has(aps, i + 1);
        }
      }
      None
  }

  /** `student || teacher || admin`. */
  function ProfileOf(sps: seq<StudentProfile>, tps: seq<TeacherProfile>, aps: seq<AdminProfile>, userId: Id)
    : (r: Option<Profile>)
    ensures r.None? <==>
      LiveStudentProfile(sps, userId).None? && LiveTeacherProfile(tps, userId).None? && LiveAdminProfile(aps, userId).None?
    ensures LiveStudentProfile(sps, userId).Some? ==> r == Some(OfStudent(LiveStudentProfile(sps, userId).value))
  {
    var s := LiveStudentProfile(sps, userId);
    var t := LiveTeacherProfile(tps, userId);
    var a := LiveAdminProfile(aps, userId);
    if s.Some? then Some(OfStudent(s.value))
    else if t.Some? then Some(OfTeacher(t.value))
    else if a.Some? then Some(OfAdmin(a.value))
    else None
  }

  /**
   * GET /users/:userId/profile: the role gate, a live profile (404 "Profile not found"),
   * then a teacher's association. The users row itself is not consulted.
   */
  function ReadProfile(sps: seq<StudentProfile>, tps: seq<TeacherProfile>, aps: seq<AdminProfile>,
                       ts: seq<ClassTeacher>, es: seq<Enrollment>, user: Option<Actor>, userId: Id)
    : (r: Result<Profile, HttpError>)
    ensures RoleGate(user, userId).Err? ==> r == Err(RoleGate(user, userId).error)
    ensures RoleGate(user, userId).Ok? && ProfileOf(sps, tps, aps, userId).None? ==> r == Err(NotFound("Profile not found"))
    ensures r.Ok? <==>
      user.Some? && ProfileOf(sps, tps, aps, userId).Some? && MayFetch(ts, es, user.value, userId)
    ensures r.Ok? ==> r.value == ProfileOf(sps, tps, aps, userId).value
  {
    var me :- RoleGate(user, userId);
    var p := ProfileOf(sps, tps, aps, userId);
    if p.None? then Err(NotFound("Profile not found"))
    else
      var _ :- AssociationGate(ts, es, me, userId);
      Ok(p.value)
  }

  /** Both lookups let exactly the same callers through to a user who has a live row and profile. */
  lemma LookupsAgreeOnAccess(users: seq<User>, sps: seq<StudentProfile>, tps: seq<TeacherProfile>,
                             aps: seq<AdminProfile>, ts: seq<ClassTeacher>, es: seq<Enrollment>,
                             user: Option<Actor>, userId: Id)
    requires Has(users, userId) && users[userId - 1].deletedAt.None?
    requires ProfileOf(sps, tps, aps, userId).Some?
    ensures ReadUser(users, sps, tps, ts, es, user, userId).Ok? <==> ReadProfile(sps, tps, aps, ts, es, user, userId).Ok?
  {
  }

  /* ---------- PATCH /users/me/password ---------- */

  /**
   * hashPassword (with the default parameters) and verifyPassword, passed in; Implements
   * ties them to the Password model for the lemmas that need their behaviour.
   */
  datatype Crypto = Crypto(hash: string -> Result<string, Thrown>, verify: (string, string) -> bool)

  ghost predicate Implements(crypto: Crypto, scrypt: Password.Scrypt, randomBytes: nat -> seq<Password.Byte>)
  {
    && (forall plain :: crypto.hash(plain) == Password.HashPassword(scrypt, randomBytes, plain, Password.NO_PATCH))
    && (forall plain, stored :: crypto.verify(plain, stored) == Password.VerifyPassword(scrypt, plain, stored))
  }

  /** The body schema's answer to a new password shorter than six characters, before the handler runs. */
  function TooShort(details: Details): HttpError
  {
    HttpError(StatusNum(400), "BAD_REQUEST", ErrorHandler.VALIDATION_ERROR, details)
  }

  /** hashPassword(newPassword): what it throws reaches the client through the error hook. */
  function NewHash(crypto: Crypto, plain: string): (r: Result<string, HttpError>)
    ensures r.Ok? <==> crypto.hash(plain).Ok?
    ensures r.Ok? ==> r.value == crypto.hash(plain).value
  {
    var h := crypto.hash(plain);
    if h.Err? then Err(ErrorHandler.Handle(h.error)) else Ok(h.value)
  }

  /** The caller's live row (401 "User not found") and its current password (401 "Invalid password"). */
  function CurrentPasswordCheck(users: seq<User>, crypto: Crypto, me: Actor, currentPassword: string)
    : (r: Result<(), HttpError>)
    ensures !(Has(users, me.id) && users[me.id - 1].deletedAt.None?) ==> r == Err(Unauthorized("User not found"))
    ensures Has(users, me.id) && users[me.id - 1].deletedAt.None?
            && !crypto.verify(currentPassword, users[me.id - 1].passwordHash) ==>
      r == Err(Unauthorized("Invalid password"))
    ensures r.Ok? <==>
      Has(users, me.id) && users[me.id - 1].deletedAt.None?
      && crypto.verify(currentPassword, users[me.id - 1].passwordHash)
  {
    if !(Has(users, me.id) && users[me.id - 1].deletedAt.None?) then Err(Unauthorized("User not found"))
    else if !crypto.verify(currentPassword, users[me.id - 1].passwordHash) then
      Err(Unauthorized("Invalid password"))
    else Ok(())
  }

  /**
   * The body check (400), a login (401), the caller's live row and current password
   * (401), then the new hash. The result is the new hash.
   */
  function ChangePasswordCheck(users: seq<User>, crypto: Crypto, user: Option<Actor>, currentPassword: string,
                               newPassword: string, details: Details): (r: Result<string, HttpError>)
    ensures |newPassword| < 6 ==> r == Err(TooShort(details))
    ensures |newPassword| >= 6 && user.None? ==> r == Err(Unauthorized("Login required"))
    ensures |newPassword| >= 6 && user.Some? && CurrentPasswordCheck(users, crypto, user.value, currentPassword).Err? ==>
      r == Err(CurrentPasswordCheck(users, crypto, user.value, currentPassword).error)
    ensures r.Ok? <==>
      (|newPassword| >= 6 && user.Some? && CurrentPasswordCheck(users, crypto, user.value, currentPassword).Ok?
       && NewHash(crypto, newPassword).Ok?)
    ensures r.Ok? ==> r.value == NewHash(crypto, newPassword).value
  {
    if |newPassword| < 6 then Err(TooShort(details))
    else
      var me :- RequireUser(user);
      var _ :- CurrentPasswordCheck(users, crypto, me, currentPassword);
      NewHash(crypto, newPassword)
  }

  /** The caller's row gets the new hash and no longer has to change its password; nothing is audited. */
  method ChangePassword(db: Db, crypto: Crypto, ctx: Ctx, currentPassword: string, newPassword: string,
                        details: Details) returns (r: Result<(), HttpError>)
    requires db.Valid()
    modifies db`users
    ensures db.Valid()
    ensures var check := old(ChangePasswordCheck(db.users, crypto, ctx.user, currentPassword, newPassword, details));
      && (r.Ok? <==> check.Ok?)
      && (r.Err? ==> r.error == check.error && db.users == old(db.users))
      && (r.Ok? ==>
            var id := ctx.user.value.id;
            db.users == old(db.users)[id - 1 := old(db.users)[id - 1].(passwordHash := check.value,
                                                                       mustChangePassword := false)])
  {
    var check := ChangePasswordCheck(db.users, crypto, ctx.user, currentPassword, newPassword, details);
    if check.Err? {
      return Err(check.error);
    }
    var id := ctx.user.value.id;
    assert CurrentPasswordCheck(db.users, crypto, ctx.user.value, currentPassword).Ok?;
    SetCredentials(db, id, check.value, false);
    r := Ok(());
  }

  /**
   * UPDATE users SET password_hash, must_change_password WHERE id = ?: only that row
   * changes, so the username index keeps holding.
   */
  method SetCredentials(db: Db, id: Id, hash: string, mustChange: bool)
    requires db.Valid() && Has(db.users, id)
    modifies db`users
    ensures db.Valid()
    ensures db.users == old(db.users)[id - 1 := old(db.users)[id - 1].(passwordHash := hash, mustChangePassword := mustChange)]
  {
    var u := db.users[id - 1];
    db.users := db.users[id - 1 := u.(passwordHash := hash, mustChangePassword := mustChange)];
    assert forall i :: 0 <= i < |db.users| ==> db.users[i].username == old(db.users)[i].username;
  }

  /**
   * After a change, the new password is the current one: a second change giving it as
   * the current password gets past the password check, when scrypt yields keys of the
   * requested length and the salt is not empty.
   */
  lemma ChangedPasswordVerifies(users: seq<User>, crypto: Crypto, scrypt: Password.Scrypt,
                                randomBytes: nat -> seq<Password.Byte>, me: Actor, currentPassword: string,
                                newPassword: string, details: Details)
    requires Implements(crypto, scrypt, randomBytes)
    requires ChangePasswordCheck(users, crypto, Some(me), currentPassword, newPassword, details).Ok?
    requires var m := Password.Merge(Password.NO_PATCH);
      var salt := randomBytes(m.saltLen);
      salt != [] && |scrypt(newPassword, salt, m.dkLen, m.n as real, m.r as real, m.p as real).value| == m.dkLen
    ensures var h := ChangePasswordCheck(users, crypto, Some(me), currentPassword, newPassword, details).value;
      var users' := users[me.id - 1 := users[me.id - 1].(passwordHash := h, mustChangePassword := false)];
      CurrentPasswordCheck(users', crypto, me, newPassword).Ok?
  {
    Password.HashThenVerify(scrypt, randomBytes, newPassword, Password.NO_PATCH);
  }

  /* ---------- POST /classes/:classId/students/:studentId/password-reset ---------- */

  /**
   * Staff of the class (401/403), a live (404) writable (403) class, and a student
   * actively enrolled in it (400 "Student not enrolled in this class").
   */
  function ResetCheck(classes: seq<Class>, ts: seq<ClassTeacher>, es: seq<Enrollment>, user: Option<Actor>,
                      classId: Id, studentId: Id): (r: Result<(), HttpError>)
    ensures AssertClassTeacher(ts, user, classId).Err? ==> r == Err(AssertClassTeacher(ts, user, classId).error)
    ensures (AssertClassTeacher(ts, user, classId).Ok? && Teams.ClassWritable(classes, classId)
             && !IsStudentInClass(es, classId, studentId)) ==> r == Err(BadRequest("Student not enrolled in this class"))
    ensures r.Ok? <==>
      AssertClassTeacher(ts, user, classId).Ok? && Teams.ClassWritable(classes, classId)
      && IsStudentInClass(es, classId, studentId)
  {
    var _ :- StaffOf(ts, user, classId);
    var cls :- GetClass(classes, classId);
    var _ :- AssertClassWritable(cls);
    if !IsStudentInClass(es, classId, studentId) then Err(BadRequest("Student not enrolled in this class")) else Ok(())
  }

  /**
   * The student's row (when there is one; the update does not look at deletion) gets a
   * fresh hash of the default password and must change it at next login; the reset is
   * audited on the users table and the default password is returned.
   */
  method ResetPassword(db: Db, crypto: Crypto, defaultPassword: string, ctx: Ctx, classId: Id, studentId: Id)
    returns (r: Result<string, HttpError>)
    requires db.Valid()
    modifies db`users, db.journal`audit
    ensures db.Valid()
    ensures var check := old(ResetCheck(db.classes, db.classTeachers, db.enrollments, ctx.user, classId, studentId));
      var h := crypto.hash(defaultPassword);
      && (r.Ok? <==> check.Ok? && h.Ok?)
      && (check.Err? ==> r == Err(check.error))
      && (check.Ok? && h.Err? ==> r == Err(ErrorHandler.Handle(h.error)))
      && (r.Err? ==> db.users == old(db.users) && db.journal.audit == old(db.journal.audit))
      && (r.Ok? ==>
            r.value == defaultPassword
            && db.users == (if Has(old(db.users), studentId)
                            then old(db.users)[studentId - 1 := old(db.users)[studentId - 1].(passwordHash := h.value,
                                                                                              mustChangePassword := true)]
                            else old(db.users))
            && db.journal.audit == old(db.journal.audit)
                 + [AuditRow(ctx, ctx.user.value, RESET_ACTION, USERS_TABLE, IdText(studentId), None, None,
                             Some(classId), None, None)])
  {
    var _ :- ResetCheck(db.classes, db.classTeachers, db.enrollments, ctx.user, classId, studentId);
    var h := crypto.hash(defaultPassword);
    if h.Err? {
      return Err(ErrorHandler.Handle(h.error));
    }
    if Has(db.users, studentId) {
      SetCredentials(db, studentId, h.value, true);
    }
    db.journal.WriteAudit(ctx, RESET_ACTION, USERS_TABLE, IdText(studentId), None, None, Some(classId), None, None);
    r := Ok(defaultPassword);
  }

  /**
   * After a reset the student must change the password, and the default password is
   * the current one: it gets past the password check of a change.
   */
  lemma ResetStudentLogsInWithDefault(users: seq<User>, crypto: Crypto, scrypt: Password.Scrypt,
                                      randomBytes: nat -> seq<Password.Byte>, defaultPassword: string, student: Actor)
    requires Implements(crypto, scrypt, randomBytes)
    requires Has(users, student.id) && users[student.id - 1].deletedAt.None?
    requires crypto.hash(defaultPassword).Ok?
    requires var m := Password.Merge(Password.NO_PATCH);
      var salt := randomBytes(m.saltLen);
      salt != [] && |scrypt(defaultPassword, salt, m.dkLen, m.n as real, m.r as real, m.p as real).value| == m.dkLen
    ensures var h := crypto.hash(defaultPassword).value;
      var users' := users[student.id - 1 := users[student.id - 1].(passwordHash := h, mustChangePassword := true)];
      users'[student.id - 1].mustChangePassword && CurrentPasswordCheck(users', crypto, student, defaultPassword).Ok?
  {
    Password.HashThenVerify(scrypt, randomBytes, defaultPassword, Password.NO_PATCH);
  }
}
