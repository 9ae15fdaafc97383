/**
 * The runtime guards over plain class and team records: writability of a class, the
 * team lock, downloads after archiving, and id parameters.
 */
module Guards {
  import opened Wrappers
  import opened HttpErrors
  import Js

  /** A class record as the guards see it; an absent status reads as "undefined". */
  datatype ClassLike = ClassLike(status: Option<string>, allowStudentDownloadAfterArchived: Option<bool>)

  datatype TeamLike = TeamLike(status: Option<string>, isLocked: Option<bool>)

  /** `String(x).toLowerCase()` of an optional string. */
  function StatusText(s: Option<string>): string
  {
    Js.ToLower(if s.Some? then s.value else "undefined")
  }

  predicate IsArchived(c: ClassLike)
  {
    StatusText(c.status) == "archived"
  }

  predicate IsLocked(t: TeamLike)
  {
    t.isLocked == Some(true) || StatusText(t.status) == "locked"
  }

  /** assertClassWritable: a missing class is 404, an archived one (any letter case) 403. */
  function AssertClassWritable(cls: Option<ClassLike>): (r: Result<(), HttpError>)
    ensures cls.None? ==> r == Err(NotFound("Class not found."))
    ensures cls.Some? ==> (r.Ok? <==> !IsArchived(cls.value))
    ensures cls.Some? && r.Err? ==> r.error == Forbidden("Class is archived (read-only).")
  {
    if cls.None? then Err(NotFound("Class not found."))
    else if StatusText(cls.value.status) == "archived" then Err(Forbidden("Class is archived (read-only)."))
    else Ok(())
  }

  /** assertTeamNotLocked: a missing team is 404; the lock flag or the status "locked" (any case) is 403. */
  function AssertTeamNotLocked(team: Option<TeamLike>): (r: Result<(), HttpError>)
    ensures team.None? ==> r == Err(NotFound("Team not found."))
    ensures team.Some? ==> (r.Ok? <==> !IsLocked(team.value))
    ensures team.Some? && r.Err? ==> r.error == Forbidden("Team is locked.")
  {
    if team.None? then Err(NotFound("Team not found."))
    else if team.value.isLocked == Some(true) || StatusText(team.value.status) == "locked" then Err(Forbidden("Team is locked."))
    else Ok(())
  }

  /**
   * assertArchivedDownloadAllowed: a missing class is 404; a class that is not archived
   * passes; an archived one is refused only when the flag is exactly false.
   */
  function AssertArchivedDownloadAllowed(cls: Option<ClassLike>): (r: Result<(), HttpError>)
    ensures cls.None? ==> r == Err(NotFound("Class not found."))
    ensures cls.Some? ==> (r.Err? <==> IsArchived(cls.value) && cls.value.allowStudentDownloadAfterArchived == Some(false))
    ensures cls.Some? && r.Err? ==> r.error == Forbidden("Downloads are disabled after class archived.")
  {
    if cls.None? then Err(NotFound("Class not found."))
    else if StatusText(cls.value.status) != "archived" then Ok(())
    else if cls.value.allowStudentDownloadAfterArchived == Some(false) then Err(Forbidden("Downloads are disabled after class archived."))
    else Ok(())
  }

  /** Downloads are never refused for a class that writes are allowed on. */
  lemma WritableClassAllowsDownload(cls: ClassLike)
    requires AssertClassWritable(Some(cls)).Ok?
    ensures AssertArchivedDownloadAllowed(Some(cls)).Ok?
  {
  }

  /** An id parameter: a number, a string, or some other value. */
  datatype IdInput = NumberId(n: Js.Num) | StringId(s: string) | OtherId

  /** The number assertId works on: `Number(s)` for a string, NaN for anything else. */
  function IdNumber(id: IdInput): Js.Num
  {
    match id
    case NumberId(n) => n
    case StringId(s) => Js.StringToNumber(s)
    case OtherId => Js.NaN
  }

  /** assertId: a non-finite or non-positive number is 400 "Invalid <name>."; otherwise its floor. */
  function AssertId(id: IdInput, name: string): (r: Result<int, HttpError>)
    ensures r.Err? <==> !IdNumber(id).Finite? || IdNumber(id).value <= 0.0
    ensures r.Err? ==> r.error == BadRequest("Invalid " + name + ".")
    ensures r.Ok? ==> r.value >= 0 && r.value as real <= IdNumber(id).value < r.value as real + 1.0
  {
    var n := IdNumber(id);
    if !n.Finite? || n.value <= 0.0 then Err(BadRequest("Invalid " + name + "."))
    else Ok(Js.Floor(n.value))
  }

  /** A fraction below one passes the check and is floored to 0, which is not a valid id. */
  lemma FractionFloorsToZero()
    ensures AssertId(NumberId(Js.Finite(0.5)), "id") == Ok(0)
  {
  }

  /** Values that are neither numbers nor strings are always rejected. */
  lemma OtherIdsRejected(name: string)
    ensures AssertId(OtherId, name) == Err(BadRequest("Invalid " + name + "."))
  {
  }

  /** A decimal string of a positive natural is accepted as that natural. */
  lemma DecimalIdAccepted(n: nat, name: string)
    requires n > 0
    ensures AssertId(StringId(Js.NatToString(n)), name) == Ok(n)
  {
    Js.NumberOfNatString(n);
  }
}
