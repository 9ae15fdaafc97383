/**
 * What the abort-code recognition does with each code the schema's triggers raise:
 * the table's codes map to their 403/400 errors, the submission-consistency codes
 * are not recognised and surface as 500 INTERNAL with the raw code as message.
 */
module AbortCodes {
  import opened Wrappers
  import opened HttpErrors
  import opened ErrorMapper
  import Js

  /** A message holding both the archived and the locked code is reported as archived: the order decides. */
  lemma ArchivedBeatsLocked()
    ensures MapSqliteAbort(SqliteAbort(CLASS_ARCHIVED_READONLY + "; " + TEAM_LOCKED))
      == Some(Forbidden("Class is archived (read-only)."))
  {
    Js.ContainsAt(CLASS_ARCHIVED_READONLY + "; " + TEAM_LOCKED, CLASS_ARCHIVED_READONLY, 0);
  }

  /** Each trigger code on its own maps to the error its rule names. */
  lemma ArchivedCodeMapped()
    ensures MapSqliteAbort(SqliteAbort(CLASS_ARCHIVED_READONLY)) == Some(Forbidden("Class is archived (read-only)."))
  {
    Js.ContainsAt(CLASS_ARCHIVED_READONLY, CLASS_ARCHIVED_READONLY, 0);
  }

  lemma LockedCodeMapped()
    ensures MapSqliteAbort(SqliteAbort(TEAM_LOCKED)) == Some(Forbidden("Team is locked."))
  {
    Js.ContainsAt(TEAM_LOCKED, TEAM_LOCKED, 0);
    Js.NotContainsByIndex(TEAM_LOCKED, CLASS_ARCHIVED_READONLY, 7);
  }

  /** What AUDIT_LOG_IMMUTABLE lacks. */
  lemma AuditLacks()
    ensures Js.Avoids(AUDIT_LOG_IMMUTABLE, "CK")
  {
  }

  /** A message lacking the same holds none of the codes tried before the audit code. */
  lemma AuditShapeFree(s: string)
    requires Js.Avoids(s, "CK")
    ensures !Js.Contains(s, CLASS_ARCHIVED_READONLY) && !Js.Contains(s, TEAM_LOCKED)
    ensures !Js.Contains(s, TEAM_MEMBER_CLASS_MISMATCH) && !Js.Contains(s, TEAM_JOIN_REQ_CLASS_MISMATCH)
    ensures !Js.Contains(s, PROJECT_CLASS_MISMATCH)
  {
    Js.NotContainsByIndex(s, CLASS_ARCHIVED_READONLY, 0);
    Js.NotContainsByIndex(s, TEAM_LOCKED, 8);
    Js.NotContainsByIndex(s, TEAM_MEMBER_CLASS_MISMATCH, 12);
    Js.NotContainsByIndex(s, TEAM_JOIN_REQ_CLASS_MISMATCH, 14);
    Js.NotContainsByIndex(s, PROJECT_CLASS_MISMATCH, 5);
  }

  /** The audit code, last in the table, maps to 403 "Audit logs are immutable.". */
  lemma AuditCodeMapped()
    ensures MapSqliteAbort(SqliteAbort(AUDIT_LOG_IMMUTABLE)) == Some(Forbidden("Audit logs are immutable."))
  {
    AuditLacks();
    AuditShapeFree(AUDIT_LOG_IMMUTABLE);
    Js.ContainsAt(AUDIT_LOG_IMMUTABLE, AUDIT_LOG_IMMUTABLE, 0);
  }

  /** What TEAM_MEMBER_CLASS_MISMATCH lacks. */
  lemma MemberMismatchLacks()
    ensures Js.Avoids(TEAM_MEMBER_CLASS_MISMATCH, "VK")
  {
  }

  /** A message without V or K, such as either team mismatch code, holds none of the codes listed. */
  lemma MismatchShapeFree(s: string)
    requires Js.Avoids(s, "VK")
    ensures !Js.Contains(s, CLASS_ARCHIVED_READONLY)
    ensures !Js.Contains(s, TEAM_LOCKED)
  {
    Js.NotContainsByIndex(s, CLASS_ARCHIVED_READONLY, 11);
    Js.NotContainsByIndex(s, TEAM_LOCKED, 8);
  }

  /** The team-member mismatch code maps to 400 "Class/team mismatch.". */
  lemma MemberMismatchCodeMapped()
    ensures MapSqliteAbort(SqliteAbort(TEAM_MEMBER_CLASS_MISMATCH)) == Some(BadRequest("Class/team mismatch."))
  {
    MemberMismatchLacks();
    MismatchShapeFree(TEAM_MEMBER_CLASS_MISMATCH);
    Js.ContainsAt(TEAM_MEMBER_CLASS_MISMATCH, TEAM_MEMBER_CLASS_MISMATCH, 0);
  }

  /** What TEAM_JOIN_REQ_CLASS_MISMATCH lacks. */
  lemma JoinMismatchLacks()
    ensures Js.Avoids(TEAM_JOIN_REQ_CLASS_MISMATCH, "VK")
  {
  }

  /** The join-request mismatch code shares that rule and maps to the same error. */
  lemma JoinMismatchCodeMapped()
    ensures MapSqliteAbort(SqliteAbort(TEAM_JOIN_REQ_CLASS_MISMATCH)) == Some(BadRequest("Class/team mismatch."))
  {
    JoinMismatchLacks();
    MismatchShapeFree(TEAM_JOIN_REQ_CLASS_MISMATCH);
    Js.ContainsAt(TEAM_JOIN_REQ_CLASS_MISMATCH, TEAM_JOIN_REQ_CLASS_MISMATCH, 0);
  }

  /** What PROJECT_CLASS_MISMATCH lacks. */
  lemma ProjectMismatchLacks()
    ensures Js.Avoids(PROJECT_CLASS_MISMATCH, "VKBQ")
  {
  }

  /** A message lacking the same holds none of the codes listed. */
  lemma ProjectMismatchShapeFree(s: string)
    requires Js.Avoids(s, "VKBQ")
    ensures !Js.Contains(s, CLASS_ARCHIVED_READONLY)
    ensures !Js.Contains(s, TEAM_LOCKED)
    ensures !Js.Contains(s, TEAM_MEMBER_CLASS_MISMATCH)
    ensures !Js.Contains(s, TEAM_JOIN_REQ_CLASS_MISMATCH)
  {
    Js.NotContainsByIndex(s, CLASS_ARCHIVED_READONLY, 11);
    Js.NotContainsByIndex(s, TEAM_LOCKED, 8);
    Js.NotContainsByIndex(s, TEAM_MEMBER_CLASS_MISMATCH, 8);
    Js.NotContainsByIndex(s, TEAM_JOIN_REQ_CLASS_MISMATCH, 12);
  }

  /** The project mismatch code maps to 400 "Project/team class mismatch.". */
  lemma ProjectMismatchCodeMapped()
    ensures MapSqliteAbort(SqliteAbort(PROJECT_CLASS_MISMATCH)) == Some(BadRequest("Project/team class mismatch."))
  {
    ProjectMismatchLacks();
    ProjectMismatchShapeFree(PROJECT_CLASS_MISMATCH);
    Js.ContainsAt(PROJECT_CLASS_MISMATCH, PROJECT_CLASS_MISMATCH, 0);
  }

  /** What SUBMISSION_CLASS_ASSIGNMENT_MISMATCH lacks. */
  lemma SubmissionAssignmentLacks()
    ensures Js.Avoids(SUBMISSION_CLASS_ASSIGNMENT_MISMATCH, "RKJPD")
  {
  }

  /** A message lacking the same holds none of the codes listed. */
  lemma SubmissionAssignmentShapeFree(s: string)
    requires Js.Avoids(s, "RKJPD")
    ensures NoTableCode(s)
  {
    Js.NotContainsByIndex(s, CLASS_ARCHIVED_READONLY, 7);
    Js.NotContainsByIndex(s, TEAM_LOCKED, 8);
    Js.NotContainsByIndex(s, TEAM_MEMBER_CLASS_MISMATCH, 10);
    Js.NotContainsByIndex(s, TEAM_JOIN_REQ_CLASS_MISMATCH, 5);
    Js.NotContainsByIndex(s, PROJECT_CLASS_MISMATCH, 0);
    Js.NotContainsByIndex(s, AUDIT_LOG_IMMUTABLE, 2);
  }

  /** SUBMISSION_CLASS_ASSIGNMENT_MISMATCH is not in the table: it surfaces as 500 INTERNAL carrying the raw code. */
  lemma SubmissionAssignmentCodeInternal()
    ensures ToDomainHttpError(SqliteAbort(SUBMISSION_CLASS_ASSIGNMENT_MISMATCH)) == Internal(SUBMISSION_CLASS_ASSIGNMENT_MISMATCH)
  {
    SubmissionAssignmentLacks();
    SubmissionAssignmentShapeFree(SUBMISSION_CLASS_ASSIGNMENT_MISMATCH);
    UnknownAbortBecomesInternal(SUBMISSION_CLASS_ASSIGNMENT_MISMATCH);
  }

  /**
   * What SUBMISSION_CLASS_PROJECT_MISMATCH lacks: four characters, a T early enough to
   * start TEAM_MEMBER_CLASS_MISMATCH, and a P early enough to start PROJECT_CLASS_MISMATCH.
   */
  lemma SubmissionProjectLacks()
    ensures Js.Avoids(SUBMISSION_CLASS_PROJECT_MISMATCH, "VKQD")
    ensures forall i :: 0 <= i < |SUBMISSION_CLASS_PROJECT_MISMATCH| - 25 ==> SUBMISSION_CLASS_PROJECT_MISMATCH[i] != 'T'
    ensures forall i :: 0 <= i < |SUBMISSION_CLASS_PROJECT_MISMATCH| - 21 ==> SUBMISSION_CLASS_PROJECT_MISMATCH[i] != 'P'
  {
  }

  /** A message lacking the same holds none of the codes listed. */
  lemma SubmissionProjectShapeFree(s: string)
    requires Js.Avoids(s, "VKQD")
    requires forall i :: 0 <= i < |s| - 25 ==> s[i] != 'T'
    requires forall i :: 0 <= i < |s| - 21 ==> s[i] != 'P'
    ensures NoTableCode(s)
  {
    Js.NotContainsByIndex(s, CLASS_ARCHIVED_READONLY, 11);
    Js.NotContainsByIndex(s, TEAM_LOCKED, 8);
    Js.NotContainsByLead(s, TEAM_MEMBER_CLASS_MISMATCH);
    Js.NotContainsByIndex(s, TEAM_JOIN_REQ_CLASS_MISMATCH, 12);
    Js.NotContainsByLead(s, PROJECT_CLASS_MISMATCH);
    Js.NotContainsByIndex(s, AUDIT_LOG_IMMUTABLE, 2);
  }

  /** SUBMISSION_CLASS_PROJECT_MISMATCH is not in the table: it surfaces as 500 INTERNAL carrying the raw code. */
  lemma SubmissionProjectCodeInternal()
    ensures ToDomainHttpError(SqliteAbort(SUBMISSION_CLASS_PROJECT_MISMATCH)) == Internal(SUBMISSION_CLASS_PROJECT_MISMATCH)
  {
    SubmissionProjectLacks();
    SubmissionProjectShapeFree(SUBMISSION_CLASS_PROJECT_MISMATCH);
    UnknownAbortBecomesInternal(SUBMISSION_CLASS_PROJECT_MISMATCH);
  }

  /** What SUBMISSION_STAGE_PROJECT_MISMATCH lacks. */
  lemma SubmissionStageLacks()
    ensures Js.Avoids(SUBMISSION_STAGE_PROJECT_MISMATCH, "LQD")
  {
  }

  /** A message lacking the same holds none of the codes listed. */
  lemma SubmissionStageShapeFree(s: string)
    requires Js.Avoids(s, "LQD")
    ensures NoTableCode(s)
  {
    Js.NotContainsByIndex(s, CLASS_ARCHIVED_READONLY, 1);
    Js.NotContainsByIndex(s, TEAM_LOCKED, 5);
    Js.NotContainsByIndex(s, TEAM_MEMBER_CLASS_MISMATCH, 13);
    Js.NotContainsByIndex(s, TEAM_JOIN_REQ_CLASS_MISMATCH, 12);
    Js.NotContainsByIndex(s, PROJECT_CLASS_MISMATCH, 9);
    Js.NotContainsByIndex(s, AUDIT_LOG_IMMUTABLE, 2);
  }

  /** SUBMISSION_STAGE_PROJECT_MISMATCH is not in the table: it surfaces as 500 INTERNAL carrying the raw code. */
  lemma SubmissionStageCodeInternal()
    ensures ToDomainHttpError(SqliteAbort(SUBMISSION_STAGE_PROJECT_MISMATCH)) == Internal(SUBMISSION_STAGE_PROJECT_MISMATCH)
  {
    SubmissionStageLacks();
    SubmissionStageShapeFree(SUBMISSION_STAGE_PROJECT_MISMATCH);
    UnknownAbortBecomesInternal(SUBMISSION_STAGE_PROJECT_MISMATCH);
  }

  /** What TEAM_ASSIGNMENT_REQUIRES_TEAM lacks. */
  lemma TeamAssignmentLacks()
    ensures Js.Avoids(TEAM_ASSIGNMENT_REQUIRES_TEAM, "CLBJPD")
  {
  }

  /** A message lacking the same holds none of the codes listed. */
  lemma TeamAssignmentShapeFree(s: string)
    requires Js.Avoids(s, "CLBJPD")
    ensures NoTableCode(s)
  {
    Js.NotContainsByIndex(s, CLASS_ARCHIVED_READONLY, 0);
    Js.NotContainsByIndex(s, TEAM_LOCKED, 5);
    Js.NotContainsByIndex(s, TEAM_MEMBER_CLASS_MISMATCH, 8);
    Js.NotContainsByIndex(s, TEAM_JOIN_REQ_CLASS_MISMATCH, 5);
    Js.NotContainsByIndex(s, PROJECT_CLASS_MISMATCH, 0);
    Js.NotContainsByIndex(s, AUDIT_LOG_IMMUTABLE, 2);
  }

  /** TEAM_ASSIGNMENT_REQUIRES_TEAM is not in the table: it surfaces as 500 INTERNAL carrying the raw code. */
  lemma TeamAssignmentCodeInternal()
    ensures ToDomainHttpError(SqliteAbort(TEAM_ASSIGNMENT_REQUIRES_TEAM)) == Internal(TEAM_ASSIGNMENT_REQUIRES_TEAM)
  {
    TeamAssignmentLacks();
    TeamAssignmentShapeFree(TEAM_ASSIGNMENT_REQUIRES_TEAM);
    UnknownAbortBecomesInternal(TEAM_ASSIGNMENT_REQUIRES_TEAM);
  }

  /** What INDIVIDUAL_ASSIGNMENT_FORBIDS_TEAM lacks. */
  lemma IndividualAssignmentLacks()
    ensures Js.Avoids(INDIVIDUAL_ASSIGNMENT_FORBIDS_TEAM, "CJP")
    ensures forall i :: 0 <= i < |INDIVIDUAL_ASSIGNMENT_FORBIDS_TEAM| - 1 ==> !(INDIVIDUAL_ASSIGNMENT_FORBIDS_TEAM[i] == 'A' && INDIVIDUAL_ASSIGNMENT_FORBIDS_TEAM[i + 1] == 'U')
  {
  }

  /** A message lacking the same holds none of the codes listed. */
  lemma IndividualAssignmentShapeFree(s: string)
    requires Js.Avoids(s, "CJP")
    requires forall i :: 0 <= i < |s| - 1 ==> !(s[i] == 'A' && s[i + 1] == 'U')
    ensures NoTableCode(s)
  {
    Js.NotContainsByIndex(s, CLASS_ARCHIVED_READONLY, 0);
    Js.NotContainsByIndex(s, TEAM_LOCKED, 7);
    Js.NotContainsByIndex(s, TEAM_MEMBER_CLASS_MISMATCH, 12);
    Js.NotContainsByIndex(s, TEAM_JOIN_REQ_CLASS_MISMATCH, 5);
    Js.NotContainsByIndex(s, PROJECT_CLASS_MISMATCH, 0);
    Js.NotContainsByPair(s, AUDIT_LOG_IMMUTABLE, 0);
  }

  /** INDIVIDUAL_ASSIGNMENT_FORBIDS_TEAM is not in the table: it surfaces as 500 INTERNAL carrying the raw code. */
  lemma IndividualAssignmentCodeInternal()
    ensures ToDomainHttpError(SqliteAbort(INDIVIDUAL_ASSIGNMENT_FORBIDS_TEAM)) == Internal(INDIVIDUAL_ASSIGNMENT_FORBIDS_TEAM)
  {
    IndividualAssignmentLacks();
    IndividualAssignmentShapeFree(INDIVIDUAL_ASSIGNMENT_FORBIDS_TEAM);
    UnknownAbortBecomesInternal(INDIVIDUAL_ASSIGNMENT_FORBIDS_TEAM);
  }
}
