/**
 * Access control: a coarse role table (RBAC) and an in-memory registry of optional
 * attribute rules (ABAC) keyed by "resource:action". A rule that is missing or
 * disabled allows.
 */
module AccessControl {
  import opened Wrappers
  import opened JsonValue
  import opened Auth

  /* ---------- RBAC ---------- */

  const TEACHER_READS: set<string> := {"classes", "groups", "teams", "users", "projects", "submissions", "grades", "notifications"}
  const STUDENT_READS: set<string> := {"classes", "groups", "teams", "projects", "assignments", "grades", "notifications"}

  /** canByRole, branch by branch. */
  function CanByRole(role: Role, action: string, resource: string): bool
  {
    if role == Admin then true
    else if resource == "admin" && action == "manage" then false
    else if role == Teacher then
      if action == "read" && (resource == "classes" || resource == "groups" || resource == "teams") then true
      else if action == "create" && resource == "assignments" then true
      else if action == "read" && resource in ["users", "projects", "submissions", "grades", "notifications"] then true
      else false
    else if action == "manage" && resource == "admin" then false
    else if action == "read" && resource in ["classes", "groups", "teams", "projects", "assignments", "grades", "notifications"] then true
    else false
  }

  /** The admin is allowed everything, managing the admin area included. */
  lemma AdminAllowedEverything(action: string, resource: string)
    ensures CanByRole(Admin, action, resource)
  {
  }

  /** No other role may manage the admin area. */
  lemma OnlyAdminManagesAdmin(role: Role)
    requires role != Admin
    ensures !CanByRole(role, "manage", "admin")
  {
  }

  /** A teacher may read the eight core resources and create assignments, and nothing else. */
  lemma TeacherAllowedExactly(action: string, resource: string)
    ensures CanByRole(Teacher, action, resource) <==>
      (action == "read" && resource in TEACHER_READS) || (action == "create" && resource == "assignments")
  {
  }

  /** A student may read the seven listed resources, and nothing else. */
  lemma StudentAllowedExactly(action: string, resource: string)
    ensures CanByRole(Student, action, resource) <==> action == "read" && resource in STUDENT_READS
  {
  }

  /* ---------- ABAC ---------- */

  /**
   * The context a rule sees: the user under "user" and the caller's extra entries, which
   * are spread after it and so may replace it. The database handles are not modelled.
   */
  type AbacContext = seq<Field>

  type RuleFn = AbacContext -> bool

  datatype RuleState = RuleState(fn: RuleFn, enabled: bool)

  /** The registry key of a resource and an action. */
  function RuleKey(resource: string, action: string): (k: string)
    ensures |k| == |resource| + 1 + |action| && k[|resource|] == ':'
  {
    resource + ":" + action
  }

  /** evaluate over a rule map: a missing or disabled rule allows, an enabled one decides. */
  function Verdict(rules: map<string, RuleState>, key: string, ctx: AbacContext): (ok: bool)
    ensures key !in rules || !rules[key].enabled ==> ok
    ensures key in rules && rules[key].enabled ==> ok == rules[key].fn(ctx)
  {
    if key !in rules || !rules[key].enabled then true else rules[key].fn(ctx)
  }

  /** With no rules every evaluation allows. */
  lemma EmptyRegistryAllows(key: string, ctx: AbacContext)
    ensures Verdict(map[], key, ctx)
  {
  }

  /** Disabling a rule makes its key allow; keys other than the one changed keep their verdicts. */
  lemma DisabledRuleAllows(rules: map<string, RuleState>, key: string, other: string, ctx: AbacContext)
    requires key in rules
    ensures Verdict(rules[key := rules[key].(enabled := false)], key, ctx)
    ensures other != key ==> Verdict(rules[key := rules[key].(enabled := false)], other, ctx) == Verdict(rules, other, ctx)
  {
  }

  /** The module-level rule map. */
  class AbacRegistry {
    var rules: map<string, RuleState>

    constructor()
      ensures rules == map[]
    {
      rules := map[];
    }

    /** register: the rule is stored enabled under its key, replacing any earlier one. */
    method Register(key: string, fn: RuleFn)
      modifies this
      ensures rules == old(rules)[key := RuleState(fn, true)]
      ensures forall ctx :: Evaluate(key, ctx) == fn(ctx)
    {
      rules := rules[key := RuleState(fn, true)];
    }

    /** clear: no rules remain, so every evaluation allows. */
    method Clear()
      modifies this
      ensures rules == map[]
      ensures forall key, ctx :: Evaluate(key, ctx)
    {
      rules := map[];
    }

    /** disableRule: nothing for an unknown key; otherwise only that rule's flag is cleared. */
    method DisableRule(key: string)
      modifies this
      ensures key !in old(rules) ==> rules == old(rules)
      ensures key in old(rules) ==> rules == old(rules)[key := old(rules)[key].(enabled := false)]
    {
      if key in rules {
        rules := rules[key := rules[key].(enabled := false)];
      }
    }

    /** enableRule: nothing for an unknown key; otherwise only that rule's flag is set. */
    method EnableRule(key: string)
      modifies this
      ensures key !in old(rules) ==> rules == old(rules)
      ensures key in old(rules) ==> rules == old(rules)[key := old(rules)[key].(enabled := true)]
    {
      if key in rules {
        rules := rules[key := rules[key].(enabled := true)];
      }
    }

    /** evaluate(resource, action, ctx), by the rule registered under "resource:action". */
    function Evaluate(key: string, ctx: AbacContext): bool
      reads this
    {
      Verdict(rules, key, ctx)
    }
  }
}
