/**
 * The authorize closure: login first, then the role table, then the attribute rule,
 * so a rule can only narrow what the role table allows.
 */
module Access {
  import opened Wrappers
  import opened JsonValue
  import opened HttpErrors
  import opened Auth
  import opened AccessControl

  /** The context handed to the rule: the user, then the caller's entries over it. */
  function RuleContext(user: AuthUser, context: seq<Field>): AbacContext
    decreases |context|
  {
    if context == [] then [Field("user", PayloadOf(user))]
    else Assign(RuleContext(user, context[..|context| - 1]), context[|context| - 1].key, context[|context| - 1].value)
  }

  /**
   * authorize: no user is 401 "Login required"; a role that may not act is 403
   * "Insufficient permissions" and the rule is not consulted; a rule that refuses is
   * 403 "Access denied".
   */
  function Authorize(user: Option<AuthUser>, rules: map<string, RuleState>, resource: string, action: string,
                     context: seq<Field>): (r: Result<(), HttpError>)
    ensures user.None? ==> r == Err(Unauthorized("Login required"))
    ensures user.Some? && !CanByRole(user.value.role, action, resource) ==>
      r == Err(Forbidden("Insufficient permissions"))
    ensures r.Ok? <==>
      user.Some? && CanByRole(user.value.role, action, resource)
      && Verdict(rules, RuleKey(resource, action), RuleContext(user.value, context))
  {
    if user.None? then Err(Unauthorized("Login required"))
    else if !CanByRole(user.value.role, action, resource) then Err(Forbidden("Insufficient permissions"))
    else if !Verdict(rules, RuleKey(resource, action), RuleContext(user.value, context)) then Err(Forbidden("Access denied"))
    else Ok(())
  }

  /** The role table's denial is decided before any rule: changing the rules cannot change it. */
  lemma RbacDenialIgnoresRules(user: AuthUser, rules1: map<string, RuleState>, rules2: map<string, RuleState>,
                               resource: string, action: string, context: seq<Field>)
    requires !CanByRole(user.role, action, resource)
    ensures Authorize(Some(user), rules1, resource, action, context) == Authorize(Some(user), rules2, resource, action, context)
  {
  }

  /** Rules only narrow: whatever is authorized under some rules is authorized with no rules at all. */
  lemma RulesOnlyNarrow(user: Option<AuthUser>, rules: map<string, RuleState>, resource: string, action: string,
                        context: seq<Field>)
    requires Authorize(user, rules, resource, action, context).Ok?
    ensures Authorize(user, map[], resource, action, context).Ok?
  {
  }

  /** A student is never authorized to manage the admin area, whatever the rules. */
  lemma StudentNeverManagesAdmin(id: real, name: string, rules: map<string, RuleState>, context: seq<Field>)
    ensures Authorize(Some(AuthUser(id, Student, name)), rules, "admin", "manage", context) == Err(Forbidden("Insufficient permissions"))
  {
  }
}
