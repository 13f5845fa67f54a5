/** Role assignments against the reviewed policy: roles that are too broad for their scope, and
    identities that must stay apart. Texts are already stripped and case-folded. */
module RoleAssignments {

  import opened Options
  import opened ArmScopes

  datatype Assignment = Assignment(principal: string, roleName: Option<string>, roleId: Option<string>, scope: string)
  datatype Rule = Rule(principal: string, roles: set<string>, prefixes: seq<string>)
  datatype Policy = Policy(allowed: set<(string, string, string)>, rules: seq<Rule>)
  datatype Finding =
    | BroadAssignment(principal: string, role: string, scope: string)
    | Separation(principal: string, role: string, scope: string)

  /** The built-in roles, by the last part of their definition id. */
  type RoleTable = map<string, string>

  /** `rsplit("/", 1)[-1]`. */
  function LastSegment(s: string): string {
    var segments := Split(s);
    segments[|segments| - 1]
  }

  /** `_canonical_role_key`. */
  function CanonicalRole(table: RoleTable, value: string): string {
    var key := LastSegment(value);
    if key in table then table[key] else key
  }

  datatype Role = Role(name: string, id: string)

  /** The role an assignment grants; none when name and id disagree, or both are missing. */
  function GrantedRole(table: RoleTable, a: Assignment): Option<Role> {
    var name := if a.roleName.None? then "" else CanonicalRole(table, a.roleName.value);
    var id := if a.roleId.None? then "" else LastSegment(a.roleId.value);
    if name != "" && id in table && name != table[id] then None
    else
      var role := if name != "" then name else if id in table then table[id] else id;
      if role == "" then None else Some(Role(role, id))
  }

  predicate HexId(s: string) {
    |s| == 36 && forall i :: 0 <= i < |s| ==> '0' <= s[i] <= '9' || 'a' <= s[i] <= 'f' || s[i] == '-'
  }

  const SUBSCRIPTIONS := "/subscriptions/"
  const RESOURCE_GROUPS := "/resourcegroups/"
  const PROVIDER := "/providers/microsoft"
  const MANAGEMENT_GROUPS := "management/managementgroups/"

  /** A text that starts with the head and is a subscription identifier from there on. */
  predicate SubscriptionScope(head: string, s: string) { head <= s && HexId(s[|head|..]) }

  predicate GroupScope(head: string, middle: string, s: string) {
    && head <= s && |s| >= |head| + 36 && HexId(s[|head|..|head| + 36])
    && middle <= s[|head| + 36..] && SegmentText(s[|head| + 36..][|middle|..])
  }

  /** The dot in the pattern of management groups stands for any character but a line feed. */
  predicate ManagementScope(head: string, middle: string, s: string) {
    && head <= s && |s| > |head| && s[|head|] != '\n'
    && middle <= s[|head| + 1..] && SegmentText(s[|head| + 1..][|middle|..])
  }

  /** The root, a whole subscription, resource group or management group. */
  predicate BroadScope(scope: string) {
    || scope == "/"
    || SubscriptionScope(SUBSCRIPTIONS, scope)
    || GroupScope(SUBSCRIPTIONS, RESOURCE_GROUPS, scope)
    || ManagementScope(PROVIDER, MANAGEMENT_GROUPS, scope)
  }

  predicate TooBroad(table: RoleTable, policy: Policy, a: Assignment, role: Role) {
    && (role.name in table.Values || role.id in table) && BroadScope(a.scope)
    && (a.principal, role.name, a.scope) !in policy.allowed
  }

  /** One of the prefixes is comparable with the scope. */
  predicate Touches(scope: string, prefixes: seq<string>) {
    exists i :: 0 <= i < |prefixes| && Comparable(scope, prefixes[i])
  }

  predicate Separated(rule: Rule, a: Assignment, role: Role) {
    a.principal == rule.principal && role.name in rule.roles && Touches(a.scope, rule.prefixes)
  }

  function SeparationFindings(rules: seq<Rule>, a: Assignment, role: Role): seq<Finding> {
    if rules == [] then []
    else
      SeparationFindings(rules[..|rules| - 1], a, role)
      + (if Separated(rules[|rules| - 1], a, role) then [Separation(a.principal, role.name, a.scope)] else [])
  }

  function AssignmentFindings(table: RoleTable, policy: Policy, a: Assignment): Option<seq<Finding>> {
    var role := GrantedRole(table, a);
    if role.None? then None
    else
      Some((if TooBroad(table, policy, a, role.value) then [BroadAssignment(a.principal, role.value.name, a.scope)] else [])
           + SeparationFindings(policy.rules, a, role.value))
  }

  function Append(a: Option<seq<Finding>>, b: Option<seq<Finding>>): Option<seq<Finding>> {
    if a.Some? && b.Some? then Some(a.value + b.value) else None
  }

  /** `evaluate_role_assignments`; a contradictory assignment raises. */
  function Evaluate(check: Assignment -> Option<seq<Finding>>, assignments: seq<Assignment>): Option<seq<Finding>> {
    if assignments == [] then Some([])
    else Append(Evaluate(check, assignments[..|assignments| - 1]), check(assignments[|assignments| - 1]))
  }

  // ---------------------------------------------------------------- the evaluator

  method TouchesAny(scope: string, prefixes: seq<string>) returns (r: bool)
    ensures r == Touches(scope, prefixes)
  {
    for i := 0 to |prefixes|
      invariant forall k :: 0 <= k < i ==> !Comparable(scope, prefixes[k])
    {
      if ScopeContains(scope, prefixes[i]) || ScopeContains(prefixes[i], scope) { return true; }
    }
    return false;
  }

  method CheckAssignment(table: RoleTable, policy: Policy, a: Assignment) returns (r: Option<seq<Finding>>)
    ensures r == AssignmentFindings(table, policy, a)
  {
    var granted := GrantedRole(table, a);
    if granted.None? { return None; }
    var role := granted.value;
    var findings := if TooBroad(table, policy, a, role) then [BroadAssignment(a.principal, role.name, a.scope)] else [];
    ghost var first := findings;
    assert first + [] == first;
    for i := 0 to |policy.rules|
      invariant findings == first + SeparationFindings(policy.rules[..i], a, role)
    {
      assert policy.rules[..i + 1][..i] == policy.rules[..i];
      var rule := policy.rules[i];
      var touches := TouchesAny(a.scope, rule.prefixes);
      if a.principal == rule.principal && role.name in rule.roles && touches {
        findings := findings + [Separation(a.principal, role.name, a.scope)];
      }
    }
    assert policy.rules[..|policy.rules|] == policy.rules;
    return Some(findings);
  }

  lemma {:induction false} OneBadAssignment(check: Assignment -> Option<seq<Finding>>, assignments: seq<Assignment>, i: nat)
    requires i < |assignments| && check(assignments[i]).None?
    ensures Evaluate(check, assignments).None?
  {
    if i < |assignments| - 1 { OneBadAssignment(check, assignments[..|assignments| - 1], i); }
  }

  method EvaluateRoleAssignments(table: RoleTable, policy: Policy, assignments: seq<Assignment>) returns (r: Option<seq<Finding>>)
    ensures r == Evaluate(a => AssignmentFindings(table, policy, a), assignments)
  {
    var findings := [];
    ghost var check := a => AssignmentFindings(table, policy, a);
    for i := 0 to |assignments|
      invariant Evaluate(check, assignments[..i]) == Some(findings)
    {
      assert assignments[..i + 1][..i] == assignments[..i];
      var one := CheckAssignment(table, policy, assignments[i]);
      if one.None? {
        OneBadAssignment(check, assignments, i);
        return None;
      }
      findings := findings + one.value;
    }
    assert assignments[..|assignments|] == assignments;
    return Some(findings);
  }

  // ---------------------------------------------------------------- what is reported

  /** Somewhere lies both under the scope of the assignment and under a forbidden prefix. */
  ghost predicate SharesGround(scope: string, prefixes: seq<string>) {
    exists i, x :: 0 <= i < |prefixes| && ScopeContains(scope, x) && ScopeContains(prefixes[i], x)
  }

  lemma TouchingIsSharing(scope: string, prefixes: seq<string>)
    ensures Touches(scope, prefixes) <==> SharesGround(scope, prefixes)
  {
    if Touches(scope, prefixes) {
      var i :| 0 <= i < |prefixes| && Comparable(scope, prefixes[i]);
      ComparableIffOverlapping(scope, prefixes[i]);
      var x :| ScopeContains(scope, x) && ScopeContains(prefixes[i], x);
    }
    if SharesGround(scope, prefixes) {
      var i, x :| 0 <= i < |prefixes| && ScopeContains(scope, x) && ScopeContains(prefixes[i], x);
      ComparableIffOverlapping(scope, prefixes[i]);
    }
  }

  // ---------------------------------------------------------------- roles and scopes, by their texts

  /** What follows the last slash, or the whole text if it has none. */
  ghost predicate EndsIn(s: string, last: string) {
    Plain(last) && (s == last || exists before :: s == before + "/" + last)
  }

  lemma LastSegmentExactly(s: string, last: string)
    ensures LastSegment(s) == last <==> EndsIn(s, last)
  {
    if Plain(last) {
      SplitPlain(last);
      forall before | s == before + "/" + last ensures LastSegment(s) == last { SplitAround(before, last); }
    }
    var segments := Split(s);
    var front := segments[..|segments| - 1];
    SegmentsArePlain(s);
    JoinSplit(s);
    assert segments == front + [LastSegment(s)];
    if front != [] {
      JoinAround(front, [LastSegment(s)]);
      assert s == Join(front) + "/" + LastSegment(s);
    }
  }

  lemma {:induction false} SegmentsArePlain(s: string)
    ensures forall i :: 0 <= i < |Split(s)| ==> Plain(Split(s)[i])
  {
    if s != "" { SegmentsArePlain(s[1..]); }
  }

  /** What a role given by name or id is called: the built-in name, if the end of the text is the id of a
      built-in role, or else that end. */
  ghost predicate NamesRole(table: RoleTable, value: string, name: string) {
    exists last :: EndsIn(value, last) && name == if last in table then table[last] else last
  }

  ghost predicate IdentifiesRole(value: Option<string>, id: string) {
    if value.None? then id == "" else EndsIn(value.value, id)
  }

  ghost predicate CallsRole(table: RoleTable, value: Option<string>, name: string) {
    if value.None? then name == "" else NamesRole(table, value.value, name)
  }

  /** Name and id must not contradict each other; the name counts, then the built-in name of the id, then
      the id. */
  ghost predicate Grants(table: RoleTable, a: Assignment, role: Role) {
    && role.name != "" && IdentifiesRole(a.roleId, role.id)
    && exists name :: CallsRole(table, a.roleName, name)
         && (name != "" ==> role.name == name && (role.id in table ==> table[role.id] == name))
         && (name == "" ==> role.name == if role.id in table then table[role.id] else role.id)
  }

  lemma CallsExactly(table: RoleTable, value: Option<string>, name: string)
    ensures CallsRole(table, value, name) <==> name == if value.None? then "" else CanonicalRole(table, value.value)
  {
    if value.Some? {
      LastSegmentExactly(value.value, LastSegment(value.value));
      forall last | EndsIn(value.value, last) ensures last == LastSegment(value.value) { LastSegmentExactly(value.value, last); }
    }
  }

  lemma IdentifiesExactly(value: Option<string>, id: string)
    ensures IdentifiesRole(value, id) <==> id == if value.None? then "" else LastSegment(value.value)
  {
    if value.Some? { LastSegmentExactly(value.value, id); }
  }

  /** The role that is judged is the one the assignment grants; there is none exactly if it grants none. */
  lemma GrantedExactly(table: RoleTable, a: Assignment, role: Role)
    ensures GrantedRole(table, a) == Some(role) <==> Grants(table, a, role)
  {
    IdentifiesExactly(a.roleId, role.id);
    forall name
      ensures CallsRole(table, a.roleName, name)
         <==> name == if a.roleName.None? then "" else CanonicalRole(table, a.roleName.value)
    {
      CallsExactly(table, a.roleName, name);
    }
    var called := if a.roleName.None? then "" else CanonicalRole(table, a.roleName.value);
    assert CallsRole(table, a.roleName, called);
  }

  predicate Identifier(id: string) { |id| == 36 && forall c <- id :: c == '-' || '0' <= c <= '9' || 'a' <= c <= 'f' }

  lemma IdentifierExactly(id: string)
    ensures HexId(id) <==> Identifier(id)
  {
    forall i | 0 <= i < |id| ensures id[i] in id { }
  }

  ghost predicate IsSubscription(head: string, scope: string) {
    exists id :: Identifier(id) && scope == head + id
  }

  ghost predicate IsGroup(head: string, middle: string, scope: string) {
    exists id, group :: Identifier(id) && SegmentText(group) && scope == head + id + middle + group
  }

  ghost predicate IsManagement(head: string, middle: string, scope: string) {
    exists dot: char, group :: dot != '\n' && SegmentText(group) && scope == head + [dot] + middle + group
  }

  ghost predicate IsBroad(scope: string) {
    || scope == "/"
    || IsSubscription("/subscriptions/", scope)
    || IsGroup("/subscriptions/", "/resourcegroups/", scope)
    || IsManagement("/providers/microsoft", "management/managementgroups/", scope)
  }

  lemma SubscriptionExactly(head: string, scope: string)
    ensures SubscriptionScope(head, scope) <==> IsSubscription(head, scope)
  {
    if head <= scope {
      IdentifierExactly(scope[|head|..]);
      assert scope == head + scope[|head|..];
    }
    forall id | Identifier(id) && scope == head + id ensures SubscriptionScope(head, scope) {
      assert scope[|head|..] == id;
      IdentifierExactly(id);
    }
  }

  lemma GroupExactly(head: string, middle: string, scope: string)
    ensures GroupScope(head, middle, scope) <==> IsGroup(head, middle, scope)
  {
    if GroupScope(head, middle, scope) {
      var id, rest := scope[|head|..|head| + 36], scope[|head| + 36..];
      IdentifierExactly(id);
      assert scope == head + id + middle + rest[|middle|..];
    }
    forall id, group | Identifier(id) && SegmentText(group) && scope == head + id + middle + group
      ensures GroupScope(head, middle, scope)
    {
      assert scope[|head|..|head| + 36] == id && scope[|head| + 36..] == middle + group;
      assert (middle + group)[|middle|..] == group;
      IdentifierExactly(id);
    }
  }

  lemma ManagementExactly(head: string, middle: string, scope: string)
    ensures ManagementScope(head, middle, scope) <==> IsManagement(head, middle, scope)
  {
    if ManagementScope(head, middle, scope) {
      assert scope == head + [scope[|head|]] + middle + scope[|head| + 1..][|middle|..];
    }
    forall dot: char, group | dot != '\n' && SegmentText(group) && scope == head + [dot] + middle + group
      ensures ManagementScope(head, middle, scope)
    {
      assert scope[|head| + 1..] == middle + group && (middle + group)[|middle|..] == group;
    }
  }

  /** Which scopes are broad, by their texts. */
  lemma BroadExactly(scope: string)
    ensures BroadScope(scope) <==> IsBroad(scope)
  {
    SubscriptionExactly(SUBSCRIPTIONS, scope);
    GroupExactly(SUBSCRIPTIONS, RESOURCE_GROUPS, scope);
    ManagementExactly(PROVIDER, MANAGEMENT_GROUPS, scope);
  }

  /** A broad built-in role over a broad scope needs an allowance of its own. */
  ghost predicate Excessive(table: RoleTable, policy: Policy, a: Assignment, role: Role) {
    && (role.name in table.Values || role.id in table) && IsBroad(a.scope)
    && (a.principal, role.name, a.scope) !in policy.allowed
  }

  ghost predicate Apart(rule: Rule, a: Assignment, role: Role) {
    a.principal == rule.principal && role.name in rule.roles && SharesGround(a.scope, rule.prefixes)
  }

  lemma ApartExactly(rule: Rule, a: Assignment, role: Role)
    ensures Separated(rule, a, role) <==> Apart(rule, a, role)
  {
    TouchingIsSharing(a.scope, rule.prefixes);
  }

  ghost predicate SomeApart(rules: seq<Rule>, a: Assignment, role: Role) {
    exists rule <- rules :: Apart(rule, a, role)
  }

  lemma LastOrEarlier(front: seq<Rule>, rule: Rule, a: Assignment, role: Role)
    ensures SomeApart(front + [rule], a, role) <==> SomeApart(front, a, role) || Apart(rule, a, role)
  {
    assert rule in front + [rule];
    if one :| one in front && Apart(one, a, role) { assert one in front + [rule]; }
  }

  lemma {:induction false} SeparationMember(rules: seq<Rule>, a: Assignment, role: Role, f: Finding)
    ensures f in SeparationFindings(rules, a, role)
       <==> f == Separation(a.principal, role.name, a.scope) && SomeApart(rules, a, role)
  {
    if rules != [] {
      var front, rule := rules[..|rules| - 1], rules[|rules| - 1];
      SeparationMember(front, a, role, f);
      ApartExactly(rule, a, role);
      LastOrEarlier(front, rule, a, role);
      assert rules == front + [rule];
    }
  }

  /** What an assignment is reported for: its breadth, and any rule whose ground it touches. */
  lemma ReportedExactly(table: RoleTable, policy: Policy, a: Assignment, role: Role, f: Finding)
    requires Grants(table, a, role)
    ensures AssignmentFindings(table, policy, a).Some?
    ensures f in AssignmentFindings(table, policy, a).value
       <==> || (f == BroadAssignment(a.principal, role.name, a.scope) && Excessive(table, policy, a, role))
            || (f == Separation(a.principal, role.name, a.scope) && SomeApart(policy.rules, a, role))
  {
    GrantedExactly(table, a, role);
    BroadExactly(a.scope);
    SeparationMember(policy.rules, a, role, f);
  }

  // ---------------------------------------------------------------- when nothing is reported

  /** It grants a role that is not too broad for its scope, and no rule about its principal and that role has
      a forbidden prefix that shares ground with it. */
  ghost predicate Harmless(table: RoleTable, policy: Policy, a: Assignment) {
    exists role :: Grants(table, a, role) && !Excessive(table, policy, a, role)
                   && !SomeApart(policy.rules, a, role)
  }

  /** Exactly the harmless assignments go unreported. */
  lemma UnreportedExactly(table: RoleTable, policy: Policy, a: Assignment)
    ensures AssignmentFindings(table, policy, a) == Some([]) <==> Harmless(table, policy, a)
  {
    forall role ensures GrantedRole(table, a) == Some(role) <==> Grants(table, a, role) { GrantedExactly(table, a, role); }
    if GrantedRole(table, a).Some? { NoFindingExactly(table, policy, a, GrantedRole(table, a).value); }
  }

  lemma NoFindingExactly(table: RoleTable, policy: Policy, a: Assignment, role: Role)
    requires GrantedRole(table, a) == Some(role)
    ensures AssignmentFindings(table, policy, a) == Some([])
       <==> !Excessive(table, policy, a, role) && !SomeApart(policy.rules, a, role)
  {
    GrantedExactly(table, a, role);
    var findings := AssignmentFindings(table, policy, a).value;
    if findings == [] {
      ReportedExactly(table, policy, a, role, BroadAssignment(a.principal, role.name, a.scope));
      ReportedExactly(table, policy, a, role, Separation(a.principal, role.name, a.scope));
    } else {
      ReportedExactly(table, policy, a, role, findings[0]);
    }
  }

  lemma {:induction false} NoFindingAnywhere(check: Assignment -> Option<seq<Finding>>, assignments: seq<Assignment>)
    ensures Evaluate(check, assignments) == Some([]) <==> forall a <- assignments :: check(a) == Some([])
  {
    if assignments != [] {
      var front := assignments[..|assignments| - 1];
      NoFindingAnywhere(check, front);
      var one, rest := check(assignments[|front|]), Evaluate(check, front);
      assert Append(rest, one) == Some([]) <==> rest == Some([]) && one == Some([]) by {
        if rest.Some? && one.Some? { assert |rest.value + one.value| == |rest.value| + |one.value|; }
      }
      assert assignments == front + [assignments[|front|]];
    }
  }

  /** A document is evaluated without any violation exactly when each of its assignments is harmless. */
  lemma NoViolationExactly(table: RoleTable, policy: Policy, assignments: seq<Assignment>)
    ensures Evaluate(a => AssignmentFindings(table, policy, a), assignments) == Some([])
       <==> forall a <- assignments :: Harmless(table, policy, a)
  {
    NoFindingAnywhere(a => AssignmentFindings(table, policy, a), assignments);
    forall a <- assignments
      ensures AssignmentFindings(table, policy, a) == Some([]) <==> Harmless(table, policy, a)
    {
      UnreportedExactly(table, policy, a);
    }
  }

  /** A built-in role is judged alike whether it is given by name, by definition id, or by both. */
  lemma NameOrIdIsTheSame(table: RoleTable, policy: Policy, a: Assignment, id: string)
    requires id in table && "" !in table && Plain(id) && table[id] != "" && Plain(table[id]) && table[id] !in table
    ensures var byName, byId := a.(roleName := Some(table[id]), roleId := None), a.(roleName := None, roleId := Some(id));
            && AssignmentFindings(table, policy, byName) == AssignmentFindings(table, policy, byId)
            && AssignmentFindings(table, policy, byName) == AssignmentFindings(table, policy, byName.(roleId := Some(id)))
  {
    SplitPlain(id);
    SplitPlain(table[id]);
    var byName, byId := a.(roleName := Some(table[id]), roleId := None), a.(roleName := None, roleId := Some(id));
    assert table[id] in table.Values;
    assert GrantedRole(table, byId) == Some(Role(table[id], id)) == GrantedRole(table, byName.(roleId := Some(id)));
    assert GrantedRole(table, byName) == Some(Role(table[id], ""));
    SameFindings(policy.rules, byName, byId, Role(table[id], ""), Role(table[id], id));
    SameFindings(policy.rules, byName, byName.(roleId := Some(id)), Role(table[id], ""), Role(table[id], id));
  }

  lemma {:induction false} SameFindings(rules: seq<Rule>, a: Assignment, b: Assignment, r: Role, s: Role)
    requires a.principal == b.principal && a.scope == b.scope && r.name == s.name
    ensures SeparationFindings(rules, a, r) == SeparationFindings(rules, b, s)
  {
    if rules != [] { SameFindings(rules[..|rules| - 1], a, b, r, s); }
  }
}
