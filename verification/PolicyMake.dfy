/** `validate` and `make`: which definitions are accepted, and what an accepted one compiles to. */
module PolicyMake {
  import opened Prelude
  import opened Text
  import opened PolicyGraph
  import opened Policy

  datatype Issue =
    | MalformedResource(resource: string)
    | NoAction(resource: string)
    | MalformedAction(resource: string, action: string)
    | DuplicateAction(resource: string, action: string)
    | MalformedRole(role: string)
    | UnknownParent(role: string, parent: string)
    | UnknownResource(role: string, permission: string)
    | UndeclaredPermission(role: string, permission: string)
    | UnknownCondition(role: string, condition: string)
    | InheritanceCycle(cycle: seq<string>)

  predicate MalformedName(name: string) {
    name == "" || ':' in name || '*' in name || Trim(name) != name
  }

  predicate ActionsOk(actions: seq<string>) {
    actions != [] && Distinct(actions) && forall a | a in actions :: !MalformedName(a)
  }

  predicate ResourcesOk(def: Definition) {
    forall r | r in def.resources :: !MalformedName(r) && ActionsOk(def.resources[r])
  }

  function ResourceOf(permission: string): string
    requires EndsWithWildcard(permission)
  {
    permission[..|permission| - 2]
  }

  /** `key in record` as the program asks it: a declared key, or a name every record inherits, such as
      `toString`. */
  predicate InRecord(declared: set<string>, inherited: set<string>, key: string) {
    key in declared || key in inherited
  }

  predicate GrantOk(def: Definition, conditions: set<string>, inherited: set<string>, grant: Grant) {
    && (|| grant.permission == "*"
        || (if EndsWithWildcard(grant.permission)
            then InRecord(def.resources.Keys, inherited, ResourceOf(grant.permission))
            else grant.permission in Permissions(def)))
    && (grant.When? ==> InRecord(conditions, inherited, grant.condition))
  }

  predicate RoleOk(def: Definition, conditions: set<string>, inherited: set<string>, role: string)
    requires role in def.roles
  {
    && role != "" && Trim(role) == role
    && (forall b | b in def.roles[role].inherits :: b in def.roles)
    && (forall g | g in def.roles[role].grants :: GrantOk(def, conditions, inherited, g))
  }

  /** Everything a policy must satisfy to be accepted. */
  ghost predicate Consistent(def: Definition, conditions: set<string>, inherited: set<string>) {
    ResourcesOk(def) && (forall r | r in def.roles :: RoleOk(def, conditions, inherited, r)) && !HasCycle(def)
  }

  predicate NoCycles(issues: seq<Issue>) {
    forall i | 0 <= i < |issues| :: !issues[i].InheritanceCycle?
  }

  method CheckActions(resource: string, actions: seq<string>) returns (issues: seq<Issue>)
    ensures issues == [] <==> ActionsOk(actions)
    ensures NoCycles(issues)
  {
    issues := if actions == [] then [NoAction(resource)] else [];
    var seen: set<string> := {};
    for i := 0 to |actions|
      invariant forall a :: a in seen <==> a in actions[..i]
      invariant NoCycles(issues)
      invariant issues == [] <==>
                  actions != [] && Distinct(actions[..i]) && forall a | a in actions[..i] :: !MalformedName(a)
    {
      var action := actions[i];
      SnocAction(actions, i);
      if MalformedName(action) {
        issues := issues + [MalformedAction(resource, action)];
      }
      if action in seen {
        issues := issues + [DuplicateAction(resource, action)];
      }
      seen := seen + {action};
    }
    assert actions[..|actions|] == actions;
  }

  lemma SnocAction(actions: seq<string>, i: nat)
    requires i < |actions|
    ensures forall a :: a in actions[..i + 1] <==> a in actions[..i] || a == actions[i]
    ensures Distinct(actions[..i + 1]) <==> Distinct(actions[..i]) && actions[i] !in actions[..i]
  {
    var front, all := actions[..i], actions[..i + 1];
    assert all == front + [actions[i]];
    if Distinct(all) {
      assert forall j, k | 0 <= j < k < |front| :: front[j] == all[j] && front[k] == all[k];
      assert forall j | 0 <= j < i :: all[j] != all[i];
    }
  }

  method CheckResources(def: Definition) returns (issues: seq<Issue>)
    requires IsDefinition(def)
    ensures issues == [] <==> ResourcesOk(def)
    ensures NoCycles(issues)
  {
    issues := [];
    for i := 0 to |def.resourceNames|
      invariant NoCycles(issues)
      invariant issues == [] <==> forall j | 0 <= j < i ::
                  !MalformedName(def.resourceNames[j]) && ActionsOk(def.resources[def.resourceNames[j]])
    {
      var resource := def.resourceNames[i];
      if MalformedName(resource) {
        issues := issues + [MalformedResource(resource)];
      }
      var more := CheckActions(resource, def.resources[resource]);
      issues := issues + more;
    }
  }

  method CheckGrants(
      def: Definition, conditions: set<string>, inherited: set<string>, role: string, grants: seq<Grant>)
    returns (issues: seq<Issue>)
    ensures issues == [] <==> forall g | g in grants :: GrantOk(def, conditions, inherited, g)
    ensures NoCycles(issues)
  {
    issues := [];
    var declared := Permissions(def);
    for i := 0 to |grants|
      invariant NoCycles(issues)
      invariant issues == [] <==> forall j | 0 <= j < i :: GrantOk(def, conditions, inherited, grants[j])
    {
      var permission := grants[i].permission;
      if permission != "*" {
        if EndsWithWildcard(permission) {
          if !InRecord(def.resources.Keys, inherited, ResourceOf(permission)) {
            issues := issues + [UnknownResource(role, permission)];
          }
        } else if permission !in declared {
          issues := issues + [UndeclaredPermission(role, permission)];
        }
      }
      if grants[i].When? && !InRecord(conditions, inherited, grants[i].condition) {
        issues := issues + [UnknownCondition(role, grants[i].condition)];
      }
    }
  }

  method CheckRole(def: Definition, conditions: set<string>, inherited: set<string>, role: string) returns (issues: seq<Issue>)
    requires role in def.roles
    ensures issues == [] <==> RoleOk(def, conditions, inherited, role)
    ensures NoCycles(issues)
  {
    issues := if role == "" || Trim(role) != role then [MalformedRole(role)] else [];
    var parents := def.roles[role].inherits;
    for i := 0 to |parents|
      invariant NoCycles(issues)
      invariant issues == [] <==> role != "" && Trim(role) == role && forall j | 0 <= j < i :: parents[j] in def.roles
    {
      if parents[i] !in def.roles {
        issues := issues + [UnknownParent(role, parents[i])];
      }
    }
    var more := CheckGrants(def, conditions, inherited, role, def.roles[role].grants);
    issues := issues + more;
  }

  /** validate: no issue exactly when the definition is consistent, and an inheritance cycle is
      reported exactly when there is one. */
  method Validate(def: Definition, conditions: set<string>, inherited: set<string>)
    returns (issues: seq<Issue>, ghost order: seq<string>)
    requires IsDefinition(def)
    ensures issues == [] <==> Consistent(def, conditions, inherited)
    ensures HasCycle(def) <==> exists i :: 0 <= i < |issues| && issues[i].InheritanceCycle?
    ensures forall i | 0 <= i < |issues| && issues[i].InheritanceCycle? :: IsCycle(def, issues[i].cycle)
    ensures issues == [] ==> Accepted(def, order)
  {
    issues := CheckNames(def, conditions, inherited);
    ghost var consistent := ResourcesOk(def) && forall r | r in def.roles :: RoleOk(def, conditions, inherited, r);
    assert issues == [] <==> consistent;
    var plain := |issues|;
    var cycles, finishing := FindCycles(def);
    order := finishing;
    for i := 0 to |cycles|
      invariant |issues| == plain + i
      invariant forall j | 0 <= j < plain :: !issues[j].InheritanceCycle?
      invariant forall j | plain <= j < plain + i :: issues[j] == InheritanceCycle(cycles[j - plain])
      invariant plain == 0 <==> consistent
    {
      issues := issues + [InheritanceCycle(cycles[i])];
    }
    if cycles != [] {
      assert issues[plain].InheritanceCycle?;
    }
  }

  method CheckNames(def: Definition, conditions: set<string>, inherited: set<string>) returns (issues: seq<Issue>)
    requires IsDefinition(def)
    ensures issues == [] <==> ResourcesOk(def) && forall r | r in def.roles :: RoleOk(def, conditions, inherited, r)
    ensures NoCycles(issues)
  {
    var plain := CheckResources(def);
    issues := plain;
    for i := 0 to |def.roleNames|
      invariant NoCycles(issues)
      invariant issues == [] <==>
                  ResourcesOk(def) && forall j | 0 <= j < i :: RoleOk(def, conditions, inherited, def.roleNames[j])
    {
      var more := CheckRole(def, conditions, inherited, def.roleNames[i]);
      issues := issues + more;
    }
  }

  // ---- what acceptance buys ----

  lemma {:induction false} NamedAreDeclared(def: Definition, names: seq<string>, resource: string, p: string)
    requires resource in names && p in Named(resource, ActionsOf(def, resource))
    ensures p in PermissionsFrom(def, names)
  {
    if names[0] != resource {
      NamedAreDeclared(def, names[1..], resource, p);
    }
  }

  /** An accepted grant expands to declared permissions only. */
  lemma AcceptedGrantsExpandToDeclared(
      def: Definition, conditions: set<string>, inherited: set<string>, grant: Grant, p: string)
    requires IsDefinition(def) && GrantOk(def, conditions, inherited, grant) && p in Expand(def, grant.permission)
    ensures p in Permissions(def)
  {
    if grant.permission != "*" && EndsWithWildcard(grant.permission) {
      assert ResourceOf(grant.permission) in def.resources;
      NamedAreDeclared(def, def.resourceNames, grant.permission[..|grant.permission| - 2], p);
    }
  }

  /** So nothing a role is granted falls outside the declared vocabulary. */
  lemma GrantedIsDeclared(
      def: Definition, conditions: set<string>, inherited: set<string>, role: string, fact: Fact)
    requires IsDefinition(def) && Consistent(def, conditions, inherited) && Granted(def, role, fact)
    ensures fact.0 in Permissions(def)
    ensures fact.1.Some? ==> InRecord(conditions, inherited, fact.1.value)
  {
    var b :| Reaches(def, role, b) && OwnGrant(def, b, fact);
    assert RoleOk(def, conditions, inherited, b);
    var g :| g in def.roles[b].grants && Gives(def, g, fact);
    AcceptedGrantsExpandToDeclared(def, conditions, inherited, g, fact.0);
  }

  /** Names without ":" make `resource:action` unambiguous. */
  lemma PermissionNameUnambiguous(r1: string, a1: string, r2: string, a2: string)
    requires ':' !in r1 && ':' !in r2 && PermissionName(r1, a1) == PermissionName(r2, a2)
    ensures r1 == r2 && a1 == a2
  {
    var p := PermissionName(r1, a1);
    assert p[|r1|] == ':' && p[|r2|] == ':';
    assert forall i | 0 <= i < |r1| :: p[i] == r1[i] && r1[i] in r1;
    assert forall i | 0 <= i < |r2| :: p[i] == r2[i] && r2[i] in r2;
    assert r1 == p[..|r1|] == r2 && a1 == p[|r1| + 1..] == a2;
  }

  /** grantsOf: for every declared permission the role is granted, in declaration order, one line with
      its conditions, none when unconditional; and no line for any other permission. */
  method GrantsOf(def: Definition, conditions: set<string>, inherited: set<string>,
                  resolved: map<string, ResolvedRole>, role: string)
    returns (lines: seq<(string, Cell)>)
    requires IsDefinition(def) && Consistent(def, conditions, inherited)
    requires resolved.Keys == def.roles.Keys && Compiled(def, resolved)
    ensures role !in def.roles ==> lines == []
    ensures role in def.roles ==>
              forall i | 0 <= i < |lines| :: !lines[i].1.CellDenied? && CellAgrees(def, role, lines[i].0, lines[i].1)
    ensures role in def.roles ==>
              LinePermissions(lines)
              == Selected(Permissions(def), (set p | p in Permissions(def) && GrantedSomehow(def, role, p)))
    ensures role in def.roles ==> forall p :: p in LinePermissions(lines) <==> GrantedSomehow(def, role, p)
  {
    if role !in def.roles {
      return [];
    }
    lines := Lines(Permissions(def), resolved[role]);
    LinesAgree(def, role, resolved[role], lines);
    LinesAreGranted(def, conditions, inherited, role, resolved[role], lines);
  }

  lemma LinesAgree(def: Definition, role: string, table: ResolvedRole, lines: seq<(string, Cell)>)
    requires Represents(table, GrantedFacts(def, role))
    requires forall j | 0 <= j < |lines| :: lines[j].0 in table && lines[j].1 == CellOf(table, lines[j].0)
    ensures forall i | 0 <= i < |lines| :: !lines[i].1.CellDenied? && CellAgrees(def, role, lines[i].0, lines[i].1)
  {
    forall j | 0 <= j < |lines| ensures CellAgrees(def, role, lines[j].0, lines[j].1) {
      CellIsRight(def, role, table, lines[j].0);
    }
  }

  lemma LinesAreGranted(def: Definition, conditions: set<string>, inherited: set<string>, role: string,
                        table: ResolvedRole, lines: seq<(string, Cell)>)
    requires IsDefinition(def) && Consistent(def, conditions, inherited) && Represents(table, GrantedFacts(def, role))
    requires LinePermissions(lines) == Selected(Permissions(def), (set p | p in Permissions(def) && p in table))
    ensures LinePermissions(lines)
            == Selected(Permissions(def), (set p | p in Permissions(def) && GrantedSomehow(def, role, p)))
    ensures forall p :: p in LinePermissions(lines) <==> GrantedSomehow(def, role, p)
  {
    TableIsGranted(def, conditions, inherited, role, table);
    SameKeep(def, role, table, Permissions(def));
    SelectedIs(Permissions(def), set p | p in Permissions(def) && p in table);
  }

  lemma SameKeep(def: Definition, role: string, table: ResolvedRole, all: seq<string>)
    requires forall p :: p in table <==> GrantedSomehow(def, role, p)
    ensures (set p | p in all && p in table) == (set p | p in all && GrantedSomehow(def, role, p))
  {
  }

  function LinePermissions(lines: seq<(string, Cell)>): seq<string> {
    seq(|lines|, i requires 0 <= i < |lines| => lines[i].0)
  }

  method Lines(all: seq<string>, table: ResolvedRole) returns (lines: seq<(string, Cell)>)
    ensures forall j | 0 <= j < |lines| :: lines[j].0 in table && lines[j].1 == CellOf(table, lines[j].0)
    ensures LinePermissions(lines) == Selected(all, (set p | p in all && p in table))
  {
    lines := [];
    ghost var keep := set p | p in all && p in table;
    for i := 0 to |all|
      invariant forall j | 0 <= j < |lines| :: lines[j].0 in table && lines[j].1 == CellOf(table, lines[j].0)
      invariant LinePermissions(lines) == Selected(all[..i], keep)
    {
      assert all[i] in all && all[..i + 1][..i] == all[..i];
      if all[i] in table {
        ghost var was := lines;
        lines := lines + [(all[i], CellOf(table, all[i]))];
        assert LinePermissions(lines) == LinePermissions(was) + [all[i]];
      }
    }
    assert all[..|all|] == all;
  }

  ghost predicate GrantedSomehow(def: Definition, role: string, p: string) {
    exists c: Option<string> :: Granted(def, role, (p, c))
  }

  lemma TableIsGranted(
      def: Definition, conditions: set<string>, inherited: set<string>, role: string, table: ResolvedRole)
    requires IsDefinition(def) && Consistent(def, conditions, inherited) && Represents(table, GrantedFacts(def, role))
    ensures forall p :: p in table <==> GrantedSomehow(def, role, p)
    ensures forall p | p in table :: p in Permissions(def)
  {
    forall p
      ensures p in table <==> GrantedSomehow(def, role, p)
      ensures p in table ==> p in Permissions(def)
    {
      CellIsRight(def, role, table, p);
      if p in table {
        var c: Option<string> := if table[p].Unconditional? then None else Some(table[p].names[0]);
        assert Granted(def, role, (p, c));
        GrantedIsDeclared(def, conditions, inherited, role, (p, c));
      }
    }
  }

  // ---- names that every record inherits ----

  /** A grant that is only accepted because `in` also finds inherited names. */
  predicate NamesInherited(def: Definition, conditions: set<string>, inherited: set<string>, grant: Grant) {
    || (&& grant.permission != "*" && EndsWithWildcard(grant.permission)
        && ResourceOf(grant.permission) !in def.resources && ResourceOf(grant.permission) in inherited)
    || (grant.When? && grant.condition !in conditions && grant.condition in inherited)
  }

  ghost predicate SomeGrantNamesInherited(def: Definition, conditions: set<string>, inherited: set<string>) {
    exists r, g :: r in def.roles && g in def.roles[r].grants && NamesInherited(def, conditions, inherited, g)
  }

  /** A definition is consistent in its own names exactly when it is accepted and no grant names an
      inherited key. */
  lemma DeclaredIffNoneInherited(def: Definition, conditions: set<string>, inherited: set<string>)
    ensures Consistent(def, conditions, {})
       <==> Consistent(def, conditions, inherited) && !SomeGrantNamesInherited(def, conditions, inherited)
  {
    forall r, g | r in def.roles && g in def.roles[r].grants
      ensures GrantOk(def, conditions, {}, g)
         <==> GrantOk(def, conditions, inherited, g) && !NamesInherited(def, conditions, inherited, g)
    {
    }
    if Consistent(def, conditions, {}) {
      forall r | r in def.roles ensures RoleOk(def, conditions, inherited, r) {
        assert RoleOk(def, conditions, {}, r);
      }
      forall r, g | r in def.roles && g in def.roles[r].grants ensures !NamesInherited(def, conditions, inherited, g) {
        assert RoleOk(def, conditions, {}, r);
      }
    }
    if Consistent(def, conditions, inherited) && !SomeGrantNamesInherited(def, conditions, inherited) {
      forall r | r in def.roles ensures RoleOk(def, conditions, {}, r) {
        assert RoleOk(def, conditions, inherited, r);
      }
    }
  }

  const READER := Definition(
    ["doc"], map["doc" := ["read"]], ["reader"], map["reader" := RoleSpec([], [When("doc:read", "toString")])])

  lemma ReaderPermissions()
    ensures Permissions(READER) == ["doc:read"] && ResourcesOk(READER)
  {
    assert Permissions(READER) == Named("doc", ["read"]) + PermissionsFrom(READER, []);
    assert Named("doc", ["read"])[0] == "doc:read";
    assert ActionsOk(["read"]) && !MalformedName("doc");
  }

  lemma ReaderHasNoCycle()
    ensures !HasCycle(READER)
  {
    assert forall a, b :: !Edge(READER, a, b);
    assert forall p | IsPath(READER, p) && |p| >= 2 :: Edge(READER, p[0], p[0 + 1]);
  }

  /** Concretely: a grant under the condition `toString` is accepted with no condition declared. */
  lemma ToStringIsAccepted()
    ensures Consistent(READER, {}, {"toString"}) && !Consistent(READER, {}, {})
  {
    ReaderPermissions();
    ReaderHasNoCycle();
    var g := When("doc:read", "toString");
    assert READER.roles["reader"].grants == [g] && !EndsWithWildcard("doc:read");
    assert !GrantOk(READER, {}, {}, g) && GrantOk(READER, {}, {"toString"}, g);
    assert !RoleOk(READER, {}, {}, "reader") && RoleOk(READER, {}, {"toString"}, "reader");
  }

  // ---- make ----

  /** A wildcard on an undeclared resource: expanding it calls `map` on what is no list. */
  predicate Crashes(def: Definition, grant: Grant) {
    grant.permission != "*" && EndsWithWildcard(grant.permission) && ResourceOf(grant.permission) !in def.resources
  }

  ghost predicate SomeGrantCrashes(def: Definition) {
    exists r, g :: r in def.roles && g in def.roles[r].grants && Crashes(def, g)
  }

  method FindCrash(def: Definition) returns (found: bool)
    requires IsDefinition(def)
    ensures found <==> SomeGrantCrashes(def)
  {
    for i := 0 to |def.roleNames|
      invariant forall j, g | 0 <= j < i && g in def.roles[def.roleNames[j]].grants :: !Crashes(def, g)
    {
      var grants := def.roles[def.roleNames[i]].grants;
      for k := 0 to |grants|
        invariant forall j | 0 <= j < k :: !Crashes(def, grants[j])
      {
        if Crashes(def, grants[k]) {
          return true;
        }
      }
    }
    return false;
  }

  datatype Outcome = Made(tables: map<string, ResolvedRole>) | Invalid(issues: seq<Issue>) | Crashed

  /** make: refuses exactly the definitions that are not consistent, and compiles an accepted one to
      tables that mean what it means, unless a wildcard names an inherited resource. */
  method Make(def: Definition, conditions: set<string>, inherited: set<string>) returns (outcome: Outcome)
    requires IsDefinition(def)
    ensures outcome.Invalid? <==> !Consistent(def, conditions, inherited)
    ensures outcome.Invalid? ==> outcome.issues != []
    ensures outcome.Crashed? <==> Consistent(def, conditions, inherited) && SomeGrantCrashes(def)
    ensures outcome.Made? ==> outcome.tables.Keys == def.roles.Keys && Compiled(def, outcome.tables)
  {
    var issues, order := Validate(def, conditions, inherited);
    if issues != [] {
      return Invalid(issues);
    }
    var crash := FindCrash(def);
    if crash {
      return Crashed;
    }
    var resolved := ResolveRoles(def, order);
    return Made(resolved);
  }
}
