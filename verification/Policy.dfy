/** What a policy grants, declaratively, and the memoised compilation and the decisions that
    must agree with it. */
module Policy {
  import opened Prelude
  import opened PolicyGraph

  // ---- permissions and grants ----

  function PermissionName(resource: string, action: string): string {
    resource + ":" + action
  }

  function ActionsOf(def: Definition, resource: string): seq<string> {
    if resource in def.resources then def.resources[resource] else []
  }

  function Named(resource: string, actions: seq<string>): (r: seq<string>)
    ensures |r| == |actions|
  {
    seq(|actions|, i requires 0 <= i < |actions| => PermissionName(resource, actions[i]))
  }

  /** Every `resource:action`, in declaration order. */
  function PermissionsFrom(def: Definition, names: seq<string>): seq<string> {
    if names == [] then [] else Named(names[0], ActionsOf(def, names[0])) + PermissionsFrom(def, names[1..])
  }

  function Permissions(def: Definition): seq<string> {
    PermissionsFrom(def, def.resourceNames)
  }

  predicate EndsWithWildcard(permission: string) {
    |permission| >= 2 && permission[|permission| - 2..] == ":*"
  }

  /** expandGrant. */
  function Expand(def: Definition, permission: string): seq<string> {
    if permission == "*" then Permissions(def)
    else if EndsWithWildcard(permission) then
      var resource := permission[..|permission| - 2];
      Named(resource, ActionsOf(def, resource))
    else [permission]
  }

  function ConditionOf(grant: Grant): Option<string> {
    match grant
    case Always(_) => None
    case When(_, condition) => Some(condition)
  }

  /** A permission, held unconditionally (None) or under a named condition. */
  type Fact = (string, Option<string>)

  predicate Gives(def: Definition, grant: Grant, fact: Fact) {
    fact.0 in Expand(def, grant.permission) && fact.1 == ConditionOf(grant)
  }

  // ---- the declarative meaning ----

  /** `a` is `b` or inherits from it, through any number of roles. */
  ghost predicate Reaches(def: Definition, a: string, b: string) {
    exists p :: IsPath(def, p) && p[0] == a && p[|p| - 1] == b
  }

  predicate OwnGrant(def: Definition, role: string, fact: Fact) {
    role in def.roles && exists g :: g in def.roles[role].grants && Gives(def, g, fact)
  }

  /** Some role reached by inheritance grants the fact. */
  ghost predicate Granted(def: Definition, role: string, fact: Fact) {
    exists b :: Reaches(def, role, b) && OwnGrant(def, b, fact)
  }

  lemma ReachesItself(def: Definition, role: string)
    requires role in def.roles
    ensures Reaches(def, role, role)
  {
    assert IsPath(def, [role]);
  }

  lemma ReachesThrough(def: Definition, a: string, b: string, c: string)
    requires Edge(def, a, b) && Reaches(def, b, c)
    ensures Reaches(def, a, c)
  {
    var p :| IsPath(def, p) && p[0] == b && p[|p| - 1] == c;
    var q := [a] + p;
    assert forall i | 0 <= i < |p| :: q[i + 1] == p[i];
    forall i | 0 <= i < |q| - 1
      ensures Edge(def, q[i], q[i + 1])
    {
      if i > 0 { assert Edge(def, p[i - 1], p[i]); }
    }
    assert IsPath(def, q) && q[0] == a && q[|q| - 1] == c;
  }

  lemma ReachesStep(def: Definition, a: string, c: string) returns (b: string)
    requires Reaches(def, a, c) && a != c
    ensures Edge(def, a, b) && Reaches(def, b, c)
  {
    var p :| IsPath(def, p) && p[0] == a && p[|p| - 1] == c;
    b := p[1];
    assert Edge(def, p[0], p[0 + 1]);
    var q := p[1..];
    assert forall i | 0 <= i < |q| :: q[i] == p[i + 1];
    forall i | 0 <= i < |q| - 1
      ensures Edge(def, q[i], q[i + 1])
    {
      assert Edge(def, p[i + 1], p[i + 1 + 1]);
    }
    assert IsPath(def, q) && q[0] == b && q[|q| - 1] == c;
  }

  /** What a role is granted is what it declares and what its parents are granted. */
  lemma GrantedUnfolds(def: Definition, role: string, fact: Fact)
    requires role in def.roles
    ensures Granted(def, role, fact)
            <==> OwnGrant(def, role, fact) || exists b :: Edge(def, role, b) && Granted(def, b, fact)
  {
    ReachesItself(def, role);
    if Granted(def, role, fact) && !OwnGrant(def, role, fact) {
      var c :| Reaches(def, role, c) && OwnGrant(def, c, fact);
      var b := ReachesStep(def, role, c);
      assert Granted(def, b, fact);
    }
    if b :| Edge(def, role, b) && Granted(def, b, fact) {
      var c :| Reaches(def, b, c) && OwnGrant(def, c, fact);
      ReachesThrough(def, role, b, c);
    }
  }

  // ---- the resolved table ----

  /** `null` in the source: unconditional; otherwise the alternatives, in insertion order. */
  datatype Entry = Unconditional | AnyOf(names: seq<string>)

  type ResolvedRole = map<string, Entry>

  /** The table says exactly what the facts say, an unconditional one masking the conditional
      ones of the same permission. */
  ghost predicate Shows(table: ResolvedRole, p: string, facts: iset<Fact>) {
    if (p, None) in facts then p in table && table[p].Unconditional?
    else if p in table then
      && table[p].AnyOf? && table[p].names != [] && Distinct(table[p].names)
      && (forall c :: c in table[p].names <==> (p, Some(c)) in facts)
    else forall c :: (p, Some(c)) !in facts
  }

  ghost predicate Represents(table: ResolvedRole, facts: iset<Fact>) {
    forall p :: Shows(table, p, facts)
  }

  /** merge. */
  function Merged(into: ResolvedRole, permission: string, condition: Option<string>): ResolvedRole {
    if permission in into && into[permission].Unconditional? then into
    else if condition.None? then into[permission := Unconditional]
    else if permission !in into then into[permission := AnyOf([condition.value])]
    else if condition.value in into[permission].names then into
    else into[permission := AnyOf(into[permission].names + [condition.value])]
  }

  lemma MergeRepresents(into: ResolvedRole, facts: iset<Fact>, permission: string, condition: Option<string>)
    requires Represents(into, facts)
    ensures Represents(Merged(into, permission, condition), facts + iset{(permission, condition)})
  {
    var table, more := Merged(into, permission, condition), facts + iset{(permission, condition)};
    forall p
      ensures Shows(table, p, more)
    {
      assert Shows(into, p, facts);
      assert Shows(into, permission, facts);
    }
  }

  /** What iterating a resolved table yields: masked conditional facts are not there. */
  ghost predicate Visible(table: ResolvedRole, done: set<string>, fact: Fact) {
    && fact.0 in table && fact.0 in done
    && match table[fact.0]
       case Unconditional => fact.1.None?
       case AnyOf(names) => fact.1.Some? && fact.1.value in names
  }

  lemma VisibleIsEnough(own: ResolvedRole, facts: iset<Fact>, parent: ResolvedRole, inherited: iset<Fact>)
    requires Represents(parent, inherited)
    requires Represents(own, facts + iset f: Fact | Visible(parent, parent.Keys, f))
    ensures Represents(own, facts + inherited)
  {
    var seen := iset f: Fact | Visible(parent, parent.Keys, f);
    forall p
      ensures Shows(own, p, facts + inherited)
    {
      assert Shows(parent, p, inherited) && Shows(own, p, facts + seen);
      assert (p, None) in inherited <==> (p, None) in seen;
      if (p, None) !in inherited {
        assert forall c :: (p, Some(c)) in inherited <==> (p, Some(c)) in seen;
      }
    }
  }

  ghost function GrantedFacts(def: Definition, role: string): iset<Fact> {
    iset f: Fact | Granted(def, role, f)
  }

  ghost predicate Inherited(def: Definition, parents: seq<string>, n: nat, fact: Fact)
    requires n <= |parents|
  {
    exists j :: 0 <= j < n && parents[j] in def.roles && Granted(def, parents[j], fact)
  }

  ghost function InheritedFacts(def: Definition, parents: seq<string>, n: nat): iset<Fact>
    requires n <= |parents|
  {
    iset f: Fact | Inherited(def, parents, n, f)
  }

  predicate Declared(def: Definition, grants: seq<Grant>, n: nat, fact: Fact)
    requires n <= |grants|
  {
    exists j :: 0 <= j < n && Gives(def, grants[j], fact)
  }

  ghost function DeclaredFacts(def: Definition, grants: seq<Grant>, n: nat): iset<Fact>
    requires n <= |grants|
  {
    iset f: Fact | Declared(def, grants, n, f)
  }

  lemma GrantedIsInheritedAndDeclared(def: Definition, role: string)
    requires role in def.roles
    ensures var spec := def.roles[role];
            GrantedFacts(def, role)
            == InheritedFacts(def, spec.inherits, |spec.inherits|) + DeclaredFacts(def, spec.grants, |spec.grants|)
  {
    var spec := def.roles[role];
    forall f: Fact
      ensures Granted(def, role, f)
              <==> f in InheritedFacts(def, spec.inherits, |spec.inherits|) + DeclaredFacts(def, spec.grants, |spec.grants|)
    {
      GrantedUnfolds(def, role, f);
      if b :| Edge(def, role, b) && Granted(def, b, f) {
        var j :| 0 <= j < |spec.inherits| && spec.inherits[j] == b;
      }
      if j :| 0 <= j < |spec.inherits| && spec.inherits[j] in def.roles && Granted(def, spec.inherits[j], f) {
        assert Edge(def, role, spec.inherits[j]);
      }
    }
  }

  // ---- resolveRoles ----

  ghost predicate Compiled(def: Definition, resolved: map<string, ResolvedRole>) {
    forall r | r in resolved :: r in def.roles && Represents(resolved[r], GrantedFacts(def, r))
  }

  /** After validation: every parent is declared and the graph has a topological order. */
  ghost predicate Accepted(def: Definition, order: seq<string>) {
    && IsDefinition(def)
    && Topological(def, order)
    && (forall r | r in def.roles :: r in order)
    && (forall r, b | r in def.roles && b in def.roles[r].inherits :: b in def.roles)
  }

  /** The memo map of resolveRoles, filled in place. */
  class Resolver {
    const def: Definition
    var resolved: map<string, ResolvedRole>

    constructor (def: Definition)
      ensures this.def == def && resolved == map[]
    {
      this.def := def;
      resolved := map[];
    }

    /** Resolves a role and, first, the roles it inherits from; terminates because the graph is
        acyclic, and whatever is cached is right. */
    method Resolve(role: string, ghost order: seq<string>) returns (table: ResolvedRole)
      requires Accepted(def, order) && role in def.roles && Compiled(def, resolved)
      modifies this
      ensures Compiled(def, resolved) && old(resolved).Keys <= resolved.Keys
      ensures role in resolved && resolved[role] == table
      decreases IndexOf(order, role), 1
    {
      if role in resolved {
        return resolved[role];
      }
      var spec := def.roles[role];
      var own := MergeParents(role, order);
      table := MergeGrants(def, own, spec.grants, InheritedFacts(def, spec.inherits, |spec.inherits|));
      GrantedIsInheritedAndDeclared(def, role);
      resolved := resolved[role := table];
    }

    /** The loop over the parents, each resolved before it is merged. */
    method MergeParents(role: string, ghost order: seq<string>) returns (own: ResolvedRole)
      requires Accepted(def, order) && role in def.roles && Compiled(def, resolved)
      modifies this
      ensures Compiled(def, resolved) && old(resolved).Keys <= resolved.Keys
      ensures var parents := def.roles[role].inherits; Represents(own, InheritedFacts(def, parents, |parents|))
      decreases IndexOf(order, role), 0
    {
      var parents := def.roles[role].inherits;
      own := map[];
      ghost var facts := InheritedFacts(def, parents, 0);
      NothingShown(facts);
      for i := 0 to |parents|
        invariant Compiled(def, resolved) && old(resolved).Keys <= resolved.Keys
        invariant facts == InheritedFacts(def, parents, i) && Represents(own, facts)
      {
        EdgeDescends(def, order, role, parents[i]);
        var parent := Resolve(parents[i], order);
        own := MergeTable(own, parent, facts, GrantedFacts(def, parents[i]));
        OneMoreParent(def, parents, i);
        facts := facts + GrantedFacts(def, parents[i]);
      }
    }
  }

  lemma NothingShown(facts: iset<Fact>)
    requires facts == iset{}
    ensures Represents(map[], facts)
  {
  }

  lemma OneMoreParent(def: Definition, parents: seq<string>, i: nat)
    requires i < |parents| && parents[i] in def.roles
    ensures InheritedFacts(def, parents, i + 1) == InheritedFacts(def, parents, i) + GrantedFacts(def, parents[i])
  {
  }

  ghost function Expansion(permissions: seq<string>, condition: Option<string>): iset<Fact> {
    iset f: Fact | f.0 in permissions && f.1 == condition
  }

  lemma OneMoreGrant(def: Definition, grants: seq<Grant>, i: nat)
    requires i < |grants|
    ensures DeclaredFacts(def, grants, i + 1)
            == DeclaredFacts(def, grants, i) + Expansion(Expand(def, grants[i].permission), ConditionOf(grants[i]))
  {
  }

  /** The inner loops over a parent's entries. */
  method MergeTable(own: ResolvedRole, parent: ResolvedRole, ghost facts: iset<Fact>, ghost inherited: iset<Fact>)
    returns (merged: ResolvedRole)
    requires Represents(own, facts) && Represents(parent, inherited)
    ensures Represents(merged, facts + inherited)
  {
    merged := own;
    var todo := parent.Keys;
    ghost var seen: iset<Fact> := facts;
    while todo != {}
      invariant todo <= parent.Keys
      invariant seen == facts + iset f: Fact | Visible(parent, parent.Keys - todo, f)
      invariant Represents(merged, seen)
    {
      var p :| p in todo;
      if parent[p].Unconditional? {
        MergeRepresents(merged, seen, p, None);
        merged := Merged(merged, p, None);
        seen := seen + iset{(p, None)};
      } else {
        ghost var before := seen;
        var names := parent[p].names;
        for k := 0 to |names|
          invariant seen == before + iset f: Fact | f.0 == p && f.1.Some? && f.1.value in names[..k]
          invariant Represents(merged, seen)
        {
          MergeRepresents(merged, seen, p, Some(names[k]));
          merged := Merged(merged, p, Some(names[k]));
          seen := seen + iset{(p, Some(names[k]))};
        }
        assert names[..|names|] == names;
      }
      todo := todo - {p};
    }
    assert parent.Keys - todo == parent.Keys;
    VisibleIsEnough(merged, facts, parent, inherited);
  }

  /** The loops over a role's own grants and their expansions. */
  method MergeGrants(def: Definition, own: ResolvedRole, grants: seq<Grant>, ghost facts: iset<Fact>)
    returns (merged: ResolvedRole)
    requires Represents(own, facts)
    ensures Represents(merged, facts + DeclaredFacts(def, grants, |grants|))
  {
    merged := own;
    ghost var seen := facts + DeclaredFacts(def, grants, 0);
    assert seen == facts;
    for i := 0 to |grants|
      invariant seen == facts + DeclaredFacts(def, grants, i) && Represents(merged, seen)
    {
      merged := MergeExpansion(merged, Expand(def, grants[i].permission), ConditionOf(grants[i]), seen);
      OneMoreGrant(def, grants, i);
      seen := seen + Expansion(Expand(def, grants[i].permission), ConditionOf(grants[i]));
      assert seen == facts + DeclaredFacts(def, grants, i + 1);
    }
  }

  method MergeExpansion(own: ResolvedRole, expanded: seq<string>, condition: Option<string>, ghost facts: iset<Fact>)
    returns (merged: ResolvedRole)
    requires Represents(own, facts)
    ensures Represents(merged, facts + Expansion(expanded, condition))
  {
    merged := own;
    ghost var seen := facts;
    for k := 0 to |expanded|
      invariant seen == facts + Expansion(expanded[..k], condition)
      invariant Represents(merged, seen)
    {
      MergeRepresents(merged, seen, expanded[k], condition);
      merged := Merged(merged, expanded[k], condition);
      seen := seen + iset{(expanded[k], condition)};
    }
    assert expanded[..|expanded|] == expanded;
  }

  method ResolveRoles(def: Definition, ghost order: seq<string>) returns (resolved: map<string, ResolvedRole>)
    requires Accepted(def, order)
    ensures resolved.Keys == def.roles.Keys && Compiled(def, resolved)
  {
    var resolver := new Resolver(def);
    for i := 0 to |def.roleNames|
      invariant resolver.def == def && Compiled(def, resolver.resolved)
      invariant forall j | 0 <= j < i :: def.roleNames[j] in resolver.resolved
    {
      var table := resolver.Resolve(def.roleNames[i], order);
    }
    resolved := resolver.resolved;
  }

  // ---- decisions ----

  datatype Assignment = Everywhere(role: string) | InScope(role: string, scope: string)

  predicate Holds(assignments: seq<Assignment>, scope: Option<string>, role: string) {
    Everywhere(role) in assignments || (scope.Some? && InScope(role, scope.value) in assignments)
  }

  /** rolesIn: the role names effective in the scope, each once. */
  method RolesIn(assignments: seq<Assignment>, scope: Option<string>) returns (held: seq<string>)
    ensures Distinct(held)
    ensures forall r :: r in held <==> Holds(assignments, scope, r)
  {
    held := [];
    for i := 0 to |assignments|
      invariant Distinct(held)
      invariant forall r :: r in held <==> Holds(assignments[..i], scope, r)
    {
      var a := assignments[i];
      assert assignments[..i + 1] == assignments[..i] + [a];
      if (a.Everywhere? || scope == Some(a.scope)) && a.role !in held {
        held := held + [a.role];
      }
    }
    assert assignments[..|assignments|] == assignments;
  }

  /** What a condition answers when it is called. */
  datatype Verdict = Met | Unmet | Throws

  type Evaluation = string -> Verdict

  /** The declarative right to a permission in a scope. */
  ghost predicate MayDo(def: Definition, assignments: seq<Assignment>, scope: Option<string>,
                        permission: string, evaluate: Evaluation) {
    exists role :: role in def.roles && Holds(assignments, scope, role) && RoleMayDo(def, role, permission, evaluate)
  }

  ghost predicate RoleMayDo(def: Definition, role: string, permission: string, evaluate: Evaluation) {
    Granted(def, role, (permission, None)) || exists c :: evaluate(c).Met? && Granted(def, role, (permission, Some(c)))
  }

  /** A held role's grant rests on a condition that throws. */
  ghost predicate MayThrow(def: Definition, assignments: seq<Assignment>, scope: Option<string>,
                           permission: string, evaluate: Evaluation) {
    exists role :: role in def.roles && Holds(assignments, scope, role) && RoleMayThrow(def, role, permission, evaluate)
  }

  ghost predicate RoleMayThrow(def: Definition, role: string, permission: string, evaluate: Evaluation) {
    && !Granted(def, role, (permission, None))
    && exists c :: evaluate(c).Throws? && Granted(def, role, (permission, Some(c)))
  }

  ghost predicate Conditional(def: Definition, role: string, permission: string) {
    exists c :: Granted(def, role, (permission, Some(c)))
  }

  datatype Decision =
    | Allowed(role: string, condition: Option<string>)
    | Denied(unmet: seq<string>)
    | Thrown(role: string, thrower: string)

  predicate EntryHolds(entry: Entry, evaluate: Evaluation) {
    entry.Unconditional? || exists c :: c in entry.names && evaluate(c).Met?
  }

  predicate EntryThrows(entry: Entry, evaluate: Evaluation) {
    entry.AnyOf? && exists c :: c in entry.names && evaluate(c).Throws?
  }

  lemma EntryDecides(def: Definition, role: string, table: ResolvedRole, permission: string, evaluate: Evaluation)
    requires Represents(table, GrantedFacts(def, role))
    ensures RoleMayDo(def, role, permission, evaluate)
            <==> permission in table && EntryHolds(table[permission], evaluate)
    ensures RoleMayThrow(def, role, permission, evaluate)
            <==> permission in table && EntryThrows(table[permission], evaluate)
    ensures permission in table && table[permission].AnyOf? ==> Conditional(def, role, permission)
    ensures permission !in table ==> !Conditional(def, role, permission)
  {
    assert Shows(table, permission, GrantedFacts(def, role));
    if permission in table && table[permission].AnyOf? {
      assert forall c :: c in table[permission].names <==> Granted(def, role, (permission, Some(c)));
      assert Granted(def, role, (permission, Some(table[permission].names[0])));
    }
  }

  /** decide: allows only what is granted, denies only what is not, and names the held role and the
      condition it rests on, or every held role with conditions not met. A condition that throws is
      the only way to neither. */
  method Decide(def: Definition, resolved: map<string, ResolvedRole>, assignments: seq<Assignment>,
                scope: Option<string>, permission: string, evaluate: Evaluation)
    returns (decision: Decision)
    requires IsDefinition(def) && resolved.Keys == def.roles.Keys && Compiled(def, resolved)
    ensures permission !in Permissions(def) ==> decision == Denied([])
    ensures permission in Permissions(def) && !MayThrow(def, assignments, scope, permission, evaluate) ==>
              (decision.Allowed? <==> MayDo(def, assignments, scope, permission, evaluate)) && !decision.Thrown?
    ensures decision.Allowed? ==>
              && MayDo(def, assignments, scope, permission, evaluate)
              && decision.role in def.roles && Holds(assignments, scope, decision.role)
              && Granted(def, decision.role, (permission, decision.condition))
              && (decision.condition.Some? ==> evaluate(decision.condition.value).Met?)
    ensures decision.Denied? && permission in Permissions(def) ==>
              && !MayDo(def, assignments, scope, permission, evaluate)
              && forall r :: r in decision.unmet
                   <==> r in def.roles && Holds(assignments, scope, r) && Conditional(def, r, permission)
    ensures decision.Thrown? ==>
              && decision.role in def.roles && Holds(assignments, scope, decision.role)
              && Granted(def, decision.role, (permission, Some(decision.thrower)))
              && evaluate(decision.thrower).Throws?
  {
    if permission !in Permissions(def) {
      return Denied([]);
    }
    var held := RolesIn(assignments, scope);
    decision := DecideHeld(held, resolved, permission, evaluate);
    TablesDecide(def, resolved, held, assignments, scope, permission, evaluate);
    TablesExplain(def, resolved, held, permission, evaluate, decision);
  }

  /** The entry a role's table holds is met. */
  predicate Meets(resolved: map<string, ResolvedRole>, role: string, permission: string, evaluate: Evaluation) {
    role in resolved && permission in resolved[role] && EntryHolds(resolved[role][permission], evaluate)
  }

  predicate Fails(resolved: map<string, ResolvedRole>, role: string, permission: string, evaluate: Evaluation) {
    role in resolved && permission in resolved[role] && EntryThrows(resolved[role][permission], evaluate)
  }

  predicate HasEntry(resolved: map<string, ResolvedRole>, role: string, permission: string) {
    role in resolved && permission in resolved[role]
  }

  /** What a decision says about the tables. */
  predicate Explained(resolved: map<string, ResolvedRole>, permission: string, evaluate: Evaluation, decision: Decision) {
    match decision
    case Allowed(role, condition) =>
      && HasEntry(resolved, role, permission)
      && (if condition.None? then resolved[role][permission].Unconditional?
          else resolved[role][permission].AnyOf? && condition.value in resolved[role][permission].names
               && evaluate(condition.value).Met?)
    case Denied(_) => true
    case Thrown(role, condition) =>
      && HasEntry(resolved, role, permission) && resolved[role][permission].AnyOf?
      && condition in resolved[role][permission].names && evaluate(condition).Throws?
  }

  /** The loop over the held roles, on the tables alone. */
  method DecideHeld(held: seq<string>, resolved: map<string, ResolvedRole>, permission: string, evaluate: Evaluation)
    returns (decision: Decision)
    ensures Explained(resolved, permission, evaluate, decision)
    ensures !decision.Denied? ==> decision.role in held
    ensures decision.Denied? ==>
              && (forall r | r in held :: !Meets(resolved, r, permission, evaluate) && !Fails(resolved, r, permission, evaluate))
              && forall r :: r in decision.unmet <==> r in held && HasEntry(resolved, r, permission)
  {
    var unmet: seq<string> := [];
    for i := 0 to |held|
      invariant forall j | 0 <= j < i ::
                  !Meets(resolved, held[j], permission, evaluate) && !Fails(resolved, held[j], permission, evaluate)
      invariant forall r :: r in unmet <==> r in held[..i] && HasEntry(resolved, r, permission)
    {
      var role := held[i];
      assert role in held && held[..i + 1] == held[..i] + [role];
      if role in resolved && permission in resolved[role] {
        if resolved[role][permission].Unconditional? {
          return Allowed(role, None);
        }
        var met, thrown := FirstMet(resolved[role][permission].names, evaluate);
        if thrown.Some? {
          return Thrown(role, thrown.value);
        }
        if met.Some? {
          return Allowed(role, met);
        }
        unmet := unmet + [role];
      }
    }
    assert held[..|held|] == held;
    return Denied(unmet);
  }

  lemma TablesDecide(def: Definition, resolved: map<string, ResolvedRole>, held: seq<string>,
                     assignments: seq<Assignment>, scope: Option<string>, permission: string, evaluate: Evaluation)
    requires resolved.Keys == def.roles.Keys && Compiled(def, resolved)
    requires forall r :: r in held <==> Holds(assignments, scope, r)
    ensures MayDo(def, assignments, scope, permission, evaluate)
            <==> exists r :: r in held && Meets(resolved, r, permission, evaluate)
    ensures MayThrow(def, assignments, scope, permission, evaluate)
            <==> exists r :: r in held && Fails(resolved, r, permission, evaluate)
  {
    forall r | r in def.roles
      ensures RoleMayDo(def, r, permission, evaluate) <==> Meets(resolved, r, permission, evaluate)
      ensures RoleMayThrow(def, r, permission, evaluate) <==> Fails(resolved, r, permission, evaluate)
    {
      EntryDecides(def, r, resolved[r], permission, evaluate);
    }
  }

  lemma TablesExplain(def: Definition, resolved: map<string, ResolvedRole>, held: seq<string>, permission: string,
                      evaluate: Evaluation, decision: Decision)
    requires resolved.Keys == def.roles.Keys && Compiled(def, resolved)
    requires Explained(resolved, permission, evaluate, decision) && (!decision.Denied? ==> decision.role in held)
    ensures decision.Allowed? ==>
              Meets(resolved, decision.role, permission, evaluate)
              && Granted(def, decision.role, (permission, decision.condition))
    ensures decision.Thrown? ==>
              Fails(resolved, decision.role, permission, evaluate)
              && Granted(def, decision.role, (permission, Some(decision.thrower)))
    ensures forall r | r in held && !Meets(resolved, r, permission, evaluate) ::
              HasEntry(resolved, r, permission) <==> r in def.roles && Conditional(def, r, permission)
  {
    match decision {
      case Allowed(role, condition) => EntryFact(def, role, resolved[role], permission, condition);
      case Thrown(role, condition) => EntryFact(def, role, resolved[role], permission, Some(condition));
      case Denied(_) =>
    }
    forall r | r in held && !Meets(resolved, r, permission, evaluate)
      ensures HasEntry(resolved, r, permission) <==> r in def.roles && Conditional(def, r, permission)
    {
      if r in def.roles {
        EntryDecides(def, r, resolved[r], permission, evaluate);
      }
    }
  }

  lemma EntryFact(def: Definition, role: string, table: ResolvedRole, permission: string, condition: Option<string>)
    requires Represents(table, GrantedFacts(def, role)) && permission in table
    requires if condition.None? then table[permission].Unconditional?
             else table[permission].AnyOf? && condition.value in table[permission].names
    ensures Granted(def, role, (permission, condition))
  {
    assert Shows(table, permission, GrantedFacts(def, role));
    assert (permission, condition) in GrantedFacts(def, role);
  }

  /** The loop over the conditions of an entry: the first that is met, unless one before it throws. */
  method FirstMet(names: seq<string>, evaluate: Evaluation) returns (met: Option<string>, thrown: Option<string>)
    ensures met.Some? ==> met.value in names && evaluate(met.value).Met?
    ensures thrown.Some? ==> thrown.value in names && evaluate(thrown.value).Throws?
    ensures met.None? && thrown.None? ==> forall c | c in names :: evaluate(c).Unmet?
  {
    for i := 0 to |names|
      invariant forall j | 0 <= j < i :: evaluate(names[j]).Unmet?
    {
      var verdict := evaluate(names[i]);
      if verdict.Throws? {
        return None, Some(names[i]);
      }
      if verdict.Met? {
        return Some(names[i]), None;
      }
    }
    return None, None;
  }

  /** The elements of `all` that are in `keep`, in their order. */
  function Selected(all: seq<string>, keep: set<string>): seq<string> {
    if all == [] then []
    else
      var front, last := Selected(all[..|all| - 1], keep), all[|all| - 1];
      if last in keep then front + [last] else front
  }

  lemma {:induction false} SelectedIs(all: seq<string>, keep: set<string>)
    ensures forall p :: p in Selected(all, keep) <==> p in all && p in keep
  {
    if all != [] {
      SelectedIs(all[..|all| - 1], keep);
      assert all == all[..|all| - 1] + [all[|all| - 1]];
    }
  }

  /** allowedPermissions: the declared permissions the principal may exercise, in declaration order,
      or the condition that threw on the way. */
  method AllowedPermissions(def: Definition, resolved: map<string, ResolvedRole>, assignments: seq<Assignment>,
                            scope: Option<string>, evaluate: Evaluation)
    returns (r: Result<seq<string>, string>)
    requires IsDefinition(def) && resolved.Keys == def.roles.Keys && Compiled(def, resolved)
    ensures r.Err? ==> evaluate(r.error).Throws?
    ensures (forall p | p in Permissions(def) :: !MayThrow(def, assignments, scope, p, evaluate)) ==> r.Ok?
    ensures r.Ok? ==>
              r.value == Selected(Permissions(def),
                                  (set p | p in Permissions(def) && MayDo(def, assignments, scope, p, evaluate)))
  {
    var allowed: seq<string> := [];
    var all := Permissions(def);
    ghost var keep := set p | p in all && MayDo(def, assignments, scope, p, evaluate);
    for i := 0 to |all|
      invariant allowed == Selected(all[..i], keep)
    {
      var decision := Decide(def, resolved, assignments, scope, all[i], evaluate);
      assert all[i] in all && all[..i + 1][..i] == all[..i];
      if decision.Thrown? {
        return Err(decision.thrower);
      }
      if decision.Allowed? {
        allowed := allowed + [all[i]];
      }
    }
    assert all[..|all|] == all;
    return Ok(allowed);
  }

  datatype Cell = CellGranted | CellConditional(conditions: seq<string>) | CellDenied

  /** What a cell, or a line of grantsOf, must say about a role and a permission. */
  ghost predicate CellAgrees(def: Definition, role: string, permission: string, cell: Cell) {
    match cell
    case CellGranted => Granted(def, role, (permission, None))
    case CellConditional(conditions) =>
      && !Granted(def, role, (permission, None)) && conditions != []
      && forall c :: c in conditions <==> Granted(def, role, (permission, Some(c)))
    case CellDenied => forall c: Option<string> :: !Granted(def, role, (permission, c))
  }

  function CellOf(table: ResolvedRole, permission: string): Cell {
    if permission !in table then CellDenied
    else if table[permission].Unconditional? then CellGranted
    else CellConditional(table[permission].names)
  }

  lemma CellIsRight(def: Definition, role: string, table: ResolvedRole, permission: string)
    requires Represents(table, GrantedFacts(def, role))
    ensures CellAgrees(def, role, permission, CellOf(table, permission))
  {
    assert Shows(table, permission, GrantedFacts(def, role));
    if permission !in table {
      forall c: Option<string>
        ensures !Granted(def, role, (permission, c))
      {
        if c.Some? { assert (permission, Some(c.value)) !in GrantedFacts(def, role); }
      }
    } else if table[permission].AnyOf? {
      assert forall c :: c in table[permission].names <==> (permission, Some(c)) in GrantedFacts(def, role);
    }
  }

  /** matrix: one row per role not named "__proto__", one cell per permission, each agreeing with the
      meaning. */
  method Matrix(def: Definition, resolved: map<string, ResolvedRole>)
    returns (cells: map<string, map<string, Cell>>)
    requires IsDefinition(def) && resolved.Keys == def.roles.Keys && Compiled(def, resolved)
    ensures cells.Keys == def.roles.Keys - {"__proto__"}
    ensures forall r, p | r in cells && p in Permissions(def) :: p in cells[r] && CellAgrees(def, r, p, cells[r][p])
  {
    cells := map[];
    var all := Permissions(def);
    for i := 0 to |def.roleNames|
      invariant forall r :: r in cells <==> r in def.roleNames[..i] && r != "__proto__"
      invariant forall r, p | r in cells && p in all :: p in cells[r] && CellAgrees(def, r, p, cells[r][p])
    {
      var role := def.roleNames[i];
      var row := MatrixRow(def, role, resolved[role]);
      assert def.roleNames[..i + 1] == def.roleNames[..i] + [role];
      // Assigning the key "__proto__" sets a prototype instead of a member.
      if role != "__proto__" {
        cells := cells[role := row];
      }
    }
    assert def.roleNames[..|def.roleNames|] == def.roleNames;
  }

  method MatrixRow(def: Definition, role: string, table: ResolvedRole) returns (row: map<string, Cell>)
    requires Represents(table, GrantedFacts(def, role))
    ensures forall p | p in Permissions(def) :: p in row && CellAgrees(def, role, p, row[p])
  {
    row := map[];
    var all := Permissions(def);
    for i := 0 to |all|
      invariant forall p :: p in row <==> p in all[..i]
      invariant forall p | p in row :: CellAgrees(def, role, p, row[p])
    {
      CellIsRight(def, role, table, all[i]);
      assert all[..i + 1] == all[..i] + [all[i]];
      row := row[all[i] := CellOf(table, all[i])];
    }
    assert all[..|all|] == all;
  }
}
