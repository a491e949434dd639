/** Policy definitions, the role-inheritance graph, and the depth-first cycle detection of
    `validate`. */
module PolicyGraph {

  datatype Grant = Always(permission: string) | When(permission: string, condition: string)

  datatype RoleSpec = RoleSpec(inherits: seq<string>, grants: seq<Grant>)

  /** The records of a definition, with their keys in declaration order. */
  datatype Definition = Definition(
    resourceNames: seq<string>, resources: map<string, seq<string>>,
    roleNames: seq<string>, roles: map<string, RoleSpec>)

  predicate Distinct<T(==)>(s: seq<T>) {
    forall i, j | 0 <= i < j < |s| :: s[i] != s[j]
  }

  /** What every record satisfies: the key list is exactly the keys, each once. */
  predicate IsRecord<V>(names: seq<string>, entries: map<string, V>) {
    Distinct(names) && (forall n | n in names :: n in entries) && (forall n | n in entries :: n in names)
  }

  predicate IsDefinition(def: Definition) {
    IsRecord(def.resourceNames, def.resources) && IsRecord(def.roleNames, def.roles)
  }

  // ---- the graph of declared roles ----

  predicate Edge(def: Definition, a: string, b: string) {
    a in def.roles && b in def.roles && b in def.roles[a].inherits
  }

  predicate IsPath(def: Definition, p: seq<string>) {
    && p != []
    && (forall i | 0 <= i < |p| :: p[i] in def.roles)
    && (forall i | 0 <= i < |p| - 1 :: Edge(def, p[i], p[i + 1]))
  }

  predicate IsCycle(def: Definition, p: seq<string>) {
    |p| >= 2 && IsPath(def, p) && p[0] == p[|p| - 1]
  }

  ghost predicate HasCycle(def: Definition) {
    exists p :: IsCycle(def, p)
  }

  /** An order in which every role comes after the roles it inherits from. */
  ghost predicate Topological(def: Definition, order: seq<string>) {
    && Distinct(order)
    && (forall i | 0 <= i < |order| :: order[i] in def.roles)
    && (forall i, b | 0 <= i < |order| && Edge(def, order[i], b) :: b in order[..i])
  }

  function IndexOf(order: seq<string>, x: string): (i: nat)
    requires x in order
    ensures i < |order| && order[i] == x
  {
    if order[0] == x then 0 else IndexOf(order[1..], x) + 1
  }

  lemma EdgeDescends(def: Definition, order: seq<string>, a: string, b: string)
    requires Topological(def, order) && a in order && Edge(def, a, b)
    ensures b in order && IndexOf(order, b) < IndexOf(order, a)
  {
    var i := IndexOf(order, a);
    assert b in order[..i];
    var j :| 0 <= j < i && order[j] == b;
    assert order[IndexOf(order, b)] == order[j];
  }

  lemma {:induction false} PathDescends(def: Definition, order: seq<string>, p: seq<string>)
    requires Topological(def, order) && IsPath(def, p) && p[0] in order
    ensures p[|p| - 1] in order && IndexOf(order, p[|p| - 1]) + |p| - 1 <= IndexOf(order, p[0])
  {
    if |p| > 1 {
      var front := p[..|p| - 1];
      PathDescends(def, order, front);
      EdgeDescends(def, order, p[|p| - 2], p[|p| - 1]);
    }
  }

  /** A topological order of all roles rules every cycle out. */
  lemma OrderedIsAcyclic(def: Definition, order: seq<string>)
    requires Topological(def, order) && forall r | r in def.roles :: r in order
    ensures !HasCycle(def)
  {
    forall p | |p| >= 2 && IsPath(def, p)
      ensures p[0] != p[|p| - 1]
    {
      PathDescends(def, order, p);
    }
  }

  // ---- the search ----

  datatype Mark = Visiting | Finished

  /** `state` and the cycles pushed so far; `order` is the finishing order, kept for the proof. */
  class CycleSearch {
    const def: Definition
    var state: map<string, Mark>
    var cycles: seq<seq<string>>
    ghost var order: seq<string>

    constructor (def: Definition)
      ensures this.def == def && state == map[] && cycles == [] && order == []
    {
      this.def := def;
      state, cycles, order := map[], [], [];
    }

    ghost predicate Valid(path: seq<string>)
      reads this
    {
      && Distinct(path)
      && (path != [] ==> IsPath(def, path))
      && (forall r | r in state :: r in def.roles)
      && (forall r :: r in state && state[r].Visiting? <==> r in path)
      && (forall i | 0 <= i < |cycles| :: IsCycle(def, cycles[i]))
      && (cycles == [] ==> Settled())
    }

    ghost predicate Settled()
      reads this
    {
      Topological(def, order) && forall r :: r in state && state[r].Finished? <==> r in order
    }

    /** Depth-first visit: pushes a cycle for every role met on its own path. */
    method Visit(role: string, path: seq<string>)
      requires Valid(path) && role in def.roles
      requires IsPath(def, path + [role])
      modifies this
      ensures Valid(path)
      ensures old(state).Keys <= state.Keys && role in state
      ensures old(cycles) <= cycles
      ensures cycles == [] ==> state[role].Finished?
      decreases def.roles.Keys - state.Keys
    {
      if role in state && state[role].Finished? {
        return;
      }
      if role in state {
        var start := IndexOf(path, role);
        cycles := cycles + [path[start..] + [role]];
        CycleOnPath(def, path, role, start);
        return;
      }
      MarkVisiting(role, path);
      var parents := def.roles[role].inherits;
      for i := 0 to |parents|
        invariant Valid(path + [role])
        invariant old(state).Keys + {role} <= state.Keys
        invariant old(cycles) <= cycles
        invariant cycles == [] ==> forall j | 0 <= j < i && parents[j] in def.roles :: parents[j] in order
      {
        if parents[i] in def.roles {
          ExtendPath(def, path + [role], parents[i]);
          Visit(parents[i], path + [role]);
        }
      }
      MarkFinished(role, path);
    }

    method MarkVisiting(role: string, path: seq<string>)
      requires Valid(path) && role in def.roles && role !in state && IsPath(def, path + [role])
      modifies this`state
      ensures Valid(path + [role]) && state == old(state)[role := Visiting]
    {
      state := state[role := Visiting];
      assert role !in path;
    }

    method MarkFinished(role: string, path: seq<string>)
      requires Valid(path + [role]) && role in def.roles
      requires cycles == [] ==> forall b | Edge(def, role, b) :: b in order
      modifies this`state, this`order
      ensures Valid(path) && state == old(state)[role := Finished]
    {
      assert role in path + [role] && role in state && state[role].Visiting?;
      assert (path + [role])[..|path|] == path;
      state := state[role := Finished];
      order := order + [role];
      assert forall i | 0 <= i < |order| - 1 :: order[..i] == old(order)[..i];
    }
  }

  lemma CycleOnPath(def: Definition, path: seq<string>, role: string, start: nat)
    requires IsPath(def, path + [role]) && start < |path| && path[start] == role
    ensures IsCycle(def, path[start..] + [role])
  {
    var p, whole := path[start..] + [role], path + [role];
    assert forall i | 0 <= i < |p| :: p[i] == whole[start + i];
    forall i | 0 <= i < |p| - 1
      ensures Edge(def, p[i], p[i + 1])
    {
      assert Edge(def, whole[start + i], whole[start + i + 1]);
    }
  }

  lemma ExtendPath(def: Definition, p: seq<string>, b: string)
    requires IsPath(def, p) && Edge(def, p[|p| - 1], b)
    ensures IsPath(def, p + [b])
  {
  }

  /** The cycle part of validate: something is reported exactly when the graph has a cycle, and
      everything reported is one. Without a cycle the finishing order is topological. */
  method FindCycles(def: Definition) returns (cycles: seq<seq<string>>, ghost order: seq<string>)
    requires IsRecord(def.roleNames, def.roles)
    ensures cycles != [] <==> HasCycle(def)
    ensures forall i | 0 <= i < |cycles| :: IsCycle(def, cycles[i])
    ensures cycles == [] ==> Topological(def, order) && forall r | r in def.roles :: r in order
  {
    var search := new CycleSearch(def);
    for i := 0 to |def.roleNames|
      invariant search.def == def && search.Valid([])
      invariant search.cycles == [] ==> forall j | 0 <= j < i :: def.roleNames[j] in search.order
    {
      var role := def.roleNames[i];
      assert [] + [role] == [role];
      search.Visit(role, []);
    }
    cycles, order := search.cycles, search.order;
    if cycles == [] {
      OrderedIsAcyclic(def, order);
    } else {
      assert IsCycle(def, cycles[0]);
    }
  }
}
