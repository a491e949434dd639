/** Variable expansion across dotenv entries: the reference syntax, the meaning of a text under a
    partial solution, and the recursive resolver that must find the one solution or a real cycle. */
module Expand {
  import opened Prelude

  datatype QuoteStyle = Unquoted | Single | Double | Backtick

  datatype Expandable = Expandable(key: string, value: string, quote: QuoteStyle)

  // ---- reference syntax ----

  datatype Operator = Plain | ColonMinus | Minus | ColonPlus | Plus

  datatype Piece = Literal(c: char) | Escaped | Reference(name: string, op: Operator, fallback: string)

  predicate NameStart(c: char) {
    'A' <= c <= 'Z' || 'a' <= c <= 'z' || c == '_'
  }

  predicate NameChar(c: char) {
    NameStart(c) || '0' <= c <= '9'
  }

  function NameEnd(s: string, i: nat): (e: nat)
    requires i <= |s|
    ensures i <= e <= |s|
    decreases |s| - i
  {
    if i < |s| && NameChar(s[i]) then NameEnd(s, i + 1) else i
  }

  /** The first brace at or after `i`, or the end. */
  function BraceAt(s: string, i: nat): (e: nat)
    requires i <= |s|
    ensures i <= e <= |s|
    decreases |s| - i
  {
    if i < |s| && s[i] != '{' && s[i] != '}' then BraceAt(s, i + 1) else i
  }

  /** Where a fallback starting at `i` is closed; it may hold braces one level deep. */
  function FallbackEnd(s: string, i: nat): (r: Option<nat>)
    requires i <= |s|
    ensures r.Some? ==> i <= r.value < |s|
    decreases |s| - i
  {
    var b := BraceAt(s, i);
    if b == |s| then None
    else if s[b] == '}' then Some(b)
    else
      var inner := BraceAt(s, b + 1);
      if inner < |s| && s[inner] == '}' then FallbackEnd(s, inner + 1) else None
  }

  /** The operator at `i` and where its fallback begins. */
  function OperatorAt(s: string, i: nat): (r: Option<(Operator, nat)>)
    requires i <= |s|
    ensures r.Some? ==> i < r.value.1 <= |s|
  {
    if i < |s| && s[i] == '-' then Some((Minus, i + 1))
    else if i < |s| && s[i] == '+' then Some((Plus, i + 1))
    else if i + 1 < |s| && s[i] == ':' && s[i + 1] == '-' then Some((ColonMinus, i + 2))
    else if i + 1 < |s| && s[i] == ':' && s[i + 1] == '+' then Some((ColonPlus, i + 2))
    else None
  }

  /** The braced form, from its dollar sign on. */
  function Braced(s: string): (r: Option<(Piece, nat)>)
    ensures r.Some? ==> r.value.0.Reference? && |r.value.0.fallback| < |s| && 0 < r.value.1 <= |s|
  {
    if |s| < 3 || s[0] != '$' || s[1] != '{' || !NameStart(s[2]) then None
    else
      var e := NameEnd(s, 2);
      if e < |s| && s[e] == '}' then Some((Reference(s[2..e], Plain, ""), e + 1))
      else
        var op := OperatorAt(s, e);
        if op.None? then None
        else
          var f := FallbackEnd(s, op.value.1);
          if f.None? then None else Some((Reference(s[2..e], op.value.0, s[op.value.1..f.value]), f.value + 1))
  }

  /** The leftmost match of the reference pattern at the start of `s`, or its first character. */
  function PieceAt(s: string): (r: (Piece, nat))
    requires s != ""
    ensures 0 < r.1 <= |s|
    ensures r.0.Reference? ==> |r.0.fallback| < |s|
  {
    var braced := Braced(s);
    if |s| > 1 && s[0] == '\\' && s[1] == '$' then (Escaped, 2)
    else if braced.Some? then braced.value
    else if |s| > 1 && s[0] == '$' && NameStart(s[1]) then (Reference(s[1..NameEnd(s, 1)], Plain, ""), NameEnd(s, 1))
    else (Literal(s[0]), 1)
  }

  // ---- the meaning of a text under a partial solution ----

  /** The environment record: its own entries, some of them `undefined`, and what the names it inherits
      print as, such as `constructor`. */
  datatype Env = Env(own: map<string, Option<string>>, inherited: map<string, string>)

  const EMPTY_ENV := Env(map[], map[])

  datatype Setting = Setting(raw: map<string, Expandable>, env: Env, override: bool)

  type Solution = map<string, string>

  datatype Found = Undefined | Defined(value: string) | Waiting(name: string)

  datatype Meaning = Means(text: string) | Blocked(name: string)

  function FromSolution(t: Setting, m: Solution, name: string): Found {
    if name !in t.raw then Undefined else if name in m then Defined(m[name]) else Waiting(name)
  }

  /** `env[name]`. */
  function EnvAt(env: Env, name: string): Option<string> {
    if name in env.own then env.own[name]
    else if name in env.inherited then Some(env.inherited[name])
    else None
  }

  function FromEnv(t: Setting, name: string): Found {
    FoundOf(EnvAt(t.env, name))
  }

  function FoundOf(v: Option<string>): Found {
    if v.Some? then Defined(v.value) else Undefined
  }

  function Look(t: Setting, m: Solution, name: string): Found {
    var first := if t.override then FromSolution(t, m, name) else FromEnv(t, name);
    if !first.Undefined? then first
    else if t.override then FromEnv(t, name) else FromSolution(t, m, name)
  }

  datatype Choice = Use(text: string) | UseFallback

  function Choose(op: Operator, found: Found): Choice
    requires !found.Waiting?
  {
    match op
    case ColonMinus => if found.Undefined? || found.value == "" then UseFallback else Use(found.value)
    case Minus => if found.Undefined? then UseFallback else Use(found.value)
    case ColonPlus => if found.Defined? && found.value != "" then UseFallback else Use("")
    case Plus => if found.Defined? then UseFallback else Use("")
    case Plain => Use(if found.Defined? then found.value else "")
  }

  function FallbackSize(piece: Piece): nat {
    if piece.Reference? then |piece.fallback| else 0
  }

  function PieceMeaning(t: Setting, piece: Piece, m: Solution): Meaning
    decreases FallbackSize(piece), 1
  {
    match piece
    case Literal(c) => Means([c])
    case Escaped => Means("$")
    case Reference(name, op, fallback) =>
      match Look(t, m, name)
      case Waiting(n) => Blocked(n)
      case found =>
        match Choose(op, found)
        case Use(text) => Means(text)
        case UseFallback => TextMeaning(t, fallback, m)
  }

  function TextMeaning(t: Setting, s: string, m: Solution): Meaning
    decreases |s|, 0
  {
    if s == "" then Means("")
    else
      var (piece, n) := PieceAt(s);
      match PieceMeaning(t, piece, m)
      case Blocked(name) => Blocked(name)
      case Means(text) =>
        match TextMeaning(t, s[n..], m)
        case Blocked(name) => Blocked(name)
        case Means(rest) => Means(text + rest)
  }

  function EntryMeaning(t: Setting, name: string, m: Solution): Meaning
    requires name in t.raw
  {
    var e := t.raw[name];
    if e.quote.Single? then Means(e.value) else TextMeaning(t, e.value, m)
  }

  // ---- growing a partial solution ----

  ghost predicate Extends(m: Solution, more: Solution) {
    forall k | k in m :: k in more && more[k] == m[k]
  }

  lemma LookGrows(t: Setting, name: string, m: Solution, more: Solution)
    requires Extends(m, more)
    ensures !Look(t, m, name).Waiting? ==> Look(t, more, name) == Look(t, m, name)
    ensures Look(t, m, name).Waiting? ==>
              var n := Look(t, m, name).name; n in t.raw && n !in m && (n !in more ==> Look(t, more, name) == Waiting(n))
  {
  }

  lemma {:induction false} PieceGrows(t: Setting, piece: Piece, m: Solution, more: Solution)
    requires Extends(m, more)
    ensures PieceMeaning(t, piece, m).Means? ==> PieceMeaning(t, piece, more) == PieceMeaning(t, piece, m)
    ensures PieceMeaning(t, piece, m).Blocked? ==>
              var n := PieceMeaning(t, piece, m).name;
              n in t.raw && n !in m && (n !in more ==> PieceMeaning(t, piece, more) == Blocked(n))
    decreases FallbackSize(piece), 1
  {
    if piece.Reference? {
      LookGrows(t, piece.name, m, more);
      TextGrows(t, piece.fallback, m, more);
    }
  }

  /** What is known keeps its meaning, and what waits for a name waits until that name is known. */
  lemma {:induction false} TextGrows(t: Setting, s: string, m: Solution, more: Solution)
    requires Extends(m, more)
    ensures TextMeaning(t, s, m).Means? ==> TextMeaning(t, s, more) == TextMeaning(t, s, m)
    ensures TextMeaning(t, s, m).Blocked? ==>
              var n := TextMeaning(t, s, m).name;
              n in t.raw && n !in m && (n !in more ==> TextMeaning(t, s, more) == Blocked(n))
    decreases |s|, 0
  {
    if s != "" {
      var (piece, n) := PieceAt(s);
      PieceGrows(t, piece, m, more);
      TextGrows(t, s[n..], m, more);
    }
  }

  lemma EntryGrows(t: Setting, name: string, m: Solution, more: Solution)
    requires Extends(m, more) && name in t.raw
    ensures EntryMeaning(t, name, m).Means? ==> EntryMeaning(t, name, more) == EntryMeaning(t, name, m)
    ensures EntryMeaning(t, name, m).Blocked? ==>
              var n := EntryMeaning(t, name, m).name;
              n in t.raw && n !in m && (n !in more ==> EntryMeaning(t, name, more) == Blocked(n))
  {
    TextGrows(t, t.raw[name].value, m, more);
  }

  // ---- derivations, solutions and cycles ----

  /** `m` was built name by name in this order, each value known from the ones before. */
  ghost predicate Derived(t: Setting, order: seq<string>, m: Solution) {
    if order == [] then m == map[]
    else
      var k := order[|order| - 1];
      && k in t.raw && k in m
      && EntryMeaning(t, k, m - {k}) == Means(m[k])
      && Derived(t, order[..|order| - 1], m - {k})
  }

  /** Every reference equation holds. */
  ghost predicate Solves(t: Setting, m: Solution) {
    m.Keys == t.raw.Keys && forall k | k in t.raw :: EntryMeaning(t, k, m) == Means(m[k])
  }

  /** Each name waits for the next. */
  ghost predicate Chain(t: Setting, m: Solution, path: seq<string>) {
    && |path| > 0
    && forall i | 0 <= i < |path| - 1 :: path[i] in t.raw && EntryMeaning(t, path[i], m) == Blocked(path[i + 1])
  }

  ghost predicate Cycle(t: Setting, m: Solution, path: seq<string>) {
    Chain(t, m, path) && |path| > 1 && path[0] == path[|path| - 1]
  }

  /** The names can be resolved one after another, and this is what comes out. */
  ghost predicate Answers(t: Setting, m: Solution) {
    m.Keys == t.raw.Keys && exists order :: Derived(t, order, m)
  }

  ghost predicate Resolvable(t: Setting) {
    exists m :: Answers(t, m)
  }

  /** With everything known that can be derived on the way, evaluation runs into a cycle. */
  ghost predicate Cyclic(t: Setting) {
    exists order, m, path :: Derived(t, order, m) && Cycle(t, m, path)
  }

  lemma DerivedGrows(t: Setting, order: seq<string>, m: Solution, k: string, v: string)
    requires Derived(t, order, m) && k in t.raw && k !in m && EntryMeaning(t, k, m) == Means(v)
    ensures Derived(t, order + [k], m[k := v])
  {
    assert m[k := v] - {k} == m;
    assert (order + [k])[..|order|] == order;
  }

  lemma {:induction false} DerivedHolds(t: Setting, order: seq<string>, m: Solution, full: Solution)
    requires Derived(t, order, m) && Extends(m, full)
    ensures forall k | k in m :: k in t.raw && EntryMeaning(t, k, full) == Means(m[k])
  {
    if order != [] {
      var k := order[|order| - 1];
      DerivedHolds(t, order[..|order| - 1], m - {k}, full);
      EntryGrows(t, k, m - {k}, full);
    }
  }

  lemma {:induction false} DerivedAgrees(t: Setting, order: seq<string>, m: Solution, full: Solution)
    requires Derived(t, order, m) && Solves(t, full)
    ensures Extends(m, full)
  {
    if order != [] {
      var k := order[|order| - 1];
      DerivedAgrees(t, order[..|order| - 1], m - {k}, full);
      EntryGrows(t, k, m - {k}, full);
      assert m[k] == full[k];
    }
  }

  /** A complete derivation is a solution, and there is no other. */
  lemma DerivedIsTheSolution(t: Setting, order: seq<string>, m: Solution)
    requires Derived(t, order, m) && m.Keys == t.raw.Keys
    ensures Solves(t, m) && forall other | Solves(t, other) :: other == m
  {
    DerivedHolds(t, order, m, m);
    forall other | Solves(t, other) ensures other == m {
      DerivedAgrees(t, order, m, other);
    }
  }

  lemma {:induction false} DerivedAvoidsCycle(
      t: Setting, order: seq<string>, m: Solution, full: Solution, known: Solution, path: seq<string>)
    requires Derived(t, order, m) && Extends(m, full) && Extends(known, full) && Cycle(t, known, path)
    ensures forall i | 0 <= i < |path| :: path[i] !in m
  {
    if order != [] {
      var k := order[|order| - 1];
      var before := m - {k};
      DerivedAvoidsCycle(t, order[..|order| - 1], before, full, known, path);
      forall i | 0 <= i < |path| - 1 ensures path[i] !in m {
        StepAvoidsCycle(t, k, before, full, known, path, i);
      }
    }
  }

  lemma StepAvoidsCycle(
      t: Setting, k: string, before: Solution, full: Solution, known: Solution, path: seq<string>, i: nat)
    requires k in t.raw && EntryMeaning(t, k, before).Means?
    requires Extends(before, full) && Extends(known, full) && Chain(t, known, path) && i < |path| - 1
    requires path[i + 1] !in before
    ensures path[i] != k
  {
    var both := known + before;
    EntryGrows(t, k, before, both);
    EntryGrows(t, path[i], known, both);
  }

  /** No setting is both resolvable and cyclic. */
  lemma NotBoth(t: Setting)
    ensures !(Resolvable(t) && Cyclic(t))
  {
    if Resolvable(t) && Cyclic(t) {
      var m1 :| Answers(t, m1);
      var o1 :| Derived(t, o1, m1);
      var o2, m2, path :| Derived(t, o2, m2) && Cycle(t, m2, path);
      DerivedIsTheSolution(t, o1, m1);
      DerivedAgrees(t, o2, m2, m1);
      DerivedAvoidsCycle(t, o1, m1, m1, m2, path);
    }
  }

  /** A chain that returns to one of its own names holds a cycle. */
  lemma ChainCloses(t: Setting, order: seq<string>, m: Solution, path: seq<string>)
    requires Derived(t, order, m) && Chain(t, m, path) && path[|path| - 1] in path[..|path| - 1]
    ensures Cyclic(t)
  {
    var j :| 0 <= j < |path| - 1 && path[j] == path[|path| - 1];
    var cycle := path[j..];
    forall i | 0 <= i < |cycle| - 1
      ensures cycle[i] in t.raw && EntryMeaning(t, cycle[i], m) == Blocked(cycle[i + 1])
    {
      assert cycle[i] == path[j + i] && cycle[i + 1] == path[j + i + 1];
    }
    assert Cycle(t, m, cycle);
  }

  // ---- the resolver ----

  /** The last name is one of `open`, or an earlier one of the path. */
  ghost predicate Returns(path: seq<string>, open: set<string>) {
    |path| > 0 && (path[|path| - 1] in open || path[|path| - 1] in path[..|path| - 1])
  }

  class Resolver {
    const t: Setting
    var resolved: map<string, string>
    var resolving: set<string>
    ghost var order: seq<string>

    constructor (t: Setting)
      ensures Valid() && this.t == t && resolved == map[] && resolving == {}
    {
      this.t := t;
      resolved, resolving, order := map[], {}, [];
    }

    ghost predicate Valid()
      reads this
    {
      Derived(t, order, resolved) && resolving <= t.raw.Keys && resolving !! resolved.Keys
    }

    /** What a failure leaves behind: a chain from `name` to a name already being resolved. */
    ghost predicate Fails(path: seq<string>, open: set<string>)
      reads this
    {
      Chain(t, resolved, path) && Returns(path, open)
    }

    method FromEntries(name: string) returns (r: Result<Option<string>, string>, ghost path: seq<string>)
      requires Valid()
      modifies this
      ensures Valid() && Extends(old(resolved), resolved) && old(resolving) <= resolving
      ensures r.Ok? ==> resolving == old(resolving)
      ensures r.Ok? && r.value.None? ==> name !in t.raw
      ensures r.Ok? && r.value.Some? ==> name in t.raw && name in resolved && resolved[name] == r.value.value
      ensures r.Err? ==> Fails(path, old(resolving)) && path[0] == name && name in t.raw && name in resolving
      decreases |t.raw.Keys - resolving|, 0, 0
    {
      path := [name];
      if name !in t.raw {
        return Ok(None), path;
      }
      if name in resolved {
        return Ok(Some(resolved[name])), path;
      }
      if name in resolving {
        return Err(name), path;
      }
      var entry := t.raw[name];
      ghost var open := resolving;
      resolving := resolving + {name};
      var value := entry.value;
      if entry.quote != Single {
        ghost var rest;
        assert t.raw.Keys - resolving < t.raw.Keys - open;
        Smaller(t.raw.Keys - resolving, t.raw.Keys - open);
        var v;
        v, rest := Interpolate(entry.value);
        if v.Err? {
          path := [name] + rest;
          PathGrows(t, resolved, name, rest, open);
          return Err(v.error), path;
        }
        value := v.value;
      }
      DerivedGrows(t, order, resolved, name, value);
      resolving := resolving - {name};
      resolved := resolved[name := value];
      order := order + [name];
      return Ok(Some(value)), path;
    }

    method Lookup(name: string) returns (r: Result<Option<string>, string>, ghost path: seq<string>)
      requires Valid()
      modifies this
      ensures Valid() && Extends(old(resolved), resolved) && old(resolving) <= resolving
      ensures r.Ok? ==> resolving == old(resolving) && Look(t, resolved, name) == FoundOf(r.value)
      ensures r.Err? ==> Fails(path, old(resolving)) && Look(t, resolved, name) == Waiting(path[0])
      decreases |t.raw.Keys - resolving|, 0, 1
    {
      var fromEnv := EnvAt(t.env, name);
      if !t.override && fromEnv.Some? {
        return Ok(fromEnv), [];
      }
      r, path := FromEntries(name);
      if r.Ok? && r.value.None? && t.override {
        r := Ok(fromEnv);
      }
    }

    method EvaluatePiece(piece: Piece) returns (r: Result<string, string>, ghost path: seq<string>)
      requires Valid()
      modifies this
      ensures Valid() && Extends(old(resolved), resolved) && old(resolving) <= resolving
      ensures r.Ok? ==> resolving == old(resolving) && PieceMeaning(t, piece, resolved) == Means(r.value)
      ensures r.Err? ==> Fails(path, old(resolving)) && PieceMeaning(t, piece, resolved) == Blocked(path[0])
      decreases |t.raw.Keys - resolving|, 1 + FallbackSize(piece), 1
    {
      if piece.Literal? {
        return Ok([piece.c]), [];
      }
      if piece.Escaped? {
        return Ok("$"), [];
      }
      var value;
      value, path := Lookup(piece.name);
      if value.Err? {
        return Err(value.error), path;
      }
      ghost var seen := resolved;
      match Choose(piece.op, FoundOf(value.value))
      case Use(text) => return Ok(text), path;
      case UseFallback =>
        r, path := Interpolate(piece.fallback);
        LookGrows(t, piece.name, seen, resolved);
    }

    /** Replaces the references of a text from left to right. */
    method Interpolate(text: string) returns (r: Result<string, string>, ghost path: seq<string>)
      requires Valid()
      modifies this
      ensures Valid() && Extends(old(resolved), resolved) && old(resolving) <= resolving
      ensures r.Ok? ==> resolving == old(resolving) && TextMeaning(t, text, resolved) == Means(r.value)
      ensures r.Err? ==> Fails(path, old(resolving)) && TextMeaning(t, text, resolved) == Blocked(path[0])
      decreases |t.raw.Keys - resolving|, 1 + |text|, 0
    {
      if text == "" {
        return Ok(""), [];
      }
      var (piece, n) := PieceAt(text);
      var first;
      first, path := EvaluatePiece(piece);
      if first.Err? {
        return Err(first.error), path;
      }
      ghost var seen := resolved;
      var rest;
      rest, path := Interpolate(text[n..]);
      PieceGrows(t, piece, seen, resolved);
      r := if rest.Ok? then Ok(first.value + rest.value) else Err(rest.error);
    }
  }

  lemma Smaller(a: set<string>, b: set<string>)
    requires a < b
    ensures |a| < |b|
  {
    var x :| x in b && x !in a;
    assert b == a + (b - a) && |b - a| > 0;
  }

  lemma PathGrows(t: Setting, m: Solution, name: string, rest: seq<string>, open: set<string>)
    requires name in t.raw && Chain(t, m, rest) && EntryMeaning(t, name, m) == Blocked(rest[0])
    requires Returns(rest, open + {name})
    ensures Chain(t, m, [name] + rest) && Returns([name] + rest, open)
  {
    var path := [name] + rest;
    forall i | 0 <= i < |path| - 1 ensures path[i] in t.raw && EntryMeaning(t, path[i], m) == Blocked(path[i + 1]) {
      if i > 0 {
        assert path[i] == rest[i - 1] && path[i + 1] == rest[i];
      }
    }
    assert path[..|path| - 1] == [name] + rest[..|rest| - 1];
  }

  // ---- expanding all entries ----

  /** A repeated key keeps its last entry. */
  function RawOf(entries: seq<Expandable>): map<string, Expandable> {
    if entries == [] then map[]
    else var last := entries[|entries| - 1]; RawOf(entries[..|entries| - 1])[last.key := last]
  }

  lemma {:induction false} RawHasKeys(entries: seq<Expandable>)
    ensures forall i | 0 <= i < |entries| :: entries[i].key in RawOf(entries)
    ensures forall k | k in RawOf(entries) :: exists i :: 0 <= i < |entries| && entries[i].key == k
  {
    if entries != [] {
      var n := |entries| - 1;
      RawHasKeys(entries[..n]);
      forall i | 0 <= i < n ensures entries[i].key in RawOf(entries[..n]) {
        assert entries[..n][i] == entries[i];
      }
      forall k | k in RawOf(entries[..n]) ensures exists i :: 0 <= i < n && entries[i].key == k {
        var i :| 0 <= i < n && entries[..n][i].key == k;
        assert entries[i].key == k;
      }
    }
  }

  /** Resolves every entry in turn: the unique solution of the reference equations, or an error on a
      real cycle, and never anything else. */
  method ExpandAll(entries: seq<Expandable>, env: Env, override: bool)
    returns (r: Result<map<string, string>, string>)
    ensures var t := Setting(RawOf(entries), env, override);
      && (r.Ok? <==> Resolvable(t))
      && (r.Err? <==> Cyclic(t))
      && (r.Ok? ==> Answers(t, r.value) && Solves(t, r.value) && forall m | Solves(t, m) :: m == r.value)
  {
    var t := Setting(RawOf(entries), env, override);
    NotBoth(t);
    RawHasKeys(entries);
    var resolver := new Resolver(t);
    var out: map<string, string> := map[];
    for i := 0 to |entries|
      invariant resolver.t == t && resolver.Valid() && resolver.resolving == {}
      invariant forall j | 0 <= j < i :: entries[j].key in out
      invariant Extends(out, resolver.resolved)
    {
      ghost var path;
      var value;
      value, path := resolver.FromEntries(entries[i].key);
      if value.Err? {
        ChainCloses(t, resolver.order, resolver.resolved, path);
        return Err(value.error);
      }
      out := out[entries[i].key := if value.value.Some? then value.value.value else ""];
    }
    DerivedKeys(t, resolver.order, resolver.resolved);
    AllResolved(t, entries, out, resolver.resolved);
    DerivedIsTheSolution(t, resolver.order, resolver.resolved);
    assert Answers(t, out);
    return Ok(out);
  }

  lemma {:induction false} DerivedKeys(t: Setting, order: seq<string>, m: Solution)
    requires Derived(t, order, m)
    ensures m.Keys <= t.raw.Keys
  {
    DerivedHolds(t, order, m, m);
  }

  lemma AllResolved(t: Setting, entries: seq<Expandable>, out: Solution, resolved: Solution)
    requires t.raw == RawOf(entries) && resolved.Keys <= t.raw.Keys && Extends(out, resolved)
    requires forall j | 0 <= j < |entries| :: entries[j].key in out
    ensures out == resolved && out.Keys == t.raw.Keys
  {
    RawHasKeys(entries);
    forall k | k in t.raw ensures k in out {
      var i :| 0 <= i < |entries| && entries[i].key == k;
    }
  }

  /** There is at most one answer, and it solves the equations. */
  lemma OneAnswer(t: Setting, m: Solution)
    requires Answers(t, m)
    ensures Resolvable(t) && Solves(t, m) && forall other | Answers(t, other) :: other == m
  {
    var order :| Derived(t, order, m);
    DerivedIsTheSolution(t, order, m);
    forall other | Answers(t, other) ensures other == m {
      var o :| Derived(t, o, other);
      DerivedIsTheSolution(t, o, other);
    }
  }

  // ---- names the environment inherits ----

  /** The lookup of the name ends at an inherited property. */
  predicate Inherits(t: Setting, name: string) {
    name !in t.env.own && name in t.env.inherited && !(t.override && name in t.raw)
  }

  /** The same without anything inherited. */
  function OwnOnly(t: Setting): Setting {
    t.(env := t.env.(inherited := map[]))
  }

  function PieceMentions(piece: Piece): set<string>
    decreases FallbackSize(piece), 1
  {
    if piece.Reference? then {piece.name} + Mentions(piece.fallback) else {}
  }

  /** Every name a text refers to, in fallbacks too. */
  function Mentions(s: string): set<string>
    decreases |s|, 0
  {
    if s == "" then {} else var (piece, n) := PieceAt(s); PieceMentions(piece) + Mentions(s[n..])
  }

  lemma {:induction false} PieceAgrees(t: Setting, piece: Piece, m: Solution)
    requires forall name | name in PieceMentions(piece) :: !Inherits(t, name)
    ensures PieceMeaning(t, piece, m) == PieceMeaning(OwnOnly(t), piece, m)
    decreases FallbackSize(piece), 1
  {
    if piece.Reference? {
      assert piece.name in PieceMentions(piece) && !Inherits(t, piece.name);
      assert Look(t, m, piece.name) == Look(OwnOnly(t), m, piece.name);
      TextAgrees(t, piece.fallback, m);
    }
  }

  /** A text that refers to no inherited name means what it would without them. */
  lemma {:induction false} TextAgrees(t: Setting, s: string, m: Solution)
    requires forall name | name in Mentions(s) :: !Inherits(t, name)
    ensures TextMeaning(t, s, m) == TextMeaning(OwnOnly(t), s, m)
    decreases |s|, 0
  {
    if s != "" {
      var (piece, n) := PieceAt(s);
      PieceAgrees(t, piece, m);
      TextAgrees(t, s[n..], m);
    }
  }

  ghost predicate MentionsInherited(t: Setting) {
    exists k, name :: k in t.raw && !t.raw[k].quote.Single? && name in Mentions(t.raw[k].value) && Inherits(t, name)
  }

  lemma {:induction false} DerivedAgreesWithout(t: Setting, order: seq<string>, m: Solution)
    requires !MentionsInherited(t)
    ensures Derived(t, order, m) <==> Derived(OwnOnly(t), order, m)
  {
    if order != [] {
      var k := order[|order| - 1];
      DerivedAgreesWithout(t, order[..|order| - 1], m - {k});
      if k in t.raw && !t.raw[k].quote.Single? {
        TextAgrees(t, t.raw[k].value, m - {k});
      }
    }
  }

  /** So the answer depends on the declared variables alone when no entry refers to an inherited name. */
  lemma InheritedNamesDoNotMatter(t: Setting, m: Solution)
    requires !MentionsInherited(t)
    ensures Answers(t, m) <==> Answers(OwnOnly(t), m)
  {
    if Answers(t, m) {
      var order :| Derived(t, order, m);
      DerivedAgreesWithout(t, order, m);
    }
    if Answers(OwnOnly(t), m) {
      var order :| Derived(OwnOnly(t), order, m);
      DerivedAgreesWithout(t, order, m);
    }
  }

  predicate IsName(name: string) {
    name != "" && NameStart(name[0]) && forall i | 0 <= i < |name| :: NameChar(name[i])
  }

  lemma {:induction false} NameEndsAtEnd(s: string, i: nat)
    requires i <= |s| && forall j | i <= j < |s| :: NameChar(s[j])
    ensures NameEnd(s, i) == |s|
    decreases |s| - i
  {
    if i < |s| {
      NameEndsAtEnd(s, i + 1);
    }
  }

  lemma ReferenceMeans(t: Setting, name: string, m: Solution)
    requires IsName(name)
    ensures TextMeaning(t, "$" + name, m) == PieceMeaning(t, Reference(name, Plain, ""), m)
  {
    var s := "$" + name;
    NameEndsAtEnd(s, 1);
    assert s[1..|s|] == name && s[1] == name[0];
    assert PieceAt(s) == (Reference(name, Plain, ""), |s|);
    assert s[|s|..] == "";
    var meaning := PieceMeaning(t, Reference(name, Plain, ""), m);
    if meaning.Means? {
      assert meaning.text + "" == meaning.text;
    }
  }

  /** A plain reference to a name that is no entry shows what is inherited exactly when it ends there:
      otherwise nothing is there and it means nothing. */
  lemma ReferenceAgreesIff(t: Setting, name: string, m: Solution)
    requires IsName(name) && name !in t.raw && forall n | n in t.env.inherited :: t.env.inherited[n] != ""
    ensures TextMeaning(t, "$" + name, m) == TextMeaning(OwnOnly(t), "$" + name, m) <==> !Inherits(t, name)
  {
    ReferenceMeans(t, name, m);
    ReferenceMeans(OwnOnly(t), name, m);
  }

  /** Concretely: with no variable set, `$constructor` is not empty but what the inherited function
      prints as. */
  lemma ConstructorShows(text: string, m: Solution)
    requires text != ""
    ensures var t := Setting(map[], Env(map[], map["constructor" := text]), false);
      TextMeaning(t, "$constructor", m) == Means(text) && TextMeaning(OwnOnly(t), "$constructor", m) == Means("")
  {
    var t := Setting(map[], Env(map[], map["constructor" := text]), false);
    assert "$" + "constructor" == "$constructor" && IsName("constructor");
    ReferenceMeans(t, "constructor", m);
    ReferenceMeans(OwnOnly(t), "constructor", m);
  }

  // ---- order of entries ----

  ghost predicate DistinctKeys(entries: seq<Expandable>) {
    forall i, j | 0 <= i < j < |entries| :: entries[i].key != entries[j].key
  }

  lemma {:induction false} RawIs(entries: seq<Expandable>, i: nat)
    requires DistinctKeys(entries) && i < |entries|
    ensures entries[i].key in RawOf(entries) && RawOf(entries)[entries[i].key] == entries[i]
  {
    if i < |entries| - 1 {
      RawIs(entries[..|entries| - 1], i);
    }
  }

  /** Entries with distinct keys expand alike in any order, since they make the same setting. */
  lemma OrderDoesNotMatter(a: seq<Expandable>, b: seq<Expandable>)
    requires DistinctKeys(a) && DistinctKeys(b) && multiset(a) == multiset(b)
    ensures RawOf(a) == RawOf(b)
  {
    RawAgrees(a, b);
    RawAgrees(b, a);
  }

  lemma RawAgrees(a: seq<Expandable>, b: seq<Expandable>)
    requires DistinctKeys(a) && DistinctKeys(b) && multiset(a) == multiset(b)
    ensures forall k | k in RawOf(a) :: k in RawOf(b) && RawOf(b)[k] == RawOf(a)[k]
  {
    RawHasKeys(a);
    forall k | k in RawOf(a) ensures k in RawOf(b) && RawOf(b)[k] == RawOf(a)[k] {
      var i :| 0 <= i < |a| && a[i].key == k;
      RawIs(a, i);
      assert a[i] in multiset(b);
      var j :| 0 <= j < |b| && b[j] == a[i];
      RawIs(b, j);
    }
  }
}
