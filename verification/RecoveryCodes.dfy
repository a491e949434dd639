/** Recovery codes under concurrency: the store's consumption is a select and a conditional update,
    two separate steps, and the service retries a lost race at most twice. */
module RecoveryCodes {
  import opened Prelude
  import opened TotpStore

  /** Whether a presented code matches a stored entry. */
  type Hit = (string, string) -> bool

  const ATTEMPTS := 3

  datatype Why = Won(entry: string) | NoMatch | Gone(entry: string) | Exhausted(entry: string)

  datatype Phase =
    | Choosing(known: seq<string>)                        // a list is at hand, the entry is looked for
    | Asking(entry: string)                               // the store is about to select the row
    | Holding(entry: string, selected: seq<string>)       // selected, about to update
    | Refused(entry: string)                              // the store answered false
    | Answered(why: Why)

  /** A call of the service; `since` and `mark` are the numbers of consumptions at its start and at
      its last select. */
  datatype Call = Call(code: string, attempt: nat, phase: Phase, since: nat, mark: nat)

  datatype State = State(entries: seq<string>, consumed: seq<string>, calls: map<nat, Call>)

  datatype Step = Begin(id: nat, code: string) | Advance(id: nat)

  predicate Enabled(s: State, step: Step) {
    match step
    case Begin(id, _) => id !in s.calls
    case Advance(id) => id in s.calls && !s.calls[id].phase.Answered?
  }

  /** The first entry the code matches. */
  function Find(known: seq<string>, code: string, hit: Hit): Option<string> {
    if known == [] then None
    else if hit(code, known[0]) then Some(known[0])
    else Find(known[1..], code, hit)
  }

  lemma {:induction false} FindIs(known: seq<string>, code: string, hit: Hit)
    ensures Find(known, code, hit).Some? ==>
              Find(known, code, hit).value in known && hit(code, Find(known, code, hit).value)
    ensures Find(known, code, hit).None? ==> forall e | e in known :: !hit(code, e)
  {
    if known != [] {
      FindIs(known[1..], code, hit);
      assert known == [known[0]] + known[1..];
    }
  }

  /** The next state of a call that does not write. */
  function Moved(s: State, c: Call, hit: Hit): Call {
    match c.phase
    case Choosing(known) =>
      var found := Find(known, c.code, hit);
      c.(phase := if found.Some? then Asking(found.value) else Answered(NoMatch))
    case Asking(entry) =>
      if entry in s.entries then c.(phase := Holding(entry, s.entries), mark := |s.consumed|)
      else c.(phase := Refused(entry))
    case Holding(entry, selected) =>
      c.(phase := if s.entries == selected then Answered(Won(entry)) else Refused(entry))
    case Refused(entry) =>
      if entry !in s.entries then c.(phase := Answered(Gone(entry)))
      else if c.attempt + 1 == ATTEMPTS then c.(phase := Answered(Exhausted(entry)))
      else c.(phase := Choosing(s.entries), attempt := c.attempt + 1)
    case Answered(_) => c
  }

  /** The conditional update takes effect on the list as it was selected. */
  predicate Writes(s: State, c: Call) {
    c.phase.Holding? && s.entries == c.phase.selected
  }

  function Apply(s: State, step: Step, hit: Hit): State
    requires Enabled(s, step)
  {
    match step
    case Begin(id, code) => s.(calls := s.calls[id := Call(code, 0, Choosing(s.entries), |s.consumed|, 0)])
    case Advance(id) =>
      var c := s.calls[id];
      var next := s.(calls := s.calls[id := Moved(s, c, hit)]);
      if Writes(s, c)
      then next.(entries := Without(s.entries, c.phase.entry), consumed := s.consumed + [c.phase.entry])
      else next
  }

  ghost predicate IsRun(initial: seq<string>, states: seq<State>, steps: seq<Step>, hit: Hit) {
    && |states| == |steps| + 1
    && states[0] == State(initial, [], map[])
    && forall i | 0 <= i < |steps| :: Enabled(states[i], steps[i]) && states[i + 1] == Apply(states[i], steps[i], hit)
  }

  // ---- the invariant ----

  /** Spent and remaining entries together are the initial ones, without overlap or repetition. */
  ghost predicate Conserved(s: State, initial: seq<string>) {
    && (forall e :: e in initial <==> e in s.entries || e in s.consumed)
    && (forall e :: !(e in s.entries && e in s.consumed))
    && (forall i, j | 0 <= i < j < |s.consumed| :: s.consumed[i] != s.consumed[j])
  }

  ghost predicate Shrinks(known: seq<string>, entries: seq<string>) {
    forall e | e in entries :: e in known
  }

  /** What a call's phase says about the list, and how many consumptions it has seen. */
  ghost predicate CallOk(s: State, c: Call, hit: Hit) {
    && c.attempt < ATTEMPTS
    && c.since + c.attempt <= |s.consumed|
    && match c.phase
       case Choosing(known) => Shrinks(known, s.entries)
       case Asking(entry) => true
       case Holding(entry, selected) =>
         && entry in selected && Shrinks(selected, s.entries)
         && c.since + c.attempt <= c.mark <= |s.consumed|
         && (c.mark == |s.consumed| ==> s.entries == selected)
       case Refused(entry) => entry !in s.entries || c.since + c.attempt + 1 <= |s.consumed|
       case Answered(why) => AnswerOk(s, c, why, hit)
  }

  ghost predicate AnswerOk(s: State, c: Call, why: Why, hit: Hit) {
    match why
    case Won(entry) => entry in s.consumed
    case NoMatch => forall e | e in s.entries :: !hit(c.code, e)
    case Gone(entry) => entry !in s.entries
    case Exhausted(entry) => c.since + ATTEMPTS <= |s.consumed|
  }

  /** The entry a call has chosen is one of the initial ones, and its code matches it. */
  ghost predicate Chosen(c: Call, initial: seq<string>, hit: Hit) {
    match c.phase
    case Choosing(known) => Shrinks(initial, known)
    case Asking(entry) => entry in initial && hit(c.code, entry)
    case Holding(entry, _) => entry in initial && hit(c.code, entry)
    case Refused(entry) => entry in initial && hit(c.code, entry)
    case Answered(why) => why.NoMatch? || (why.entry in initial && hit(c.code, why.entry))
  }

  ghost predicate Inv(s: State, initial: seq<string>, hit: Hit) {
    Conserved(s, initial) && forall id | id in s.calls :: CallOk(s, s.calls[id], hit) && Chosen(s.calls[id], initial, hit)
  }

  // ---- every step keeps it ----

  /** A call that does not move stays in order while others write. */
  lemma OthersStay(s: State, t: State, c: Call, hit: Hit)
    requires CallOk(s, c, hit) && |s.consumed| <= |t.consumed| && Shrinks(s.entries, t.entries)
    requires |t.consumed| == |s.consumed| ==> t.entries == s.entries
    requires forall e | e in s.consumed :: e in t.consumed
    ensures CallOk(t, c, hit)
  {
  }

  lemma MovedStays(s: State, id: nat, hit: Hit)
    requires id in s.calls && !s.calls[id].phase.Answered? && CallOk(s, s.calls[id], hit)
    ensures var t := Apply(s, Advance(id), hit); CallOk(t, t.calls[id], hit)
  {
    var c := s.calls[id];
    if c.phase.Choosing? {
      FindIs(c.phase.known, c.code, hit);
    } else if Writes(s, c) {
      WithoutHas(s.entries, c.phase.entry);
    }
  }

  lemma WritesConserve(s: State, initial: seq<string>, entry: string)
    requires Conserved(s, initial) && entry in s.entries
    ensures Conserved(s.(entries := Without(s.entries, entry), consumed := s.consumed + [entry]), initial)
  {
    var t := s.(entries := Without(s.entries, entry), consumed := s.consumed + [entry]);
    WithoutHas(s.entries, entry);
    forall e ensures e in t.consumed <==> e in s.consumed || e == entry { }
  }

  lemma KeepsInv(s: State, initial: seq<string>, step: Step, hit: Hit)
    requires Inv(s, initial, hit) && Enabled(s, step)
    ensures Inv(Apply(s, step, hit), initial, hit)
  {
    var t := Apply(s, step, hit);
    if step.Advance? {
      var c := s.calls[step.id];
      assert CallOk(s, c, hit);
      if Writes(s, c) {
        WritesConserve(s, initial, c.phase.entry);
        WithoutHas(s.entries, c.phase.entry);
      }
      MovedStays(s, step.id, hit);
      if c.phase.Choosing? {
        FindIs(c.phase.known, c.code, hit);
      }
    }
    assert Conserved(t, initial);
    forall id | id in t.calls && id != step.id ensures CallOk(t, t.calls[id], hit) {
      OthersStay(s, t, s.calls[id], hit);
    }
  }

  lemma {:induction false} RunsKeepInv(initial: seq<string>, states: seq<State>, steps: seq<Step>, hit: Hit, i: nat)
    requires IsRun(initial, states, steps, hit) && i < |states|
    ensures Inv(states[i], initial, hit)
  {
    if i > 0 {
      RunsKeepInv(initial, states, steps, hit, i - 1);
      KeepsInv(states[i - 1], initial, steps[i - 1], hit);
    }
  }

  // ---- the guarantees ----

  /** Consumed and remaining entries make up the initial ones, and none is consumed twice. */
  lemma EntriesAreConserved(initial: seq<string>, states: seq<State>, steps: seq<Step>, hit: Hit, i: nat)
    requires IsRun(initial, states, steps, hit) && i < |states|
    ensures var s := states[i];
      && (set e | e in initial) == (set e | e in s.entries) + (set e | e in s.consumed)
      && (set e | e in s.entries) !! (set e | e in s.consumed)
      && forall j, k | 0 <= j < k < |s.consumed| :: s.consumed[j] != s.consumed[k]
  {
    RunsKeepInv(initial, states, steps, hit, i);
  }

  /** A call that was answered `false`: no remaining entry matches its code, or one that does has been
      spent, or three entries were spent while it ran. */
  lemma FalseMeans(initial: seq<string>, states: seq<State>, steps: seq<Step>, hit: Hit, i: nat, id: nat)
    requires IsRun(initial, states, steps, hit) && i < |states|
    requires id in states[i].calls && states[i].calls[id].phase.Answered? && !states[i].calls[id].phase.why.Won?
    ensures var s, c := states[i], states[i].calls[id];
      || (forall e | e in s.entries :: !hit(c.code, e))
      || (exists e :: e in s.consumed && hit(c.code, e))
      || |s.consumed| - c.since >= 3
  {
    RunsKeepInv(initial, states, steps, hit, i);
    var s, c := states[i], states[i].calls[id];
    assert CallOk(s, c, hit) && Chosen(c, initial, hit);
    if c.phase.why.Gone? {
      assert c.phase.why.entry in s.consumed;
    }
  }

  // ---- an unspent entry can still be refused ----

  /** The state a sequence of enabled steps leads to. */
  function After(initial: seq<string>, steps: seq<Step>, hit: Hit): Option<State> {
    if steps == [] then Some(State(initial, [], map[]))
    else
      var before := After(initial, steps[..|steps| - 1], hit);
      var step := steps[|steps| - 1];
      if before.Some? && Enabled(before.value, step) then Some(Apply(before.value, step, hit)) else None
  }

  ghost predicate Reachable(initial: seq<string>, s: State, hit: Hit) {
    exists steps :: After(initial, steps, hit) == Some(s)
  }

  lemma {:induction false} ReachedByARun(initial: seq<string>, steps: seq<Step>, hit: Hit) returns (states: seq<State>)
    requires After(initial, steps, hit).Some?
    ensures IsRun(initial, states, steps, hit) && After(initial, steps, hit) == Some(states[|steps|])
  {
    var n := |steps| - 1;
    if n < 0 {
      states := [State(initial, [], map[])];
    } else {
      var before := ReachedByARun(initial, steps[..n], hit);
      states := before + [Apply(before[n], steps[n], hit)];
      forall i | 0 <= i < |steps| ensures Enabled(states[i], steps[i]) && states[i + 1] == Apply(states[i], steps[i], hit) {
        if i < n {
          assert states[i] == before[i] && states[i + 1] == before[i + 1] && steps[..n][i] == steps[i];
        }
      }
    }
  }

  lemma OneMore(initial: seq<string>, s: State, step: Step, hit: Hit)
    requires Reachable(initial, s, hit) && Enabled(s, step)
    ensures Reachable(initial, Apply(s, step, hit), hit)
  {
    var steps :| After(initial, steps, hit) == Some(s);
    assert (steps + [step])[..|steps|] == steps;
    assert After(initial, steps + [step], hit) == Some(Apply(s, step, hit));
  }

  /** Another call that runs alone consumes its entry. */
  lemma RunsAlone(initial: seq<string>, s: State, id: nat, code: string, entry: string, hit: Hit) returns (t: State)
    requires Reachable(initial, s, hit) && id !in s.calls && Find(s.entries, code, hit) == Some(entry)
    ensures Reachable(initial, t, hit) && t.entries == Without(s.entries, entry)
    ensures t.calls.Keys == s.calls.Keys + {id} && forall k | k in s.calls :: t.calls[k] == s.calls[k]
  {
    t := s;
    OneMore(initial, t, Begin(id, code), hit);
    t := Apply(t, Begin(id, code), hit);
    OneMore(initial, t, Advance(id), hit);
    t := Apply(t, Advance(id), hit);
    assert t.calls[id].phase == Asking(entry);
    FindIs(s.entries, code, hit);
    OneMore(initial, t, Advance(id), hit);
    t := Apply(t, Advance(id), hit);
    assert t.calls[id].phase == Holding(entry, s.entries);
    OneMore(initial, t, Advance(id), hit);
    t := Apply(t, Advance(id), hit);
  }

  /** A call chooses and selects, another consumes a different entry, and the update is refused. */
  lemma LosesARace(
      initial: seq<string>, s: State, id: nat, entry: string, other: nat, code: string, taken: string, hit: Hit)
    returns (t: State)
    requires Reachable(initial, s, hit) && id in s.calls && other !in s.calls && entry != taken
    requires s.calls[id].phase == Choosing(s.entries) && s.calls[id].attempt < ATTEMPTS
    requires Find(s.entries, s.calls[id].code, hit) == Some(entry) && Find(s.entries, code, hit) == Some(taken)
    ensures Reachable(initial, t, hit) && t.entries == Without(s.entries, taken)
    ensures t.calls.Keys == s.calls.Keys + {other}
    ensures var c, was := t.calls[id], s.calls[id];
      && c.code == was.code
      && (if was.attempt + 1 == ATTEMPTS then c.phase == Answered(Exhausted(entry))
          else c.phase == Choosing(t.entries) && c.attempt == was.attempt + 1)
  {
    t := s;
    FindIs(s.entries, s.calls[id].code, hit);
    OneMore(initial, t, Advance(id), hit);
    t := Apply(t, Advance(id), hit);
    OneMore(initial, t, Advance(id), hit);
    t := Apply(t, Advance(id), hit);
    assert t.calls[id].phase == Holding(entry, s.entries) && t.entries == s.entries;
    t := RunsAlone(initial, t, other, code, taken, hit);
    FindIs(s.entries, code, hit);
    WithoutHas(s.entries, taken);
    assert taken in s.entries && taken !in t.entries;
    OneMore(initial, t, Advance(id), hit);
    t := Apply(t, Advance(id), hit);
    assert t.calls[id].phase == Refused(entry);
    OneMore(initial, t, Advance(id), hit);
    t := Apply(t, Advance(id), hit);
  }

  lemma FirstCall(initial: seq<string>, code: string, hit: Hit) returns (t: State)
    ensures Reachable(initial, t, hit) && t.entries == initial && t.calls.Keys == {0}
    ensures t.calls[0].code == code && t.calls[0].attempt == 0 && t.calls[0].phase == Choosing(initial)
  {
    t := State(initial, [], map[]);
    assert After(initial, [], hit) == Some(t);
    OneMore(initial, t, Begin(0, code), hit);
    t := Apply(t, Begin(0, code), hit);
  }

  // ---- exactly when ----

  /** Every entry of the list has a code of its own. */
  ghost predicate Keyed(initial: seq<string>, codeOf: string -> string, hit: Hit) {
    && (forall e, code | e in initial :: hit(code, e) <==> code == codeOf(e))
    && (forall e, other | e in initial && other in initial && codeOf(e) == codeOf(other) :: e == other)
  }

  function Others(initial: seq<string>, d: string): set<string> {
    set e | e in initial && e != d
  }

  lemma FindsOwn(known: seq<string>, initial: seq<string>, e: string, codeOf: string -> string, hit: Hit)
    requires Keyed(initial, codeOf, hit) && Shrinks(initial, known) && e in known
    ensures Find(known, codeOf(e), hit) == Some(e)
  {
    FindIs(known, codeOf(e), hit);
  }

  /** Three other calls, each consuming an entry of its own, make the call for `d` fail although its
      entry was never spent. */
  lemma ThreeRaces(
      initial: seq<string>, a: string, b: string, c: string, d: string, codeOf: string -> string, hit: Hit)
    returns (t: State)
    requires Keyed(initial, codeOf, hit) && a in initial && b in initial && c in initial && d in initial
    requires a != b && a != c && b != c && a != d && b != d && c != d
    ensures Reachable(initial, t, hit) && d in t.entries
    ensures 0 in t.calls && t.calls[0].code == codeOf(d) && t.calls[0].phase == Answered(Exhausted(d))
  {
    var l1 := Without(initial, a);
    var l2 := Without(l1, b);
    WithoutHas(initial, a);
    WithoutHas(l1, b);
    WithoutHas(l2, c);
    FindsOwn(initial, initial, d, codeOf, hit);
    FindsOwn(initial, initial, a, codeOf, hit);
    FindsOwn(l1, initial, d, codeOf, hit);
    FindsOwn(l1, initial, b, codeOf, hit);
    FindsOwn(l2, initial, d, codeOf, hit);
    FindsOwn(l2, initial, c, codeOf, hit);
    t := RacesOf(initial, l1, l2, a, b, c, d, codeOf, hit);
  }

  lemma RacesOf(
      l0: seq<string>, l1: seq<string>, l2: seq<string>, a: string, b: string, c: string, d: string,
      codeOf: string -> string, hit: Hit)
    returns (t: State)
    requires a != d && b != d && c != d
    requires Find(l0, codeOf(d), hit) == Some(d) && Find(l0, codeOf(a), hit) == Some(a)
    requires l1 == Without(l0, a) && Find(l1, codeOf(d), hit) == Some(d) && Find(l1, codeOf(b), hit) == Some(b)
    requires l2 == Without(l1, b) && Find(l2, codeOf(d), hit) == Some(d) && Find(l2, codeOf(c), hit) == Some(c)
    ensures Reachable(l0, t, hit) && t.entries == Without(l2, c)
    ensures 0 in t.calls && t.calls[0].code == codeOf(d) && t.calls[0].phase == Answered(Exhausted(d))
  {
    t := FirstCall(l0, codeOf(d), hit);
    t := LosesARace(l0, t, 0, d, 1, codeOf(a), a, hit);
    t := LosesARace(l0, t, 0, d, 2, codeOf(b), b, hit);
    t := LosesARace(l0, t, 0, d, 3, codeOf(c), c, hit);
  }

  /** A call for `d` was answered `false` while `d` is unspent. */
  ghost predicate RefusedUnspent(s: State, d: string, code: string) {
    d in s.entries && exists id ::
      id in s.calls && s.calls[id].code == code && s.calls[id].phase.Answered? && !s.calls[id].phase.why.Won?
  }

  /** Some interleaving refuses the unspent entry. */
  ghost predicate Refusable(initial: seq<string>, d: string, code: string, hit: Hit) {
    exists states, steps :: IsRun(initial, states, steps, hit) && RefusedUnspent(states[|steps|], d, code)
  }

  lemma {:induction false} DistinctSize(s: seq<string>)
    requires forall i, j | 0 <= i < j < |s| :: s[i] != s[j]
    ensures |set e | e in s| == |s|
  {
    if s != [] {
      var n := |s| - 1;
      DistinctSize(s[..n]);
      assert (set e | e in s) == (set e | e in s[..n]) + {s[n]} by {
        forall e ensures e in s <==> e in s[..n] || e == s[n] { }
      }
    }
  }

  lemma AtLeastThree(initial: seq<string>, s: State, d: string)
    requires Conserved(s, initial) && d in s.entries && |s.consumed| >= 3
    ensures |Others(initial, d)| >= 3
  {
    DistinctSize(s.consumed);
    var spent := set e | e in s.consumed;
    assert spent <= Others(initial, d);
    SubsetSize(spent, Others(initial, d));
  }

  lemma SubsetSize(a: set<string>, b: set<string>)
    requires a <= b
    ensures |a| <= |b|
  {
    assert b == a + (b - a);
  }

  lemma RefusalNeedsThree(
      initial: seq<string>, states: seq<State>, steps: seq<Step>, d: string, codeOf: string -> string, hit: Hit)
    requires Keyed(initial, codeOf, hit) && d in initial && IsRun(initial, states, steps, hit)
    requires RefusedUnspent(states[|steps|], d, codeOf(d))
    ensures |Others(initial, d)| >= 3
  {
    var s := states[|steps|];
    RunsKeepInv(initial, states, steps, hit, |steps|);
    var id :| id in s.calls && s.calls[id].code == codeOf(d) && s.calls[id].phase.Answered? && !s.calls[id].phase.why.Won?;
    assert CallOk(s, s.calls[id], hit) && Chosen(s.calls[id], initial, hit);
    assert hit(codeOf(d), d);
    assert s.calls[id].phase.why.Exhausted?;
    AtLeastThree(initial, s, d);
  }

  /** The documented reasons for a refusal, no match or a spent entry, are all of them exactly for
      lists with fewer than three other entries: with three or more, an unspent entry can be refused. */
  lemma RefusableIffThreeOthers(initial: seq<string>, d: string, codeOf: string -> string, hit: Hit)
    requires Keyed(initial, codeOf, hit) && d in initial
    ensures Refusable(initial, d, codeOf(d), hit) <==> |Others(initial, d)| >= 3
  {
    if Refusable(initial, d, codeOf(d), hit) {
      var states, steps :| IsRun(initial, states, steps, hit) && RefusedUnspent(states[|steps|], d, codeOf(d));
      RefusalNeedsThree(initial, states, steps, d, codeOf, hit);
    }
    if |Others(initial, d)| >= 3 {
      var a, b, c := ThreeOf(Others(initial, d));
      var t := ThreeRaces(initial, a, b, c, d, codeOf, hit);
      var steps :| After(initial, steps, hit) == Some(t);
      var states := ReachedByARun(initial, steps, hit);
      assert RefusedUnspent(states[|steps|], d, codeOf(d));
    }
  }

  lemma ThreeOf(s: set<string>) returns (a: string, b: string, c: string)
    requires |s| >= 3
    ensures a in s && b in s && c in s && a != b && a != c && b != c
  {
    a :| a in s;
    assert |s - {a}| >= 2;
    b :| b in s - {a};
    assert |s - {a} - {b}| >= 1;
    c :| c in s - {a} - {b};
  }

  /** Concretely: with the codes a, b, c and d, a run refuses d though d was never spent. */
  lemma RefusedThoughUnspent(hit: Hit) returns (states: seq<State>, steps: seq<Step>)
    requires forall code, entry :: hit(code, entry) <==> code == entry
    ensures IsRun(["a", "b", "c", "d"], states, steps, hit) && RefusedUnspent(states[|steps|], "d", "d")
  {
    var initial := ["a", "b", "c", "d"];
    var t := ThreeRaces(initial, "a", "b", "c", "d", (e: string) => e, hit);
    steps :| After(initial, steps, hit) == Some(t);
    states := ReachedByARun(initial, steps, hit);
  }
}
