/** Command idempotency: the composite key, the in-memory store, the claim/complete/release
    protocol over it, and the expiring PostgreSQL store as a refinement. */
module IdempotencyKeys {
  import opened Prelude

  /** (tag, actor column, key); an anonymous dispatch has the empty actor. */
  datatype Scope = Scope(tag: string, actor: string, key: string)

  const NUL := '\U{0000}'

  function ActorColumn(actor: Option<string>): string {
    if actor.Some? then actor.value else ""
  }

  function CompositeKey(s: Scope): string {
    s.tag + [NUL] + s.actor + [NUL] + s.key
  }

  predicate Clean(s: Scope) {
    NUL !in s.tag && NUL !in s.actor && NUL !in s.key
  }

  lemma SplitAtFirst(a: string, x: string, b: string, y: string)
    requires NUL !in a && NUL !in b && a + [NUL] + x == b + [NUL] + y
    ensures a == b && x == y
  {
    var w := a + [NUL] + x;
    assert w[|a|] == NUL && w[|b|] == NUL;
    assert forall i | 0 <= i < |a| :: w[i] == a[i] && a[i] in a;
    assert forall i | 0 <= i < |b| :: w[i] == b[i] && b[i] in b;
    assert a == w[..|a|] == b && x == w[|a| + 1..] == y;
  }

  /** Without NUL in tag and actor the key separates every scope from every other. */
  lemma NoCollision(s: Scope, t: Scope)
    requires NUL !in s.tag && NUL !in s.actor && NUL !in t.tag && NUL !in t.actor
    requires CompositeKey(s) == CompositeKey(t)
    ensures s == t
  {
    assert CompositeKey(s) == s.tag + [NUL] + (s.actor + [NUL] + s.key);
    assert CompositeKey(t) == t.tag + [NUL] + (t.actor + [NUL] + t.key);
    SplitAtFirst(s.tag, s.actor + [NUL] + s.key, t.tag, t.actor + [NUL] + t.key);
    SplitAtFirst(s.actor, s.key, t.actor, t.key);
  }

  /** A NUL anywhere in a scope gives it a twin with the same key. */
  lemma NulCollides(s: Scope) returns (t: Scope)
    requires !Clean(s)
    ensures t != s && CompositeKey(t) == CompositeKey(s)
  {
    if NUL in s.tag {
      var i :| 0 <= i < |s.tag| && s.tag[i] == NUL;
      t := Scope(s.tag[..i], s.tag[i + 1..], s.actor + [NUL] + s.key);
      assert s.tag == s.tag[..i] + [NUL] + s.tag[i + 1..];
    } else if NUL in s.actor {
      var i :| 0 <= i < |s.actor| && s.actor[i] == NUL;
      t := Scope(s.tag, s.actor[..i], s.actor[i + 1..] + [NUL] + s.key);
      assert s.actor == s.actor[..i] + [NUL] + s.actor[i + 1..];
    } else {
      var i :| 0 <= i < |s.key| && s.key[i] == NUL;
      t := Scope(s.tag, s.actor + [NUL] + s.key[..i], s.key[i + 1..]);
      assert s.key == s.key[..i] + [NUL] + s.key[i + 1..];
    }
    assert CompositeKey(t) == CompositeKey(s);
  }

  lemma {:induction false} CountNuls(a: string, b: string)
    ensures Nuls(a + b) == Nuls(a) + Nuls(b)
  {
    if a == "" {
      assert a + b == b;
    } else {
      assert (a + b)[1..] == a[1..] + b;
      CountNuls(a[1..], b);
    }
  }

  function Nuls(s: string): nat {
    if s == "" then 0 else (if s[0] == NUL then 1 else 0) + Nuls(s[1..])
  }

  lemma {:induction false} NoNuls(s: string)
    ensures Nuls(s) == 0 <==> NUL !in s
  {
    if s != "" {
      NoNuls(s[1..]);
    }
  }

  lemma NulsOfKey(s: Scope)
    ensures Nuls(CompositeKey(s)) == Nuls(s.tag) + Nuls(s.actor) + Nuls(s.key) + 2
  {
    CountNuls(s.tag, [NUL]);
    CountNuls(s.tag + [NUL], s.actor);
    CountNuls(s.tag + [NUL] + s.actor, [NUL]);
    CountNuls(s.tag + [NUL] + s.actor + [NUL], s.key);
    assert Nuls([NUL]) == 1;
  }

  /** The documented separation holds of a scope exactly when it contains no NUL: only then does
      no other scope share its key. */
  lemma SeparatedIffClean(s: Scope)
    ensures Clean(s) <==> forall t | CompositeKey(t) == CompositeKey(s) :: t == s
  {
    if Clean(s) {
      forall t | CompositeKey(t) == CompositeKey(s)
        ensures t == s
      {
        NulsOfKey(s);
        NulsOfKey(t);
        NoNuls(s.tag); NoNuls(s.actor); NoNuls(s.key);
        NoNuls(t.tag); NoNuls(t.actor);
        NoCollision(s, t);
      }
    } else {
      var t := NulCollides(s);
    }
  }

  /** Dispatches with the same tag and key share a record exactly when their actors are the same, or
      one is anonymous and the other has the empty name. */
  lemma AnonymousIsEmptyActor(tag: string, key: string, a: Option<string>, b: Option<string>)
    ensures CompositeKey(Scope(tag, ActorColumn(a), key)) == CompositeKey(Scope(tag, ActorColumn(b), key))
       <==> a == b || (a.None? && b == Some("")) || (a == Some("") && b.None?)
  {
    var x, y := CompositeKey(Scope(tag, ActorColumn(a), key)), CompositeKey(Scope(tag, ActorColumn(b), key));
    if x == y {
      assert |ActorColumn(a)| == |ActorColumn(b)|;
      var n, m := |tag| + 1, |ActorColumn(a)|;
      assert x[n..n + m] == ActorColumn(a) && y[n..n + m] == ActorColumn(b);
    }
  }
}

module IdempotencyStore {
  datatype Record = Claimed(hash: string) | Completed(hash: string, result: string)

  type Records = map<string, Record>

  datatype Outcome = IsClaimed | IsInFlight | IsMismatch | IsCompleted(result: string)

  function BeginOutcome(records: Records, id: string, hash: string): Outcome {
    if id !in records then IsClaimed
    else if records[id].hash != hash then IsMismatch
    else if records[id].Claimed? then IsInFlight
    else IsCompleted(records[id].result)
  }

  function AfterBegin(records: Records, id: string, hash: string): Records {
    if id in records then records else records[id := Claimed(hash)]
  }

  function AfterComplete(records: Records, id: string, hash: string, result: string): Records {
    records[id := Completed(hash, result)]
  }

  function AfterRelease(records: Records, id: string): Records {
    if id in records && records[id].Claimed? then records - {id} else records
  }

  /** The process-local store. */
  class InMemory {
    var records: Records

    constructor ()
      ensures records == map[]
    {
      records := map[];
    }

    method Begin(id: string, hash: string) returns (outcome: Outcome)
      modifies this
      ensures outcome == BeginOutcome(old(records), id, hash)
      ensures records == AfterBegin(old(records), id, hash)
      ensures outcome.IsClaimed? <==> id !in old(records)
      ensures !outcome.IsClaimed? ==> records == old(records)
    {
      if id !in records {
        records := records[id := Claimed(hash)];
        return IsClaimed;
      }
      if records[id].hash != hash {
        return IsMismatch;
      }
      return if records[id].Claimed? then IsInFlight else IsCompleted(records[id].result);
    }

    method Complete(id: string, hash: string, result: string)
      modifies this
      ensures records == AfterComplete(old(records), id, hash, result)
      ensures BeginOutcome(records, id, hash) == IsCompleted(result)
    {
      records := records[id := Completed(hash, result)];
    }

    /** Never discards a completed record. */
    method Release(id: string)
      modifies this
      ensures records == AfterRelease(old(records), id)
      ensures forall other | other in old(records) && old(records)[other].Completed? ::
                other in records && records[other] == old(records)[other]
    {
      if id in records && records[id].Claimed? {
        records := records - {id};
      }
    }
  }
}

/** Dispatches interleaved store operation by store operation. */
module IdempotencyProtocol {
  import opened IdempotencyStore

  datatype Run =
    | Dispatching(id: string, hash: string)
    | Running(id: string, hash: string)
    | Recording(id: string, hash: string, result: string)
    | Releasing(id: string, hash: string)
    | Stranded(id: string, hash: string)
    | Answered(result: string)
    | Failed
    | Refused

  datatype Success = Success(id: string, hash: string, result: string)

  /** `successes` lists every success ever recorded. */
  datatype State = State(records: Records, runs: map<nat, Run>, successes: seq<Success>)

  datatype Step =
    | Dispatch(f: nat, id: string, hash: string)
    | Begin(f: nat)
    | HandlerSucceeds(f: nat, result: string)
    | HandlerFails(f: nat)
    | Complete(f: nat)
    | Release(f: nat)
    | Crash(f: nat)
    | GiveUp(f: nat)

  predicate Enabled(s: State, step: Step) {
    match step
    case Dispatch(f, _, _) => f !in s.runs
    case Begin(f) => f in s.runs && s.runs[f].Dispatching?
    case HandlerSucceeds(f, _) => f in s.runs && s.runs[f].Running?
    case HandlerFails(f) => f in s.runs && s.runs[f].Running?
    case Complete(f) => f in s.runs && s.runs[f].Recording?
    case Release(f) => f in s.runs && s.runs[f].Releasing?
    case Crash(f) => f in s.runs && (s.runs[f].Running? || s.runs[f].Recording? || s.runs[f].Releasing?)
    // Only the PostgreSQL store: the live record vanished between the upsert and the read.
    case GiveUp(f) => f in s.runs && s.runs[f].Dispatching?
  }

  function AfterOutcome(run: Run, outcome: Outcome): Run
    requires run.Dispatching?
  {
    match outcome
    case IsClaimed => Running(run.id, run.hash)
    case IsInFlight => Refused
    case IsMismatch => Refused
    case IsCompleted(result) => Answered(result)
  }

  function Apply(s: State, step: Step): State
    requires Enabled(s, step)
  {
    match step
    case Dispatch(f, id, hash) => s.(runs := s.runs[f := Dispatching(id, hash)])
    case Begin(f) =>
      var run := s.runs[f];
      s.(records := AfterBegin(s.records, run.id, run.hash),
         runs := s.runs[f := AfterOutcome(run, BeginOutcome(s.records, run.id, run.hash))])
    case HandlerSucceeds(f, result) => s.(runs := s.runs[f := Recording(s.runs[f].id, s.runs[f].hash, result)])
    case HandlerFails(f) => s.(runs := s.runs[f := Releasing(s.runs[f].id, s.runs[f].hash)])
    case Complete(f) =>
      var run := s.runs[f];
      s.(records := AfterComplete(s.records, run.id, run.hash, run.result),
         successes := s.successes + [Success(run.id, run.hash, run.result)],
         runs := s.runs[f := Answered(run.result)])
    case Release(f) => s.(records := AfterRelease(s.records, s.runs[f].id), runs := s.runs[f := Failed])
    case Crash(f) => s.(runs := s.runs[f := Stranded(s.runs[f].id, s.runs[f].hash)])
    case GiveUp(f) => s.(runs := s.runs[f := Refused])
  }

  const INITIAL := State(map[], map[], [])

  ghost predicate IsRun(states: seq<State>, steps: seq<Step>) {
    && |states| == |steps| + 1
    && states[0] == INITIAL
    && forall i | 0 <= i < |steps| :: Enabled(states[i], steps[i]) && states[i + 1] == Apply(states[i], steps[i])
  }

  /** Between its claim and its settlement, or dead in between. */
  predicate Holding(run: Run) {
    run.Running? || run.Recording? || run.Releasing? || run.Stranded?
  }

  ghost predicate ClaimsHeld(s: State) {
    && (forall f | f in s.runs && Holding(s.runs[f]) ::
          s.runs[f].id in s.records && s.records[s.runs[f].id] == Claimed(s.runs[f].hash))
    && (forall f, g | f in s.runs && g in s.runs && f != g && Holding(s.runs[f]) && Holding(s.runs[g]) ::
          s.runs[f].id != s.runs[g].id)
  }

  ghost predicate SuccessesRecorded(s: State) {
    && (forall i | 0 <= i < |s.successes| ::
          var success := s.successes[i];
          success.id in s.records && s.records[success.id] == Completed(success.hash, success.result))
    && (forall i, j | 0 <= i < j < |s.successes| :: s.successes[i].id != s.successes[j].id)
  }

  ghost predicate Inv(s: State) {
    ClaimsHeld(s) && SuccessesRecorded(s)
  }

  lemma KeepsInv(s: State, step: Step)
    requires Inv(s) && Enabled(s, step)
    ensures Inv(Apply(s, step))
  {
  }

  lemma {:induction false} RunsKeepInv(states: seq<State>, steps: seq<Step>, i: nat)
    requires IsRun(states, steps) && i < |states|
    ensures Inv(states[i])
  {
    if i > 0 {
      RunsKeepInv(states, steps, i - 1);
      KeepsInv(states[i - 1], steps[i - 1]);
    }
  }

  // ---- one key alone ----

  /** In flight: claimed and not yet settled. */
  predicate Active(run: Run) {
    run.Running? || run.Recording? || run.Releasing?
  }

  predicate ActiveOn(s: State, f: nat, id: string) {
    f in s.runs && Active(s.runs[f]) && s.runs[f].id == id
  }

  predicate SucceededAt(s: State, i: nat, id: string) {
    i < |s.successes| && s.successes[i].id == id
  }

  /** The guarantee for one key: at most one run in flight, and it holds the claim; at most one
      success, and it is what is recorded. */
  ghost predicate KeyOk(s: State, id: string) {
    && (forall f | ActiveOn(s, f, id) :: id in s.records && s.records[id] == Claimed(s.runs[f].hash))
    && (forall f, g | ActiveOn(s, f, id) && ActiveOn(s, g, id) :: f == g)
    && (forall i: nat | SucceededAt(s, i, id) ::
          id in s.records && s.records[id] == Completed(s.successes[i].hash, s.successes[i].result))
    && (forall i: nat, j: nat | SucceededAt(s, i, id) && SucceededAt(s, j, id) :: i == j)
  }

  /** A run of the key is unsettled, or its success is recorded. */
  ghost predicate Busy(s: State, id: string) {
    (exists f :: ActiveOn(s, f, id)) || (exists i: nat :: SucceededAt(s, i, id))
  }

  /** What a caller would see go wrong: a run in flight beside another one or after a success. */
  ghost predicate Violated(s: State, id: string) {
    exists f :: ActiveOn(s, f, id)
      && ((exists g :: g != f && ActiveOn(s, g, id)) || (exists i: nat :: SucceededAt(s, i, id)))
  }

  /** Records that are gone from the store. */
  function Forgotten(s: State, ids: set<string>): State {
    s.(records := s.records - ids)
  }

  /** At most one handler run per key is in flight, over all interleavings. */
  lemma OneRunInFlight(states: seq<State>, steps: seq<Step>, i: nat, f: nat, g: nat)
    requires IsRun(states, steps) && i < |states|
    requires f in states[i].runs && g in states[i].runs
    requires states[i].runs[f].Running? && states[i].runs[g].Running? && states[i].runs[f].id == states[i].runs[g].id
    ensures f == g
  {
    RunsKeepInv(states, steps, i);
  }

  /** At most one success is ever recorded per key. */
  lemma OneSuccessPerKey(states: seq<State>, steps: seq<Step>, i: nat, a: nat, b: nat)
    requires IsRun(states, steps) && i < |states|
    requires a < |states[i].successes| && b < |states[i].successes|
    requires states[i].successes[a].id == states[i].successes[b].id
    ensures a == b
  {
    RunsKeepInv(states, steps, i);
  }

  lemma {:induction false} SuccessesStay(states: seq<State>, steps: seq<Step>, i: nat, j: nat)
    requires IsRun(states, steps) && i <= j < |states|
    ensures states[i].successes <= states[j].successes
  {
    if i < j {
      SuccessesStay(states, steps, i, j - 1);
      assert states[j - 1 + 1] == Apply(states[j - 1], steps[j - 1]);
    }
  }

  /** Once a success is recorded, a replay with the same payload hash answers it forever, and a
      different hash is refused, whatever runs in between. */
  lemma ReplaysAnswerTheSuccess(states: seq<State>, steps: seq<Step>, i: nat, j: nat, a: nat, hash: string)
    requires IsRun(states, steps) && i <= j < |states| && a < |states[i].successes|
    ensures var success := states[i].successes[a];
            BeginOutcome(states[j].records, success.id, hash)
            == if hash == success.hash then IsCompleted(success.result) else IsMismatch
  {
    SuccessesStay(states, steps, i, j);
    RunsKeepInv(states, steps, j);
    assert states[j].successes[a] == states[i].successes[a];
  }
}

/** The PostgreSQL store: claims expire, `begin` is an upsert and a read, `complete` is not fenced. */
module IdempotencyPg {
  import opened Prelude
  import opened IdempotencyStore
  import P = IdempotencyProtocol

  datatype Row = Row(hash: string, result: Option<string>, expiresAt: int)

  /** `reading` are the dispatches whose upsert found a live row and that have not read it yet. */
  datatype State = State(rows: map<string, Row>, runs: map<nat, P.Run>, reading: set<nat>, successes: seq<P.Success>)

  datatype Step =
    | Dispatch(f: nat, id: string, hash: string)
    | Claim(f: nat)
    | Read(f: nat)
    | HandlerSucceeds(f: nat, result: string)
    | HandlerFails(f: nat)
    | Complete(f: nat)
    | Release(f: nat)
    | Crash(f: nat)
    | Purge

  predicate Enabled(s: State, step: Step) {
    match step
    case Dispatch(f, _, _) => f !in s.runs && f !in s.reading
    case Claim(f) => f in s.runs && s.runs[f].Dispatching? && f !in s.reading
    case Read(f) => f in s.runs && s.runs[f].Dispatching? && f in s.reading
    case HandlerSucceeds(f, _) => f in s.runs && s.runs[f].Running?
    case HandlerFails(f) => f in s.runs && s.runs[f].Running?
    case Complete(f) => f in s.runs && s.runs[f].Recording?
    case Release(f) => f in s.runs && s.runs[f].Releasing?
    case Crash(f) => f in s.runs && (s.runs[f].Running? || s.runs[f].Recording? || s.runs[f].Releasing?)
    case Purge => true
  }

  /** INSERT ... ON CONFLICT DO UPDATE ... WHERE expires_at <= now(): did it take the row? */
  predicate Takes(rows: map<string, Row>, id: string, now: int) {
    id !in rows || rows[id].expiresAt <= now
  }

  function ReadOutcome(rows: map<string, Row>, id: string, hash: string): Outcome {
    if id !in rows then IsInFlight
    else if rows[id].hash != hash then IsMismatch
    else if rows[id].result.None? then IsInFlight
    else IsCompleted(rows[id].result.value)
  }

  function Apply(s: State, step: Step, now: int, ttl: int): State
    requires Enabled(s, step)
  {
    match step
    case Dispatch(f, id, hash) => s.(runs := s.runs[f := P.Dispatching(id, hash)])
    case Claim(f) =>
      var run := s.runs[f];
      if Takes(s.rows, run.id, now) then
        s.(rows := s.rows[run.id := Row(run.hash, None, now + ttl)], runs := s.runs[f := P.Running(run.id, run.hash)])
      else s.(reading := s.reading + {f})
    case Read(f) =>
      var run := s.runs[f];
      s.(runs := s.runs[f := P.AfterOutcome(run, ReadOutcome(s.rows, run.id, run.hash))], reading := s.reading - {f})
    case HandlerSucceeds(f, result) => s.(runs := s.runs[f := P.Recording(s.runs[f].id, s.runs[f].hash, result)])
    case HandlerFails(f) => s.(runs := s.runs[f := P.Releasing(s.runs[f].id, s.runs[f].hash)])
    case Complete(f) =>
      var run := s.runs[f];
      s.(rows := if run.id in s.rows
                 then s.rows[run.id := s.rows[run.id].(result := Some(run.result), expiresAt := now + ttl)]
                 else s.rows,
         successes := s.successes + [P.Success(run.id, run.hash, run.result)],
         runs := s.runs[f := P.Answered(run.result)])
    case Release(f) =>
      var id := s.runs[f].id;
      s.(rows := if id in s.rows && s.rows[id].result.None? then s.rows - {id} else s.rows, runs := s.runs[f := P.Failed])
    case Crash(f) => s.(runs := s.runs[f := P.Stranded(s.runs[f].id, s.runs[f].hash)])
    case Purge => s.(rows := map id | id in s.rows && s.rows[id].expiresAt > now :: s.rows[id])
  }

  function RecordOf(row: Row): Record {
    if row.result.None? then Claimed(row.hash) else Completed(row.hash, row.result.value)
  }

  /** What the protocol sees: rows without their times. */
  function Abstract(s: State): P.State {
    P.State(map id | id in s.rows :: RecordOf(s.rows[id]), s.runs, s.successes)
  }

  /** The expired rows a step takes: an upsert its own key's, a purge all of them. */
  function Taken(s: State, step: Step, now: int): set<string>
    requires Enabled(s, step)
  {
    match step
    case Claim(f) =>
      var id := s.runs[f].id;
      if id in s.rows && s.rows[id].expiresAt <= now then {id} else {}
    case Purge => set id | id in s.rows && s.rows[id].expiresAt <= now
    case _ => {}
  }

  ghost predicate KeyOk(s: State, id: string) {
    P.KeyOk(Abstract(s), id)
  }

  /** Every statement is a step of the protocol, or none, on the records that are left when the
      expired rows it takes are gone. Only a completion needs its own key's claim in place. */
  lemma Refines(s: State, step: Step, now: int, ttl: int)
    requires Enabled(s, step) && (step.Complete? ==> KeyOk(s, s.runs[step.f].id))
    ensures var left, after := P.Forgotten(Abstract(s), Taken(s, step, now)), Abstract(Apply(s, step, now, ttl));
            after == left || exists p :: P.Enabled(left, p) && after == P.Apply(left, p)
  {
    var left, after := P.Forgotten(Abstract(s), Taken(s, step, now)), Abstract(Apply(s, step, now, ttl));
    match step
    case Claim(f) => ClaimRefines(s, f, now, ttl);
    case Complete(f) => CompleteRefines(s, f, now, ttl);
    case Purge => assert after == left;
    case Dispatch(f, id, hash) => assert after == P.Apply(left, P.Dispatch(f, id, hash));
    case Read(f) =>
      assert after == P.Apply(left, if s.runs[f].id in s.rows then P.Begin(f) else P.GiveUp(f));
    case HandlerSucceeds(f, result) => assert after == P.Apply(left, P.HandlerSucceeds(f, result));
    case HandlerFails(f) => assert after == P.Apply(left, P.HandlerFails(f));
    case Release(f) => assert after == P.Apply(left, P.Release(f));
    case Crash(f) => assert after == P.Apply(left, P.Crash(f));
  }

  lemma ClaimRefines(s: State, f: nat, now: int, ttl: int)
    requires Enabled(s, Claim(f))
    ensures var left, after := P.Forgotten(Abstract(s), Taken(s, Claim(f), now)), Abstract(Apply(s, Claim(f), now, ttl));
            after == if Takes(s.rows, s.runs[f].id, now) then P.Apply(left, P.Begin(f)) else left
  {
    var left, after := P.Forgotten(Abstract(s), Taken(s, Claim(f), now)), Abstract(Apply(s, Claim(f), now, ttl));
    if Takes(s.rows, s.runs[f].id, now) {
      assert after.records == P.Apply(left, P.Begin(f)).records;
    } else {
      assert after.records == left.records;
    }
  }

  lemma CompleteRefines(s: State, f: nat, now: int, ttl: int)
    requires Enabled(s, Complete(f)) && KeyOk(s, s.runs[f].id)
    ensures var left := P.Forgotten(Abstract(s), Taken(s, Complete(f), now));
            Abstract(Apply(s, Complete(f), now, ttl)) == P.Apply(left, P.Complete(f))
  {
    var left := P.Forgotten(Abstract(s), Taken(s, Complete(f), now));
    assert P.ActiveOn(Abstract(s), f, s.runs[f].id);
    assert Abstract(Apply(s, Complete(f), now, ttl)).records == P.Apply(left, P.Complete(f)).records;
  }

  /** The one thing that breaks the guarantee for a key: its expired row is taken while a run of it
      is unsettled or its success is recorded. */
  ghost predicate Breaks(s: State, step: Step, now: int, id: string)
    requires Enabled(s, step)
  {
    id in Taken(s, step, now) && P.Busy(Abstract(s), id)
  }

  lemma StepKeepsKey(s: State, step: Step, now: int, ttl: int, id: string)
    requires Enabled(s, step) && KeyOk(s, id) && !Breaks(s, step, now, id)
    ensures KeyOk(Apply(s, step, now, ttl), id)
  {
    if step.Purge? || step.Dispatch? || s.runs[step.f].id != id {
      OtherStepKeepsKey(s, step, now, ttl, id);
    } else if step.Claim? {
      OwnClaimKeepsKey(s, step, now, ttl, id);
    } else {
      OwnStepKeepsKey(s, step, now, ttl, id);
    }
  }

  lemma OtherStepKeepsKey(s: State, step: Step, now: int, ttl: int, id: string)
    requires Enabled(s, step) && KeyOk(s, id) && !Breaks(s, step, now, id)
    requires step.Purge? || step.Dispatch? || s.runs[step.f].id != id
    ensures KeyOk(Apply(s, step, now, ttl), id)
  {
    var a, b := Abstract(s), Abstract(Apply(s, step, now, ttl));
    forall f ensures P.ActiveOn(b, f, id) ==> P.ActiveOn(a, f, id) && b.runs[f] == a.runs[f] { }
    forall i: nat ensures P.SucceededAt(b, i, id) ==> P.SucceededAt(a, i, id) && b.successes[i] == a.successes[i] { }
    assert P.Busy(a, id) && id in a.records ==> id in b.records && b.records[id] == a.records[id];
  }

  lemma OwnClaimKeepsKey(s: State, step: Step, now: int, ttl: int, id: string)
    requires Enabled(s, step) && KeyOk(s, id) && !Breaks(s, step, now, id)
    requires step.Claim? && s.runs[step.f].id == id
    ensures KeyOk(Apply(s, step, now, ttl), id)
  {
    var a, b := Abstract(s), Abstract(Apply(s, step, now, ttl));
    forall f | f != step.f ensures P.ActiveOn(b, f, id) ==> P.ActiveOn(a, f, id) && b.runs[f] == a.runs[f] { }
    forall i: nat ensures P.SucceededAt(b, i, id) ==> P.SucceededAt(a, i, id) { }
    assert id !in a.records ==> !P.Busy(a, id);
  }

  lemma OwnStepKeepsKey(s: State, step: Step, now: int, ttl: int, id: string)
    requires Enabled(s, step) && KeyOk(s, id)
    requires !step.Purge? && !step.Dispatch? && !step.Claim? && s.runs[step.f].id == id
    ensures KeyOk(Apply(s, step, now, ttl), id)
  {
    var a, b := Abstract(s), Abstract(Apply(s, step, now, ttl));
    forall f | f != step.f ensures P.ActiveOn(b, f, id) ==> P.ActiveOn(a, f, id) && b.runs[f] == a.runs[f] { }
    forall i: nat | i < |a.successes| ensures P.SucceededAt(b, i, id) ==> P.SucceededAt(a, i, id) { }
    if P.Active(s.runs[step.f]) {
      assert P.ActiveOn(a, step.f, id);
    }
  }

  lemma BrokenStep(s: State, step: Step, now: int, ttl: int, id: string)
    requires Enabled(s, step) && KeyOk(s, id) && Breaks(s, step, now, id)
    ensures !KeyOk(Apply(s, step, now, ttl), id)
  {
    var a, b := Abstract(s), Abstract(Apply(s, step, now, ttl));
    if i: nat :| P.SucceededAt(a, i, id) {
      assert P.SucceededAt(b, i, id);
    } else {
      var f :| P.ActiveOn(a, f, id);
      assert P.ActiveOn(b, f, id);
      if step.Claim? {
        assert P.ActiveOn(b, step.f, id);
      }
    }
  }

  /** Consecutive states of a run, from wherever it stands. */
  ghost predicate IsSpan(states: seq<State>, steps: seq<Step>, times: seq<int>, ttl: int) {
    && |states| == |steps| + 1 && |times| == |steps|
    && forall i | 0 <= i < |steps| ::
         Enabled(states[i], steps[i]) && states[i + 1] == Apply(states[i], steps[i], times[i], ttl)
  }

  ghost predicate NeverBreaks(states: seq<State>, steps: seq<Step>, times: seq<int>, ttl: int, id: string, n: nat)
    requires IsSpan(states, steps, times, ttl) && n <= |steps|
  {
    forall i | 0 <= i < n :: !Breaks(states[i], steps[i], times[i], id)
  }

  /** From any state in which a key's guarantee holds it holds on, whatever happens to other keys,
      exactly as long as no upsert or purge takes the key's expired row while it is busy. */
  lemma {:induction false} SameGuarantee(
      states: seq<State>, steps: seq<Step>, times: seq<int>, ttl: int, id: string, n: nat)
    requires IsSpan(states, steps, times, ttl) && n <= |steps| && KeyOk(states[0], id)
    ensures (forall i | 0 <= i <= n :: KeyOk(states[i], id)) <==> NeverBreaks(states, steps, times, ttl, id, n)
  {
    if n > 0 {
      SameGuarantee(states, steps, times, ttl, id, n - 1);
      var s, step, now := states[n - 1], steps[n - 1], times[n - 1];
      assert Enabled(s, step) && states[n] == Apply(s, step, now, ttl);
      if NeverBreaks(states, steps, times, ttl, id, n - 1) {
        assert KeyOk(s, id);
        if Breaks(s, step, now, id) {
          BrokenStep(s, step, now, ttl, id);
          assert !KeyOk(states[n], id);
        } else {
          StepKeepsKey(s, step, now, ttl, id);
        }
      } else {
        var i :| 0 <= i < n - 1 && Breaks(states[i], steps[i], times[i], id);
        assert exists k :: 0 <= k <= n - 1 && !KeyOk(states[k], id);
      }
    }
  }

  /** What the guarantee is worth: never two runs in flight, never a run after a success, never two
      successes; a replay is answered with the success and another payload refused. */
  lemma KeyOkMeans(s: State, id: string, i: nat, hash: string)
    requires KeyOk(s, id)
    ensures !P.Violated(Abstract(s), id)
    ensures P.SucceededAt(Abstract(s), i, id) ==>
              ReadOutcome(s.rows, id, hash)
              == if hash == s.successes[i].hash then IsCompleted(s.successes[i].result) else IsMismatch
  {
    var a := Abstract(s);
    if P.SucceededAt(a, i, id) {
      assert id in a.records && a.records[id] == RecordOf(s.rows[id]);
    }
  }

  /** A success recorded at some point of such a span is answered at every later one. */
  lemma ExpiringStoreReplays(
      states: seq<State>, steps: seq<Step>, times: seq<int>, ttl: int, i: nat, j: nat, a: nat, hash: string)
    requires IsSpan(states, steps, times, ttl) && i <= j < |states| && a < |states[i].successes|
    requires KeyOk(states[0], states[i].successes[a].id)
    requires NeverBreaks(states, steps, times, ttl, states[i].successes[a].id, j)
    ensures var success := states[i].successes[a];
            ReadOutcome(states[j].rows, success.id, hash)
            == if hash == success.hash then IsCompleted(success.result) else IsMismatch
  {
    var id := states[i].successes[a].id;
    SameGuarantee(states, steps, times, ttl, id, j);
    SuccessesStay(states, steps, times, ttl, i, j);
    KeyOkMeans(states[j], id, a, hash);
  }

  lemma {:induction false} SuccessesStay(
      states: seq<State>, steps: seq<Step>, times: seq<int>, ttl: int, i: nat, j: nat)
    requires IsSpan(states, steps, times, ttl) && i <= j < |states|
    ensures states[i].successes <= states[j].successes
  {
    if i < j {
      SuccessesStay(states, steps, times, ttl, i, j - 1);
      assert states[j - 1 + 1] == Apply(states[j - 1], steps[j - 1], times[j - 1], ttl);
    }
  }

  /** Enough for it: whenever the key is busy its row has not expired, so each claimed run settles
      and each success is replayed in time. */
  lemma InTimeNeverBreaks(states: seq<State>, steps: seq<Step>, times: seq<int>, ttl: int, id: string, n: nat)
    requires IsSpan(states, steps, times, ttl) && n <= |steps|
    requires forall i | 0 <= i < n && P.Busy(Abstract(states[i]), id) && id in states[i].rows ::
               times[i] < states[i].rows[id].expiresAt
    ensures NeverBreaks(states, steps, times, ttl, id, n)
  {
  }

  /** And the break shows: a second run is in flight at once, or after the next dispatch of the key
      once a purge has removed the row. */
  lemma BreakShows(s: State, step: Step, now: int, ttl: int, id: string, f: nat, hash: string, later: int)
    requires Enabled(s, step) && Breaks(s, step, now, id)
    requires f !in s.runs && f !in s.reading
    ensures var t := Apply(s, step, now, ttl);
            if step.Claim? then P.Violated(Abstract(t), id)
            else
              && Enabled(t, Dispatch(f, id, hash))
              && var u := Apply(t, Dispatch(f, id, hash), later, ttl);
                 Enabled(u, Claim(f)) && P.Violated(Abstract(Apply(u, Claim(f), later, ttl)), id)
  {
    var a, t := Abstract(s), Apply(s, step, now, ttl);
    var end, mine := t, f;
    if step.Claim? {
      mine := step.f;
    } else {
      end := Apply(Apply(t, Dispatch(f, id, hash), later, ttl), Claim(f), later, ttl);
    }
    var b := Abstract(end);
    assert P.ActiveOn(b, mine, id);
    if i: nat :| P.SucceededAt(a, i, id) {
      assert P.SucceededAt(b, i, id);
    } else {
      var g :| P.ActiveOn(a, g, id);
      assert P.ActiveOn(b, g, id) && g != mine;
    }
  }

  /** Past the expiry the guarantee is gone, because completion is not fenced: the first run of a
      key outlives its claim, a second payload takes the key over, the first run completes, and the
      second payload is answered with the first one's result. */
  lemma ExpiryBreaksIt() returns (states: seq<State>, steps: seq<Step>, times: seq<int>)
    ensures IsSpan(states, steps, times, 10) && states[0] == State(map[], map[], {}, [])
    ensures var last := states[|states| - 1];
            ReadOutcome(last.rows, "k", "second") == IsCompleted("of first")
            && 1 in last.runs && last.runs[1] == P.Running("k", "second")
  {
    steps := [Dispatch(0, "k", "first"), Claim(0), HandlerSucceeds(0, "of first"),
              Dispatch(1, "k", "second"), Claim(1), Complete(0)];
    times := [0, 0, 5, 10, 10, 11];
    var s0 := State(map[], map[], {}, []);
    var s1 := Apply(s0, steps[0], 0, 10);
    var s2 := Apply(s1, steps[1], 0, 10);
    var s3 := Apply(s2, steps[2], 5, 10);
    var s4 := Apply(s3, steps[3], 10, 10);
    var s5 := Apply(s4, steps[4], 10, 10);
    var s6 := Apply(s5, steps[5], 11, 10);
    states := [s0, s1, s2, s3, s4, s5, s6];
  }
}
