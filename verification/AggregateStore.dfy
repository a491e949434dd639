/** The aggregate runtime: fold, optimistic append, snapshots as a cache of the fold, and what
    holds when any number of commands run on one stream at once. The stream is never erased. */
module AggregateStore {
  import opened Prelude

  /** An aggregate as a decider. */
  datatype Aggregate<!S, !C, !E> = Aggregate(
    initial: S, decide: (S, C) -> Result<seq<E>, string>, evolve: (S, E) -> S)

  function Fold<S, E>(evolve: (S, E) -> S, from: S, events: seq<E>): S {
    if events == [] then from else Fold(evolve, evolve(from, events[0]), events[1..])
  }

  lemma {:induction false} FoldConcat<S, E>(evolve: (S, E) -> S, from: S, a: seq<E>, b: seq<E>)
    ensures Fold(evolve, from, a + b) == Fold(evolve, Fold(evolve, from, a), b)
  {
    if a == [] {
      assert a + b == b;
    } else {
      assert (a + b)[1..] == a[1..] + b;
      FoldConcat(evolve, evolve(from, a[0]), a[1..], b);
    }
  }

  /** The state of the stream after its first `version` events, by the plain fold. */
  function StateAt<S, C, E>(agg: Aggregate<S, C, E>, log: seq<E>, version: nat): S
    requires version <= |log|
  {
    Fold(agg.evolve, agg.initial, log[..version])
  }

  lemma StateAtGrows<S, C, E>(agg: Aggregate<S, C, E>, log: seq<E>, more: seq<E>, version: nat)
    requires version <= |log|
    ensures StateAt(agg, log + more, version) == StateAt(agg, log, version)
  {
    assert (log + more)[..version] == log[..version];
  }

  /** Folding the tail onto the state at `version` gives the state at the end. */
  lemma FoldFromVersion<S, C, E>(agg: Aggregate<S, C, E>, log: seq<E>, version: nat)
    requires version <= |log|
    ensures Fold(agg.evolve, StateAt(agg, log, version), log[version..]) == StateAt(agg, log, |log|)
  {
    FoldConcat(agg.evolve, agg.initial, log[..version], log[version..]);
    assert log[..version] + log[version..] == log == log[..|log|];
  }

  /** rehydrate: folds with a loop. */
  method Rehydrate<S, E>(evolve: (S, E) -> S, events: seq<E>, from: S) returns (state: S)
    ensures state == Fold(evolve, from, events)
  {
    state := from;
    for i := 0 to |events|
      invariant Fold(evolve, state, events[i..]) == Fold(evolve, from, events)
    {
      state := evolve(state, events[i]);
      assert events[i..][1..] == events[i + 1..];
    }
  }

  datatype Snapshot<S> = Snapshot(state: S, version: nat)

  datatype ExecuteResult<S, E> =
    | Done(state: S, version: nat, events: seq<E>)
    | Rejected(error: string)
    | ConcurrencyConflict

  /** A stream and its snapshot slot, with commands run one at a time. */
  class Runtime<S, C, E> {
    const agg: Aggregate<S, C, E>
    const snapshotEvery: Option<nat>
    var log: seq<E>
    var snapshot: Option<Snapshot<S>>

    ghost predicate Valid()
      reads this
    {
      snapshot.Some? ==> snapshot.value.version <= |log| && snapshot.value.state == StateAt(agg, log, snapshot.value.version)
    }

    constructor (agg: Aggregate<S, C, E>, snapshotEvery: Option<nat>)
      ensures Valid() && log == [] && this.agg == agg
    {
      this.agg, this.snapshotEvery := agg, snapshotEvery;
      log, snapshot := [], None;
    }

    /** From the snapshot, or from scratch: the answer is the plain fold of the whole stream. */
    method LoadFrom() returns (state: S, version: nat, snapshotVersion: nat)
      requires Valid()
      ensures version == |log| && state == StateAt(agg, log, |log|)
      ensures snapshotVersion == if snapshotEvery.Some? && snapshot.Some? then snapshot.value.version else 0
    {
      state := agg.initial;
      version := 0;
      if snapshotEvery.Some? && snapshot.Some? {
        state, version := snapshot.value.state, snapshot.value.version;
      }
      snapshotVersion := version;
      var events := log[version..];
      FoldFromVersion(agg, log, version);
      for i := 0 to |events|
        invariant version == snapshotVersion + i
        invariant Fold(agg.evolve, state, events[i..]) == StateAt(agg, log, |log|)
      {
        state := agg.evolve(state, events[i]);
        version := snapshotVersion + i + 1;
        assert events[i..][1..] == events[i + 1..];
      }
    }

    /** Without interference a command never conflicts: it appends exactly what `decide` answers
        on the fold of the stream, and the returned state is the fold of the longer stream. */
    method Execute(command: C) returns (result: ExecuteResult<S, E>)
      requires Valid()
      modifies this
      ensures Valid()
      ensures match agg.decide(StateAt(agg, old(log), |old(log)|), command)
              case Err(error) => result == Rejected(error) && log == old(log)
              case Ok(events) =>
                && log == old(log) + events
                && result == Done(StateAt(agg, log, |log|), |log|, events)
    {
      var state, version, snapshotVersion := LoadFrom();
      var decision := agg.decide(state, command);
      if decision.Err? {
        return Rejected(decision.error);
      }
      var events := decision.value;
      if events == [] {
        assert log + events == log;
        return Done(state, version, []);
      }
      var was := log;
      log := log + events;
      var after := Rehydrate(agg.evolve, events, state);
      FoldFromVersion(agg, log, |was|);
      assert log[..|was|] == was[..|was|] && log[|was|..] == events;
      if snapshot.Some? {
        StateAtGrows(agg, was, events, snapshot.value.version);
      }
      if snapshotEvery.Some? && |log| - snapshotVersion >= snapshotEvery.value {
        snapshot := Some(Snapshot(after, |log|));
      }
      return Done(after, |log|, events);
    }
  }
}

/** Commands interleaved store operation by store operation, retries included. */
module AggregateProtocol {
  import opened Prelude
  import opened AggregateStore

  /** Where a command stands: before loading the snapshot, before reading the events after it,
      before appending, before saving a snapshot. `retries` is what executeWithRetry has left. */
  datatype Call<S, C, E> =
    | Starting(command: C, retries: nat)
    | Reading(command: C, retries: nat, snapshot: Option<Snapshot<S>>)
    | Loaded(command: C, retries: nat, state: S, version: nat, snapshotVersion: nat)
    | Saving(state: S, version: nat, events: seq<E>)
    | Finished(result: ExecuteResult<S, E>)

  /** One accepted append: who, which command, which events. */
  datatype Block<C, E> = Block(writer: nat, command: C, events: seq<E>)

  datatype State<S, C, E> = State(
    log: seq<E>, snapshot: Option<Snapshot<S>>, blocks: seq<Block<C, E>>, calls: map<nat, Call<S, C, E>>)

  datatype Step<C> =
    | Begin(f: nat, command: C, retries: nat)
    | LoadSnapshot(f: nat)
    | ReadEvents(f: nat)
    | Append(f: nat)
    | Save(f: nat)
    | Crash(f: nat)

  datatype Config<!S, !C, !E> = Config(agg: Aggregate<S, C, E>, snapshotEvery: Option<nat>)

  predicate Enabled<S, C, E>(s: State<S, C, E>, step: Step<C>) {
    match step
    case Begin(f, _, _) => f !in s.calls
    case LoadSnapshot(f) => f in s.calls && s.calls[f].Starting?
    case ReadEvents(f) =>
      f in s.calls && s.calls[f].Reading? && SnapshotVersion(s.calls[f].snapshot) <= |s.log|
    case Append(f) => f in s.calls && s.calls[f].Loaded?
    case Save(f) => f in s.calls && s.calls[f].Saving?
    case Crash(f) => f in s.calls && !s.calls[f].Finished?
  }

  function SnapshotVersion<S>(snapshot: Option<Snapshot<S>>): nat {
    if snapshot.Some? then snapshot.value.version else 0
  }

  /** The read and the loop over it: the events from the snapshot's version on, folded. */
  function AfterRead<S, C, E>(cfg: Config<S, C, E>, log: seq<E>, call: Call<S, C, E>): Call<S, C, E>
    requires call.Reading? && SnapshotVersion(call.snapshot) <= |log|
  {
    var version := SnapshotVersion(call.snapshot);
    var from := if call.snapshot.Some? then call.snapshot.value.state else cfg.agg.initial;
    Loaded(call.command, call.retries, Fold(cfg.agg.evolve, from, log[version..]), |log|, version)
  }

  /** decide, then the version-checked append. */
  function AfterAppend<S, C, E>(cfg: Config<S, C, E>, s: State<S, C, E>, f: nat): State<S, C, E>
    requires f in s.calls && s.calls[f].Loaded?
  {
    var call := s.calls[f];
    match cfg.agg.decide(call.state, call.command)
    case Err(error) => s.(calls := s.calls[f := Finished(Rejected(error))])
    case Ok(events) =>
      if events == [] then s.(calls := s.calls[f := Finished(Done(call.state, call.version, []))])
      else if |s.log| != call.version then
        s.(calls := s.calls[f := if call.retries > 0 then Starting(call.command, call.retries - 1)
                                 else Finished(ConcurrencyConflict)])
      else
        var last := call.version + |events|;
        var state := Fold(cfg.agg.evolve, call.state, events);
        var due := cfg.snapshotEvery.Some? && last - call.snapshotVersion >= cfg.snapshotEvery.value;
        s.(log := s.log + events,
           blocks := s.blocks + [Block(f, call.command, events)],
           calls := s.calls[f := if due then Saving(state, last, events) else Finished(Done(state, last, events))])
  }

  function Apply<S, C, E>(cfg: Config<S, C, E>, s: State<S, C, E>, step: Step<C>): State<S, C, E>
    requires Enabled(s, step)
  {
    match step
    case Begin(f, command, retries) => s.(calls := s.calls[f := Starting(command, retries)])
    case LoadSnapshot(f) =>
      var found := if cfg.snapshotEvery.Some? then s.snapshot else None;
      s.(calls := s.calls[f := Reading(s.calls[f].command, s.calls[f].retries, found)])
    case ReadEvents(f) => s.(calls := s.calls[f := AfterRead(cfg, s.log, s.calls[f])])
    case Append(f) => AfterAppend(cfg, s, f)
    case Save(f) =>
      var call := s.calls[f];
      s.(snapshot := Some(Snapshot(call.state, call.version)),
         calls := s.calls[f := Finished(Done(call.state, call.version, call.events))])
    case Crash(f) => s.(calls := s.calls[f := Finished(Rejected("crashed"))])
  }

  ghost predicate IsRun<S, C, E>(cfg: Config<S, C, E>, states: seq<State<S, C, E>>, steps: seq<Step<C>>) {
    && |states| == |steps| + 1
    && states[0] == State([], None, [], map[])
    && forall i | 0 <= i < |steps| :: Enabled(states[i], steps[i]) && states[i + 1] == Apply(cfg, states[i], steps[i])
  }

  // ---- the invariant ----

  function Concat<C, E>(blocks: seq<Block<C, E>>): seq<E> {
    if blocks == [] then [] else Concat(blocks[..|blocks| - 1]) + blocks[|blocks| - 1].events
  }

  /** Each block is what `decide` answered, for its command, on the fold of everything before it. */
  ghost predicate Decided<S, C, E>(agg: Aggregate<S, C, E>, blocks: seq<Block<C, E>>) {
    blocks != [] ==>
      var front, last := blocks[..|blocks| - 1], blocks[|blocks| - 1];
      && Decided(agg, front)
      && last.events != []
      && agg.decide(Fold(agg.evolve, agg.initial, Concat(front)), last.command) == Ok(last.events)
  }

  ghost predicate Faithful<S, C, E>(agg: Aggregate<S, C, E>, log: seq<E>, state: S, version: nat) {
    version <= |log| && state == StateAt(agg, log, version)
  }

  ghost predicate SnapshotOk<S, C, E>(agg: Aggregate<S, C, E>, log: seq<E>, snapshot: Option<Snapshot<S>>) {
    snapshot.Some? ==> Faithful(agg, log, snapshot.value.state, snapshot.value.version)
  }

  ghost predicate CallOk<S, C, E>(agg: Aggregate<S, C, E>, log: seq<E>, call: Call<S, C, E>) {
    match call
    case Starting(_, _) => true
    case Reading(_, _, snapshot) => SnapshotOk(agg, log, snapshot)
    case Loaded(_, _, state, version, snapshotVersion) =>
      Faithful(agg, log, state, version) && snapshotVersion <= version
    case Saving(state, version, events) =>
      Faithful(agg, log, state, version) && Wrote(log, version, events)
    case Finished(result) =>
      result.Done? ==>
        Faithful(agg, log, result.state, result.version) && Wrote(log, result.version, result.events)
  }

  /** The events sit in the stream right below `version`. */
  ghost predicate Wrote<E>(log: seq<E>, version: nat, events: seq<E>) {
    |events| <= version <= |log| && log[version - |events|..version] == events
  }

  ghost predicate Inv<S, C, E>(cfg: Config<S, C, E>, s: State<S, C, E>) {
    && s.log == Concat(s.blocks)
    && Decided(cfg.agg, s.blocks)
    && SnapshotOk(cfg.agg, s.log, s.snapshot)
    && (forall f | f in s.calls :: CallOk(cfg.agg, s.log, s.calls[f]))
    && OneBlockEach(s)
  }

  /** A command's events enter the stream at most once, however often it is retried. */
  ghost predicate OneBlockEach<S, C, E>(s: State<S, C, E>) {
    && (forall i | 0 <= i < |s.blocks| ::
          s.blocks[i].writer in s.calls && (s.calls[s.blocks[i].writer].Saving? || s.calls[s.blocks[i].writer].Finished?))
    && (forall i, j | 0 <= i < j < |s.blocks| :: s.blocks[i].writer != s.blocks[j].writer)
  }

  lemma CallOkGrows<S, C, E>(agg: Aggregate<S, C, E>, log: seq<E>, more: seq<E>, call: Call<S, C, E>)
    requires CallOk(agg, log, call)
    ensures CallOk(agg, log + more, call)
  {
    match call
    case Starting(_, _) =>
    case Reading(_, _, snapshot) => SnapshotOkGrows(agg, log, more, snapshot);
    case Loaded(_, _, _, version, _) => StateAtGrows(agg, log, more, version);
    case Saving(_, version, events) =>
      StateAtGrows(agg, log, more, version);
      assert (log + more)[version - |events|..version] == log[version - |events|..version];
    case Finished(result) =>
      if result.Done? {
        StateAtGrows(agg, log, more, result.version);
        assert (log + more)[result.version - |result.events|..result.version]
               == log[result.version - |result.events|..result.version];
      }
  }

  lemma SnapshotOkGrows<S, C, E>(agg: Aggregate<S, C, E>, log: seq<E>, more: seq<E>, snapshot: Option<Snapshot<S>>)
    requires SnapshotOk(agg, log, snapshot)
    ensures SnapshotOk(agg, log + more, snapshot)
  {
    if snapshot.Some? {
      StateAtGrows(agg, log, more, snapshot.value.version);
    }
  }

  /** load from any stored snapshot answers what load from scratch answers. */
  lemma SnapshotLoadIsPlainLoad<S, C, E>(agg: Aggregate<S, C, E>, log: seq<E>, snapshot: Snapshot<S>)
    requires Faithful(agg, log, snapshot.state, snapshot.version)
    ensures Fold(agg.evolve, snapshot.state, log[snapshot.version..]) == Fold(agg.evolve, agg.initial, log)
  {
    FoldFromVersion(agg, log, snapshot.version);
    assert log[..|log|] == log;
  }

  lemma ReadKeeps<S, C, E>(cfg: Config<S, C, E>, log: seq<E>, call: Call<S, C, E>)
    requires call.Reading? && CallOk(cfg.agg, log, call)
    ensures SnapshotVersion(call.snapshot) <= |log| && CallOk(cfg.agg, log, AfterRead(cfg, log, call))
  {
    assert log[..|log|] == log && log[0..] == log;
    if call.snapshot.Some? {
      SnapshotLoadIsPlainLoad(cfg.agg, log, call.snapshot.value);
    }
  }

  /** A landed append: the loaded state was the fold of the whole stream, and stays one. */
  lemma AppendLands<S, C, E>(agg: Aggregate<S, C, E>, log: seq<E>, all: seq<E>, state: S, events: seq<E>)
    requires Faithful(agg, log, state, |log|) && all == log + events
    ensures Faithful(agg, all, Fold(agg.evolve, state, events), |all|)
    ensures Wrote(all, |all|, events)
  {
    WholeState(agg, log);
    WholeState(agg, all);
    FoldConcat(agg.evolve, agg.initial, log, events);
    AppendedTail(log, events);
  }

  lemma WholeState<S, C, E>(agg: Aggregate<S, C, E>, log: seq<E>)
    ensures StateAt(agg, log, |log|) == Fold(agg.evolve, agg.initial, log)
  {
    assert log[..|log|] == log;
  }

  lemma AppendedTail<E>(log: seq<E>, events: seq<E>)
    ensures Wrote(log + events, |log| + |events|, events)
  {
    assert (log + events)[|log|..|log| + |events|] == events;
  }

  ghost predicate Lands<S, C, E>(cfg: Config<S, C, E>, s: State<S, C, E>, step: Step<C>)
    requires Enabled(s, step)
  {
    step.Append? && |Apply(cfg, s, step).blocks| > |s.blocks|
  }

  lemma QuietFrame<S, C, E>(cfg: Config<S, C, E>, s: State<S, C, E>, step: Step<C>)
    requires Enabled(s, step) && !Lands(cfg, s, step)
    ensures Apply(cfg, s, step).log == s.log && Apply(cfg, s, step).blocks == s.blocks
    ensures Apply(cfg, s, step).calls.Keys == s.calls.Keys + {step.f}
    ensures forall g | g in s.calls && g != step.f :: Apply(cfg, s, step).calls[g] == s.calls[g]
  {
  }

  lemma QuietActor<S, C, E>(cfg: Config<S, C, E>, s: State<S, C, E>, step: Step<C>)
    requires Enabled(s, step) && !Lands(cfg, s, step) && SnapshotOk(cfg.agg, s.log, s.snapshot)
    requires step.f in s.calls ==> CallOk(cfg.agg, s.log, s.calls[step.f])
    ensures CallOk(cfg.agg, s.log, Apply(cfg, s, step).calls[step.f])
    ensures SnapshotOk(cfg.agg, s.log, Apply(cfg, s, step).snapshot)
  {
    if step.ReadEvents? {
      ReadKeeps(cfg, s.log, s.calls[step.f]);
    }
  }

  lemma QuietKeeps<S, C, E>(cfg: Config<S, C, E>, s: State<S, C, E>, step: Step<C>)
    requires Inv(cfg, s) && Enabled(s, step) && !Lands(cfg, s, step)
    ensures Inv(cfg, Apply(cfg, s, step))
  {
    QuietFrame(cfg, s, step);
    QuietActor(cfg, s, step);
    BlocksStay(cfg, s, step);
  }

  lemma BlocksStay<S, C, E>(cfg: Config<S, C, E>, s: State<S, C, E>, step: Step<C>)
    requires OneBlockEach(s) && Enabled(s, step)
    ensures OneBlockEach(Apply(cfg, s, step))
  {
  }

  lemma LandingKeepsBlocks<S, C, E>(cfg: Config<S, C, E>, s: State<S, C, E>, step: Step<C>)
    requires Inv(cfg, s) && Enabled(s, step) && Lands(cfg, s, step)
    ensures Apply(cfg, s, step).log == Concat(Apply(cfg, s, step).blocks)
    ensures Decided(cfg.agg, Apply(cfg, s, step).blocks)
  {
    assert CallOk(cfg.agg, s.log, s.calls[step.f]);
    assert s.log[..|s.log|] == s.log;
    assert Apply(cfg, s, step).blocks[..|s.blocks|] == s.blocks;
  }

  lemma LandingKeeps<S, C, E>(cfg: Config<S, C, E>, s: State<S, C, E>, step: Step<C>)
    requires Inv(cfg, s) && Enabled(s, step) && Lands(cfg, s, step)
    ensures Inv(cfg, Apply(cfg, s, step))
  {
    var s', f := Apply(cfg, s, step), step.f;
    var events := cfg.agg.decide(s.calls[f].state, s.calls[f].command).value;
    LandingKeepsBlocks(cfg, s, step);
    BlocksStay(cfg, s, step);
    assert CallOk(cfg.agg, s.log, s.calls[f]);
    AppendLands(cfg.agg, s.log, s'.log, s.calls[f].state, events);
    SnapshotOkGrows(cfg.agg, s.log, events, s.snapshot);
    forall g | g in s'.calls && g != f
      ensures CallOk(cfg.agg, s'.log, s'.calls[g])
    {
      CallOkGrows(cfg.agg, s.log, events, s.calls[g]);
    }
  }

  lemma {:induction false} RunsKeepInv<S, C, E>(
    cfg: Config<S, C, E>, states: seq<State<S, C, E>>, steps: seq<Step<C>>, i: nat)
    requires IsRun(cfg, states, steps) && i < |states|
    ensures Inv(cfg, states[i])
  {
    if i > 0 {
      RunsKeepInv(cfg, states, steps, i - 1);
      if Lands(cfg, states[i - 1], steps[i - 1]) {
        LandingKeeps(cfg, states[i - 1], steps[i - 1]);
      } else {
        QuietKeeps(cfg, states[i - 1], steps[i - 1]);
      }
    }
  }

  // ---- what it means ----

  /** In every interleaving the stream is a concatenation of blocks, each equal to what `decide`
      answers for its command on the fold of the stream before it, one block per command at most. */
  lemma StreamIsDecidedBlocks<S, C, E>(
    cfg: Config<S, C, E>, states: seq<State<S, C, E>>, steps: seq<Step<C>>, i: nat, b: nat)
    requires IsRun(cfg, states, steps) && i < |states| && b < |states[i].blocks|
    ensures var blocks := states[i].blocks;
            && states[i].log == Concat(blocks)
            && cfg.agg.decide(Fold(cfg.agg.evolve, cfg.agg.initial, Concat(blocks[..b])), blocks[b].command)
               == Ok(blocks[b].events)
            && forall c | 0 <= c < |blocks| && blocks[c].writer == blocks[b].writer :: c == b
  {
    RunsKeepInv(cfg, states, steps, i);
    DecidedAt(cfg.agg, states[i].blocks, b);
  }

  lemma {:induction false} DecidedAt<S, C, E>(agg: Aggregate<S, C, E>, blocks: seq<Block<C, E>>, b: nat)
    requires Decided(agg, blocks) && b < |blocks|
    ensures agg.decide(Fold(agg.evolve, agg.initial, Concat(blocks[..b])), blocks[b].command) == Ok(blocks[b].events)
  {
    var n := |blocks| - 1;
    if b < n {
      DecidedAt(agg, blocks[..n], b);
      assert blocks[..n][..b] == blocks[..b];
    }
  }

  /** Whatever snapshot is stored, an older one saved late included, loading through it answers
      the plain fold of the whole stream. */
  lemma StoredSnapshotAgrees<S, C, E>(
    cfg: Config<S, C, E>, states: seq<State<S, C, E>>, steps: seq<Step<C>>, i: nat)
    requires IsRun(cfg, states, steps) && i < |states| && states[i].snapshot.Some?
    ensures var log, snapshot := states[i].log, states[i].snapshot.value;
            && snapshot.version <= |log|
            && snapshot.state == Fold(cfg.agg.evolve, cfg.agg.initial, log[..snapshot.version])
            && Fold(cfg.agg.evolve, snapshot.state, log[snapshot.version..])
               == Fold(cfg.agg.evolve, cfg.agg.initial, log)
  {
    RunsKeepInv(cfg, states, steps, i);
    SnapshotLoadIsPlainLoad(cfg.agg, states[i].log, states[i].snapshot.value);
  }

  /** A finished command answered with its own events in the stream and the fold up to them. */
  lemma AnswerIsInStream<S, C, E>(
    cfg: Config<S, C, E>, states: seq<State<S, C, E>>, steps: seq<Step<C>>, i: nat, f: nat)
    requires IsRun(cfg, states, steps) && i < |states|
    requires f in states[i].calls && states[i].calls[f].Finished? && states[i].calls[f].result.Done?
    ensures var log, answer := states[i].log, states[i].calls[f].result;
            && |answer.events| <= answer.version <= |log|
            && log[answer.version - |answer.events|..answer.version] == answer.events
            && answer.state == Fold(cfg.agg.evolve, cfg.agg.initial, log[..answer.version])
  {
    RunsKeepInv(cfg, states, steps, i);
    assert CallOk(cfg.agg, states[i].log, states[i].calls[f]);
  }

  /** A read never finds its snapshot ahead of the stream: every loading call can go on. */
  lemma ReadNeverBlocked<S, C, E>(
    cfg: Config<S, C, E>, states: seq<State<S, C, E>>, steps: seq<Step<C>>, i: nat, f: nat)
    requires IsRun(cfg, states, steps) && i < |states|
    requires f in states[i].calls && states[i].calls[f].Reading?
    ensures Enabled(states[i], Step<C>.ReadEvents(f))
  {
    RunsKeepInv(cfg, states, steps, i);
    assert CallOk(cfg.agg, states[i].log, states[i].calls[f]);
  }
}
