/** Every interleaving of refresh, code exchange, revocation and cleanup, one store operation
    at a time. Hashes are collision-free, so a presented token is named by its record's id, and
    random ids are fresh. */
module OAuthProtocol {
  import opened OAuthStore

  /** Where a call stands between two store operations. */
  datatype Fiber =
    // refresh: mint first, then rotate, then re-check
    | PutAccess(presented: Key, family: Key)
    | PutRefresh(presented: Key, family: Key, access: Key)
    | Rotate(presented: Key, family: Key, access: Key, refresh: Key)
    | Recheck(family: Key, access: Key, refresh: Key)
    // refresh, refused: what must still run before the refusal is answered
    | LoserFind(presented: Key, family: Key)
    | LoserSweep(family: Key, reuse: bool)
    | ReuseSweep(family: Key)
    | FinalSweep(family: Key)
    // exchangeCode: issueTokens in a family of its own
    | GrantAccess(family: Key)
    | GrantRefresh(family: Key)
    // finished
    | Answered
    | Refused

  datatype Code = Code(client: string, redirect: string, challenge: string, expiresAt: int, consumed: bool)

  /** The tables and the calls in flight, with the history the properties speak of:
      `used` and `families` are the ids drawn so far, `swept` the families a call has revoked,
      `flagged` those a call caught a replay or a lost rotation in, `rotations` and `grants` who
      rotated which token and who consumed which code, `withdrawn` the tokens a client revoked
      or a cleanup removed, `audits` the families `oauth-refresh-reuse` was recorded for. */
  datatype State = State(
    tokens: Tokens, codes: map<Key, Code>, fibers: map<nat, Fiber>,
    used: set<Key>, families: set<Key>, swept: set<Key>, flagged: set<Key>,
    rotations: seq<(nat, Key)>, grants: seq<(nat, Key)>, withdrawn: set<Key>, audits: seq<Key>)

  datatype Step =
    | Present(f: nat, token: Key, client: string, now: int)
    | MintAccess(f: nat, drawn: Key, client: string, expiresAt: int)
    | MintRefresh(f: nat, drawn: Key, client: string, expiresAt: int)
    | TryRotate(f: nat, now: int)
    | LookAgain(f: nat)
    | Sweep(f: nat, now: int)
    | ConsumeCode(f: nat, code: Key, client: string, redirect: string, challenge: string, now: int, family: Key)
    | Revoke(token: Key, now: int)
    | Cleanup(token: Key)
    | Authorize(code: Key, record: Code)

  predicate Enabled(s: State, step: Step) {
    match step
    case Present(f, _, _, _) => f !in s.fibers
    case MintAccess(f, drawn, _, _) =>
      f in s.fibers && (s.fibers[f].PutAccess? || s.fibers[f].GrantAccess?) && drawn !in s.used
    case MintRefresh(f, drawn, _, _) =>
      f in s.fibers && (s.fibers[f].PutRefresh? || s.fibers[f].GrantRefresh?) && drawn !in s.used
    case TryRotate(f, _) => f in s.fibers && s.fibers[f].Rotate?
    case LookAgain(f) => f in s.fibers && (s.fibers[f].Recheck? || s.fibers[f].LoserFind?)
    case Sweep(f, _) =>
      f in s.fibers && (s.fibers[f].LoserSweep? || s.fibers[f].ReuseSweep? || s.fibers[f].FinalSweep?)
    case ConsumeCode(f, _, _, _, _, _, family) => f !in s.fibers && family !in s.families
    case Revoke(_, _) => true
    case Cleanup(_) => true
    case Authorize(code, record) => code !in s.codes && !record.consumed
  }

  /** findTokenByHash and the checks that follow it without another store operation. */
  function AfterFind(tokens: Tokens, token: Key, client: string, now: int): Fiber {
    if token !in tokens || !Accepts(tokens[token], client, now) then Refused
    else if tokens[token].revokedAt.Some? then
      if tokens[token].rotatedAt.Some? then ReuseSweep(tokens[token].family) else Refused
    else PutAccess(token, tokens[token].family)
  }

  function Apply(s: State, step: Step): State
    requires Enabled(s, step)
  {
    match step
    case Present(f, token, client, now) =>
      var next := AfterFind(s.tokens, token, client, now);
      s.(fibers := s.fibers[f := next],
         flagged := if next.ReuseSweep? then s.flagged + {next.family} else s.flagged)
    case MintAccess(f, drawn, client, expiresAt) =>
      var was := s.fibers[f];
      s.(tokens := s.tokens[drawn := Minted(Access, client, was.family, expiresAt)],
         used := s.used + {drawn},
         fibers := s.fibers[f := if was.PutAccess? then PutRefresh(was.presented, was.family, drawn)
                                 else GrantRefresh(was.family)])
    case MintRefresh(f, drawn, client, expiresAt) =>
      var was := s.fibers[f];
      s.(tokens := s.tokens[drawn := Minted(Refresh, client, was.family, expiresAt)],
         used := s.used + {drawn},
         fibers := s.fibers[f := if was.PutRefresh? then Rotate(was.presented, was.family, was.access, drawn)
                                 else Answered])
    case TryRotate(f, now) =>
      var was := s.fibers[f];
      if Live(s.tokens, was.presented) then
        s.(tokens := Rotated(s.tokens, was.presented, now),
           rotations := s.rotations + [(f, was.presented)],
           fibers := s.fibers[f := Recheck(was.family, was.access, was.refresh)])
      else
        s.(fibers := s.fibers[f := LoserFind(was.presented, was.family)],
           flagged := s.flagged + {was.family})
    case LookAgain(f) =>
      var was := s.fibers[f];
      if was.LoserFind? then
        var reuse := was.presented in s.tokens && s.tokens[was.presented].rotatedAt.Some?;
        s.(fibers := s.fibers[f := LoserSweep(was.family, reuse)])
      else
        s.(fibers := s.fibers[f := if Live(s.tokens, was.refresh) then Answered else FinalSweep(was.family)])
    case Sweep(f, now) =>
      var was := s.fibers[f];
      var reuse := was.ReuseSweep? || (was.LoserSweep? && was.reuse);
      s.(tokens := Swept(s.tokens, was.family, now),
         swept := s.swept + {was.family},
         audits := s.audits + if reuse && LiveOf(s.tokens, was.family) != {} then [was.family] else [],
         fibers := s.fibers[f := Refused])
    case ConsumeCode(f, code, client, redirect, challenge, now, family) =>
      if code !in s.codes || s.codes[code].consumed || s.codes[code].expiresAt <= now then
        s.(fibers := s.fibers[f := Refused])
      else
        var record := s.codes[code];
        var spent := s.(codes := s.codes[code := record.(consumed := true)], grants := s.grants + [(f, code)]);
        if record.client == client && record.redirect == redirect && record.challenge == challenge
        then spent.(families := s.families + {family}, fibers := s.fibers[f := GrantAccess(family)])
        else spent.(fibers := s.fibers[f := Refused])
    case Revoke(token, now) =>
      s.(tokens := Revoked(s.tokens, token, now), withdrawn := s.withdrawn + {token})
    case Cleanup(token) =>
      s.(tokens := s.tokens - {token}, withdrawn := s.withdrawn + {token})
    case Authorize(code, record) =>
      s.(codes := s.codes[code := record])
  }

  const INITIAL := State(map[], map[], map[], {}, {}, {}, {}, [], [], {}, [])

  /** A run: a sequence of states from the empty store, each reached by one enabled step. */
  ghost predicate IsRun(states: seq<State>, steps: seq<Step>) {
    IsSpan(states, steps) && states[0] == INITIAL
  }

  ghost predicate IsSpan(states: seq<State>, steps: seq<Step>) {
    && |states| == |steps| + 1
    && forall i | 0 <= i < |steps| :: Enabled(states[i], steps[i]) && states[i + 1] == Apply(states[i], steps[i])
  }

  // ---- the invariant ----

  predicate Refreshing(fiber: Fiber) {
    !fiber.Answered? && !fiber.Refused? && !fiber.GrantAccess? && !fiber.GrantRefresh?
  }

  predicate Granting(fiber: Fiber) {
    fiber.GrantAccess? || fiber.GrantRefresh?
  }

  /** A refresh that, whatever happens next, sweeps its family before it ends. */
  predicate MustSweep(tokens: Tokens, fiber: Fiber) {
    match fiber
    case PutAccess(presented, _) => !Live(tokens, presented)
    case PutRefresh(presented, _, _) => !Live(tokens, presented)
    case Rotate(presented, _, _, _) => !Live(tokens, presented)
    case Recheck(_, _, refresh) => !Live(tokens, refresh)
    case LoserFind(_, _) => true
    case LoserSweep(_, _) => true
    case ReuseSweep(_) => true
    case FinalSweep(_) => true
    case _ => false
  }

  ghost predicate Sweeper(s: State, family: Key) {
    exists f :: f in s.fibers && Refreshing(s.fibers[f]) && s.fibers[f].family == family && MustSweep(s.tokens, s.fibers[f])
  }

  ghost predicate IdsDrawn(s: State) {
    && s.tokens.Keys <= s.used
    && (forall id | id in s.tokens :: s.tokens[id].family in s.families)
    && (forall f | f in s.fibers && (Refreshing(s.fibers[f]) || Granting(s.fibers[f])) ::
          s.fibers[f].family in s.families)
    && s.swept <= s.families
    && s.flagged <= s.families
  }

  predicate Names(s: State, id: Key, kind: Kind, family: Key) {
    id in s.used && (id in s.tokens ==> s.tokens[id].kind == kind && s.tokens[id].family == family)
  }

  ghost predicate NamesItsTokens(s: State, fiber: Fiber) {
    match fiber
    case PutAccess(presented, family) => Names(s, presented, Refresh, family)
    case PutRefresh(presented, family, access) =>
      Names(s, presented, Refresh, family) && Names(s, access, Access, family) && presented != access
    case Rotate(presented, family, access, refresh) =>
      && Names(s, presented, Refresh, family) && Names(s, access, Access, family) && Names(s, refresh, Refresh, family)
      && presented != access && presented != refresh && access != refresh
    case Recheck(family, access, refresh) =>
      Names(s, access, Access, family) && Names(s, refresh, Refresh, family) && access != refresh
    case LoserFind(presented, family) => Names(s, presented, Refresh, family)
    case _ => true
  }

  ghost predicate FibersNameTokens(s: State) {
    forall f | f in s.fibers :: NamesItsTokens(s, s.fibers[f])
  }

  /** The key invariant: a live token of a swept family implies a call that still has to sweep. */
  ghost predicate SweptFamiliesGuarded(s: State) {
    forall id | Live(s.tokens, id) && s.tokens[id].family in s.swept :: Sweeper(s, s.tokens[id].family)
  }

  ghost predicate FlaggedFamiliesGuarded(s: State) {
    forall family | family in s.flagged :: family in s.swept || Sweeper(s, family)
  }

  /** A family whose first refresh token is not stored yet has no refresh call and was never swept. */
  ghost predicate GrantsUntouched(s: State) {
    forall f | f in s.fibers && Granting(s.fibers[f]) :: Untouched(s, f, s.fibers[f].family)
  }

  ghost predicate Untouched(s: State, f: nat, family: Key) {
    && family !in s.swept
    && (forall id | InFamily(s.tokens, id, family) :: s.tokens[id].kind == Access)
    && (forall g | g in s.fibers && Refreshing(s.fibers[g]) :: s.fibers[g].family != family)
    && (forall g | g in s.fibers && Granting(s.fibers[g]) && g != f :: s.fibers[g].family != family)
  }

  ghost predicate RotationsSpent(s: State) {
    && (forall i | 0 <= i < |s.rotations| :: s.rotations[i].1 in s.used && !Live(s.tokens, s.rotations[i].1))
    && (forall i, j | 0 <= i < j < |s.rotations| :: s.rotations[i].1 != s.rotations[j].1)
  }

  ghost predicate GrantsSpent(s: State) {
    && (forall i | 0 <= i < |s.grants| :: s.grants[i].1 in s.codes && s.codes[s.grants[i].1].consumed)
    && (forall i, j | 0 <= i < j < |s.grants| :: s.grants[i].1 != s.grants[j].1)
  }

  predicate Gone(s: State, id: Key) {
    !Live(s.tokens, id) && id !in s.withdrawn
  }

  /** An access token killed by a sweep takes the token that decides the answer with it. */
  predicate PairTogether(s: State, fiber: Fiber) {
    match fiber
    case PutRefresh(presented, _, access) => Gone(s, access) ==> !Live(s.tokens, presented)
    case Rotate(presented, _, access, _) => Gone(s, access) ==> !Live(s.tokens, presented)
    case Recheck(_, access, refresh) => Gone(s, access) ==> !Live(s.tokens, refresh)
    case _ => true
  }

  ghost predicate PairsTogether(s: State) {
    forall f | f in s.fibers :: PairTogether(s, s.fibers[f])
  }

  ghost predicate Inv(s: State) {
    && IdsDrawn(s)
    && FibersNameTokens(s)
    && SweptFamiliesGuarded(s)
    && FlaggedFamiliesGuarded(s)
    && GrantsUntouched(s)
    && RotationsSpent(s)
    && GrantsSpent(s)
    && PairsTogether(s)
  }

  // ---- every step keeps it ----

  /** No step brings a dead token back to life, moves one to another family or changes its kind. */
  lemma TokensOnlyDie(s: State, step: Step, id: Key)
    requires Enabled(s, step) && id in s.used
    ensures !Live(s.tokens, id) ==> !Live(Apply(s, step).tokens, id)
    ensures id in Apply(s, step).used
    ensures id in Apply(s, step).tokens ==>
              && id in s.tokens
              && Apply(s, step).tokens[id].kind == s.tokens[id].kind
              && Apply(s, step).tokens[id].family == s.tokens[id].family
  {
  }

  /** Which step a call's own progress comes from. */
  predicate Acts(step: Step, f: nat) {
    match step
    case Revoke(_, _) => false
    case Cleanup(_) => false
    case Authorize(_, _) => false
    case _ => step.f == f
  }

  lemma OthersStay(s: State, step: Step, f: nat)
    requires Enabled(s, step) && !Acts(step, f)
    ensures f in Apply(s, step).fibers <==> f in s.fibers
    ensures f in s.fibers ==> Apply(s, step).fibers[f] == s.fibers[f]
  {
  }

  lemma KeepsIds(s: State, step: Step)
    requires IdsDrawn(s) && Enabled(s, step)
    ensures IdsDrawn(Apply(s, step))
  {
  }

  lemma KeepsRotations(s: State, step: Step)
    requires IdsDrawn(s) && RotationsSpent(s) && FibersNameTokens(s) && Enabled(s, step)
    ensures RotationsSpent(Apply(s, step))
  {
  }

  lemma KeepsGrantsSpent(s: State, step: Step)
    requires GrantsSpent(s) && Enabled(s, step)
    ensures GrantsSpent(Apply(s, step))
  {
  }

  lemma NamesStay(s: State, step: Step, fiber: Fiber)
    requires Enabled(s, step) && NamesItsTokens(s, fiber)
    ensures NamesItsTokens(Apply(s, step), fiber)
  {
    forall id | id in s.used
      ensures id in Apply(s, step).used
      ensures id in Apply(s, step).tokens ==>
                && id in s.tokens
                && Apply(s, step).tokens[id].kind == s.tokens[id].kind
                && Apply(s, step).tokens[id].family == s.tokens[id].family
    {
      TokensOnlyDie(s, step, id);
    }
  }

  lemma ActorNames(s: State, step: Step, f: nat)
    requires IdsDrawn(s) && FibersNameTokens(s) && Enabled(s, step) && Acts(step, f)
    ensures NamesItsTokens(Apply(s, step), Apply(s, step).fibers[f])
  {
    if f in s.fibers {
      NamesStay(s, step, s.fibers[f]);
    }
  }

  lemma KeepsNames(s: State, step: Step)
    requires IdsDrawn(s) && FibersNameTokens(s) && Enabled(s, step)
    ensures FibersNameTokens(Apply(s, step))
  {
    var s' := Apply(s, step);
    forall f | f in s'.fibers
      ensures NamesItsTokens(s', s'.fibers[f])
    {
      if Acts(step, f) {
        ActorNames(s, step, f);
      } else {
        OthersStay(s, step, f);
        NamesStay(s, step, s.fibers[f]);
      }
    }
  }

  lemma PairStays(s: State, step: Step, f: nat)
    requires IdsDrawn(s) && FibersNameTokens(s) && PairsTogether(s) && Enabled(s, step)
    requires f in s.fibers && !Acts(step, f)
    ensures PairTogether(Apply(s, step), s.fibers[f])
  {
    var fiber := s.fibers[f];
    assert NamesItsTokens(s, fiber) && PairTogether(s, fiber);
    if fiber.Rotate? || fiber.Recheck? || fiber.PutRefresh? {
      TokensOnlyDie(s, step, fiber.access);
      if !fiber.Recheck? { TokensOnlyDie(s, step, fiber.presented); }
      if !fiber.PutRefresh? { TokensOnlyDie(s, step, fiber.refresh); }
      if step.TryRotate? {
        assert NamesItsTokens(s, s.fibers[step.f]);
      }
    }
  }

  lemma ActorPair(s: State, step: Step, f: nat)
    requires IdsDrawn(s) && FibersNameTokens(s) && PairsTogether(s) && Enabled(s, step)
    requires Acts(step, f)
    ensures PairTogether(Apply(s, step), Apply(s, step).fibers[f])
  {
    if f in s.fibers {
      assert NamesItsTokens(s, s.fibers[f]) && PairTogether(s, s.fibers[f]);
    }
  }

  lemma KeepsPairs(s: State, step: Step)
    requires IdsDrawn(s) && FibersNameTokens(s) && PairsTogether(s) && Enabled(s, step)
    ensures PairsTogether(Apply(s, step))
  {
    var s' := Apply(s, step);
    forall f | f in s'.fibers
      ensures PairTogether(s', s'.fibers[f])
    {
      if Acts(step, f) {
        ActorPair(s, step, f);
      } else {
        OthersStay(s, step, f);
        PairStays(s, step, f);
      }
    }
  }

  lemma UntouchedStays(s: State, step: Step, f: nat)
    requires IdsDrawn(s) && GrantsUntouched(s) && Enabled(s, step)
    requires f in s.fibers && Granting(s.fibers[f]) && !Acts(step, f)
    ensures Untouched(Apply(s, step), f, s.fibers[f].family)
  {
    var family, s' := s.fibers[f].family, Apply(s, step);
    assert Untouched(s, f, family);
    forall id | InFamily(s'.tokens, id, family)
      ensures s'.tokens[id].kind == Access
    {
      if id in s.used { TokensOnlyDie(s, step, id); }
    }
  }

  lemma ActorUntouched(s: State, step: Step, f: nat)
    requires IdsDrawn(s) && GrantsUntouched(s) && Enabled(s, step)
    requires Acts(step, f) && Granting(Apply(s, step).fibers[f])
    ensures Untouched(Apply(s, step), f, Apply(s, step).fibers[f].family)
  {
    if step.MintAccess? {
      assert Untouched(s, f, s.fibers[f].family);
    }
  }

  lemma KeepsGrantsUntouched(s: State, step: Step)
    requires IdsDrawn(s) && GrantsUntouched(s) && Enabled(s, step)
    ensures GrantsUntouched(Apply(s, step))
  {
    var s' := Apply(s, step);
    forall f | f in s'.fibers && Granting(s'.fibers[f])
      ensures Untouched(s', f, s'.fibers[f].family)
    {
      if Acts(step, f) {
        ActorUntouched(s, step, f);
      } else {
        OthersStay(s, step, f);
        UntouchedStays(s, step, f);
      }
    }
  }

  /** A sweeper that is not at its sweep is still one after the step, its own included. */
  lemma SweeperStays(s: State, step: Step, f: nat)
    requires IdsDrawn(s) && FibersNameTokens(s) && Enabled(s, step)
    requires f in s.fibers && Refreshing(s.fibers[f]) && MustSweep(s.tokens, s.fibers[f])
    requires !(step.Sweep? && step.f == f)
    ensures Sweeper(Apply(s, step), s.fibers[f].family)
  {
    var s', fiber := Apply(s, step), s.fibers[f];
    assert NamesItsTokens(s, fiber);
    if fiber.PutAccess? || fiber.PutRefresh? || fiber.Rotate? {
      TokensOnlyDie(s, step, fiber.presented);
    } else if fiber.Recheck? {
      TokensOnlyDie(s, step, fiber.refresh);
    }
    assert f in s'.fibers && Refreshing(s'.fibers[f]) && s'.fibers[f].family == fiber.family
           && MustSweep(s'.tokens, s'.fibers[f]);
  }

  lemma KeepsFlagged(s: State, step: Step)
    requires IdsDrawn(s) && FibersNameTokens(s) && FlaggedFamiliesGuarded(s) && Enabled(s, step)
    ensures FlaggedFamiliesGuarded(Apply(s, step))
  {
    var s' := Apply(s, step);
    forall family | family in s'.flagged && family !in s'.swept
      ensures Sweeper(s', family)
    {
      if family in s.flagged {
        var f :| f in s.fibers && Refreshing(s.fibers[f]) && s.fibers[f].family == family
                 && MustSweep(s.tokens, s.fibers[f]);
        SweeperStays(s, step, f);
      } else {
        assert step.f in s'.fibers && s'.fibers[step.f].family == family && MustSweep(s'.tokens, s'.fibers[step.f]);
      }
    }
  }

  /** A call that stores a token in a swept family is itself a sweeper or has one beside it. */
  lemma MinterIsGuarded(s: State, f: nat)
    requires IdsDrawn(s) && FibersNameTokens(s) && SweptFamiliesGuarded(s) && f in s.fibers
    requires s.fibers[f].PutAccess? || s.fibers[f].PutRefresh?
    requires s.fibers[f].family in s.swept
    ensures Sweeper(s, s.fibers[f].family)
  {
    var fiber := s.fibers[f];
    assert NamesItsTokens(s, fiber);
    if Live(s.tokens, fiber.presented) {
      assert s.tokens[fiber.presented].family == fiber.family;
    } else {
      assert MustSweep(s.tokens, fiber);
    }
  }

  /** A token of a swept family that is live after a step had a sweeper before it. */
  lemma LiveHadSweeper(s: State, step: Step, id: Key)
    requires IdsDrawn(s) && FibersNameTokens(s) && GrantsUntouched(s) && SweptFamiliesGuarded(s) && Enabled(s, step)
    requires Live(Apply(s, step).tokens, id) && Apply(s, step).tokens[id].family in Apply(s, step).swept
    ensures Sweeper(s, Apply(s, step).tokens[id].family)
    ensures step.Sweep? ==> s.fibers[step.f].family != Apply(s, step).tokens[id].family
  {
    if id in s.used {
      TokensOnlyDie(s, step, id);
    } else {
      assert Granting(s.fibers[step.f]) ==> Untouched(s, step.f, s.fibers[step.f].family);
      MinterIsGuarded(s, step.f);
    }
  }

  lemma KeepsSwept(s: State, step: Step)
    requires IdsDrawn(s) && FibersNameTokens(s) && GrantsUntouched(s) && SweptFamiliesGuarded(s) && Enabled(s, step)
    ensures SweptFamiliesGuarded(Apply(s, step))
  {
    var s' := Apply(s, step);
    forall id | Live(s'.tokens, id) && s'.tokens[id].family in s'.swept
      ensures Sweeper(s', s'.tokens[id].family)
    {
      LiveHadSweeper(s, step, id);
      var f :| f in s.fibers && Refreshing(s.fibers[f]) && s.fibers[f].family == s'.tokens[id].family
               && MustSweep(s.tokens, s.fibers[f]);
      SweeperStays(s, step, f);
    }
  }

  lemma KeepsInv(s: State, step: Step)
    requires Inv(s) && Enabled(s, step)
    ensures Inv(Apply(s, step))
  {
    KeepsIds(s, step);
    KeepsNames(s, step);
    KeepsSwept(s, step);
    KeepsFlagged(s, step);
    KeepsGrantsUntouched(s, step);
    KeepsRotations(s, step);
    KeepsGrantsSpent(s, step);
    KeepsPairs(s, step);
  }

  lemma {:induction false} RunsKeepInv(states: seq<State>, steps: seq<Step>, i: nat)
    requires IsRun(states, steps) && i < |states|
    ensures Inv(states[i])
  {
    if i > 0 {
      RunsKeepInv(states, steps, i - 1);
      KeepsInv(states[i - 1], steps[i - 1]);
    }
  }

  // ---- what it means ----

  predicate NoRefreshInFlight(s: State) {
    forall f | f in s.fibers :: !Refreshing(s.fibers[f])
  }

  /** In every interleaving, once a family has been swept, or a replay or a lost rotation has been
      seen in it, no token of it is live whenever no refresh is in flight. */
  lemma SweptFamilyIsDead(states: seq<State>, steps: seq<Step>, i: nat, family: Key)
    requires IsRun(states, steps) && i < |states|
    requires family in states[i].swept || family in states[i].flagged
    requires NoRefreshInFlight(states[i])
    ensures LiveOf(states[i].tokens, family) == {}
  {
    RunsKeepInv(states, steps, i);
    var s := states[i];
    assert !Sweeper(s, family);
    forall id | InFamily(s.tokens, id, family)
      ensures !Live(s.tokens, id)
    {
    }
  }

  /** Each refresh token is rotated by at most one presenter. */
  lemma RotatedAtMostOnce(states: seq<State>, steps: seq<Step>, i: nat, a: nat, b: nat)
    requires IsRun(states, steps) && i < |states|
    requires a < |states[i].rotations| && b < |states[i].rotations|
    requires states[i].rotations[a].1 == states[i].rotations[b].1
    ensures a == b
  {
    RunsKeepInv(states, steps, i);
  }

  /** Each authorization code is spent at most once. */
  lemma CodeSpentAtMostOnce(states: seq<State>, steps: seq<Step>, i: nat, a: nat, b: nat)
    requires IsRun(states, steps) && i < |states|
    requires a < |states[i].grants| && b < |states[i].grants|
    requires states[i].grants[a].1 == states[i].grants[b].1
    ensures a == b
  {
    RunsKeepInv(states, steps, i);
  }

  /** A refresh never answers with a pair a sweep has killed: the refresh token is live at the
      answer, and so is the access token unless a client revoked it or a cleanup removed it. */
  lemma AnswersLivePair(states: seq<State>, steps: seq<Step>, i: nat)
    requires IsRun(states, steps) && i < |steps|
    requires steps[i].LookAgain? && states[i + 1].fibers[steps[i].f].Answered?
    ensures states[i].fibers[steps[i].f].Recheck?
    ensures var pair := states[i].fibers[steps[i].f];
            && Live(states[i + 1].tokens, pair.refresh)
            && (pair.access in states[i + 1].withdrawn || Live(states[i + 1].tokens, pair.access))
  {
    RunsKeepInv(states, steps, i);
    assert PairTogether(states[i], states[i].fibers[steps[i].f]);
  }

  /** Operations left before a call ends. */
  function Remaining(fiber: Fiber): nat {
    match fiber
    case PutAccess(_, _) => 6
    case PutRefresh(_, _, _) => 5
    case Rotate(_, _, _, _) => 4
    case Recheck(_, _, _) => 2
    case LoserFind(_, _) => 2
    case LoserSweep(_, _) => 1
    case ReuseSweep(_) => 1
    case FinalSweep(_) => 1
    case GrantAccess(_) => 2
    case GrantRefresh(_) => 1
    case Answered => 0
    case Refused => 0
  }

  /** No call waits for another: while it is unfinished a step of its own is enabled, and each
      of its own steps brings it closer to the end. */
  lemma NeverBlocked(s: State, f: nat, drawn: Key, now: int) returns (step: Step)
    requires f in s.fibers && Remaining(s.fibers[f]) > 0 && drawn !in s.used
    ensures Enabled(s, step) && Acts(step, f)
    ensures forall other | Enabled(s, other) && Acts(other, f) ::
              Remaining(Apply(s, other).fibers[f]) < Remaining(s.fibers[f])
  {
    var fiber := s.fibers[f];
    step :=
      if fiber.PutAccess? || fiber.GrantAccess? then MintAccess(f, drawn, "", now)
      else if fiber.PutRefresh? || fiber.GrantRefresh? then MintRefresh(f, drawn, "", now)
      else if fiber.Rotate? then TryRotate(f, now)
      else if fiber.Recheck? || fiber.LoserFind? then LookAgain(f)
      else Sweep(f, now);
  }

  // ---- how often a reuse is audited ----

  function AuditsOf(s: State, family: Key): nat {
    multiset(s.audits)[family]
  }

  /** A call that is about to store a token in the family. */
  predicate Minting(fiber: Fiber, family: Key) {
    (fiber.PutAccess? || fiber.PutRefresh? || fiber.GrantAccess? || fiber.GrantRefresh?) && fiber.family == family
  }

  /** Dead for good: drawn, nothing live, and nobody about to store a token in it. */
  ghost predicate Quiet(s: State, family: Key) {
    && family in s.families && LiveOf(s.tokens, family) == {}
    && forall f | f in s.fibers :: !Minting(s.fibers[f], family)
  }

  lemma QuietTokens(s: State, step: Step, family: Key)
    requires IdsDrawn(s) && Quiet(s, family) && Enabled(s, step)
    ensures LiveOf(Apply(s, step).tokens, family) == {}
  {
    var s' := Apply(s, step);
    assert step.MintAccess? || step.MintRefresh? ==> !Minting(s.fibers[step.f], family);
    forall id | InFamily(s'.tokens, id, family)
      ensures !Live(s'.tokens, id)
    {
      if id in s.used {
        TokensOnlyDie(s, step, id);
        assert id !in LiveOf(s.tokens, family);
      }
    }
  }

  lemma QuietStays(s: State, step: Step, family: Key)
    requires IdsDrawn(s) && Quiet(s, family) && Enabled(s, step)
    ensures Quiet(Apply(s, step), family) && AuditsOf(Apply(s, step), family) == AuditsOf(s, family)
  {
    QuietTokens(s, step, family);
    var s' := Apply(s, step);
    forall f | f in s'.fibers
      ensures !Minting(s'.fibers[f], family)
    {
      if !Acts(step, f) {
        OthersStay(s, step, f);
      } else if step.Present? && step.token in s.tokens {
        assert step.token !in LiveOf(s.tokens, family);
      }
    }
  }

  lemma {:induction false} QuietForever(states: seq<State>, steps: seq<Step>, j: nat, family: Key)
    requires IsSpan(states, steps) && j < |states| && Inv(states[0]) && Quiet(states[0], family)
    ensures Inv(states[j]) && Quiet(states[j], family) && AuditsOf(states[j], family) == AuditsOf(states[0], family)
  {
    if j > 0 {
      QuietForever(states, steps, j - 1, family);
      KeepsInv(states[j - 1], steps[j - 1]);
      QuietStays(states[j - 1], steps[j - 1], family);
    }
  }

  /** The documented "once": after a sweep, as soon as no refresh is in flight, nothing more is ever
      audited for the family. */
  lemma AuditedNoMore(states: seq<State>, steps: seq<Step>, i: nat, j: nat, family: Key)
    requires IsRun(states, steps) && i <= j < |states| && NoRefreshInFlight(states[i])
    requires family in states[i].swept || family in states[i].flagged
    ensures AuditsOf(states[j], family) == AuditsOf(states[i], family)
  {
    SweptFamilyIsDead(states, steps, i, family);
    RunsKeepInv(states, steps, i);
    SettledIsQuiet(states[i], family);
    assert IsSpan(states[i..], steps[i..]);
    QuietForever(states[i..], steps[i..], j - i, family);
  }

  lemma SettledIsQuiet(s: State, family: Key)
    requires Inv(s) && NoRefreshInFlight(s) && (family in s.swept || family in s.flagged) && LiveOf(s.tokens, family) == {}
    ensures Quiet(s, family)
  {
    assert !Sweeper(s, family);
    forall f | f in s.fibers
      ensures !Minting(s.fibers[f], family)
    {
      if Granting(s.fibers[f]) {
        assert Untouched(s, f, s.fibers[f].family);
      }
    }
  }

  /** Some run leads from one state to the other. */
  ghost predicate Follows(s: State, later: State) {
    exists states, steps :: IsSpan(states, steps) && states[0] == s && states[|steps|] == later
  }

  lemma FollowsItself(s: State)
    ensures Follows(s, s)
  {
    var states, steps: seq<Step> := [s], [];
    assert IsSpan(states, steps) && states[|steps|] == s;
  }

  lemma FollowsStep(s: State, later: State, step: Step)
    requires Follows(s, later) && Enabled(later, step)
    ensures Follows(s, Apply(later, step))
  {
    var states, steps :| IsSpan(states, steps) && states[0] == s && states[|steps|] == later;
    var more, longer := states + [Apply(later, step)], steps + [step];
    assert IsSpan(more, longer) && more[0] == s && more[|longer|] == Apply(later, step);
  }

  lemma ReachedKeepsInv(s: State)
    requires Follows(INITIAL, s)
    ensures Inv(s)
  {
    var states, steps :| IsSpan(states, steps) && states[0] == INITIAL && states[|steps|] == s;
    RunsKeepInv(states, steps, |steps|);
  }

  // ---- exactly when a family is audited again ----

  /** A rotated-away refresh token that is still stored: presenting it is the reuse. */
  predicate RotatedAway(tokens: Tokens, id: Key) {
    id in tokens && tokens[id].kind == Refresh && tokens[id].revokedAt.Some? && tokens[id].rotatedAt.Some?
  }

  lemma NewCall(fibers: map<nat, Fiber>) returns (f: nat)
    ensures f !in fibers
  {
    f := NewNumber(fibers.Keys);
  }

  lemma {:induction false} NewNumber(numbers: set<nat>) returns (n: nat)
    ensures forall m | m in numbers :: m < n
  {
    if numbers == {} {
      n := 0;
    } else {
      var m :| m in numbers;
      var above := NewNumber(numbers - {m});
      n := if above > m then above else m + 1;
      forall k | k in numbers ensures k < n {
        assert k == m || k in numbers - {m};
      }
    }
  }

  lemma NewId(used: set<Key>) returns (id: Key)
    ensures id !in used
  {
    var lengths := set k | k in used :: |k.id|;
    var n := NewNumber(lengths);
    id := Key("", seq(n, _ => 'x'));
    assert id in used ==> |id.id| in lengths;
  }

  /** Whoever presents the rotated-away token while something of the family is live is audited. */
  lemma ReplayAudits(s: State, later: State, id: Key) returns (last: State)
    requires Follows(s, later) && RotatedAway(later.tokens, id) && LiveOf(later.tokens, later.tokens[id].family) != {}
    ensures Follows(s, last) && last.audits == later.audits + [later.tokens[id].family]
  {
    var f := NewCall(later.fibers);
    var record := later.tokens[id];
    var present := Present(f, id, record.client, record.expiresAt - 1);
    FollowsStep(s, later, present);
    var caught := Apply(later, present);
    assert caught.fibers[f] == ReuseSweep(record.family);
    FollowsStep(s, caught, Sweep(f, 0));
    last := Apply(caught, Sweep(f, 0));
  }

  /** A call about to store a token makes the family live again. */
  lemma MintRevives(s: State, f: nat, family: Key, id: Key) returns (later: State)
    requires Inv(s) && f in s.fibers && Minting(s.fibers[f], family) && RotatedAway(s.tokens, id) && s.tokens[id].family == family
    ensures Follows(s, later) && later.audits == s.audits && LiveOf(later.tokens, family) != {}
    ensures RotatedAway(later.tokens, id) && later.tokens[id].family == family
  {
    var drawn := NewId(s.used);
    var fiber := s.fibers[f];
    var step := if fiber.PutAccess? || fiber.GrantAccess? then MintAccess(f, drawn, "", 0) else MintRefresh(f, drawn, "", 0);
    FollowsItself(s);
    FollowsStep(s, s, step);
    later := Apply(s, step);
    assert drawn in LiveOf(later.tokens, family);
  }

  /** As long as a rotated-away token of the family is stored, one more audit can follow, however many
      there were, exactly when something of the family is live or a call is about to store a token. */
  lemma AuditedAgainIff(s: State, family: Key, id: Key)
    requires Follows(INITIAL, s) && RotatedAway(s.tokens, id) && s.tokens[id].family == family
    ensures (exists later :: Follows(s, later) && AuditsOf(later, family) > AuditsOf(s, family)) <==> !Quiet(s, family)
  {
    ReachedKeepsInv(s);
    if !Quiet(s, family) {
      var later := AuditedAgain(s, family, id);
    } else {
      forall later | Follows(s, later)
        ensures AuditsOf(later, family) == AuditsOf(s, family)
      {
        var states, steps :| IsSpan(states, steps) && states[0] == s && states[|steps|] == later;
        QuietForever(states, steps, |steps|, family);
      }
    }
  }

  lemma AuditedAgain(s: State, family: Key, id: Key) returns (last: State)
    requires Inv(s) && RotatedAway(s.tokens, id) && s.tokens[id].family == family && !Quiet(s, family)
    ensures Follows(s, last) && last.audits == s.audits + [family]
  {
    FollowsItself(s);
    if LiveOf(s.tokens, family) != {} {
      last := ReplayAudits(s, s, id);
    } else {
      var f :| f in s.fibers && Minting(s.fibers[f], family);
      var later := MintRevives(s, f, family, id);
      last := ReplayAudits(s, later, id);
    }
  }

  // A run that audits one family twice: two calls find the token live, the first rotates it, a
  // replay of it is caught and swept, and the second call goes on.

  const FAMILY := Key("t", "family")
  const TOKEN := Key("t", "refresh")

  /** A grant has been exchanged: its refresh token is live. */
  lemma Granted() returns (s: State)
    ensures Follows(INITIAL, s) && s.audits == [] && s.used == {Key("t", "access"), TOKEN} && s.fibers.Keys == {0}
    ensures TOKEN in s.tokens && s.tokens[TOKEN] == Minted(Refresh, "c", FAMILY, 10)
  {
    FollowsItself(INITIAL);
    var code := Key("t", "code");
    var exchange := ConsumeCode(0, code, "c", "r", "h", 0, FAMILY);
    FollowsStep(INITIAL, INITIAL, Authorize(code, Code("c", "r", "h", 10, false)));
    var s1 := Apply(INITIAL, Authorize(code, Code("c", "r", "h", 10, false)));
    FollowsStep(INITIAL, s1, exchange);
    var s2 := Apply(s1, exchange);
    FollowsStep(INITIAL, s2, MintAccess(0, Key("t", "access"), "c", 10));
    var s3 := Apply(s2, MintAccess(0, Key("t", "access"), "c", 10));
    FollowsStep(INITIAL, s3, MintRefresh(0, TOKEN, "c", 10));
    s := Apply(s3, MintRefresh(0, TOKEN, "c", 10));
  }

  /** Both present it, and the first one rotates it. */
  lemma RotatedMeanwhile() returns (s: State)
    ensures Follows(INITIAL, s) && s.audits == [] && 2 in s.fibers && s.fibers[2] == PutAccess(TOKEN, FAMILY)
    ensures RotatedAway(s.tokens, TOKEN) && s.tokens[TOKEN].family == FAMILY && LiveOf(s.tokens, FAMILY) != {}
  {
    var s0 := Granted();
    FollowsStep(INITIAL, s0, Present(1, TOKEN, "c", 1));
    var s1 := Apply(s0, Present(1, TOKEN, "c", 1));
    FollowsStep(INITIAL, s1, Present(2, TOKEN, "c", 1));
    var s2 := Apply(s1, Present(2, TOKEN, "c", 1));
    FollowsStep(INITIAL, s2, MintAccess(1, Key("t", "a1"), "c", 10));
    var s3 := Apply(s2, MintAccess(1, Key("t", "a1"), "c", 10));
    FollowsStep(INITIAL, s3, MintRefresh(1, Key("t", "r1"), "c", 10));
    var s4 := Apply(s3, MintRefresh(1, Key("t", "r1"), "c", 10));
    FollowsStep(INITIAL, s4, TryRotate(1, 1));
    s := Apply(s4, TryRotate(1, 1));
    assert Key("t", "r1") in LiveOf(s.tokens, FAMILY);
  }

  /** So "audited, once" fails while a refresh is in flight. */
  lemma AuditedTwice() returns (s: State)
    ensures Follows(INITIAL, s) && AuditsOf(s, FAMILY) == 2
  {
    var s0 := RotatedMeanwhile();
    var f := NewCall(s0.fibers);
    var present := Present(f, TOKEN, s0.tokens[TOKEN].client, s0.tokens[TOKEN].expiresAt - 1);
    FollowsStep(INITIAL, s0, present);
    var s1 := Apply(s0, present);
    FollowsStep(INITIAL, s1, Sweep(f, 1));
    var s2 := Apply(s1, Sweep(f, 1));
    assert s2.audits == [FAMILY] && Minting(s2.fibers[2], FAMILY);
    ReachedKeepsInv(s2);
    s := AuditedAgain(s2, FAMILY, TOKEN);
    FollowsOn(INITIAL, s2, s);
    assert s.audits == [FAMILY, FAMILY];
  }

  lemma FollowsOn(a: State, b: State, c: State)
    requires Follows(a, b) && Follows(b, c)
    ensures Follows(a, c)
  {
    var states, steps :| IsSpan(states, steps) && states[0] == a && states[|steps|] == b;
    var others, more :| IsSpan(others, more) && others[0] == b && others[|more|] == c;
    var all, both := states + others[1..], steps + more;
    forall i | 0 <= i < |both| ensures Enabled(all[i], both[i]) && all[i + 1] == Apply(all[i], both[i]) {
      if i >= |steps| {
        assert all[i] == others[i - |steps|] && all[i + 1] == others[i - |steps| + 1];
      }
    }
    assert IsSpan(all, both);
  }
}
