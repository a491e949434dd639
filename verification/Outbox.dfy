/** The outbox: due entries are claimed under a lease, settled under the claim's token,
    dead-lettered and replayed. */
module OutboxTable {
  import opened Prelude

  datatype Status = Pending | Published | Dead

  datatype Entry = Entry(
    id: string, status: Status, attempts: nat, availableAt: Option<int>,
    claimToken: Option<nat>, leaseUntil: Option<int>)

  type Rows = seq<Entry>

  predicate DistinctIds(rows: Rows) {
    forall i, j | 0 <= i < j < |rows| :: rows[i].id != rows[j].id
  }

  predicate HasId(rows: Rows, id: string) {
    exists i :: 0 <= i < |rows| && rows[i].id == id
  }

  /** The WHERE clause of `pending` and `claim`. */
  predicate Due(e: Entry, now: int) {
    && e.status == Pending
    && (e.availableAt.None? || e.availableAt.value <= now)
    && (e.claimToken.None? || e.leaseUntil.None? || e.leaseUntil.value <= now)
  }

  /** The WHERE clause of the settlements: pending and, when fenced, under this very claim. */
  predicate Settles(e: Entry, ids: set<string>, claim: Option<nat>) {
    e.id in ids && e.status == Pending && (claim.None? || e.claimToken == claim)
  }

  function Update(rows: Rows, f: Entry -> Entry): (r: Rows)
    ensures |r| == |rows|
    ensures forall i | 0 <= i < |rows| :: r[i] == f(rows[i])
  {
    seq(|rows|, i requires 0 <= i < |rows| => f(rows[i]))
  }

  function Claimed(picked: set<string>, token: nat, until: int): Entry -> Entry {
    (e: Entry) => if e.id in picked then e.(claimToken := Some(token), leaseUntil := Some(until)) else e
  }

  function MarkedPublished(ids: set<string>, claim: Option<nat>): Entry -> Entry {
    (e: Entry) => if Settles(e, ids, claim) then e.(status := Published, claimToken := None, leaseUntil := None) else e
  }

  function MarkedFailed(id: string, attempts: nat, retryAt: Option<int>, claim: Option<nat>): Entry -> Entry {
    (e: Entry) => if Settles(e, {id}, claim) then e.(attempts := attempts, availableAt := retryAt) else e
  }

  function MarkedDead(id: string, claim: Option<nat>): Entry -> Entry {
    (e: Entry) => if Settles(e, {id}, claim) then e.(status := Dead, claimToken := None, leaseUntil := None) else e
  }

  function Replayed(ids: set<string>): Entry -> Entry {
    (e: Entry) => if e.id in ids && e.status == Dead
         then e.(status := Pending, attempts := 0, availableAt := None, claimToken := None, leaseUntil := None) else e
  }

  /** Due, and not locked by another relay at this moment. */
  predicate Free(entry: Entry, now: int, locked: set<string>) {
    Due(entry, now) && entry.id !in locked
  }

  /** The due entries nobody has locked, in enqueue order. */
  function DueIds(rows: Rows, now: int, locked: set<string>): seq<string> {
    if rows == [] then []
    else
      var last := rows[|rows| - 1];
      DueIds(rows[..|rows| - 1], now, locked) + if Free(last, now, locked) then [last.id] else []
  }

  function FirstOf(ids: seq<string>, limit: nat): seq<string> {
    if |ids| <= limit then ids else ids[..limit]
  }

  /** At most `limit` free entries: all of them if there are no more, and none while an earlier free
      one is left out. */
  ghost predicate IsPick(rows: Rows, picked: seq<string>, limit: nat, now: int, locked: set<string>) {
    && |picked| <= limit
    && (forall id | id in picked :: HasId(rows, id))
    && (forall i | 0 <= i < |rows| && rows[i].id in picked :: Free(rows[i], now, locked))
    && (|picked| < limit ==> forall i | 0 <= i < |rows| && Free(rows[i], now, locked) :: rows[i].id in picked)
    && (forall i, j | 0 <= i < j < |rows| && rows[j].id in picked && Free(rows[i], now, locked) :: rows[i].id in picked)
  }

  /** The table, each statement one in-place update. */
  class Table {
    var rows: Rows

    constructor ()
      ensures rows == []
    {
      rows := [];
    }

    /** Idempotent per id: an id already there is left as it is. */
    method Enqueue(id: string, availableAt: Option<int>)
      modifies this
      ensures if HasId(old(rows), id) then rows == old(rows)
              else rows == old(rows) + [Entry(id, Pending, 0, availableAt, None, None)]
    {
      for i := 0 to |rows|
        invariant rows == old(rows) && forall j | 0 <= j < i :: rows[j].id != id
      {
        if rows[i].id == id {
          return;
        }
      }
      rows := rows + [Entry(id, Pending, 0, availableAt, None, None)];
    }

    /** The first `limit` due entries in enqueue order, passing over those another relay has locked
        at this moment. */
    method Pick(limit: nat, now: int, locked: set<string>) returns (picked: seq<string>)
      requires DistinctIds(rows)
      ensures IsPick(rows, picked, limit, now, locked)
      ensures picked == FirstOf(DueIds(rows, now, locked), limit)
    {
      picked := [];
      for i := 0 to |rows|
        invariant picked == FirstOf(DueIds(rows[..i], now, locked), limit)
        invariant |picked| <= limit
        invariant forall id | id in picked :: exists j :: 0 <= j < i && rows[j].id == id
        invariant forall j | 0 <= j < i && rows[j].id in picked :: Free(rows[j], now, locked)
        invariant |picked| < limit ==> forall j | 0 <= j < i && Free(rows[j], now, locked) :: rows[j].id in picked
        invariant forall j, k | 0 <= j < k < i && rows[k].id in picked && Free(rows[j], now, locked) ::
                    rows[j].id in picked
      {
        assert rows[..i + 1][..i] == rows[..i];
        if |picked| < limit && Free(rows[i], now, locked) {
          picked := picked + [rows[i].id];
        }
      }
      assert rows[..|rows|] == rows;
    }

    method Claim(limit: nat, now: int, lease: nat, token: nat, locked: set<string>) returns (picked: seq<string>)
      requires DistinctIds(rows)
      modifies this
      ensures rows == Update(old(rows), Claimed((set id | id in picked), token, now + lease))
      ensures IsPick(old(rows), picked, limit, now, locked)
      ensures picked == FirstOf(DueIds(old(rows), now, locked), limit)
    {
      picked := Pick(limit, now, locked);
      rows := Update(rows, Claimed((set id | id in picked), token, now + lease));
    }

    method MarkPublished(ids: set<string>, claim: Option<nat>) returns (settled: bool)
      modifies this
      ensures rows == Update(old(rows), MarkedPublished(ids, claim))
      ensures settled <==> exists i :: 0 <= i < |old(rows)| && Settles(old(rows)[i], ids, claim)
    {
      settled := AnySettles(ids, claim);
      rows := Update(rows, MarkedPublished(ids, claim));
    }

    method MarkDead(id: string, claim: Option<nat>) returns (settled: bool)
      modifies this
      ensures rows == Update(old(rows), MarkedDead(id, claim))
      ensures settled <==> exists i :: 0 <= i < |old(rows)| && Settles(old(rows)[i], {id}, claim)
    {
      settled := AnySettles({id}, claim);
      rows := Update(rows, MarkedDead(id, claim));
    }

    /** A failed delivery keeps its claim and waits for `retryAt`. */
    method MarkFailed(id: string, attempts: nat, retryAt: Option<int>, claim: Option<nat>) returns (settled: bool)
      modifies this
      ensures rows == Update(old(rows), MarkedFailed(id, attempts, retryAt, claim))
      ensures settled <==> exists i :: 0 <= i < |old(rows)| && Settles(old(rows)[i], {id}, claim)
    {
      settled := AnySettles({id}, claim);
      rows := Update(rows, MarkedFailed(id, attempts, retryAt, claim));
    }

    method Replay(ids: set<string>)
      modifies this
      ensures rows == Update(old(rows), Replayed(ids))
    {
      rows := Update(rows, Replayed(ids));
    }

    method AnySettles(ids: set<string>, claim: Option<nat>) returns (any: bool)
      ensures any <==> exists i :: 0 <= i < |rows| && Settles(rows[i], ids, claim)
    {
      for i := 0 to |rows|
        invariant forall j | 0 <= j < i :: !Settles(rows[j], ids, claim)
      {
        if Settles(rows[i], ids, claim) {
          return true;
        }
      }
      return false;
    }
  }
}

/** Any number of relays, settlements, dead-letterings and replays, in any order. Tokens are
    fresh; every relay reads its own clock, and none of the clocks needs to agree with another. */
module OutboxProtocol {
  import opened Prelude
  import opened OutboxTable

  /** A claim as it was answered: token, entries, the clock reading and the lease's end. `epochs`
      says how often each entry had been replayed by then. */
  datatype Lease = Lease(token: nat, ids: set<string>, now: int, until: int, epochs: map<string, nat>)

  datatype State = State(
    rows: Rows, leases: seq<Lease>, epochs: map<string, nat>, tokens: set<nat>, published: seq<string>)

  datatype Step =
    | Enqueue(id: string, availableAt: Option<int>)
    | Claim(picked: set<string>, token: nat, now: int, lease: nat)
    | Publish(ids: set<string>, claim: Option<nat>)
    | Fail(id: string, attempts: nat, retryAt: Option<int>, claim: Option<nat>)
    | Bury(id: string, claim: Option<nat>)
    | Replay(ids: set<string>)

  function EpochOf(epochs: map<string, nat>, id: string): nat {
    if id in epochs then epochs[id] else 0
  }

  predicate Enabled(s: State, step: Step) {
    match step
    case Claim(picked, token, now, _) =>
      && token !in s.tokens
      && (forall id | id in picked :: HasId(s.rows, id))
      && (forall i | 0 <= i < |s.rows| && s.rows[i].id in picked :: Due(s.rows[i], now))
    case _ => true
  }

  /** The ids a publish settles: pending and, when fenced, under the claim. */
  function SettledIds(rows: Rows, ids: set<string>, claim: Option<nat>): seq<string> {
    if rows == [] then []
    else
      var rest := SettledIds(rows[..|rows| - 1], ids, claim);
      if Settles(rows[|rows| - 1], ids, claim) then rest + [rows[|rows| - 1].id] else rest
  }

  function BuriedIds(rows: Rows, ids: set<string>): set<string> {
    set i | 0 <= i < |rows| && rows[i].id in ids && rows[i].status == Dead :: rows[i].id
  }

  function Apply(s: State, step: Step): State
    requires Enabled(s, step)
  {
    match step
    case Enqueue(id, availableAt) =>
      if HasId(s.rows, id) then s else s.(rows := s.rows + [Entry(id, Pending, 0, availableAt, None, None)])
    case Claim(picked, token, now, lease) =>
      s.(rows := Update(s.rows, Claimed(picked, token, now + lease)),
         leases := s.leases + [Lease(token, picked, now, now + lease, s.epochs)],
         tokens := s.tokens + {token})
    case Publish(ids, claim) =>
      s.(rows := Update(s.rows, MarkedPublished(ids, claim)),
         published := s.published + SettledIds(s.rows, ids, claim))
    case Fail(id, attempts, retryAt, claim) => s.(rows := Update(s.rows, MarkedFailed(id, attempts, retryAt, claim)))
    case Bury(id, claim) => s.(rows := Update(s.rows, MarkedDead(id, claim)))
    case Replay(ids) =>
      var buried := BuriedIds(s.rows, ids);
      s.(rows := Update(s.rows, Replayed(ids)),
         epochs := map id | id in s.epochs.Keys + buried ::
                     if id in buried then EpochOf(s.epochs, id) + 1 else s.epochs[id])
  }

  ghost predicate IsRun(states: seq<State>, steps: seq<Step>) {
    && |states| == |steps| + 1
    && states[0] == State([], [], map[], {}, [])
    && forall i | 0 <= i < |steps| :: Enabled(states[i], steps[i]) && states[i + 1] == Apply(states[i], steps[i])
  }

  // ---- the invariant ----

  /** The lease was taken on the entry's present life, not before a replay. */
  predicate Current(s: State, k: nat, id: string)
    requires k < |s.leases|
  {
    id in s.leases[k].ids && EpochOf(s.leases[k].epochs, id) == EpochOf(s.epochs, id)
  }

  /** A pending entry is leased at least as long as every claim of its present life. */
  ghost predicate Covered(s: State, e: Entry) {
    e.status == Pending ==>
      forall k | 0 <= k < |s.leases| && Current(s, k, e.id) ::
        e.claimToken.Some? && e.leaseUntil.Some? && e.leaseUntil.value >= s.leases[k].until
  }

  /** A claim token on a row is the token of the last claim that took it. */
  ghost predicate Owned(s: State, e: Entry) {
    e.claimToken.Some? ==>
      exists k :: 0 <= k < |s.leases| && s.leases[k].token == e.claimToken.value && LastFor(s.leases, k, e.id)
  }

  ghost predicate LastFor(leases: seq<Lease>, k: nat, id: string)
    requires k < |leases|
  {
    id in leases[k].ids && forall m | k < m < |leases| :: id !in leases[m].ids
  }

  ghost predicate RowsOk(s: State) {
    DistinctIds(s.rows) && forall i | 0 <= i < |s.rows| :: Covered(s, s.rows[i]) && Owned(s, s.rows[i])
  }

  ghost predicate LeasesOk(s: State) {
    && (forall k | 0 <= k < |s.leases| :: s.leases[k].token in s.tokens && s.leases[k].now <= s.leases[k].until)
    && (forall j, k | 0 <= j < k < |s.leases| :: s.leases[j].token != s.leases[k].token)
    && (forall k, id | 0 <= k < |s.leases| && id in s.leases[k].ids ::
          HasId(s.rows, id) && EpochOf(s.leases[k].epochs, id) <= EpochOf(s.epochs, id))
    && (forall j, k, id | 0 <= j < k < |s.leases| && id in s.leases[j].ids && id in s.leases[k].ids ::
          Disjoint(s.leases[j], s.leases[k], id))
  }

  /** The earlier lease had ended by the later claimer's clock, or a replay lies between them. */
  predicate Disjoint(earlier: Lease, later: Lease, id: string) {
    earlier.until <= later.now || EpochOf(earlier.epochs, id) < EpochOf(later.epochs, id)
  }

  predicate IsPublished(rows: Rows, id: string) {
    exists r :: 0 <= r < |rows| && rows[r].id == id && rows[r].status == Published
  }

  ghost predicate PublishedOk(s: State) {
    && (forall i | 0 <= i < |s.published| :: IsPublished(s.rows, s.published[i]))
    && (forall i, j | 0 <= i < j < |s.published| :: s.published[i] != s.published[j])
  }

  ghost predicate Inv(s: State) {
    RowsOk(s) && LeasesOk(s) && PublishedOk(s)
  }

  // ---- every step keeps it ----

  /** What a settlement does to a row: its claim stays, or it leaves `pending` and loses the claim. */
  predicate Eased(e: Entry, after: Entry) {
    && after.id == e.id
    && (e.status == Published ==> after.status == Published)
    && ((after.claimToken == e.claimToken && after.leaseUntil == e.leaseUntil && after.status == e.status)
        || (after.status != Pending && after.claimToken.None?))
  }

  predicate SameIds(rows: Rows, after: Rows) {
    |after| == |rows| && forall i | 0 <= i < |rows| :: after[i].id == rows[i].id
  }

  lemma EasedRow(s: State, t: State, e: Entry, after: Entry)
    requires Covered(s, e) && Owned(s, e) && Eased(e, after) && t.leases == s.leases && t.epochs == s.epochs
    ensures Covered(t, after) && Owned(t, after)
  {
    forall k | 0 <= k < |t.leases| && Current(t, k, e.id) ensures Current(s, k, e.id) { }
  }

  lemma EasingKeepsRows(s: State, t: State)
    requires RowsOk(s) && t.leases == s.leases && t.epochs == s.epochs && |t.rows| == |s.rows|
    requires forall i | 0 <= i < |s.rows| :: Eased(s.rows[i], t.rows[i])
    ensures RowsOk(t)
  {
    forall i | 0 <= i < |t.rows| ensures Covered(t, t.rows[i]) && Owned(t, t.rows[i]) {
      EasedRow(s, t, s.rows[i], t.rows[i]);
    }
  }

  lemma EnqueueKeepsRows(s: State, id: string, availableAt: Option<int>)
    requires RowsOk(s) && LeasesOk(s) && !HasId(s.rows, id)
    ensures RowsOk(Apply(s, Enqueue(id, availableAt)))
  {
    var t := Apply(s, Enqueue(id, availableAt));
    forall i | 0 <= i < |t.rows| ensures Covered(t, t.rows[i]) && Owned(t, t.rows[i]) {
      if i < |s.rows| {
        EasedRow(s, t, s.rows[i], t.rows[i]);
      }
    }
  }

  lemma ClaimedRow(s: State, e: Entry, picked: set<string>, token: nat, now: int, lease: nat)
    requires Enabled(s, Claim(picked, token, now, lease)) && Covered(s, e) && Owned(s, e)
    requires e.id in picked ==> Due(e, now)
    ensures Covered(Apply(s, Claim(picked, token, now, lease)), Claimed(picked, token, now + lease)(e))
    ensures Owned(Apply(s, Claim(picked, token, now, lease)), Claimed(picked, token, now + lease)(e))
  {
    var t := Apply(s, Claim(picked, token, now, lease));
    var after := Claimed(picked, token, now + lease)(e);
    var n := |s.leases|;
    assert forall k | 0 <= k < n :: t.leases[k] == s.leases[k];
    assert t.leases[n] == Lease(token, picked, now, now + lease, s.epochs);
    forall k | 0 <= k < |t.leases| && Current(t, k, e.id) && after.status == Pending
      ensures after.claimToken.Some? && after.leaseUntil.Some? && after.leaseUntil.value >= t.leases[k].until
    {
      if k < n {
        assert Current(s, k, e.id);
      }
    }
    if e.id in picked {
      assert LastFor(t.leases, n, e.id);
    } else if after.claimToken.Some? {
      var k :| 0 <= k < n && s.leases[k].token == e.claimToken.value && LastFor(s.leases, k, e.id);
      assert LastFor(t.leases, k, e.id);
    }
  }

  lemma ClaimKeepsRows(s: State, picked: set<string>, token: nat, now: int, lease: nat)
    requires RowsOk(s) && Enabled(s, Claim(picked, token, now, lease))
    ensures RowsOk(Apply(s, Claim(picked, token, now, lease)))
  {
    var t := Apply(s, Claim(picked, token, now, lease));
    forall i | 0 <= i < |t.rows| ensures Covered(t, t.rows[i]) && Owned(t, t.rows[i]) {
      ClaimedRow(s, s.rows[i], picked, token, now, lease);
    }
  }

  lemma ReplayKeepsRows(s: State, ids: set<string>)
    requires RowsOk(s) && LeasesOk(s)
    ensures RowsOk(Apply(s, Replay(ids)))
  {
    var t := Apply(s, Replay(ids));
    var buried := BuriedIds(s.rows, ids);
    forall i | 0 <= i < |t.rows| ensures Covered(t, t.rows[i]) && Owned(t, t.rows[i]) {
      var e := s.rows[i];
      assert Covered(s, e) && Owned(s, e);
      if e.id in ids && e.status == Dead {
        assert e.id in buried;
        forall k | 0 <= k < |t.leases| ensures !Current(t, k, e.id) { }
      } else {
        assert e.id !in buried;
        forall k | 0 <= k < |t.leases| && Current(t, k, e.id) ensures Current(s, k, e.id) { }
      }
    }
  }

  lemma UnclaimingKeepsLeases(s: State, t: State)
    requires LeasesOk(s) && t.leases == s.leases && t.tokens == s.tokens
    requires forall id | HasId(s.rows, id) :: HasId(t.rows, id)
    requires forall id | HasId(s.rows, id) :: EpochOf(s.epochs, id) <= EpochOf(t.epochs, id)
    ensures LeasesOk(t)
  {
  }

  lemma SameIdsHasId(rows: Rows, after: Rows, id: string)
    requires SameIds(rows, after)
    ensures HasId(rows, id) <==> HasId(after, id)
  {
    if HasId(rows, id) {
      var i :| 0 <= i < |rows| && rows[i].id == id;
      assert after[i].id == id;
    }
    if HasId(after, id) {
      var i :| 0 <= i < |after| && after[i].id == id;
      assert rows[i].id == id;
    }
  }

  /** The picked entries were due, so no earlier lease of their present life reaches past `now`. */
  lemma ClaimIsDisjoint(s: State, picked: set<string>, token: nat, now: int, lease: nat, j: nat, id: string)
    requires RowsOk(s) && LeasesOk(s) && Enabled(s, Claim(picked, token, now, lease))
    requires j < |s.leases| && id in s.leases[j].ids && id in picked
    ensures Disjoint(s.leases[j], Lease(token, picked, now, now + lease, s.epochs), id)
  {
    var i :| 0 <= i < |s.rows| && s.rows[i].id == id;
    assert Covered(s, s.rows[i]);
    if EpochOf(s.leases[j].epochs, id) == EpochOf(s.epochs, id) {
      assert Current(s, j, id);
    }
  }

  lemma ClaimKeepsLeases(s: State, picked: set<string>, token: nat, now: int, lease: nat)
    requires RowsOk(s) && LeasesOk(s) && Enabled(s, Claim(picked, token, now, lease))
    ensures LeasesOk(Apply(s, Claim(picked, token, now, lease)))
  {
    var t := Apply(s, Claim(picked, token, now, lease));
    var n := |s.leases|;
    assert forall k | 0 <= k < n :: t.leases[k] == s.leases[k];
    assert t.leases[n] == Lease(token, picked, now, now + lease, s.epochs);
    forall k, id | 0 <= k < |t.leases| && id in t.leases[k].ids ensures HasId(t.rows, id) {
      SameIdsHasId(s.rows, t.rows, id);
    }
    forall j, k, id | 0 <= j < k < |t.leases| && id in t.leases[j].ids && id in t.leases[k].ids
      ensures Disjoint(t.leases[j], t.leases[k], id)
    {
      if k == n {
        ClaimIsDisjoint(s, picked, token, now, lease, j, id);
      }
    }
  }

  lemma PublishedStays(rows: Rows, after: Rows, id: string)
    requires |rows| <= |after| && IsPublished(rows, id)
    requires forall i | 0 <= i < |rows| :: after[i].id == rows[i].id
                                           && (rows[i].status == Published ==> after[i].status == Published)
    ensures IsPublished(after, id)
  {
    var r :| 0 <= r < |rows| && rows[r].id == id && rows[r].status == Published;
    assert after[r].id == id;
  }

  lemma {:induction false} SettledAre(rows: Rows, ids: set<string>, claim: Option<nat>)
    requires DistinctIds(rows)
    ensures forall x | x in SettledIds(rows, ids, claim) ::
              exists i :: 0 <= i < |rows| && rows[i].id == x && Settles(rows[i], ids, claim)
    ensures forall i, j | 0 <= i < j < |SettledIds(rows, ids, claim)| ::
              SettledIds(rows, ids, claim)[i] != SettledIds(rows, ids, claim)[j]
  {
    if rows != [] {
      var n := |rows| - 1;
      SettledAre(rows[..n], ids, claim);
      var rest := SettledIds(rows[..n], ids, claim);
      forall x | x in rest
        ensures exists i :: 0 <= i < n && rows[i].id == x && Settles(rows[i], ids, claim)
      {
        var i :| 0 <= i < n && rows[..n][i].id == x && Settles(rows[..n][i], ids, claim);
        assert rows[i].id == x;
      }
      assert rows[n].id !in rest;
      assert forall i | 0 <= i < |rest| :: rest[i] in rest;
    }
  }

  lemma PublishKeepsPublished(s: State, ids: set<string>, claim: Option<nat>)
    requires DistinctIds(s.rows) && PublishedOk(s)
    ensures PublishedOk(Apply(s, Publish(ids, claim)))
  {
    var t := Apply(s, Publish(ids, claim));
    var added := SettledIds(s.rows, ids, claim);
    SettledAre(s.rows, ids, claim);
    forall x | x in added ensures IsPublished(t.rows, x) && x !in s.published {
      var i :| 0 <= i < |s.rows| && s.rows[i].id == x && Settles(s.rows[i], ids, claim);
      assert t.rows[i].status == Published && t.rows[i].id == x;
    }
    forall k | 0 <= k < |t.published| ensures IsPublished(t.rows, t.published[k]) {
      if k < |s.published| {
        PublishedStays(s.rows, t.rows, s.published[k]);
      } else {
        assert t.published[k] == added[k - |s.published|];
      }
    }
    forall i, j | 0 <= i < j < |t.published| ensures t.published[i] != t.published[j] {
      if j >= |s.published| {
        assert t.published[j] == added[j - |s.published|];
        if i < |s.published| {
          assert t.published[i] in s.published;
        } else {
          assert t.published[i] == added[i - |s.published|];
        }
      }
    }
  }

  lemma OtherStepsKeepPublished(s: State, step: Step)
    requires Enabled(s, step) && PublishedOk(s) && !step.Publish?
    ensures PublishedOk(Apply(s, step))
  {
    var t := Apply(s, step);
    forall k | 0 <= k < |t.published| ensures IsPublished(t.rows, t.published[k]) {
      PublishedStays(s.rows, t.rows, s.published[k]);
    }
  }

  lemma StepKeepsRows(s: State, step: Step)
    requires RowsOk(s) && LeasesOk(s) && Enabled(s, step)
    ensures RowsOk(Apply(s, step))
  {
    match step
    case Enqueue(id, availableAt) => if !HasId(s.rows, id) { EnqueueKeepsRows(s, id, availableAt); }
    case Claim(picked, token, now, lease) => ClaimKeepsRows(s, picked, token, now, lease);
    case Publish(ids, claim) => EasingKeepsRows(s, Apply(s, step));
    case Fail(id, attempts, retryAt, claim) => EasingKeepsRows(s, Apply(s, step));
    case Bury(id, claim) => EasingKeepsRows(s, Apply(s, step));
    case Replay(ids) => ReplayKeepsRows(s, ids);
  }

  lemma StepKeepsLeases(s: State, step: Step)
    requires RowsOk(s) && LeasesOk(s) && Enabled(s, step)
    ensures LeasesOk(Apply(s, step))
  {
    if step.Claim? {
      ClaimKeepsLeases(s, step.picked, step.token, step.now, step.lease);
    } else {
      var t := Apply(s, step);
      forall id | HasId(s.rows, id) ensures HasId(t.rows, id) {
        var i :| 0 <= i < |s.rows| && s.rows[i].id == id;
        assert t.rows[i].id == id;
      }
      UnclaimingKeepsLeases(s, t);
    }
  }

  lemma KeepsInv(s: State, step: Step)
    requires Inv(s) && Enabled(s, step)
    ensures Inv(Apply(s, step))
  {
    StepKeepsRows(s, step);
    StepKeepsLeases(s, step);
    if step.Publish? {
      PublishKeepsPublished(s, step.ids, step.claim);
    } else {
      OtherStepsKeepPublished(s, step);
    }
  }

  lemma {:induction false} RunsKeepInv(states: seq<State>, steps: seq<Step>, i: nat)
    requires IsRun(states, steps) && i < |states|
    ensures Inv(states[i])
  {
    if i > 0 {
      RunsKeepInv(states, steps, i - 1);
      KeepsInv(states[i - 1], steps[i - 1]);
    }
  }

  // ---- the guarantees ----

  /** Two claims share an entry only if the first lease was over by the second claimer's clock, or
      the entry was dead-lettered and replayed in between. */
  lemma LeasesNeverOverlap(states: seq<State>, steps: seq<Step>, i: nat, j: nat, k: nat, id: string)
    requires IsRun(states, steps) && i < |states| && j < k < |states[i].leases|
    requires id in states[i].leases[j].ids && id in states[i].leases[k].ids
    ensures states[i].leases[j].until <= states[i].leases[k].now
            || EpochOf(states[i].leases[j].epochs, id) < EpochOf(states[i].leases[k].epochs, id)
  {
    RunsKeepInv(states, steps, i);
    assert Disjoint(states[i].leases[j], states[i].leases[k], id);
  }

  /** A settlement under a token changes only entries whose latest claim has that token. */
  lemma OnlyLatestClaimerSettles(states: seq<State>, steps: seq<Step>, i: nat, r: nat, ids: set<string>, k: nat)
    requires IsRun(states, steps) && i < |states| && r < |states[i].rows| && k < |states[i].leases|
    requires Settles(states[i].rows[r], ids, Some(states[i].leases[k].token))
    ensures states[i].rows[r].id in states[i].leases[k].ids
    ensures forall m | k < m < |states[i].leases| :: states[i].rows[r].id !in states[i].leases[m].ids
  {
    RunsKeepInv(states, steps, i);
    var s := states[i];
    assert Owned(s, s.rows[r]);
    var m :| 0 <= m < |s.leases| && s.leases[m].token == s.leases[k].token && LastFor(s.leases, m, s.rows[r].id);
    assert m == k;
  }

  /** A token no claim ever answered settles nothing. */
  lemma StrangerSettlesNothing(states: seq<State>, steps: seq<Step>, i: nat, r: nat, ids: set<string>, token: nat)
    requires IsRun(states, steps) && i < |states| && r < |states[i].rows|
    requires forall k | 0 <= k < |states[i].leases| :: states[i].leases[k].token != token
    ensures !Settles(states[i].rows[r], ids, Some(token))
  {
    RunsKeepInv(states, steps, i);
    assert Owned(states[i], states[i].rows[r]);
  }

  /** Over a whole run every entry is marked published at most once. */
  lemma PublishedOnce(states: seq<State>, steps: seq<Step>, i: nat, a: nat, b: nat)
    requires IsRun(states, steps) && i < |states| && a < b < |states[i].published|
    ensures states[i].published[a] != states[i].published[b]
  {
    RunsKeepInv(states, steps, i);
  }

  /** A row never changes its id, and once published it stays published; so a row turns published
      in at most one step of a run. */
  lemma {:induction false} PublishedForever(states: seq<State>, steps: seq<Step>, i: nat, j: nat, r: nat)
    requires IsRun(states, steps) && i <= j < |states| && r < |states[i].rows|
    ensures r < |states[j].rows| && states[j].rows[r].id == states[i].rows[r].id
    ensures states[i].rows[r].status == Published ==> states[j].rows[r].status == Published
    decreases j - i
  {
    if i < j {
      RunsKeepInv(states, steps, i);
      assert Enabled(states[i], steps[i]) && states[i + 1] == Apply(states[i], steps[i]);
      PublishedForever(states, steps, i + 1, j, r);
    }
  }
}
