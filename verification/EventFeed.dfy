/** Interleaved transactions over the events table: appends and erasures that take the stream
    lock, read the ledger and the version, take the commit-order lock, draw positions, and commit
    or roll back; and consumers that poll the feed and checkpoint the last position they saw.
    `h` is the hash that keys the stream locks; it may collide. */
module EventFeed {
  import opened Prelude
  import opened EventTable

  type TableRow = Row<string>

  datatype Request =
    | AppendRequest(stream: string, expected: nat, events: seq<string>)
    | EraseRequest(stream: string, expected: nat, at: int)

  datatype Outcome =
    | Committed
    | AlreadyErased
    | VersionConflict(actual: nat)
    | UniqueViolation
    | RolledBack

  /** Where a transaction stands between two statements. */
  datatype Txn =
    | Begun(req: Request)
    | Locked(req: Request)
    | NotErased(req: Request)
    | VersionMatched(req: Request)
    | Inserting(req: Request, staged: seq<TableRow>)
    | Rewriting(req: Request, rewritten: nat)
    | Done(outcome: Outcome)

  /** `delivered` is every position the consumer has been handed, in order. */
  datatype Consumer = Consumer(checkpoint: nat, delivered: seq<nat>)

  datatype State = State(
    rows: seq<TableRow>, ledger: map<string, nat>, nextPosition: nat,
    orderLock: Option<nat>, streamLocks: map<int, nat>,
    txns: map<nat, Txn>, consumers: map<nat, Consumer>)

  datatype Step =
    | Begin(t: nat, req: Request)
    | LockStream(t: nat)
    | ReadLedger(t: nat)
    | ReadVersion(t: nat)
    | LockOrder(t: nat)
    | Insert(t: nat)
    | Rewrite(t: nat)
    | Commit(t: nat)
    | Abort(t: nat)
    | Subscribe(c: nat)
    | Poll(c: nat, limit: Option<nat>)

  function From(rows: seq<TableRow>, from: nat): seq<TableRow> {
    if rows == [] then []
    else if rows[0].position >= from then [rows[0]] + From(rows[1..], from)
    else From(rows[1..], from)
  }

  function Placed(row: TableRow, sorted: seq<TableRow>): seq<TableRow> {
    if sorted == [] || row.position <= sorted[0].position then [row] + sorted
    else [sorted[0]] + Placed(row, sorted[1..])
  }

  function ByPosition(rows: seq<TableRow>): seq<TableRow> {
    if rows == [] then [] else Placed(rows[0], ByPosition(rows[1..]))
  }

  /** readAll: SELECT ... WHERE position >= from ORDER BY position ASC [LIMIT limit]. */
  function ReadAll(rows: seq<TableRow>, from: nat, limit: Option<nat>): seq<TableRow> {
    var all := ByPosition(From(rows, from));
    if limit.Some? && limit.value < |all| then all[..limit.value] else all
  }

  ghost predicate Enabled(h: string -> int, s: State, step: Step) {
    match step
    case Begin(t, _) => t !in s.txns
    case LockStream(t) => t in s.txns && s.txns[t].Begun? && h(s.txns[t].req.stream) !in s.streamLocks
    case ReadLedger(t) => t in s.txns && s.txns[t].Locked?
    case ReadVersion(t) => t in s.txns && s.txns[t].NotErased?
    case LockOrder(t) =>
      && t in s.txns && s.txns[t].VersionMatched?
      && s.txns[t].req.AppendRequest? && s.txns[t].req.events != [] && s.orderLock.None?
    case Insert(t) => t in s.txns && s.txns[t].Inserting? && |s.txns[t].staged| < Size(s.txns[t].req)
    case Rewrite(t) =>
      && t in s.txns
      && (|| (s.txns[t].VersionMatched? && s.txns[t].req.EraseRequest? && s.txns[t].req.expected > 0)
          || (s.txns[t].Rewriting? && s.txns[t].rewritten < s.txns[t].req.expected))
    case Commit(t) => t in s.txns && ReadyToCommit(s.txns[t])
    case Abort(t) => t in s.txns && !s.txns[t].Done?
    case Subscribe(c) => c !in s.consumers
    case Poll(c, _) => c in s.consumers
  }

  function Size(req: Request): nat {
    if req.AppendRequest? then |req.events| else 0
  }

  predicate ReadyToCommit(txn: Txn) {
    match txn
    case VersionMatched(req) => if req.AppendRequest? then req.events == [] else req.expected == 0
    case Inserting(req, staged) => |staged| == Size(req)
    case Rewriting(req, rewritten) => rewritten == req.expected
    case _ => false
  }

  /** The transaction ends: its advisory locks go. */
  function Ended(s: State, t: nat, outcome: Outcome): State {
    s.(orderLock := if s.orderLock == Some(t) then None else s.orderLock,
       streamLocks := map k | k in s.streamLocks && s.streamLocks[k] != t :: s.streamLocks[k],
       txns := s.txns[t := Done(outcome)])
  }

  function AfterLedger(s: State, t: nat, req: Request): State {
    if req.stream !in s.ledger then s.(txns := s.txns[t := NotErased(req)])
    else if req.EraseRequest? && s.ledger[req.stream] == req.expected then Ended(s, t, AlreadyErased)
    else Ended(s, t, VersionConflict(s.ledger[req.stream]))
  }

  function Inserted(s: State, t: nat, req: Request, staged: seq<TableRow>): State
    requires req.AppendRequest? && |staged| < |req.events|
  {
    var version := req.expected + |staged| + 1;
    if exists r :: r in s.rows && r.stream == req.stream && r.version == version
    then Ended(s, t, UniqueViolation)
    else
      var row := Row(s.nextPosition, req.stream, version, Event(req.events[|staged|]));
      s.(nextPosition := s.nextPosition + 1, txns := s.txns[t := Inserting(req, staged + [row])])
  }

  function Written(s: State, txn: Txn): State {
    match txn
    case Inserting(_, staged) => s.(rows := s.rows + staged)
    case Rewriting(req, _) =>
      if req.EraseRequest?
      then s.(rows := Rewritten(s.rows, req.stream, req.expected, req.at),
              ledger := s.ledger[req.stream := req.expected])
      else s
    case VersionMatched(req) =>
      if req.EraseRequest? then s.(ledger := s.ledger[req.stream := req.expected]) else s
    case _ => s
  }

  function Received(consumer: Consumer, page: seq<TableRow>): Consumer {
    Consumer(if page == [] then consumer.checkpoint else page[|page| - 1].position,
             consumer.delivered + Positions(page))
  }

  ghost function Apply(h: string -> int, s: State, step: Step): State
    requires Enabled(h, s, step)
  {
    match step
    case Begin(t, req) => s.(txns := s.txns[t := Begun(req)])
    case LockStream(t) =>
      var req := s.txns[t].req;
      s.(streamLocks := s.streamLocks[h(req.stream) := t], txns := s.txns[t := Locked(req)])
    case ReadLedger(t) => AfterLedger(s, t, s.txns[t].req)
    case ReadVersion(t) =>
      var req := s.txns[t].req;
      var actual := MaxVersion(s.rows, req.stream);
      if actual != req.expected then Ended(s, t, VersionConflict(actual))
      else s.(txns := s.txns[t := VersionMatched(req)])
    case LockOrder(t) => s.(orderLock := Some(t), txns := s.txns[t := Inserting(s.txns[t].req, [])])
    case Insert(t) => Inserted(s, t, s.txns[t].req, s.txns[t].staged)
    case Rewrite(t) =>
      var txn := s.txns[t];
      s.(txns := s.txns[t := Rewriting(txn.req, if txn.Rewriting? then txn.rewritten + 1 else 1)])
    case Commit(t) => Ended(Written(s, s.txns[t]), t, Committed)
    case Abort(t) => Ended(s, t, RolledBack)
    case Subscribe(c) => s.(consumers := s.consumers[c := Consumer(0, [])])
    case Poll(c, limit) =>
      var page := ReadAll(s.rows, s.consumers[c].checkpoint + 1, limit);
      s.(consumers := s.consumers[c := Received(s.consumers[c], page)])
  }

  const INITIAL := State([], map[], 1, None, map[], map[], map[])

  ghost predicate IsRun(h: string -> int, states: seq<State>, steps: seq<Step>) {
    && |states| == |steps| + 1
    && states[0] == INITIAL
    && forall i | 0 <= i < |steps| :: Enabled(h, states[i], steps[i]) && states[i + 1] == Apply(h, states[i], steps[i])
  }

  // ---- the invariant ----

  ghost predicate TableOk(s: State) {
    Ordered(s.rows, s.nextPosition)
  }

  ghost predicate LedgerOk(s: State) {
    Pinned(s.rows, s.ledger)
  }

  /** Past its first statement a transaction holds the lock of its stream. */
  predicate HoldsStream(h: string -> int, s: State, t: nat, stream: string) {
    h(stream) in s.streamLocks && s.streamLocks[h(stream)] == t
  }

  /** What the checks established is still true: nobody else can touch the stream. */
  ghost predicate StillChecked(s: State, req: Request) {
    req.stream !in s.ledger && Count(s.rows, req.stream) == req.expected
  }

  ghost predicate StagedOk(s: State, req: Request, staged: seq<TableRow>) {
    && req.AppendRequest? && |staged| <= |req.events|
    && Follows(staged, req.stream, req.expected)
    && Increasing(staged)
    && (forall k | 0 <= k < |staged| :: staged[k].content == Event(req.events[k]))
    && (forall k | 0 <= k < |staged| :: 1 <= staged[k].position < s.nextPosition)
    && (forall i, k | 0 <= i < |s.rows| && 0 <= k < |staged| :: s.rows[i].position < staged[k].position)
  }

  ghost predicate TxnOk(h: string -> int, s: State, t: nat, txn: Txn) {
    match txn
    case Begun(_) => true
    case Locked(req) => HoldsStream(h, s, t, req.stream)
    case NotErased(req) => HoldsStream(h, s, t, req.stream) && req.stream !in s.ledger
    case VersionMatched(req) => HoldsStream(h, s, t, req.stream) && StillChecked(s, req)
    case Inserting(req, staged) =>
      HoldsStream(h, s, t, req.stream) && StillChecked(s, req) && s.orderLock == Some(t) && StagedOk(s, req, staged)
    case Rewriting(req, rewritten) =>
      HoldsStream(h, s, t, req.stream) && StillChecked(s, req) && req.EraseRequest? && rewritten <= req.expected
    case Done(_) => true
  }

  ghost predicate TxnsOk(h: string -> int, s: State) {
    forall t | t in s.txns :: TxnOk(h, s, t, s.txns[t])
  }

  function Positions(rows: seq<TableRow>): seq<nat> {
    seq(|rows|, i requires 0 <= i < |rows| => rows[i].position)
  }

  /** A consumer has been handed exactly the first rows of the table, and remembers the last. */
  ghost predicate UpToDate(rows: seq<TableRow>, consumer: Consumer) {
    var n := |consumer.delivered|;
    && n <= |rows|
    && consumer.delivered == Positions(rows)[..n]
    && consumer.checkpoint == if n == 0 then 0 else rows[n - 1].position
  }

  ghost predicate ConsumersOk(s: State) {
    forall c | c in s.consumers :: UpToDate(s.rows, s.consumers[c])
  }

  ghost predicate Inv(h: string -> int, s: State) {
    TableOk(s) && LedgerOk(s) && TxnsOk(h, s) && ConsumersOk(s)
  }

  // ---- every step keeps it ----

  /** Only a commit changes the rows or the ledger: a conflict, a rollback, a violation write nothing. */
  lemma OnlyCommitsWrite(h: string -> int, s: State, step: Step)
    requires Enabled(h, s, step) && !step.Commit?
    ensures Apply(h, s, step).rows == s.rows && Apply(h, s, step).ledger == s.ledger
    ensures Apply(h, s, step).nextPosition >= s.nextPosition
  {
  }

  lemma InsertedCommit(s: State, req: Request, staged: seq<TableRow>)
    requires TableOk(s) && LedgerOk(s) && StillChecked(s, req) && StagedOk(s, req, staged)
    ensures TableOk(s.(rows := s.rows + staged)) && LedgerOk(s.(rows := s.rows + staged))
    ensures forall stream | stream != req.stream :: Count(s.rows + staged, stream) == Count(s.rows, stream)
    ensures Keys(s.rows) <= Keys(s.rows + staged)
  {
    AppendKeepsNumbering(s.rows, staged, req.stream, req.expected);
    AppendKeepsLedger(s.rows, staged, req.stream, s.ledger);
    forall stream | stream != req.stream
      ensures Count(s.rows + staged, stream) == Count(s.rows, stream)
    {
      CountAfterAppend(s.rows, staged, req.stream, req.expected, stream);
    }
  }

  lemma ErasedCommit(s: State, req: Request)
    requires TableOk(s) && LedgerOk(s) && StillChecked(s, req) && req.EraseRequest?
    ensures var after := Written(s, Rewriting(req, req.expected));
            && TableOk(after) && LedgerOk(after) && Keys(s.rows) == Keys(after.rows)
            && forall stream :: Count(after.rows, stream) == Count(s.rows, stream)
  {
    ErasureKeepsOrder(s.rows, req.stream, req.expected, req.at, s.nextPosition);
    ErasureKeepsLedger(s.rows, req.stream, req.expected, req.at, s.ledger);
  }

  lemma CommitWrites(h: string -> int, s: State, t: nat)
    requires TableOk(s) && LedgerOk(s) && TxnsOk(h, s) && Enabled(h, s, Commit(t))
    ensures TableOk(Written(s, s.txns[t])) && LedgerOk(Written(s, s.txns[t]))
    ensures Keys(s.rows) <= Keys(Written(s, s.txns[t]).rows)
    ensures forall stream | stream != s.txns[t].req.stream ::
              && Count(Written(s, s.txns[t]).rows, stream) == Count(s.rows, stream)
              && (stream in Written(s, s.txns[t]).ledger <==> stream in s.ledger)
  {
    var txn := s.txns[t];
    assert TxnOk(h, s, t, txn);
    if txn.Inserting? {
      InsertedCommit(s, txn.req, txn.staged);
    } else if txn.Rewriting? {
      ErasedCommit(s, txn.req);
    } else if txn.req.EraseRequest? {
      EmptyStreamIsTombstones(s.rows, txn.req.stream);
    }
  }

  lemma EmptyStreamIsTombstones(rows: seq<TableRow>, stream: string)
    requires Numbered(rows) && Count(rows, stream) == 0
    ensures AllTombstones(rows, stream)
  {
    forall i | 0 <= i < |rows|
      ensures rows[i].stream != stream
    {
      VersionWithin(rows, i);
    }
  }

  lemma KeepsTable(h: string -> int, s: State, step: Step)
    requires Inv(h, s) && Enabled(h, s, step)
    ensures TableOk(Apply(h, s, step)) && LedgerOk(Apply(h, s, step))
  {
    if step.Commit? {
      CommitWrites(h, s, step.t);
    } else {
      OnlyCommitsWrite(h, s, step);
    }
  }

  predicate Acts(step: Step, t: nat) {
    match step
    case Subscribe(_) => false
    case Poll(_, _) => false
    case _ => step.t == t
  }

  lemma LocksStay(h: string -> int, s: State, step: Step, t: nat, stream: string)
    requires Enabled(h, s, step) && t in s.txns && !Acts(step, t)
    ensures t in Apply(h, s, step).txns && Apply(h, s, step).txns[t] == s.txns[t]
    ensures s.orderLock == Some(t) ==> Apply(h, s, step).orderLock == Some(t)
    ensures HoldsStream(h, s, t, stream) ==> HoldsStream(h, Apply(h, s, step), t, stream)
  {
  }

  function StreamOf(txn: Txn): string {
    if txn.Done? then "" else txn.req.stream
  }

  lemma QuietStepKeeps(h: string -> int, s: State, step: Step, t: nat)
    requires Enabled(h, s, step) && !step.Commit? && TxnsOk(h, s)
    requires t in s.txns && !Acts(step, t)
    ensures TxnOk(h, Apply(h, s, step), t, s.txns[t])
  {
    assert TxnOk(h, s, t, s.txns[t]);
    LocksStay(h, s, step, t, StreamOf(s.txns[t]));
    OnlyCommitsWrite(h, s, step);
  }

  lemma CommitKeeps(h: string -> int, s: State, c: nat, t: nat)
    requires Inv(h, s) && Enabled(h, s, Commit(c))
    requires t in s.txns && c != t
    ensures TxnOk(h, Apply(h, s, Commit(c)), t, s.txns[t])
  {
    assert TxnOk(h, s, t, s.txns[t]) && TxnOk(h, s, c, s.txns[c]);
    LocksStay(h, s, Commit(c), t, StreamOf(s.txns[t]));
    CommitWrites(h, s, c);
    CommitKeepsStaged(h, s, c, t);
  }

  /** Two transactions past the lock are on different streams; two that insert do not exist. */
  lemma CommitKeepsStaged(h: string -> int, s: State, t: nat, other: nat)
    requires Inv(h, s) && Enabled(h, s, Commit(t))
    requires other in s.txns && other != t
    ensures s.txns[other].Inserting? ==>
              StagedOk(Apply(h, s, Commit(t)), s.txns[other].req, s.txns[other].staged)
  {
    assert TxnOk(h, s, t, s.txns[t]) && TxnOk(h, s, other, s.txns[other]);
    if s.txns[other].Inserting? && s.txns[t].Rewriting? {
      var req := s.txns[t].req;
      SameKeysSameOrder(s.rows, Rewritten(s.rows, req.stream, req.expected, req.at));
    }
  }

  lemma ActorOk(h: string -> int, s: State, step: Step, t: nat)
    requires TableOk(s) && TxnsOk(h, s) && Enabled(h, s, step) && Acts(step, t)
    ensures TxnOk(h, Apply(h, s, step), t, Apply(h, s, step).txns[t])
  {
    if t in s.txns {
      assert TxnOk(h, s, t, s.txns[t]);
      if step.ReadVersion? {
        MaxIsCount(s.rows, s.txns[t].req.stream);
      } else if step.Insert? {
        InsertKeepsStaged(h, s, t);
      }
    }
  }

  lemma InsertKeepsStaged(h: string -> int, s: State, t: nat)
    requires TableOk(s) && t in s.txns && TxnOk(h, s, t, s.txns[t]) && Enabled(h, s, Insert(t))
    ensures TxnOk(h, Apply(h, s, Insert(t)), t, Apply(h, s, Insert(t)).txns[t])
  {
  }

  lemma KeepsTxns(h: string -> int, s: State, step: Step)
    requires Inv(h, s) && Enabled(h, s, step)
    ensures TxnsOk(h, Apply(h, s, step))
  {
    var s' := Apply(h, s, step);
    forall t | t in s'.txns
      ensures TxnOk(h, s', t, s'.txns[t])
    {
      if Acts(step, t) {
        ActorOk(h, s, step, t);
      } else {
        LocksStay(h, s, step, t, "");
        if step.Commit? {
          CommitKeeps(h, s, step.t, t);
        } else {
          QuietStepKeeps(h, s, step, t);
        }
      }
    }
  }

  lemma {:induction false} FromIsTail(rows: seq<TableRow>, from: nat, k: nat)
    requires k <= |rows|
    requires forall j | 0 <= j < |rows| :: rows[j].position >= from <==> j >= k
    ensures From(rows, from) == rows[k..]
  {
    if rows != [] {
      FromIsTail(rows[1..], from, if k == 0 then 0 else k - 1);
    }
  }

  lemma {:induction false} AscendingIsByPosition(rows: seq<TableRow>)
    requires Increasing(rows)
    ensures ByPosition(rows) == rows
  {
    if rows != [] {
      AscendingIsByPosition(rows[1..]);
    }
  }

  /** One poll hands over the next rows: all that remain without a limit, else as many as the limit. */
  lemma PollKeepsUpToDate(rows: seq<TableRow>, consumer: Consumer, limit: Option<nat>)
    requires Increasing(rows) && UpToDate(rows, consumer)
    requires forall i | 0 <= i < |rows| :: rows[i].position >= 1
    ensures var after := Received(consumer, ReadAll(rows, consumer.checkpoint + 1, limit));
            && UpToDate(rows, after)
            && |after.delivered| == if limit.None? then |rows| else Min(|consumer.delivered| + limit.value, |rows|)
  {
    var k := |consumer.delivered|;
    SeenSplit(rows, consumer);
    FromIsTail(rows, consumer.checkpoint + 1, k);
    AscendingIsByPosition(rows[k..]);
    ReceivedSlice(rows, consumer, ReadAll(rows, consumer.checkpoint + 1, limit));
  }

  lemma SeenSplit(rows: seq<TableRow>, consumer: Consumer)
    requires Increasing(rows) && UpToDate(rows, consumer)
    requires forall i | 0 <= i < |rows| :: rows[i].position >= 1
    ensures forall j | 0 <= j < |rows| :: rows[j].position >= consumer.checkpoint + 1 <==> j >= |consumer.delivered|
  {
    var k := |consumer.delivered|;
    assert forall j | 0 <= j < k :: rows[j].position <= rows[k - 1].position;
  }

  lemma ReceivedSlice(rows: seq<TableRow>, consumer: Consumer, page: seq<TableRow>)
    requires UpToDate(rows, consumer) && |consumer.delivered| + |page| <= |rows|
    requires forall m | 0 <= m < |page| :: page[m] == rows[|consumer.delivered| + m]
    ensures UpToDate(rows, Received(consumer, page))
    ensures |Received(consumer, page).delivered| == |consumer.delivered| + |page|
  {
    assert consumer.delivered + Positions(page) == Positions(rows)[..|consumer.delivered| + |page|];
  }

  function Min(a: nat, b: nat): nat {
    if a < b then a else b
  }

  lemma GrowingKeepsUpToDate(a: seq<TableRow>, b: seq<TableRow>, consumer: Consumer)
    requires Keys(a) <= Keys(b) && UpToDate(a, consumer)
    ensures UpToDate(b, consumer)
  {
    SameKeysSameOrder(a, b);
    assert Positions(b)[..|consumer.delivered|] == Positions(a)[..|consumer.delivered|];
  }

  lemma KeysGrow(h: string -> int, s: State, step: Step)
    requires Inv(h, s) && Enabled(h, s, step)
    ensures Keys(s.rows) <= Keys(Apply(h, s, step).rows)
  {
    if step.Commit? {
      CommitWrites(h, s, step.t);
    } else {
      OnlyCommitsWrite(h, s, step);
    }
  }

  lemma KeepsConsumers(h: string -> int, s: State, step: Step)
    requires Inv(h, s) && Enabled(h, s, step)
    ensures ConsumersOk(Apply(h, s, step))
  {
    var s' := Apply(h, s, step);
    KeysGrow(h, s, step);
    forall c | c in s'.consumers
      ensures UpToDate(s'.rows, s'.consumers[c])
    {
      ConsumerMoves(h, s, step, c);
      if step.Poll? && step.c == c {
        PollKeepsUpToDate(s.rows, s.consumers[c], step.limit);
      } else if c in s.consumers {
        GrowingKeepsUpToDate(s.rows, s'.rows, s.consumers[c]);
      }
    }
  }

  lemma ConsumerMoves(h: string -> int, s: State, step: Step, c: nat)
    requires Enabled(h, s, step) && c in Apply(h, s, step).consumers
    ensures step.Poll? ==> Apply(h, s, step).rows == s.rows
    ensures Apply(h, s, step).consumers[c]
            == if step.Poll? && step.c == c
               then Received(s.consumers[c], ReadAll(s.rows, s.consumers[c].checkpoint + 1, step.limit))
               else if c in s.consumers then s.consumers[c] else Consumer(0, [])
  {
  }

  lemma KeepsInv(h: string -> int, s: State, step: Step)
    requires Inv(h, s) && Enabled(h, s, step)
    ensures Inv(h, Apply(h, s, step))
  {
    KeepsTable(h, s, step);
    KeepsTxns(h, s, step);
    KeepsConsumers(h, s, step);
  }

  lemma {:induction false} RunsKeepInv(h: string -> int, states: seq<State>, steps: seq<Step>, i: nat)
    requires IsRun(h, states, steps) && i < |states|
    ensures Inv(h, states[i])
  {
    if i > 0 {
      RunsKeepInv(h, states, steps, i - 1);
      KeepsInv(h, states[i - 1], steps[i - 1]);
    }
  }

  // ---- what it means ----

  lemma {:induction false} KeysGrowOverRun(h: string -> int, states: seq<State>, steps: seq<Step>, i: nat, j: nat)
    requires IsRun(h, states, steps) && i <= j < |states|
    ensures Keys(states[i].rows) <= Keys(states[j].rows)
  {
    if i < j {
      KeysGrowOverRun(h, states, steps, i, j - 1);
      RunsKeepInv(h, states, steps, j - 1);
      KeysGrow(h, states[j - 1], steps[j - 1]);
    }
  }

  /** Positions become visible in commit order: what commits after a state lies above every
      position visible in it, so a reader that saw N has seen every committed position below N. */
  lemma NothingCommitsBelow(h: string -> int, states: seq<State>, steps: seq<Step>, i: nat, j: nat)
    requires IsRun(h, states, steps) && i <= j < |states|
    ensures Keys(states[i].rows) <= Keys(states[j].rows)
    ensures forall a, b | 0 <= a < |states[i].rows| <= b < |states[j].rows| ::
              states[i].rows[a].position < states[j].rows[b].position
  {
    KeysGrowOverRun(h, states, steps, i, j);
    RunsKeepInv(h, states, steps, j);
    SameKeysSameOrder(states[i].rows, states[j].rows);
  }

  /** Exactly once and in order: at every moment a consumer has been handed the positions of an
      initial segment of everything that is ever committed, no position twice. */
  lemma ExactlyOnceInOrder(h: string -> int, states: seq<State>, steps: seq<Step>, i: nat, j: nat, c: nat)
    requires IsRun(h, states, steps) && i <= j < |states| && c in states[i].consumers
    ensures states[i].consumers[c].delivered <= Positions(states[j].rows)
    ensures forall a, b | 0 <= a < b < |states[i].consumers[c].delivered| ::
              states[i].consumers[c].delivered[a] < states[i].consumers[c].delivered[b]
  {
    RunsKeepInv(h, states, steps, i);
    KeysGrowOverRun(h, states, steps, i, j);
    GrowingKeepsUpToDate(states[i].rows, states[j].rows, states[i].consumers[c]);
  }

  /** Nothing is missed: a poll hands over everything committed so far, or the next `limit` of it. */
  lemma PollCatchesUp(h: string -> int, states: seq<State>, steps: seq<Step>, i: nat)
    requires IsRun(h, states, steps) && i < |steps| && steps[i].Poll?
    ensures var before, after := states[i].consumers[steps[i].c], states[i + 1].consumers[steps[i].c];
            |after.delivered| == if steps[i].limit.None? then |states[i].rows|
                                 else Min(|before.delivered| + steps[i].limit.value, |states[i].rows|)
  {
    RunsKeepInv(h, states, steps, i);
    PollKeepsUpToDate(states[i].rows, states[i].consumers[steps[i].c], steps[i].limit);
  }

  /** The UNIQUE(stream_name, version) backstop never fires while appends and erasures take the lock. */
  lemma BackstopNeverFires(h: string -> int, states: seq<State>, steps: seq<Step>, i: nat)
    requires IsRun(h, states, steps) && i < |steps| && steps[i].Insert?
    ensures states[i + 1].txns[steps[i].t].Inserting?
  {
    RunsKeepInv(h, states, steps, i);
    var s, t := states[i], steps[i].t;
    assert TxnOk(h, s, t, s.txns[t]);
    var req, version := s.txns[t].req, s.txns[t].req.expected + |s.txns[t].staged| + 1;
    VersionsAreExactly(s.rows, req.stream, version);
    assert forall r | r in s.rows && r.stream == req.stream :: r.version != version;
  }

  /** A committed append added exactly its events at the versions after the one it expected. */
  lemma CommittedAppend(h: string -> int, states: seq<State>, steps: seq<Step>, i: nat)
    requires IsRun(h, states, steps) && i < |steps| && steps[i].Commit?
    requires states[i].txns[steps[i].t].Inserting?
    ensures var req := states[i].txns[steps[i].t].req;
            && req.AppendRequest?
            && Count(states[i].rows, req.stream) == req.expected
            && Count(states[i + 1].rows, req.stream) == req.expected + |req.events|
            && Extends(states[i].rows, states[i + 1].rows, req.stream, req.expected, req.events)
  {
    RunsKeepInv(h, states, steps, i);
    var s, t := states[i], steps[i].t;
    assert TxnOk(h, s, t, s.txns[t]);
    CountAfterAppend(s.rows, s.txns[t].staged, s.txns[t].req.stream, s.txns[t].req.expected, s.txns[t].req.stream);
  }

  lemma LedgerStays(h: string -> int, s: State, step: Step, stream: string)
    requires TxnsOk(h, s) && Enabled(h, s, step) && stream in s.ledger
    ensures stream in Apply(h, s, step).ledger && Apply(h, s, step).ledger[stream] == s.ledger[stream]
  {
    if step.Commit? {
      assert TxnOk(h, s, step.t, s.txns[step.t]);
    } else {
      OnlyCommitsWrite(h, s, step);
    }
  }

  lemma {:induction false} LedgerGrowsOverRun(
    h: string -> int, states: seq<State>, steps: seq<Step>, i: nat, j: nat, stream: string)
    requires IsRun(h, states, steps) && i <= j < |states| && stream in states[i].ledger
    ensures stream in states[j].ledger && states[j].ledger[stream] == states[i].ledger[stream]
  {
    if i < j {
      LedgerGrowsOverRun(h, states, steps, i, j - 1, stream);
      RunsKeepInv(h, states, steps, j - 1);
      LedgerStays(h, states[j - 1], steps[j - 1], stream);
    }
  }

  /** Once a stream is erased all its rows are tombstones and its version never changes again. */
  lemma ErasedForever(h: string -> int, states: seq<State>, steps: seq<Step>, i: nat, j: nat, stream: string)
    requires IsRun(h, states, steps) && i <= j < |states| && stream in states[i].ledger
    ensures AllTombstones(states[j].rows, stream)
    ensures MaxVersion(states[j].rows, stream) == states[i].ledger[stream]
  {
    LedgerGrowsOverRun(h, states, steps, i, j, stream);
    RunsKeepInv(h, states, steps, j);
    MaxIsCount(states[j].rows, stream);
  }

  /** In every reachable state each stream holds exactly the versions 1..k, once each. */
  lemma StreamsGapFree(h: string -> int, states: seq<State>, steps: seq<Step>, i: nat, stream: string, version: nat)
    requires IsRun(h, states, steps) && i < |states|
    ensures (exists r :: r in states[i].rows && r.stream == stream && r.version == version)
            <==> 1 <= version <= MaxVersion(states[i].rows, stream)
    ensures forall a, b | 0 <= a < b < |states[i].rows| && states[i].rows[a].stream == states[i].rows[b].stream ::
              states[i].rows[a].version < states[i].rows[b].version
  {
    RunsKeepInv(h, states, steps, i);
    VersionsAreExactly(states[i].rows, stream, version);
    MaxIsCount(states[i].rows, stream);
    if 1 <= version <= Count(states[i].rows, stream) {
      var k := VersionPresent(states[i].rows, stream, version);
      assert states[i].rows[k] in states[i].rows;
    }
  }
}
