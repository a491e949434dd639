/** The import transaction and its runs from an empty store. The transaction holds exclusive
    table locks, so imports happen one after the other. */
module HistoryImportRuns {
  import opened Prelude
  import opened EventTable
  import opened HistoryImport

  type ImportRow = Row<Body>

  datatype Session = Session(resumeToken: Digest, lastPosition: int, complete: bool)

  datatype BatchKey = BatchKey(importId: string, batchId: string)

  datatype Record = Record(
    previousToken: Option<Digest>, checksum: Digest, complete: bool, importedCount: nat,
    lastPosition: int, resultToken: Digest)

  datatype Target = Target(
    rows: seq<ImportRow>, sessions: map<string, Session>, batches: map<BatchKey, Record>, erasedAny: bool)

  datatype ImportResult = ImportResult(
    repeated: bool, importedCount: nat, lastPosition: int, resumeToken: Digest, complete: bool)

  function RowOf(e: StoredEvent): ImportRow {
    Row(if e.position < 0 then 0 else e.position, e.streamName, if e.version < 0 then 0 else e.version, Event(e.body))
  }

  function RowsOf(events: seq<StoredEvent>): (r: seq<ImportRow>)
    ensures |r| == |events|
  {
    seq(|events|, i requires 0 <= i < |events| => RowOf(events[i]))
  }

  function IdOf(row: ImportRow): string {
    if row.content.Event? then row.content.body.eventId else ""
  }

  function RowIds(rows: seq<ImportRow>): set<string> {
    set i | 0 <= i < |rows| :: IdOf(rows[i])
  }

  /** SELECT max(position), NULL read as 0. */
  function MaxPosition(rows: seq<ImportRow>): nat {
    if rows == [] then 0
    else
      var before, last := MaxPosition(rows[..|rows| - 1]), rows[|rows| - 1];
      if last.position > before then last.position else before
  }

  /** The versions of the batch's streams, as the GROUP BY answers them: absent streams are absent. */
  function StreamVersions(rows: seq<ImportRow>, events: seq<StoredEvent>): map<string, int> {
    map i | 0 <= i < |events| && MaxVersion(rows, events[i].streamName) > 0 ::
      events[i].streamName := MaxVersion(rows, events[i].streamName)
  }

  // ---- validateHistoryImportContinuation ----

  function VersionIn(versions: map<string, int>, stream: string): int {
    if stream in versions then versions[stream] else 0
  }

  predicate Continues(events: seq<StoredEvent>, position: int, versions: map<string, int>, ids: set<string>) {
    events != [] ==>
      var e := events[0];
      && e.position == position + 1
      && e.version == VersionIn(versions, e.streamName) + 1
      && e.body.eventId !in ids
      && Continues(events[1..], e.position, versions[e.streamName := e.version], ids + {e.body.eventId})
  }

  method ValidateContinuation(events: seq<StoredEvent>, position: int, versions: map<string, int>, ids: set<string>)
    returns (fault: Option<Failure>)
    ensures fault.None? <==> Continues(events, position, versions, ids)
  {
    var p, vs, seen := position, versions, ids;
    for i := 0 to |events|
      invariant Continues(events, position, versions, ids) <==> Continues(events[i..], p, vs, seen)
    {
      var e := events[i];
      assert events[i..][0] == e && events[i..][1..] == events[i + 1..];
      if e.position != p + 1 {
        return Some(GlobalPositionGap);
      }
      if e.version != VersionIn(vs, e.streamName) + 1 {
        return Some(StreamVersionGap);
      }
      if e.body.eventId in seen {
        return Some(DuplicateEventId);
      }
      p, vs, seen := e.position, vs[e.streamName := e.version], seen + {e.body.eventId};
    }
    return None;
  }

  // ---- the transaction ----

  function KeyOfBatch(batch: Batch): BatchKey {
    BatchKey(batch.importId, batch.batchId)
  }

  function LastPosition(batch: Batch): int
    requires batch.events != []
  {
    batch.events[|batch.events| - 1].position
  }

  function RecordOf(batch: Batch): Record
    requires batch.events != []
  {
    Record(batch.resumeToken, batch.checksum, batch.complete, |batch.events|, LastPosition(batch), ResumeToken(batch))
  }

  function ResultOf(batch: Batch, repeated: bool): ImportResult
    requires batch.events != []
  {
    ImportResult(repeated, |batch.events|, LastPosition(batch), ResumeToken(batch), batch.complete)
  }

  /** The session checks before a new batch is written. */
  predicate SessionAllows(t: Target, batch: Batch) {
    if batch.importId !in t.sessions then
      MaxPosition(t.rows) == 0 && batch.resumeToken.None?
    else
      var session := t.sessions[batch.importId];
      !session.complete && batch.resumeToken == Some(session.resumeToken) && MaxPosition(t.rows) == session.lastPosition
  }

  /** Why a session refuses a batch it has no record of. */
  function SessionRefusal(t: Target, batch: Batch): (r: Option<Failure>)
    ensures r.None? <==> SessionAllows(t, batch)
  {
    var filled := MaxPosition(t.rows);
    if batch.importId !in t.sessions then
      if filled > 0 then Some(TargetNotEmpty) else if batch.resumeToken.Some? then Some(ResumeTokenMismatch) else None
    else
      var session := t.sessions[batch.importId];
      if session.complete then Some(ImportComplete)
      else if batch.resumeToken != Some(session.resumeToken) then Some(ResumeTokenMismatch)
      else if filled != session.lastPosition then Some(TargetNotEmpty)
      else None
  }

  predicate ContinuesTarget(t: Target, batch: Batch) {
    Continues(batch.events, MaxPosition(t.rows), StreamVersions(t.rows, batch.events),
              RowIds(t.rows) * Ids(batch.events))
  }

  function Imported(t: Target, batch: Batch): Target
    requires batch.events != []
  {
    t.(rows := t.rows + RowsOf(batch.events),
       sessions := t.sessions[batch.importId := Session(ResumeToken(batch), LastPosition(batch), batch.complete)],
       batches := t.batches[KeyOfBatch(batch) := RecordOf(batch)])
  }

  /** importBatch: the new target and the answer, None for a refusal. */
  function Import(t: Target, batch: Batch, decoders: Decoders): (Target, Option<ImportResult>) {
    if !BatchOk(decoders, batch) || t.erasedAny then (t, None)
    else if KeyOfBatch(batch) in t.batches then
      var recorded := t.batches[KeyOfBatch(batch)];
      if recorded.checksum != batch.checksum || recorded.previousToken != batch.resumeToken
         || recorded.complete != batch.complete
      then (t, None)
      else (t, Some(ImportResult(true, recorded.importedCount, recorded.lastPosition, recorded.resultToken, recorded.complete)))
    else if SessionAllows(t, batch) && ContinuesTarget(t, batch) then (Imported(t, batch), Some(ResultOf(batch, false)))
    else (t, None)
  }

  /** The same transaction step by step, with the reason of a refusal. */
  class Importer {
    var target: Target

    constructor ()
      ensures target == Target([], map[], map[], false)
    {
      target := Target([], map[], map[], false);
    }

    method ImportBatch(batch: Batch, decoders: Decoders) returns (r: Result<ImportResult, Failure>)
      modifies this
      ensures target == Import(old(target), batch, decoders).0
      ensures var answer := Import(old(target), batch, decoders).1;
              if answer.Some? then r == Ok(answer.value) else r.Err?
      // Which refusal: the batch itself first, then erasure, divergence, the session, the events.
      ensures BatchOk(decoders, batch) && old(target).erasedAny ==> r == Err(TargetNotEmpty)
      ensures BatchOk(decoders, batch) && !old(target).erasedAny && KeyOfBatch(batch) in old(target).batches && r.Err? ==>
                r.error == DivergentBatch
      ensures BatchOk(decoders, batch) && !old(target).erasedAny && KeyOfBatch(batch) !in old(target).batches ==>
                var refusal := SessionRefusal(old(target), batch);
                refusal.Some? ==> r == Err(refusal.value)
    {
      var prepared := Prepare(batch, decoders);
      if prepared.Err? {
        return Err(prepared.error);
      }
      if target.erasedAny {
        return Err(TargetNotEmpty);
      }
      if KeyOfBatch(batch) in target.batches {
        var recorded := target.batches[KeyOfBatch(batch)];
        if recorded.checksum != batch.checksum || recorded.previousToken != batch.resumeToken
           || recorded.complete != batch.complete {
          return Err(DivergentBatch);
        }
        return Ok(ImportResult(true, recorded.importedCount, recorded.lastPosition, recorded.resultToken, recorded.complete));
      }
      var lastPosition := MaxPosition(target.rows);
      if batch.importId !in target.sessions {
        if lastPosition > 0 {
          return Err(TargetNotEmpty);
        }
        if batch.resumeToken.Some? {
          return Err(ResumeTokenMismatch);
        }
      } else {
        var session := target.sessions[batch.importId];
        if session.complete {
          return Err(ImportComplete);
        }
        if batch.resumeToken != Some(session.resumeToken) {
          return Err(ResumeTokenMismatch);
        }
        if lastPosition != session.lastPosition {
          return Err(TargetNotEmpty);
        }
      }
      var fault := ValidateContinuation(batch.events, lastPosition, StreamVersions(target.rows, batch.events),
                                        RowIds(target.rows) * prepared.value);
      if fault.Some? {
        return Err(fault.value);
      }
      target := Imported(target, batch);
      return Ok(ResultOf(batch, false));
    }
  }

  // ---- what a store filled by imports looks like ----

  /** Positions are exactly 1..n, versions exactly 1..k per stream, event ids distinct. */
  ghost predicate Faithful(rows: seq<ImportRow>) {
    && (forall i | 0 <= i < |rows| :: rows[i].position == i + 1)
    && Numbered(rows)
    && (forall i, j | 0 <= i < j < |rows| :: IdOf(rows[i]) != IdOf(rows[j]))
  }

  lemma {:induction false} MaxPositionIsCount(rows: seq<ImportRow>)
    requires forall i | 0 <= i < |rows| :: rows[i].position == i + 1
    ensures MaxPosition(rows) == |rows|
  {
    if rows != [] {
      MaxPositionIsCount(rows[..|rows| - 1]);
    }
  }

  lemma FaithfulSnoc(rows: seq<ImportRow>, row: ImportRow)
    requires Faithful(rows) && row.position == |rows| + 1 && row.version == Count(rows, row.stream) + 1
    requires IdOf(row) !in RowIds(rows)
    ensures Faithful(rows + [row])
  {
    var all := rows + [row];
    assert all[..|rows|] == rows && all[|rows|] == row;
    forall i, j | 0 <= i < j < |all|
      ensures IdOf(all[i]) != IdOf(all[j])
    {
      if j == |rows| { assert IdOf(rows[i]) in RowIds(rows); }
    }
  }

  /** The mutable maps of the walk say of the events still to come what the rows say. */
  ghost predicate Tracks(rows: seq<ImportRow>, versions: map<string, int>, ids: set<string>, events: seq<StoredEvent>) {
    forall i | 0 <= i < |events| ::
      && VersionIn(versions, events[i].streamName) == Count(rows, events[i].streamName)
      && (events[i].body.eventId in RowIds(rows) ==> events[i].body.eventId in ids)
  }

  lemma TracksNext(rows: seq<ImportRow>, versions: map<string, int>, ids: set<string>, events: seq<StoredEvent>)
    requires events != [] && Tracks(rows, versions, ids, events)
    requires events[0].version == VersionIn(versions, events[0].streamName) + 1
    ensures Tracks(rows + [RowOf(events[0])], versions[events[0].streamName := events[0].version],
                   ids + {events[0].body.eventId}, events[1..])
  {
    var e, all := events[0], rows + [RowOf(events[0])];
    assert all[..|rows|] == rows;
    forall i | 0 <= i < |events[1..]|
      ensures VersionIn(versions[e.streamName := e.version], events[1..][i].streamName)
              == Count(all, events[1..][i].streamName)
      ensures events[1..][i].body.eventId in RowIds(all) ==> events[1..][i].body.eventId in ids + {e.body.eventId}
    {
      assert events[1..][i] == events[i + 1];
      IdsOfSnoc(rows, RowOf(e), events[i + 1].body.eventId);
    }
  }

  lemma IdsOfSnoc(rows: seq<ImportRow>, row: ImportRow, id: string)
    ensures id in RowIds(rows + [row]) <==> id in RowIds(rows) || id == IdOf(row)
  {
    var all := rows + [row];
    assert all[|rows|] == row;
    if id in RowIds(rows) {
      var k :| 0 <= k < |rows| && IdOf(rows[k]) == id;
      assert IdOf(all[k]) == id;
    }
  }

  lemma {:induction false} ContinuationKeepsFaithful(
    rows: seq<ImportRow>, versions: map<string, int>, ids: set<string>, events: seq<StoredEvent>)
    requires Faithful(rows) && Tracks(rows, versions, ids, events) && Continues(events, |rows|, versions, ids)
    ensures Faithful(rows + RowsOf(events))
    decreases |events|
  {
    if events == [] {
      assert rows + RowsOf(events) == rows;
    } else {
      var e := events[0];
      var row := RowOf(e);
      TracksNext(rows, versions, ids, events);
      FaithfulSnoc(rows, row);
      ContinuationKeepsFaithful(rows + [row], versions[e.streamName := e.version], ids + {e.body.eventId}, events[1..]);
      assert rows + [row] + RowsOf(events[1..]) == rows + RowsOf(events);
    }
  }

  lemma TargetTracks(rows: seq<ImportRow>, events: seq<StoredEvent>)
    requires Faithful(rows)
    ensures Tracks(rows, StreamVersions(rows, events), RowIds(rows) * Ids(events), events)
  {
    forall i | 0 <= i < |events|
      ensures VersionIn(StreamVersions(rows, events), events[i].streamName) == Count(rows, events[i].streamName)
    {
      MaxIsCount(rows, events[i].streamName);
    }
  }

  lemma ImportKeepsFaithful(t: Target, batch: Batch)
    requires Faithful(t.rows) && batch.events != [] && ContinuesTarget(t, batch)
    ensures Faithful(Imported(t, batch).rows)
    ensures LastPosition(batch) == |Imported(t, batch).rows|
  {
    MaxPositionIsCount(t.rows);
    TargetTracks(t.rows, batch.events);
    ContinuationKeepsFaithful(t.rows, StreamVersions(t.rows, batch.events), RowIds(t.rows) * Ids(batch.events), batch.events);
    var rows, n := Imported(t, batch).rows, |batch.events| - 1;
    assert rows[|t.rows| + n] == RowOf(batch.events[n]);
  }

  // ---- runs ----

  const EMPTY_TARGET := Target([], map[], map[], false)

  /** Batches sent one after the other, whoever sends them, whatever they hold. */
  ghost predicate IsRun(targets: seq<Target>, sent: seq<Batch>, decoders: Decoders) {
    && |targets| == |sent| + 1
    && targets[0] == EMPTY_TARGET
    && forall i | 0 <= i < |sent| :: targets[i + 1] == Import(targets[i], sent[i], decoders).0
  }

  /** The batches that were written, in order: each chained to the one before it by the token. */
  ghost predicate Chain(log: seq<Batch>) {
    log != [] ==>
      var front, last := log[..|log| - 1], log[|log| - 1];
      && Chain(front)
      && last.events != [] && last.checksum == Checksum(last.events)
      && KeyOfBatch(last) !in Records(front)
      && (if front == [] then last.resumeToken.None?
          else
            var previous := front[|front| - 1];
            && previous.events != []
            && last.importId == previous.importId
            && last.resumeToken == Some(ResumeToken(previous))
            && !previous.complete)
  }

  function Records(log: seq<Batch>): map<BatchKey, Record> {
    if log == [] then map[]
    else
      var last := log[|log| - 1];
      if last.events == [] then Records(log[..|log| - 1])
      else Records(log[..|log| - 1])[KeyOfBatch(last) := RecordOf(last)]
  }

  function History(log: seq<Batch>): seq<StoredEvent> {
    if log == [] then [] else History(log[..|log| - 1]) + log[|log| - 1].events
  }

  /** The target holds exactly what the chain of written batches says: at most one session. */
  ghost predicate Reflects(t: Target, log: seq<Batch>) {
    Chain(log) && Faithful(t.rows) && Mirrors(t, log)
  }

  ghost predicate Mirrors(t: Target, log: seq<Batch>) {
    && !t.erasedAny
    && t.rows == RowsOf(History(log))
    && t.batches == Records(log)
    && t.sessions == Sessions(log, |t.rows|)
  }

  ghost function Sessions(log: seq<Batch>, count: nat): map<string, Session> {
    if log == [] || log[|log| - 1].events == [] then map[]
    else
      var last := log[|log| - 1];
      map[last.importId := Session(ResumeToken(last), count, last.complete)]
  }

  lemma RowsOfConcat(a: seq<StoredEvent>, b: seq<StoredEvent>)
    ensures RowsOf(a + b) == RowsOf(a) + RowsOf(b)
  {
  }

  lemma WrittenExtendsChain(t: Target, log: seq<Batch>, batch: Batch, decoders: Decoders)
    requires Reflects(t, log) && BatchOk(decoders, batch)
    requires KeyOfBatch(batch) !in t.batches && SessionAllows(t, batch)
    ensures Chain(log + [batch])
  {
    var all := log + [batch];
    assert all[..|log|] == log && all[|log|] == batch;
    MaxPositionIsCount(t.rows);
    if batch.importId !in t.sessions && log != [] {
      HistoryNotEmpty(log);
    }
  }

  lemma HistoryNotEmpty(log: seq<Batch>)
    requires Chain(log) && log != []
    ensures History(log) != []
  {
  }

  /** When a batch is written: everything the transaction checked, and the rows it added. */
  predicate Writes(t: Target, batch: Batch, decoders: Decoders) {
    && BatchOk(decoders, batch) && !t.erasedAny
    && KeyOfBatch(batch) !in t.batches && SessionAllows(t, batch) && ContinuesTarget(t, batch)
  }

  lemma WritesOrNot(t: Target, batch: Batch, decoders: Decoders)
    ensures Writes(t, batch, decoders) ==> Import(t, batch, decoders) == (Imported(t, batch), Some(ResultOf(batch, false)))
    ensures !Writes(t, batch, decoders) ==> Import(t, batch, decoders).0 == t
  {
  }

  lemma LogSnoc(log: seq<Batch>, batch: Batch, count: nat)
    requires batch.events != []
    ensures Records(log + [batch]) == Records(log)[KeyOfBatch(batch) := RecordOf(batch)]
    ensures RowsOf(History(log + [batch])) == RowsOf(History(log)) + RowsOf(batch.events)
    ensures Sessions(log + [batch], count) == map[batch.importId := Session(ResumeToken(batch), count, batch.complete)]
  {
    var all := log + [batch];
    assert all[..|log|] == log && all[|log|] == batch;
    RowsOfConcat(History(log), batch.events);
  }

  lemma WrittenMirrors(t: Target, log: seq<Batch>, batch: Batch)
    requires Mirrors(t, log) && batch.events != [] && LastPosition(batch) == |Imported(t, batch).rows|
    requires t.sessions == map[] || t.sessions.Keys == {batch.importId}
    ensures Mirrors(Imported(t, batch), log + [batch])
  {
    LogSnoc(log, batch, |Imported(t, batch).rows|);
  }

  lemma WrittenReflects(t: Target, log: seq<Batch>, batch: Batch, decoders: Decoders)
    requires Reflects(t, log) && Writes(t, batch, decoders)
    ensures Reflects(Imported(t, batch), log + [batch])
  {
    WrittenExtendsChain(t, log, batch, decoders);
    ImportKeepsFaithful(t, batch);
    WrittenSession(t, log, batch, decoders);
    WrittenMirrors(t, log, batch);
  }

  lemma WrittenSession(t: Target, log: seq<Batch>, batch: Batch, decoders: Decoders)
    requires Reflects(t, log) && Writes(t, batch, decoders)
    ensures t.sessions == map[] || t.sessions.Keys == {batch.importId}
  {
    MaxPositionIsCount(t.rows);
    if batch.importId !in t.sessions && log != [] {
      HistoryNotEmpty(log);
    }
  }

  lemma ImportKeepsReflects(t: Target, log: seq<Batch>, batch: Batch, decoders: Decoders) returns (log': seq<Batch>)
    requires Reflects(t, log)
    ensures Reflects(Import(t, batch, decoders).0, log')
    ensures log' == if Writes(t, batch, decoders) then log + [batch] else log
  {
    WritesOrNot(t, batch, decoders);
    log' := log;
    if Writes(t, batch, decoders) {
      log' := log + [batch];
      WrittenReflects(t, log, batch, decoders);
    }
  }

  lemma {:induction false} RunReflects(targets: seq<Target>, sent: seq<Batch>, decoders: Decoders, i: nat)
    returns (log: seq<Batch>)
    requires IsRun(targets, sent, decoders) && i < |targets|
    ensures Reflects(targets[i], log)
  {
    if i == 0 {
      log := [];
    } else {
      var before := RunReflects(targets, sent, decoders, i - 1);
      log := ImportKeepsReflects(targets[i - 1], before, sent[i - 1], decoders);
    }
  }

  /** In every reachable store positions are exactly 1..n, each stream's versions exactly 1..k,
      event ids are distinct, and there is at most one session, at position n. */
  lemma ImportedStoreIsExact(targets: seq<Target>, sent: seq<Batch>, decoders: Decoders, i: nat, stream: string, version: nat)
    requires IsRun(targets, sent, decoders) && i < |targets|
    ensures var rows := targets[i].rows;
            && (forall k | 0 <= k < |rows| :: rows[k].position == k + 1)
            && ((exists k :: 0 <= k < |rows| && rows[k].stream == stream && rows[k].version == version)
                <==> 1 <= version <= Count(rows, stream))
            && (forall j, k | 0 <= j < k < |rows| :: IdOf(rows[j]) != IdOf(rows[k]))
    ensures forall a, b | a in targets[i].sessions && b in targets[i].sessions ::
              a == b && targets[i].sessions[a].lastPosition == |targets[i].rows|
  {
    var log := RunReflects(targets, sent, decoders, i);
    VersionsAreExactly(targets[i].rows, stream, version);
  }

  lemma {:induction false} RecordsStay(targets: seq<Target>, sent: seq<Batch>, decoders: Decoders, i: nat, j: nat, key: BatchKey)
    requires IsRun(targets, sent, decoders) && i <= j < |targets| && key in targets[i].batches
    ensures key in targets[j].batches && targets[j].batches[key] == targets[i].batches[key]
    ensures targets[j].erasedAny == targets[i].erasedAny
  {
    if i < j {
      RecordsStay(targets, sent, decoders, i, j - 1, key);
      assert targets[j - 1 + 1] == Import(targets[j - 1], sent[j - 1], decoders).0;
    }
  }

  /** Re-sending a batch that was written changes nothing, however much was imported since, and
      answers the same fields, marked unchanged. */
  lemma ResendIsUnchanged(targets: seq<Target>, sent: seq<Batch>, decoders: Decoders, i: nat, j: nat)
    requires IsRun(targets, sent, decoders) && i < j < |targets|
    requires var answer := Import(targets[i], sent[i], decoders).1; answer.Some? && !answer.value.repeated
    ensures Import(targets[j], sent[i], decoders)
            == (targets[j], Some(Import(targets[i], sent[i], decoders).1.value.(repeated := true)))
  {
    var key := KeyOfBatch(sent[i]);
    assert targets[i + 1] == Imported(targets[i], sent[i]);
    assert key in targets[i + 1].batches;
    RecordsStay(targets, sent, decoders, i + 1, j, key);
  }

  /** The token determines the import: chains that end in the same token wrote the same batches,
      so the same events as their JSON texts show them. */
  lemma {:induction false} SameTokenSameChain(a: seq<Batch>, b: seq<Batch>)
    requires Chain(a) && Chain(b) && a != [] && b != []
    requires ResumeToken(a[|a| - 1]) == ResumeToken(b[|b| - 1])
    ensures |a| == |b|
    ensures forall i | 0 <= i < |a| ::
              && KeyOfBatch(a[i]) == KeyOfBatch(b[i]) && a[i].complete == b[i].complete
              && PrintedEvents(a[i].events) == PrintedEvents(b[i].events)
    ensures PrintedEvents(History(a)) == PrintedEvents(History(b))
    decreases |a|
  {
    var fa, fb := a[..|a| - 1], b[..|b| - 1];
    if fa != [] && fb != [] {
      SameTokenSameChain(fa, fb);
      PrintedConcat(History(fa), a[|a| - 1].events);
      PrintedConcat(History(fb), b[|b| - 1].events);
    } else {
      assert fa == [] && fb == [];
      assert History(a) == a[0].events && History(b) == b[0].events;
    }
  }

  /** Batch by batch the same, as the texts show the events. */
  ghost predicate SameBatches(a: seq<Batch>, b: seq<Batch>) {
    && |a| == |b|
    && forall i | 0 <= i < |a| ::
         && KeyOfBatch(a[i]) == KeyOfBatch(b[i]) && a[i].complete == b[i].complete
         && PrintedEvents(a[i].events) == PrintedEvents(b[i].events)
  }

  /** Two chains end in the same token exactly when they are batch by batch the same up to the
      texts: nothing the texts do not show can be told from the token. */
  lemma SameTokenIffSameBatches(a: seq<Batch>, b: seq<Batch>)
    requires Chain(a) && Chain(b) && a != [] && b != []
    ensures ResumeToken(a[|a| - 1]) == ResumeToken(b[|b| - 1]) <==> SameBatches(a, b)
  {
    if ResumeToken(a[|a| - 1]) == ResumeToken(b[|b| - 1]) {
      SameTokenSameChain(a, b);
    }
    if SameBatches(a, b) {
      SameBatchesSameToken(a, b);
    }
  }

  lemma {:induction false} SameBatchesSameToken(a: seq<Batch>, b: seq<Batch>)
    requires Chain(a) && Chain(b) && a != [] && SameBatches(a, b)
    ensures ResumeToken(a[|a| - 1]) == ResumeToken(b[|b| - 1])
    decreases |a|
  {
    var n := |a| - 1;
    if n > 0 {
      assert SameBatches(a[..n], b[..n]) by {
        forall i | 0 <= i < n
          ensures KeyOfBatch(a[..n][i]) == KeyOfBatch(b[..n][i]) && a[..n][i].complete == b[..n][i].complete
          ensures PrintedEvents(a[..n][i].events) == PrintedEvents(b[..n][i].events)
        {
          assert a[..n][i] == a[i] && b[..n][i] == b[i];
        }
      }
      SameBatchesSameToken(a[..n], b[..n]);
    }
    var x, y := a[n].events, b[n].events;
    assert KeyOfBatch(a[n]) == KeyOfBatch(b[n]) && PrintedEvents(x) == PrintedEvents(y);
    assert |x| == |PrintedEvents(x)| == |y|;
    assert PrintedEvents(x)[|x| - 1].position == x[|x| - 1].position && PrintedEvents(y)[|y| - 1].position == y[|y| - 1].position;
  }

  lemma PrintedConcat(x: seq<StoredEvent>, y: seq<StoredEvent>)
    ensures PrintedEvents(x + y) == PrintedEvents(x) + PrintedEvents(y)
  {
  }

  /** Two stores filled by imports whose sessions carry the same token hold the same rows, the
      payloads and metadata as their JSON texts show them. */
  lemma SameTokenSameStore(
    targets1: seq<Target>, sent1: seq<Batch>, i: nat, targets2: seq<Target>, sent2: seq<Batch>, j: nat,
    decoders: Decoders, id1: string, id2: string)
    requires IsRun(targets1, sent1, decoders) && i < |targets1| && id1 in targets1[i].sessions
    requires IsRun(targets2, sent2, decoders) && j < |targets2| && id2 in targets2[j].sessions
    requires targets1[i].sessions[id1].resumeToken == targets2[j].sessions[id2].resumeToken
    ensures id1 == id2 && |targets1[i].rows| == |targets2[j].rows|
    ensures forall k | 0 <= k < |targets1[i].rows| ::
              PrintedRow(targets1[i].rows[k]) == PrintedRow(targets2[j].rows[k])
  {
    var a := RunReflects(targets1, sent1, decoders, i);
    var b := RunReflects(targets2, sent2, decoders, j);
    SameTokenSameChain(a, b);
    assert |History(a)| == |PrintedEvents(History(a))| == |History(b)|;
    forall k | 0 <= k < |History(a)|
      ensures PrintedRow(RowOf(History(a)[k])) == PrintedRow(RowOf(History(b)[k]))
    {
      assert PrintedEvents(History(a))[k] == PrintedEvents(History(b))[k];
    }
  }

  function PrintedRow(row: ImportRow): ImportRow {
    if row.content.Event?
    then row.(content := Event(PrintedEvent(StoredEvent(0, "", 0, row.content.body)).body))
    else row
  }
}
