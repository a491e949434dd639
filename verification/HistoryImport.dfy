/** Resumable import of a frozen history: batch validation, the atomic import transaction, and
    what holds of a store filled by imports alone. SHA-256 is collision-free: a digest is
    identified with what the text it was taken over shows. */
module HistoryImport {
  import opened Prelude
  import opened Text
  import opened CanonicalJson

  const MAX_PG_INTEGER := 2_147_483_647
  const MAX_PG_BIGINT := 9_223_372_036_854_775_807

  datatype Body = Body(
    eventType: string, schemaVersion: int, payload: Json, eventId: string, aggregateVersion: int, metadata: Json)

  /** An event as the caller hands it over; nothing about its numbers is trusted. */
  datatype StoredEvent = StoredEvent(position: int, streamName: string, version: int, body: Body)

  /** A string that may be a digest: of a JSON text, or any other string. */
  datatype Digest = Sha(form: Form) | Foreign(text: string)

  /** The texts digests are taken over. */
  datatype Form =
    | EventsForm(events: seq<StoredEvent>)
    | TokenForm(importId: string, batchId: string, checksum: Digest, previous: Option<Digest>,
                lastPosition: int, complete: bool)

  datatype Batch = Batch(
    importId: string, batchId: string, events: seq<StoredEvent>, checksum: Digest,
    resumeToken: Option<Digest>, complete: bool)

  /** Foreign code: the metadata schema and the payload decoder, each accepting or not. */
  datatype Decoders = Decoders(metadataOk: StoredEvent -> bool, payloadOk: StoredEvent -> bool)

  datatype Failure =
    | InvalidImportId | InvalidBatchId | ChecksumMismatch | InvalidPosition | GlobalPositionGap
    | StreamVersionGap | DuplicateEventId | InvalidMetadata | TargetNotEmpty | ResumeTokenMismatch
    | DivergentBatch | ImportComplete | EventDecodeError

  /** The event as its JSON text shows it. */
  function PrintedEvent(e: StoredEvent): StoredEvent {
    e.(body := e.body.(payload := Printed(Canonical(e.body.payload)), metadata := Printed(Canonical(e.body.metadata))))
  }

  function PrintedEvents(events: seq<StoredEvent>): (r: seq<StoredEvent>)
    ensures |r| == |events|
  {
    seq(|events|, i requires 0 <= i < |events| => PrintedEvent(events[i]))
  }

  function Checksum(events: seq<StoredEvent>): Digest {
    Sha(EventsForm(PrintedEvents(events)))
  }

  function ResumeToken(batch: Batch): Digest
    requires batch.events != []
  {
    Sha(TokenForm(batch.importId, batch.batchId, batch.checksum, batch.resumeToken,
                  batch.events[|batch.events| - 1].position, batch.complete))
  }

  /** What a text does not show, a checksum does not tell: payloads `[undefined]` and `[null]` are different values of different
      events with one checksum. */
  lemma ChecksumsCollide(e: StoredEvent)
    ensures var a, b := e.(body := e.body.(payload := Arr([Undefined]))), e.(body := e.body.(payload := Arr([Null])));
            FullMeaning(a.body.payload) != FullMeaning(b.body.payload) && Checksum([a]) == Checksum([b])
  {
    var a, b := e.(body := e.body.(payload := Arr([Undefined]))), e.(body := e.body.(payload := Arr([Null])));
    TextsCollide();
    assert FullItems([Undefined]) == [VUndefined] + FullItems([]) && FullItems([Null]) == [VNull] + FullItems([]);
    assert FullItems([Undefined])[0] != FullItems([Null])[0];
    assert PrintedEvents([a])[0] == PrintedEvents([b])[0];
    assert PrintedEvents([a]) == PrintedEvents([b]);
  }

  // ---- prepareHistoryImportBatch ----

  predicate EventOk(decoders: Decoders, e: StoredEvent) {
    && !Blank(e.streamName)
    && 1 <= e.position <= MAX_PG_BIGINT
    && 1 <= e.version <= MAX_PG_INTEGER
    && 1 <= e.body.schemaVersion <= MAX_PG_INTEGER
    && decoders.metadataOk(e) && e.body.aggregateVersion == e.version
    && !Blank(e.body.eventId)
    && decoders.payloadOk(e)
  }

  /** Positions are consecutive, each stream's versions too, and no event id repeats. */
  predicate Coherent(events: seq<StoredEvent>) {
    events != [] ==>
      var front, last := events[..|events| - 1], events[|events| - 1];
      Coherent(front) && NextOk(front, last)
  }

  /** What the walk asks of an event after those before it. */
  predicate NextOk(before: seq<StoredEvent>, e: StoredEvent) {
    && (before != [] ==> e.position == before[|before| - 1].position + 1)
    && (e.streamName in Latest(before) ==> e.version == Latest(before)[e.streamName] + 1)
    && e.body.eventId !in Ids(before)
  }

  predicate BatchOk(decoders: Decoders, batch: Batch) {
    && !Blank(batch.importId) && !Blank(batch.batchId)
    && batch.events != []
    && batch.checksum == Checksum(batch.events)
    && (forall i | 0 <= i < |batch.events| :: EventOk(decoders, batch.events[i]))
    && Coherent(batch.events)
  }

  function Ids(events: seq<StoredEvent>): set<string> {
    set i | 0 <= i < |events| :: events[i].body.eventId
  }

  /** The latest version seen of each stream while walking the events. */
  function Latest(events: seq<StoredEvent>): map<string, int> {
    if events == [] then map[]
    else Latest(events[..|events| - 1])[events[|events| - 1].streamName := events[|events| - 1].version]
  }

  lemma {:induction false} LatestIs(events: seq<StoredEvent>, stream: string, i: nat)
    requires i < |events| && events[i].streamName == stream
    requires forall k | i < k < |events| :: events[k].streamName != stream
    ensures stream in Latest(events) && Latest(events)[stream] == events[i].version
  {
    var n := |events| - 1;
    if i < n {
      LatestIs(events[..n], stream, i);
    }
  }

  lemma {:induction false} CoherentPrefix(events: seq<StoredEvent>, n: nat)
    requires Coherent(events) && n <= |events|
    ensures Coherent(events[..n])
    decreases |events|
  {
    if n < |events| {
      CoherentPrefix(events[..|events| - 1], n);
      assert events[..|events| - 1][..n] == events[..n];
    } else {
      assert events[..n] == events;
    }
  }

  /** Read pairwise: positions count up by one, ids differ, and the next event of a stream has
      the next version. */
  lemma {:induction false} CoherentPairs(events: seq<StoredEvent>, i: nat, j: nat)
    requires Coherent(events) && i < j < |events|
    ensures events[j].position == events[i].position + (j - i)
    ensures events[i].body.eventId != events[j].body.eventId
    ensures events[i].streamName == events[j].streamName
            && (forall k | i < k < j :: events[k].streamName != events[j].streamName)
            ==> events[j].version == events[i].version + 1
  {
    CoherentPrefix(events, j + 1);
    var front := events[..j + 1][..j];
    assert front == events[..j] && NextOk(front, events[j]);
    assert front[i].body.eventId in Ids(front);
    if i < j - 1 {
      CoherentPairs(events, i, j - 1);
    }
    if events[i].streamName == events[j].streamName && forall k | i < k < j :: events[k].streamName != events[j].streamName {
      LatestIs(front, events[j].streamName, i);
    }
  }

  /** The body of the walk: what is wrong with the next event, if anything. */
  method CheckNext(decoders: Decoders, before: seq<StoredEvent>, ids: set<string>, versions: map<string, int>, e: StoredEvent)
    returns (fault: Option<Failure>)
    requires ids == Ids(before) && versions == Latest(before)
    ensures fault.None? <==> EventOk(decoders, e) && NextOk(before, e)
  {
    BlankTrimsToNothing(e.streamName);
    BlankTrimsToNothing(e.body.eventId);
    if Trim(e.streamName) == "" {
      return Some(StreamVersionGap);
    }
    if e.position < 1 || e.position > MAX_PG_BIGINT {
      return Some(InvalidPosition);
    }
    if before != [] && e.position != before[|before| - 1].position + 1 {
      return Some(GlobalPositionGap);
    }
    if e.version < 1 || e.version > MAX_PG_INTEGER {
      return Some(StreamVersionGap);
    }
    if e.body.schemaVersion < 1 || e.body.schemaVersion > MAX_PG_INTEGER {
      return Some(InvalidMetadata);
    }
    if e.streamName in versions && e.version != versions[e.streamName] + 1 {
      return Some(StreamVersionGap);
    }
    if !decoders.metadataOk(e) || e.body.aggregateVersion != e.version {
      return Some(InvalidMetadata);
    }
    if Trim(e.body.eventId) == "" || e.body.eventId in ids {
      return Some(DuplicateEventId);
    }
    return if decoders.payloadOk(e) then None else Some(EventDecodeError);
  }

  /** Accepts exactly the batches that are sound in themselves; answers their event ids. */
  method Prepare(batch: Batch, decoders: Decoders) returns (r: Result<set<string>, Failure>)
    ensures r.Ok? <==> BatchOk(decoders, batch)
    ensures r.Ok? ==> r.value == Ids(batch.events)
  {
    BlankTrimsToNothing(batch.importId);
    BlankTrimsToNothing(batch.batchId);
    if Trim(batch.importId) == "" {
      return Err(InvalidImportId);
    }
    if Trim(batch.batchId) == "" {
      return Err(InvalidBatchId);
    }
    if batch.events == [] {
      return Err(InvalidPosition);
    }
    if Checksum(batch.events) != batch.checksum {
      return Err(ChecksumMismatch);
    }
    r := Walk(batch.events, decoders);
  }

  method Walk(events: seq<StoredEvent>, decoders: Decoders) returns (r: Result<set<string>, Failure>)
    ensures r.Ok? <==> (forall i | 0 <= i < |events| :: EventOk(decoders, events[i])) && Coherent(events)
    ensures r.Ok? ==> r.value == Ids(events)
  {
    var ids: set<string> := {};
    var versions: map<string, int> := map[];
    var before: seq<StoredEvent> := [];
    for i := 0 to |events|
      invariant before == events[..i]
      invariant ids == Ids(before) && versions == Latest(before)
      invariant Coherent(before)
      invariant forall k | 0 <= k < i :: EventOk(decoders, events[k])
    {
      var e := events[i];
      var fault := CheckNext(decoders, before, ids, versions, e);
      if fault.Some? {
        NextIsNecessary(events, i);
        return Err(fault.value);
      }
      Snoc(before, e);
      ids := ids + {e.body.eventId};
      versions := versions[e.streamName := e.version];
      before := before + [e];
    }
    assert before == events;
    return Ok(ids);
  }

  lemma Snoc(before: seq<StoredEvent>, e: StoredEvent)
    ensures Coherent(before + [e]) <==> Coherent(before) && NextOk(before, e)
    ensures Latest(before + [e]) == Latest(before)[e.streamName := e.version]
    ensures Ids(before + [e]) == Ids(before) + {e.body.eventId}
  {
    var all := before + [e];
    assert all[..|before|] == before && all[|before|] == e;
    assert forall k | 0 <= k < |before| :: all[k] == before[k];
    forall id | id in Ids(before)
      ensures id in Ids(all)
    {
      var k :| 0 <= k < |before| && before[k].body.eventId == id;
      assert all[k].body.eventId == id;
    }
  }

  lemma NextIsNecessary(events: seq<StoredEvent>, i: nat)
    requires i < |events|
    ensures Coherent(events) ==> NextOk(events[..i], events[i])
  {
    if Coherent(events) {
      CoherentPrefix(events, i + 1);
      assert events[..i + 1][..i] == events[..i] && events[..i + 1][i] == events[i];
    }
  }
}
