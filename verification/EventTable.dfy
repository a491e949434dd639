/** The events table of the PostgreSQL adapter: rows in commit order, their numbering per
    stream, the erasure ledger, and append and erasure run one at a time. */
module EventTable {

  datatype Content<Body> = Event(body: Body) | Tombstone(ofVersion: nat, erasedAt: int)

  datatype Row<Body> = Row(position: nat, stream: string, version: nat, content: Content<Body>)

  /** What identifies a row to a reader of the feed; erasure never changes it. */
  datatype RowKey = RowKey(position: nat, stream: string, version: nat)

  function KeyOf<Body>(row: Row<Body>): RowKey {
    RowKey(row.position, row.stream, row.version)
  }

  function Keys<Body>(rows: seq<Row<Body>>): seq<RowKey> {
    seq(|rows|, i requires 0 <= i < |rows| => KeyOf(rows[i]))
  }

  /** SELECT max(version) ... WHERE stream_name = stream, NULL read as 0. */
  function MaxVersion<Body>(rows: seq<Row<Body>>, stream: string): nat {
    if rows == [] then 0
    else
      var before := MaxVersion(rows[..|rows| - 1], stream);
      var last := rows[|rows| - 1];
      if last.stream == stream && last.version > before then last.version else before
  }

  function Count<Body>(rows: seq<Row<Body>>, stream: string): nat {
    if rows == [] then 0
    else Count(rows[..|rows| - 1], stream) + if rows[|rows| - 1].stream == stream then 1 else 0
  }

  /** Each row carries the next version of its stream: versions are 1, 2, 3, ... per stream. */
  ghost predicate Numbered<Body>(rows: seq<Row<Body>>) {
    rows != [] ==>
      var front, last := rows[..|rows| - 1], rows[|rows| - 1];
      Numbered(front) && last.version == Count(front, last.stream) + 1
  }

  predicate Increasing<Body>(rows: seq<Row<Body>>) {
    forall i, j | 0 <= i < j < |rows| :: rows[i].position < rows[j].position
  }

  /** The version check reads the number of rows of the stream. */
  lemma {:induction false} MaxIsCount<Body>(rows: seq<Row<Body>>, stream: string)
    requires Numbered(rows)
    ensures MaxVersion(rows, stream) == Count(rows, stream)
  {
    if rows != [] {
      MaxIsCount(rows[..|rows| - 1], stream);
    }
  }

  lemma {:induction false} VersionPresent<Body>(rows: seq<Row<Body>>, stream: string, version: nat) returns (i: nat)
    requires Numbered(rows) && 1 <= version <= Count(rows, stream)
    ensures i < |rows| && rows[i].stream == stream && rows[i].version == version
  {
    var n := |rows| - 1;
    if rows[n].stream == stream && rows[n].version == version {
      i := n;
    } else {
      i := VersionPresent(rows[..n], stream, version);
    }
  }

  lemma {:induction false} VersionWithin<Body>(rows: seq<Row<Body>>, i: nat)
    requires Numbered(rows) && i < |rows|
    ensures 1 <= rows[i].version <= Count(rows, rows[i].stream)
  {
    var n := |rows| - 1;
    if i < n {
      VersionWithin(rows[..n], i);
    }
  }

  lemma {:induction false} VersionsAscend<Body>(rows: seq<Row<Body>>, i: nat, j: nat)
    requires Numbered(rows) && i < j < |rows| && rows[i].stream == rows[j].stream
    ensures rows[i].version < rows[j].version
  {
    var n := |rows| - 1;
    if j < n {
      VersionsAscend(rows[..n], i, j);
    } else {
      VersionWithin(rows[..n], i);
    }
  }

  /** Gap-free from 1, as a reader sees it: a stream of k rows holds each version of 1..k
      exactly once, and no other. */
  lemma VersionsAreExactly<Body>(rows: seq<Row<Body>>, stream: string, version: nat)
    requires Numbered(rows)
    ensures (exists i :: 0 <= i < |rows| && rows[i].stream == stream && rows[i].version == version)
            <==> 1 <= version <= Count(rows, stream)
    ensures forall i, j | 0 <= i < j < |rows| && rows[i].stream == rows[j].stream :: rows[i].version < rows[j].version
  {
    if 1 <= version <= Count(rows, stream) {
      var i := VersionPresent(rows, stream, version);
    }
    forall i | 0 <= i < |rows|
      ensures 1 <= rows[i].version <= Count(rows, rows[i].stream)
    {
      VersionWithin(rows, i);
    }
    forall i, j | 0 <= i < j < |rows| && rows[i].stream == rows[j].stream
      ensures rows[i].version < rows[j].version
    {
      VersionsAscend(rows, i, j);
    }
  }

  /** The rows an append inserts, versions following `expected`. */
  ghost predicate Follows<Body>(staged: seq<Row<Body>>, stream: string, expected: nat) {
    forall k | 0 <= k < |staged| :: staged[k].stream == stream && staged[k].version == expected + 1 + k
  }

  lemma {:induction false} CountAfterAppend<Body>(
    rows: seq<Row<Body>>, staged: seq<Row<Body>>, stream: string, expected: nat, s: string)
    requires Follows(staged, stream, expected)
    ensures Count(rows + staged, s) == Count(rows, s) + if s == stream then |staged| else 0
    decreases |staged|
  {
    if staged == [] {
      assert rows + staged == rows;
    } else {
      var n := |staged| - 1;
      CountAfterAppend(rows, staged[..n], stream, expected, s);
      var all := rows + staged;
      assert all[..|all| - 1] == rows + staged[..n] && all[|all| - 1] == staged[n];
    }
  }

  lemma {:induction false} AppendKeepsNumbering<Body>(
    rows: seq<Row<Body>>, staged: seq<Row<Body>>, stream: string, expected: nat)
    requires Numbered(rows) && Count(rows, stream) == expected && Follows(staged, stream, expected)
    ensures Numbered(rows + staged)
    decreases |staged|
  {
    if staged == [] {
      assert rows + staged == rows;
    } else {
      var n := |staged| - 1;
      AppendKeepsNumbering(rows, staged[..n], stream, expected);
      CountAfterAppend(rows, staged[..n], stream, expected, stream);
      var all := rows + staged;
      assert all[..|all| - 1] == rows + staged[..n] && all[|all| - 1] == staged[n];
    }
  }

  /** One UPDATE of the erasure loop, and the whole loop up to `upTo`. */
  function Rewritten<Body>(rows: seq<Row<Body>>, stream: string, upTo: nat, at: int): (r: seq<Row<Body>>)
    ensures |r| == |rows| && Keys(r) == Keys(rows)
  {
    seq(|rows|, i requires 0 <= i < |rows| =>
      if rows[i].stream == stream && rows[i].version <= upTo
      then rows[i].(content := Tombstone(rows[i].version, at)) else rows[i])
  }

  lemma {:induction false} SameKeysSameNumbering<Body>(a: seq<Row<Body>>, b: seq<Row<Body>>)
    requires Keys(a) == Keys(b) && Numbered(a)
    ensures Numbered(b)
    ensures forall stream :: Count(a, stream) == Count(b, stream)
  {
    assert |a| == |Keys(a)| == |b|;
    if a != [] {
      var n := |a| - 1;
      assert Keys(a)[n] == Keys(b)[n];
      assert Keys(a[..n]) == Keys(a)[..n] == Keys(b)[..n] == Keys(b[..n]);
      SameKeysSameNumbering(a[..n], b[..n]);
    }
  }

  lemma SameKeysSameOrder<Body>(a: seq<Row<Body>>, b: seq<Row<Body>>)
    requires Keys(a) <= Keys(b)
    ensures |a| <= |b|
    ensures forall i | 0 <= i < |a| :: KeyOf(a[i]) == KeyOf(b[i])
  {
    assert |a| == |Keys(a)| && |b| == |Keys(b)|;
    forall i | 0 <= i < |a|
      ensures KeyOf(a[i]) == KeyOf(b[i])
    {
      assert Keys(a)[i] == Keys(b)[i];
    }
  }

  /** Every row of the stream is the tombstone of its own version. */
  ghost predicate AllTombstones<Body>(rows: seq<Row<Body>>, stream: string) {
    forall i | 0 <= i < |rows| && rows[i].stream == stream ::
      rows[i].content.Tombstone? && rows[i].content.ofVersion == rows[i].version
  }

  lemma RewritingAllLeavesTombstones<Body>(rows: seq<Row<Body>>, stream: string, at: int)
    requires Numbered(rows)
    ensures AllTombstones(Rewritten(rows, stream, Count(rows, stream), at), stream)
  {
    forall i | 0 <= i < |rows| && rows[i].stream == stream
      ensures rows[i].version <= Count(rows, stream)
    {
      VersionWithin(rows, i);
    }
  }

  /** The table is numbered, ascending by position, and below the sequence's next value. */
  ghost predicate Ordered<Body>(rows: seq<Row<Body>>, next: nat) {
    && Numbered(rows)
    && Increasing(rows)
    && next >= 1
    && (forall i | 0 <= i < |rows| :: 1 <= rows[i].position < next)
  }

  /** Every stream in the ledger is all tombstones at its recorded version. */
  ghost predicate Pinned<Body>(rows: seq<Row<Body>>, ledger: map<string, nat>) {
    forall s | s in ledger :: ledger[s] == Count(rows, s) && AllTombstones(rows, s)
  }

  /** `after` is `before` and the events, in order, at the versions that follow `expected`. */
  ghost predicate Extends<Body>(
    before: seq<Row<Body>>, after: seq<Row<Body>>, stream: string, expected: nat, events: seq<Body>) {
    && |after| == |before| + |events|
    && before <= after
    && forall k | 0 <= k < |events| ::
         var row := after[|before| + k];
         row.stream == stream && row.version == expected + 1 + k && row.content == Event(events[k])
  }

  datatype AppendOutcome = Appended(firstVersion: nat, lastVersion: nat) | Conflict(actual: nat)
  datatype EraseOutcome = Erased(erasedEvents: nat, lastVersion: nat) | ErasureConflict(actual: nat)

  /** insertEvents: one INSERT per event, each drawing the next position. */
  method Stage<Body>(next: nat, stream: string, expected: nat, events: seq<Body>) returns (staged: seq<Row<Body>>)
    ensures |staged| == |events|
    ensures forall k | 0 <= k < |events| :: staged[k] == Row(next + k, stream, expected + 1 + k, Event(events[k]))
  {
    staged := [];
    for k := 0 to |events|
      invariant |staged| == k
      invariant forall j | 0 <= j < k :: staged[j] == Row(next + j, stream, expected + 1 + j, Event(events[j]))
    {
      staged := staged + [Row(next + k, stream, expected + k + 1, Event(events[k]))];
    }
  }

  /** The tables with append and erasure as uninterrupted transactions. */
  class Store<Body> {
    var rows: seq<Row<Body>>
    var ledger: map<string, nat>
    var nextPosition: nat

    ghost predicate Valid()
      reads this
    {
      Ordered(rows, nextPosition) && Pinned(rows, ledger)
    }

    constructor ()
      ensures Valid() && rows == [] && ledger == map[]
    {
      rows, ledger, nextPosition := [], map[], 1;
    }

    /** A conflict, on an erased stream or a stale version, writes nothing; otherwise exactly the
        events are added, in order, at the versions that follow the expected one. */
    method Append(stream: string, expected: nat, events: seq<Body>) returns (outcome: AppendOutcome)
      requires Valid()
      modifies this
      ensures Valid() && ledger == old(ledger)
      ensures outcome.Conflict? <==> stream in old(ledger) || Count(old(rows), stream) != expected
      ensures outcome.Conflict? ==>
                rows == old(rows) && outcome.actual == Count(old(rows), stream)
      ensures outcome.Appended? ==>
                && Extends(old(rows), rows, stream, expected, events)
                && Count(rows, stream) == outcome.lastVersion == expected + |events|
                && outcome.firstVersion == if events == [] then expected else expected + 1
    {
      MaxIsCount(rows, stream);
      if stream in ledger {
        return Conflict(ledger[stream]);
      }
      var actual := MaxVersion(rows, stream);
      if actual != expected {
        return Conflict(actual);
      }
      var staged := Stage(nextPosition, stream, expected, events);
      AppendKeepsTables(rows, staged, stream, expected, nextPosition, ledger);
      rows, nextPosition := rows + staged, nextPosition + |events|;
      return Appended(if events == [] then expected else expected + 1, expected + |events|);
    }

    /** Rewrites every row of the stream, one UPDATE per version, then pins the version. A repeat
        of a recorded erasure changes nothing. */
    method EraseStream(stream: string, expected: nat, at: int) returns (outcome: EraseOutcome)
      requires Valid()
      modifies this
      ensures Valid() && Keys(rows) == Keys(old(rows)) && nextPosition == old(nextPosition)
      ensures outcome.ErasureConflict? <==> Count(old(rows), stream) != expected
      ensures outcome.ErasureConflict? ==>
                rows == old(rows) && ledger == old(ledger) && outcome.actual == Count(old(rows), stream)
      ensures outcome.Erased? ==>
                && ledger == old(ledger)[stream := expected] && AllTombstones(rows, stream)
                && outcome.lastVersion == expected
                && (forall i | 0 <= i < |rows| && rows[i].stream != stream :: rows[i] == old(rows)[i])
      ensures outcome.Erased? && stream in old(ledger) ==> rows == old(rows) && outcome.erasedEvents == 0
      ensures outcome.Erased? && stream !in old(ledger) ==> outcome.erasedEvents == expected
    {
      MaxIsCount(rows, stream);
      if stream in ledger {
        if expected != ledger[stream] {
          return ErasureConflict(ledger[stream]);
        }
        assert ledger == ledger[stream := expected];
        return Erased(0, ledger[stream]);
      }
      var actual := MaxVersion(rows, stream);
      if actual != expected {
        return ErasureConflict(actual);
      }
      ghost var was := rows;
      var version := 1;
      assert rows == Rewritten(was, stream, 0, at) by {
        forall i | 0 <= i < |was|
          ensures was[i].version >= 1
        {
          VersionWithin(was, i);
        }
      }
      while version <= expected
        invariant 1 <= version <= expected + 1
        invariant rows == Rewritten(was, stream, version - 1, at)
        invariant ledger == old(ledger) && nextPosition == old(nextPosition)
      {
        rows := RewrittenAt(rows, stream, version, at);
        assert rows == Rewritten(was, stream, version, at);
        version := version + 1;
      }
      ErasureKeepsOrder(was, stream, expected, at, nextPosition);
      RewritingAllLeavesTombstones(was, stream, at);
      ErasureKeepsLedger(was, stream, expected, at, ledger);
      ledger := ledger[stream := expected];
      return Erased(expected, expected);
    }
  }

  /** UPDATE ... WHERE stream_name = stream AND version = version. */
  function RewrittenAt<Body>(rows: seq<Row<Body>>, stream: string, version: nat, at: int): seq<Row<Body>> {
    seq(|rows|, i requires 0 <= i < |rows| =>
      if rows[i].stream == stream && rows[i].version == version
      then rows[i].(content := Tombstone(version, at)) else rows[i])
  }

  lemma AppendKeepsLedger<Body>(
    rows: seq<Row<Body>>, staged: seq<Row<Body>>, stream: string, ledger: map<string, nat>)
    requires Numbered(rows) && Follows(staged, stream, Count(rows, stream)) && stream !in ledger
    requires Pinned(rows, ledger)
    ensures Pinned(rows + staged, ledger)
  {
    forall s | s in ledger
      ensures ledger[s] == Count(rows + staged, s) && AllTombstones(rows + staged, s)
    {
      CountAfterAppend(rows, staged, stream, Count(rows, stream), s);
    }
  }

  lemma AppendKeepsTables<Body>(
    rows: seq<Row<Body>>, staged: seq<Row<Body>>, stream: string, expected: nat, next: nat, ledger: map<string, nat>)
    requires Ordered(rows, next) && Pinned(rows, ledger) && stream !in ledger
    requires Count(rows, stream) == expected && Follows(staged, stream, expected)
    requires forall k | 0 <= k < |staged| :: staged[k].position == next + k
    ensures Ordered(rows + staged, next + |staged|) && Pinned(rows + staged, ledger)
    ensures Count(rows + staged, stream) == expected + |staged|
  {
    AppendKeepsNumbering(rows, staged, stream, expected);
    CountAfterAppend(rows, staged, stream, expected, stream);
    AppendKeepsLedger(rows, staged, stream, ledger);
  }

  lemma ErasureKeepsOrder<Body>(rows: seq<Row<Body>>, stream: string, expected: nat, at: int, next: nat)
    requires Ordered(rows, next)
    ensures Ordered(Rewritten(rows, stream, expected, at), next)
    ensures forall s :: Count(Rewritten(rows, stream, expected, at), s) == Count(rows, s)
  {
    SameKeysSameNumbering(rows, Rewritten(rows, stream, expected, at));
  }

  lemma ErasureKeepsLedger<Body>(rows: seq<Row<Body>>, stream: string, expected: nat, at: int, ledger: map<string, nat>)
    requires Numbered(rows) && Count(rows, stream) == expected && Pinned(rows, ledger)
    ensures Pinned(Rewritten(rows, stream, expected, at), ledger[stream := expected])
  {
    SameKeysSameNumbering(rows, Rewritten(rows, stream, expected, at));
    RewritingAllLeavesTombstones(rows, stream, at);
  }
}
