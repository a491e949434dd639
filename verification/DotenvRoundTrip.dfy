/** Files written from pairs of key and value: when parsing and expanding gives the pairs again. */
module DotenvRoundTrip {
  import opened DotenvDocument
  import opened DotenvWriter
  import opened DotenvEntry
  import opened Expand

  // ---- line ends are normalised before a file is parsed ----

  lemma NormalizedStep(s: string, c: char, rest: string)
    requires s == [c] + rest && !(c == '\r' && rest != "" && rest[0] == '\n')
    ensures Normalized(s) == [c] + Normalized(rest)
  {
    assert s[1..] == rest;
  }

  lemma NormalizedPair(s: string, rest: string)
    requires s == "\r\n" + rest
    ensures Normalized(s) == "\n" + Normalized(rest)
  {
    assert s[2..] == rest;
  }

  lemma {:induction false} NormalizedAppends(a: string, b: string)
    requires !(a != "" && a[|a| - 1] == '\r' && b != "" && b[0] == '\n')
    ensures Normalized(a + b) == Normalized(a) + Normalized(b)
  {
    if a == "" {
      assert a + b == b;
    } else if CrlfAt(a, 0) {
      NormalizedAppends(a[2..], b);
      PairAppends(a, a[2..], b);
    } else {
      NormalizedAppends(a[1..], b);
      StepAppends(a, a[0], a[1..], b);
    }
  }

  lemma PairAppends(a: string, rest: string, b: string)
    requires a == "\r\n" + rest && Normalized(rest + b) == Normalized(rest) + Normalized(b)
    ensures Normalized(a + b) == Normalized(a) + Normalized(b)
  {
    Associates("\r\n", rest, b);
    NormalizedPair(a, rest);
    NormalizedPair(a + b, rest + b);
    Associates("\n", Normalized(rest), Normalized(b));
  }

  lemma StepAppends(a: string, c: char, rest: string, b: string)
    requires a == [c] + rest && !CrlfAt(a, 0) && !(a == "\r" && b != "" && b[0] == '\n')
    requires Normalized(rest + b) == Normalized(rest) + Normalized(b)
    ensures Normalized(a + b) == Normalized(a) + Normalized(b)
  {
    Associates([c], rest, b);
    assert !CrlfAt(a + b, 0);
    NormalizedStep(a, c, rest);
    NormalizedStep(a + b, c, rest + b);
    Associates([c], Normalized(rest), Normalized(b));
  }

  lemma {:induction false} NormalizedEnds(v: string)
    ensures |Normalized(v)| <= |v| && (v != "" ==> Normalized(v) != "")
    ensures v != "" ==> Normalized(v)[|Normalized(v)| - 1] == v[|v| - 1]
    ensures v != "" ==> Normalized(v)[0] == if CrlfAt(v, 0) then '\n' else v[0]
  {
    if v != "" {
      NormalizedEnds(if CrlfAt(v, 0) then v[2..] else v[1..]);
    }
  }

  lemma {:induction false} NormalIffNoCrlf(v: string)
    ensures Normalized(v) == v <==> !HasCrlf(v)
  {
    if !HasCrlf(v) {
      NoCrlfIsNormal(v);
    } else {
      CrlfShortens(v);
    }
  }

  lemma {:induction false} CrlfShortens(v: string)
    requires HasCrlf(v)
    ensures |Normalized(v)| < |v|
  {
    var i: nat :| i < |v| && CrlfAt(v, i);
    if CrlfAt(v, 0) {
      NormalizedEnds(v[2..]);
    } else {
      assert CrlfAt(v[1..], i - 1);
      CrlfShortens(v[1..]);
    }
  }

  lemma {:induction false} NormalizedKeepsChar(v: string, c: char)
    requires c != '\r'
    ensures c in Normalized(v) <==> c in v
  {
    if v == "" {
    } else if CrlfAt(v, 0) {
      NormalizedKeepsChar(v[2..], c);
      assert v == "\r\n" + v[2..];
    } else {
      NormalizedKeepsChar(v[1..], c);
      assert v == [v[0]] + v[1..];
    }
  }

  lemma {:induction false} NormalizedKeepsPairs(v: string, letter: char)
    requires letter != '\r' && letter != '\n'
    ensures HasPair(Normalized(v), letter) <==> HasPair(v, letter)
  {
    if v == "" {
    } else if CrlfAt(v, 0) {
      var rest := v[2..];
      NormalizedKeepsPairs(rest, letter);
      assert v == ['\r'] + (['\n'] + rest);
      PairStep(v, '\r', ['\n'] + rest, letter);
      PairStep(['\n'] + rest, '\n', rest, letter);
      PairStep(Normalized(v), '\n', Normalized(rest), letter);
    } else {
      var c, rest := v[0], v[1..];
      assert v == [c] + rest;
      NormalizedKeepsPairs(rest, letter);
      NormalizedStep(v, c, rest);
      NormalizedEnds(rest);
      PairStep(v, c, rest, letter);
      PairStep(Normalized(v), c, Normalized(rest), letter);
    }
  }

  lemma {:induction false} NormalizedEscape(v: string)
    ensures Normalized(EscapeDollars(v)) == EscapeDollars(Normalized(v))
  {
    if v == "" {
    } else if CrlfAt(v, 0) {
      var rest := v[2..];
      NormalizedEscape(rest);
      assert v == ['\r'] + (['\n'] + rest);
      EscapeStep(v, '\r', ['\n'] + rest);
      EscapeStep(['\n'] + rest, '\n', rest);
      NormalizedPair(EscapeDollars(v), EscapeDollars(rest));
      EscapeStep(Normalized(v), '\n', Normalized(rest));
    } else {
      var c, rest := v[0], v[1..];
      assert v == [c] + rest;
      NormalizedEscape(rest);
      NormalizedStep(v, c, rest);
      EscapeStep(v, c, rest);
      EscapeStep(Normalized(v), c, Normalized(rest));
      EscapingAddsNoPair(rest, 'n');
      NormalizedAppends(if c == '$' then "\\$" else [c], EscapeDollars(rest));
      NormalizedStep([c], c, "");
      NoReturnIsNormal("\\$");
    }
  }

  lemma NoReturnIsNormal(s: string)
    requires '\r' !in s
    ensures Normalized(s) == s
  {
    NoCrlfIsNormal(s);
  }

  lemma NormalizedIsQuotedAlike(v: string)
    ensures Bare(Normalized(v)) <==> Bare(v)
    ensures Bare(v) ==> Normalized(v) == v
    ensures QuoteOf(Normalized(v)) == QuoteOf(v)
    ensures FormatValue(Normalized(v)).Some? <==> FormatValue(v).Some?
    ensures EndsInBackslash(Normalized(v)) <==> EndsInBackslash(v)
  {
    NormalizedEnds(v);
    NormalIffNoCrlf(v);
    NormalizedKeepsChar(v, '\n');
    NormalizedKeepsChar(v, '\'');
    NormalizedKeepsChar(v, '"');
    NormalizedKeepsChar(v, '`');
    NormalizedKeepsPairs(v, 'n');
    NormalizedKeepsPairs(v, 'r');
    NormalizedKeepsPairs(v, '$');
    if HasCrlf(v) {
      CrlfIsNotBare(v);
    }
  }

  lemma CrlfIsNotBare(v: string)
    requires HasCrlf(v)
    ensures !Bare(v) && !Bare(Normalized(v))
  {
    var i: nat :| i < |v| && CrlfAt(v, i);
    assert !BareChar(v[i]) && v[i + 1] in v;
    NormalizedKeepsChar(v, '\n');
    var j :| 0 <= j < |Normalized(v)| && Normalized(v)[j] == '\n';
    assert !BareChar(Normalized(v)[j]);
  }

  /** Normalising a written line writes the normalised value. */
  lemma NormalizedWritten(key: string, v: string)
    requires ValidKey(key) && FormatValue(v).Some?
    ensures Normalized(Written(key, v)) == Written(key, Normalized(v))
  {
    NormalizedIsQuotedAlike(v);
    KeyIsNormal(key);
    if v == "" || Bare(v) {
      NormalizedAppends(key + "=", v);
    } else {
      var q, e := QuoteOf(v), Inside(v);
      WrittenQuoted(key, v);
      WrittenQuoted(key, Normalized(v));
      NormalizedEscape(v);
      NormalizedQuoted(q, e);
      NormalizedAppends(key + "=", [q] + e + [q]);
    }
  }

  lemma KeyIsNormal(key: string)
    requires ValidKey(key)
    ensures Normalized(key + "=") == key + "="
  {
    forall i | 0 <= i < |key| ensures key[i] != '\r' {
      KeyCharsAreNot(key[i]);
    }
    NoReturnIsNormal(key + "=");
  }

  lemma NormalizedQuoted(q: char, e: string)
    requires IsQuote(q)
    ensures Normalized([q] + e + [q]) == [q] + Normalized(e) + [q]
  {
    NoReturnIsNormal([q]);
    NormalizedAppends([q], e);
    NormalizedAppends([q] + e, [q]);
  }

  // ---- the lines of a written file ----

  /** The lines of a file as the parser counts them. */
  function LinesIn(file: string): seq<string> {
    LinesOf(Body(Normalized(WithoutBom(file))))
  }

  function Flat(blocks: seq<seq<string>>): seq<string> {
    if blocks == [] then [] else blocks[0] + Flat(blocks[1..])
  }

  lemma FlatStep(blocks: seq<seq<string>>, first: seq<string>, rest: seq<seq<string>>)
    requires blocks == [first] + rest
    ensures Flat(blocks) == first + Flat(rest)
  {
    assert blocks[1..] == rest;
  }

  /** The lines of each entry. */
  function BlocksOf(pairs: seq<(string, string)>): seq<seq<string>> {
    seq(|pairs|, i requires 0 <= i < |pairs| => Split(Written(pairs[i].0, Normalized(pairs[i].1))))
  }

  function LinesFor(pairs: seq<(string, string)>): seq<string> {
    Flat(BlocksOf(pairs))
  }

  /** Keys as the parser accepts them, values that can be written. */
  ghost predicate CanWrite(pairs: seq<(string, string)>) {
    Formats(pairs) && forall i | 0 <= i < |pairs| :: ValidKey(pairs[i].0)
  }

  ghost predicate LooksWritten(s: string) {
    s != "" && KeyChar(s[0]) && s[|s| - 1] != '\n' && s[|s| - 1] != '\r'
  }

  lemma WrittenLooks(key: string, v: string)
    requires ValidKey(key) && FormatValue(v).Some?
    ensures LooksWritten(Written(key, v))
  {
    if Bare(v) {
      assert BareChar(v[|v| - 1]);
    }
  }

  lemma {:induction false} LinesOfWritten(pairs: seq<(string, string)>)
    requires CanWrite(pairs) && pairs != []
    ensures var file := Join(WrittenAll(pairs), "\n");
      LooksWritten(file) && LooksWritten(Normalized(file)) && Split(Normalized(file)) == LinesFor(pairs)
  {
    var (key, v) := pairs[0];
    var rest := pairs[1..];
    var text, texts := Written(key, v), WrittenAll(pairs);
    assert texts[0] == text && texts[1..] == WrittenAll(rest);
    WrittenLooks(key, v);
    NormalizedWritten(key, v);
    NormalizedIsQuotedAlike(v);
    WrittenLooks(key, Normalized(v));
    var own := Split(Written(key, Normalized(v)));
    assert BlocksOf(pairs) == [own] + BlocksOf(rest);
    FlatStep(BlocksOf(pairs), own, BlocksOf(rest));
    if rest == [] {
      assert LinesFor(pairs) == own + [];
    } else {
      LinesOfWritten(rest);
      JoinNormalizes(text, Join(texts[1..], "\n"));
      SplitJoined(Normalized(text), Normalized(Join(texts[1..], "\n")));
    }
  }

  lemma JoinNormalizes(a: string, b: string)
    requires LooksWritten(a) && LooksWritten(b)
    ensures Normalized(a + ("\n" + b)) == Normalized(a) + ("\n" + Normalized(b))
    ensures LooksWritten(a + ("\n" + b))
    ensures LooksWritten(Normalized(a)) && LooksWritten(Normalized(b)) ==> LooksWritten(Normalized(a) + ("\n" + Normalized(b)))
  {
    KeyCharsAreNot(b[0]);
    NormalizedAppends(a, "\n" + b);
    NormalizedStep("\n" + b, '\n', b);
  }

  lemma LinesOfStringified(pairs: seq<(string, string)>)
    requires CanWrite(pairs)
    ensures LinesIn(Stringify(pairs).value) == LinesFor(pairs)
  {
    if pairs == [] {
      assert WrittenAll(pairs) == [];
    } else {
      LinesOfWritten(pairs);
      KeyCharsAreNot(Stringify(pairs).value[0]);
    }
  }

  // ---- one entry ----

  /** A written entry, its value normalised, stands in the lines. */
  predicate Stands(lines: seq<string>, index: nat, key: string, v: string) {
    ValidKey(key) && FormatValue(v).Some? && StandsAt(lines, index, Written(key, Normalized(v)))
  }

  /** The value comes back from this line: it has no CRLF, and if it ends in a backslash, it is on one
      line without a comment sign and no quote further down closes it. */
  predicate LegibleAt(lines: seq<string>, index: nat, key: string, v: string) {
    && !HasCrlf(v)
    && (EndsInBackslash(v) ==> '\n' !in v && '#' !in v && StaysOpen(lines, index, key))
  }

  /** The quote opened after the key is closed nowhere. */
  predicate StaysOpen(lines: seq<string>, index: nat, key: string) {
    index < |lines| && |key| + 1 <= |lines[index]| && QuotedEnd(lines, index, HeadOf(key)).None?
  }

  lemma EntryReads(lines: seq<string>, index: nat, key: string, v: string)
    requires Stands(lines, index, key, v)
    requires LegibleAt(lines, index, key, v)
    ensures ItemAt(lines, index).1 == index + |Split(Written(key, Normalized(v)))|
    ensures ItemReads(ItemAt(lines, index).0, (key, v))
  {
    NormalIffNoCrlf(v);
    if EndsInBackslash(v) {
      OpenEntry(lines, index, key, v);
    } else {
      WrittenParses(lines, index, key, v);
    }
  }

  /** What is read instead of a value that ends in a backslash shows the quote. */
  lemma EntryIsLost(lines: seq<string>, index: nat, key: string, w: string)
    requires ValidKey(key) && FormatValue(w).Some? && StandsAt(lines, index, Written(key, w)) && EndsInBackslash(w)
    requires '\n' in w || '#' in w || !StaysOpen(lines, index, key)
    ensures ShowsQuote(ItemAt(lines, index).0, key, QuoteOf(w))
  {
    BackslashIsQuoted(w);
    QuotedLine(lines, index, key, w);
    if StaysOpen(lines, index, key) {
      OpenEntry(lines, index, key, w);
    } else {
      SwallowedEntry(lines, index, key, w);
    }
  }

  lemma NoOtherValue(item: Item, key: string, v: string, w: string)
    requires ItemReads(item, (key, w)) && v != w
    ensures !ItemReads(item, (key, v))
  {
    var meaning := ValueMeaning(Setting(map[], EMPTY_ENV, false), item.value, item.quote, map[]);
    assert meaning == Means(w);
  }

  lemma EntryReadsIff(lines: seq<string>, index: nat, key: string, v: string)
    requires Stands(lines, index, key, v)
    ensures ItemReads(ItemAt(lines, index).0, (key, v)) <==> LegibleAt(lines, index, key, v)
  {
    var w := Normalized(v);
    NormalizedIsQuotedAlike(v);
    NormalIffNoCrlf(v);
    var item := ItemAt(lines, index).0;
    if LegibleAt(lines, index, key, v) {
      EntryReads(lines, index, key, v);
    } else if !EndsInBackslash(w) {
      WrittenParses(lines, index, key, w);
      NoOtherValue(item, key, v, w);
    } else if '\n' in w || '#' in w || !StaysOpen(lines, index, key) {
      EntryIsLost(lines, index, key, w);
      BackslashIsQuoted(v);
      WrittenQuoted(key, v);
      ShownQuoteMisleads(item, key, QuoteOf(v), v);
    } else {
      OpenEntry(lines, index, key, w);
      NoOtherValue(item, key, v, w);
    }
  }

  // ---- the whole file ----

  /** One assignment per pair, in order, each expanding to the pair's value. */
  ghost predicate AllRead(items: seq<Item>, pairs: seq<(string, string)>) {
    |items| == |pairs| && forall i | 0 <= i < |pairs| :: ItemReads(items[i], pairs[i])
  }

  lemma ReadOneMore(item: Item, rest: seq<Item>, pairs: seq<(string, string)>)
    requires pairs != []
    ensures AllRead([item] + rest, pairs) <==> ItemReads(item, pairs[0]) && AllRead(rest, pairs[1..])
  {
    var items := [item] + rest;
    if AllRead(items, pairs) {
      assert ItemReads(items[0], pairs[0]);
      forall i | 0 <= i < |rest| ensures ItemReads(rest[i], pairs[1..][i]) {
        assert ItemReads(items[i + 1], pairs[i + 1]);
      }
    } else if ItemReads(item, pairs[0]) && AllRead(rest, pairs[1..]) {
      forall i | 0 <= i < |pairs| ensures ItemReads(items[i], pairs[i]) {
        if i > 0 {
          assert ItemReads(rest[i - 1], pairs[1..][i - 1]);
        }
      }
      assert false;
    }
  }

  /** Any way of reading one item at a line, kept abstract where only the cuts matter. */
  type Reader = nat -> (Item, nat)

  function ItemsWith(read: Reader, n: nat, index: nat): seq<Item>
    decreases n - index
  {
    if index >= n then []
    else
      var (item, next) := read(index);
      if index < next <= n then [item] + ItemsWith(read, n, next) else [item]
  }

  function ReaderOf(lines: seq<string>): Reader {
    (i: nat) => if i < |lines| then ItemAt(lines, i) else (Other(0, ""), i)
  }

  lemma {:induction false} ItemsAreRead(lines: seq<string>, index: nat)
    requires index <= |lines|
    ensures ItemsFrom(lines, index) == ItemsWith(ReaderOf(lines), |lines|, index)
    decreases |lines| - index
  {
    if index < |lines| {
      ItemsAreRead(lines, ItemAt(lines, index).1);
    }
  }

  /** Where the parser meets each entry, and whether it reads it there. */
  ghost predicate Walks(read: Reader, starts: seq<nat>, pairs: seq<(string, string)>, good: seq<bool>) {
    && |good| == |pairs| && |starts| == |pairs| + 1
    && (forall i, j | 0 <= i < |pairs| && j == i + 1 :: starts[i] < starts[j])
    && (forall i | 0 <= i < |pairs| :: WalksOver(read, starts, pairs, good, i))
  }

  ghost predicate WalksOver(read: Reader, starts: seq<nat>, pairs: seq<(string, string)>, good: seq<bool>, i: nat)
    requires i < |pairs| == |good| && |starts| == |pairs| + 1
  {
    && (ItemReads(read(starts[i]).0, pairs[i]) <==> good[i])
    && (good[i] ==> read(starts[i]).1 == starts[i + 1])
  }

  lemma {:induction false} StartsGrow(starts: seq<nat>, i: nat)
    requires i < |starts| && forall k, j | 0 <= k < |starts| - 1 && j == k + 1 :: starts[k] < starts[j]
    ensures starts[i] <= starts[|starts| - 1]
    decreases |starts| - i
  {
    if i < |starts| - 1 {
      StartsGrow(starts, i + 1);
    }
  }

  /** The first entry that is not read spoils the file; up to there the parser keeps in step. */
  lemma {:induction false} WalkReads(
      read: Reader, starts: seq<nat>, pairs: seq<(string, string)>, good: seq<bool>, k: nat)
    requires Walks(read, starts, pairs, good) && k <= |pairs|
    ensures AllRead(ItemsWith(read, starts[|pairs|], starts[k]), pairs[k..]) <==> false !in good[k..]
    decreases |pairs| - k
  {
    if k < |pairs| {
      var (item, next) := read(starts[k]);
      var n := starts[|pairs|];
      StartsGrow(starts, k + 1);
      var rest := if starts[k] < next <= n then ItemsWith(read, n, next) else [];
      assert ItemsWith(read, n, starts[k]) == [item] + rest;
      assert WalksOver(read, starts, pairs, good, k);
      ReadOneMore(item, rest, pairs[k..]);
      assert pairs[k..][1..] == pairs[k + 1..] && good[k..] == [good[k]] + good[k + 1..];
      if good[k] {
        WalkReads(read, starts, pairs, good, k + 1);
      }
    }
  }

  // ---- the place of each entry ----

  /** The line at which an entry starts. */
  function StartOf(pairs: seq<(string, string)>, i: nat): nat
    requires i <= |pairs|
  {
    |Flat(BlocksOf(pairs)[..i])|
  }

  lemma {:induction false} FlatAppends(a: seq<seq<string>>, b: seq<seq<string>>)
    ensures Flat(a + b) == Flat(a) + Flat(b)
  {
    if a == [] {
      assert a + b == b;
    } else {
      FlatAppends(a[1..], b);
      assert (a + b)[1..] == a[1..] + b;
    }
  }

  lemma BlockStands(blocks: seq<seq<string>>, i: nat)
    requires i < |blocks|
    ensures var start, end := |Flat(blocks[..i])|, |Flat(blocks[..i + 1])|;
      end == start + |blocks[i]| && end <= |Flat(blocks)| && Flat(blocks)[start..end] == blocks[i]
  {
    var before, own, after := blocks[..i], [blocks[i]], blocks[i + 1..];
    assert blocks == before + own + after && blocks[..i + 1] == before + own;
    FlatAppends(before + own, after);
    FlatAppends(before, own);
    assert Flat(own) == blocks[i] + Flat([]);
    InTheMiddle(Flat(blocks), Flat(before), blocks[i], Flat(after));
  }

  lemma InTheMiddle(lines: seq<string>, before: seq<string>, own: seq<string>, after: seq<string>)
    requires lines == before + own + after
    ensures |before| + |own| <= |lines| && lines[|before|..|before| + |own|] == own
  {
  }

  lemma EntryStands(pairs: seq<(string, string)>, i: nat)
    requires CanWrite(pairs) && i < |pairs|
    ensures Stands(LinesFor(pairs), StartOf(pairs, i), pairs[i].0, pairs[i].1)
    ensures StartOf(pairs, i + 1) == StartOf(pairs, i) + |Split(Written(pairs[i].0, Normalized(pairs[i].1)))|
  {
    BlockStands(BlocksOf(pairs), i);
  }

  /** Every entry is legible at its own line. */
  ghost predicate Legible(lines: seq<string>, pairs: seq<(string, string)>) {
    forall i | 0 <= i < |pairs| :: LegibleAt(lines, StartOf(pairs, i), pairs[i].0, pairs[i].1)
  }

  function Marks(lines: seq<string>, pairs: seq<(string, string)>): seq<bool> {
    seq(|pairs|, i requires 0 <= i < |pairs| => LegibleAt(lines, StartOf(pairs, i), pairs[i].0, pairs[i].1))
  }

  function Starts(pairs: seq<(string, string)>): seq<nat> {
    seq(|pairs| + 1, i requires 0 <= i < |pairs| + 1 => StartOf(pairs, i))
  }

  lemma ParserWalks(lines: seq<string>, pairs: seq<(string, string)>)
    requires CanWrite(pairs) && lines == LinesFor(pairs)
    ensures Walks(ReaderOf(lines), Starts(pairs), pairs, Marks(lines, pairs)) && StartOf(pairs, |pairs|) == |lines|
  {
    var read, starts, good := ReaderOf(lines), Starts(pairs), Marks(lines, pairs);
    assert BlocksOf(pairs)[..|pairs|] == BlocksOf(pairs);
    forall i, j | 0 <= i < |pairs| && j == i + 1 ensures starts[i] < starts[j] {
      EntryStands(pairs, i);
    }
    forall i | 0 <= i < |pairs| ensures WalksOver(read, starts, pairs, good, i) {
      ParserWalksOver(lines, pairs, i);
    }
  }

  lemma ParserWalksOver(lines: seq<string>, pairs: seq<(string, string)>, i: nat)
    requires CanWrite(pairs) && lines == LinesFor(pairs) && i < |pairs|
    ensures WalksOver(ReaderOf(lines), Starts(pairs), pairs, Marks(lines, pairs), i)
  {
    EntryStands(pairs, i);
    ReadsEntry(lines, StartOf(pairs, i), pairs[i].0, pairs[i].1);
    assert (pairs[i].0, pairs[i].1) == pairs[i];
  }

  lemma ReadsEntry(lines: seq<string>, index: nat, key: string, v: string)
    requires Stands(lines, index, key, v)
    ensures var (item, next) := ReaderOf(lines)(index);
      && (ItemReads(item, (key, v)) <==> LegibleAt(lines, index, key, v))
      && (LegibleAt(lines, index, key, v) ==> next == index + |Split(Written(key, Normalized(v)))|)
  {
    EntryReadsIff(lines, index, key, v);
    assert ReaderOf(lines)(index) == ItemAt(lines, index);
    if LegibleAt(lines, index, key, v) {
      EntryReads(lines, index, key, v);
    }
  }

  lemma MarksMean(lines: seq<string>, pairs: seq<(string, string)>)
    ensures false !in Marks(lines, pairs) <==> Legible(lines, pairs)
  {
    var good := Marks(lines, pairs);
    if false in good {
      var i :| 0 <= i < |good| && !good[i];
      assert !LegibleAt(lines, StartOf(pairs, i), pairs[i].0, pairs[i].1);
    } else {
      forall i | 0 <= i < |pairs| ensures LegibleAt(lines, StartOf(pairs, i), pairs[i].0, pairs[i].1) {
        assert good[i] in good;
      }
    }
  }

  /** A written file is read back, entry by entry, exactly when no value has a CRLF, and every value
      that ends in a backslash is on one line, has no comment sign, and no later quote closes it. */
  lemma FileReadsBackIff(pairs: seq<(string, string)>)
    requires CanWrite(pairs)
    ensures var file := Stringify(pairs).value;
      AllRead(Parsed(file).items, pairs) <==> Legible(LinesIn(file), pairs)
  {
    var lines := LinesFor(pairs);
    LinesOfStringified(pairs);
    ParserWalks(lines, pairs);
    WalkReads(ReaderOf(lines), Starts(pairs), pairs, Marks(lines, pairs), 0);
    MarksMean(lines, pairs);
    ItemsAreRead(lines, 0);
    assert pairs[0..] == pairs && Marks(lines, pairs)[0..] == Marks(lines, pairs);
    assert Starts(pairs)[0] == |Flat(BlocksOf(pairs)[..0])| == 0;
  }

  // ---- expanding what was parsed ----

  /** The assignments of a document as the expander takes them. */
  function EntriesOf(items: seq<Item>): seq<Expandable> {
    if items == [] then []
    else
      var rest, item := EntriesOf(items[..|items| - 1]), items[|items| - 1];
      if item.Assignment? then rest + [Expandable(item.key, item.value, item.quote)] else rest
  }

  lemma {:induction false} EntriesAre(items: seq<Item>)
    requires forall i | 0 <= i < |items| :: items[i].Assignment?
    ensures |EntriesOf(items)| == |items|
    ensures forall i | 0 <= i < |items| :: EntriesOf(items)[i] == Expandable(items[i].key, items[i].value, items[i].quote)
  {
    if items != [] {
      EntriesAre(items[..|items| - 1]);
    }
  }

  function MapOf(pairs: seq<(string, string)>): map<string, string> {
    if pairs == [] then map[]
    else var p := pairs[|pairs| - 1]; MapOf(pairs[..|pairs| - 1])[p.0 := p.1]
  }

  ghost predicate DistinctPairs(pairs: seq<(string, string)>) {
    forall i, j | 0 <= i < j < |pairs| :: pairs[i].0 != pairs[j].0
  }

  lemma {:induction false} MapKeys(pairs: seq<(string, string)>, k: string)
    ensures k in MapOf(pairs) <==> exists i :: 0 <= i < |pairs| && pairs[i].0 == k
  {
    if pairs != [] {
      var n := |pairs| - 1;
      MapKeys(pairs[..n], k);
      if k in MapOf(pairs[..n]) {
        var i :| 0 <= i < n && pairs[..n][i].0 == k;
        assert pairs[i].0 == k;
      }
      if i :| 0 <= i < n && pairs[i].0 == k {
        assert pairs[..n][i].0 == k;
      }
    }
  }

  ghost predicate EntriesRead(entries: seq<Expandable>, pairs: seq<(string, string)>) {
    && |entries| == |pairs|
    && forall i | 0 <= i < |pairs| :: entries[i].key == pairs[i].0 && Reads(entries[i].value, entries[i].quote, pairs[i].1)
  }

  lemma EntryMeans(t: Setting, entries: seq<Expandable>, pairs: seq<(string, string)>, i: nat, m: Solution)
    requires EntriesRead(entries, pairs) && DistinctPairs(pairs) && t.raw == RawOf(entries) && i < |pairs|
    ensures pairs[i].0 in t.raw && EntryMeaning(t, pairs[i].0, m) == Means(pairs[i].1)
  {
    assert DistinctKeys(entries);
    RawIs(entries, i);
    assert ValueMeaning(t, entries[i].value, entries[i].quote, m) == Means(pairs[i].1);
  }

  lemma {:induction false} PairsAreDerived(t: Setting, entries: seq<Expandable>, pairs: seq<(string, string)>, n: nat)
    returns (order: seq<string>)
    requires EntriesRead(entries, pairs) && DistinctPairs(pairs) && t.raw == RawOf(entries) && n <= |pairs|
    ensures Derived(t, order, MapOf(pairs[..n]))
  {
    if n == 0 {
      order := [];
    } else {
      var before := PairsAreDerived(t, entries, pairs, n - 1);
      var (k, v) := pairs[n - 1];
      var m := MapOf(pairs[..n - 1]);
      EntryMeans(t, entries, pairs, n - 1, m);
      MapKeys(pairs[..n - 1], k);
      assert pairs[..n][..n - 1] == pairs[..n - 1];
      DerivedGrows(t, before, m, k, v);
      order := before + [k];
    }
  }

  lemma PairsHaveAllKeys(entries: seq<Expandable>, pairs: seq<(string, string)>)
    requires EntriesRead(entries, pairs)
    ensures MapOf(pairs).Keys == RawOf(entries).Keys
  {
    RawHasKeys(entries);
    forall k ensures k in MapOf(pairs) <==> k in RawOf(entries) {
      MapKeys(pairs, k);
      if k in MapOf(pairs) {
        var i :| 0 <= i < |pairs| && pairs[i].0 == k;
        assert entries[i].key == k;
      }
      if k in RawOf(entries) {
        var i :| 0 <= i < |entries| && entries[i].key == k;
        assert pairs[i].0 == k;
      }
    }
  }

  // ---- the expanded file ----

  /** What a written file expands to is the map it was written from. */
  ghost predicate ReadsBack(pairs: seq<(string, string)>, env: Env, override: bool)
    requires Formats(pairs)
  {
    Answers(Setting(RawOf(EntriesOf(Parsed(Stringify(pairs).value).items)), env, override), MapOf(pairs))
  }

  lemma ItemsExpand(items: seq<Item>, pairs: seq<(string, string)>, env: Env, override: bool)
    requires AllRead(items, pairs) && DistinctPairs(pairs)
    ensures Answers(Setting(RawOf(EntriesOf(items)), env, override), MapOf(pairs))
  {
    var entries := EntriesOf(items);
    var t := Setting(RawOf(entries), env, override);
    assert forall i | 0 <= i < |items| :: ItemReads(items[i], pairs[i]) ==> items[i].Assignment?;
    EntriesAre(items);
    assert EntriesRead(entries, pairs);
    PairsHaveAllKeys(entries, pairs);
    var order := PairsAreDerived(t, entries, pairs, |pairs|);
    assert pairs[..|pairs|] == pairs;
  }

  /** A legible file of distinct keys expands to its map, with any environment and precedence. */
  lemma LegibleFileExpands(pairs: seq<(string, string)>, env: Env, override: bool)
    requires CanWrite(pairs) && DistinctPairs(pairs) && Legible(LinesIn(Stringify(pairs).value), pairs)
    ensures ReadsBack(pairs, env, override)
  {
    FileReadsBackIff(pairs);
    ItemsExpand(Parsed(Stringify(pairs).value).items, pairs, env, override);
  }

  /** Keys as the parser accepts them, values as the round trip is promised for. */
  ghost predicate Writable(pairs: seq<(string, string)>) {
    forall i | 0 <= i < |pairs| :: ValidKey(pairs[i].0) && Portable(pairs[i].1)
  }

  lemma WritableIsLegible(lines: seq<string>, pairs: seq<(string, string)>)
    requires Writable(pairs)
    ensures CanWrite(pairs) && Legible(lines, pairs)
  {
    forall i | 0 <= i < |pairs| ensures FormatValue(pairs[i].1).Some? {
      assert Portable(pairs[i].1);
    }
  }

  /** Values without CRLF that do not end in a backslash always come back: the map is the one
      solution, and the expander finds it. */
  lemma WrittenMapReadsBack(pairs: seq<(string, string)>, env: Env, override: bool)
    requires Writable(pairs) && DistinctPairs(pairs)
    ensures Formats(pairs) && ReadsBack(pairs, env, override)
    ensures var t := Setting(RawOf(EntriesOf(Parsed(Stringify(pairs).value).items)), env, override);
      Solves(t, MapOf(pairs)) && forall m | Solves(t, m) :: m == MapOf(pairs)
  {
    WritableIsLegible([], pairs);
    WritableIsLegible(LinesIn(Stringify(pairs).value), pairs);
    LegibleFileExpands(pairs, env, override);
    var t := Setting(RawOf(EntriesOf(Parsed(Stringify(pairs).value).items)), env, override);
    var order :| Derived(t, order, MapOf(pairs));
    DerivedIsTheSolution(t, order, MapOf(pairs));
  }
}
