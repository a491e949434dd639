/** One written value at its place among the lines of a file, when it ends in a backslash: the
    backslash hides the closing quote, and what is read depends on the lines that follow. */
module DotenvEntry {
  import opened Prelude
  import opened Text
  import opened DotenvDocument
  import opened DotenvWriter
  import opened Expand

  // ---- how the value is written ----

  /** The quote chosen for a value that is not bare. */
  function QuoteOf(v: string): char {
    if '\'' !in v then '\'' else if '"' !in v && !DoubleUnsafe(v) then '"' else '`'
  }

  function Inside(v: string): string {
    if QuoteOf(v) == '\'' then v else EscapeDollars(v)
  }

  lemma WrittenQuoted(key: string, v: string)
    requires FormatValue(v).Some? && v != "" && !Bare(v)
    ensures var q, e := QuoteOf(v), Inside(v);
      && Written(key, v) == key + "=" + ([q] + e + [q])
      && IsQuote(q) && q !in v && q !in e
      && (EndsInBackslash(e) <==> EndsInBackslash(v))
      && (q != '\'' ==> !HasPair(v, 'n') && !HasPair(v, 'r') && !HasPair(e, 'n') && !HasPair(e, 'r'))
  {
    EscapingKeepsEnds(v, QuoteOf(v));
    EscapingAddsNoPair(v, 'n');
    EscapingAddsNoPair(v, 'r');
  }

  lemma BackslashIsQuoted(v: string)
    requires EndsInBackslash(v)
    ensures v != "" && !Bare(v)
  {
    assert !BareChar(v[|v| - 1]);
  }

  // ---- the hidden closing quote ----

  lemma {:induction false} SkipsEscapedEnd(text: string, q: char, col: nat)
    requires q != '\\' && |text| > 1 && col <= |text| - 2 && text[|text| - 1] == q && text[|text| - 2] == '\\'
    requires forall i | col <= i < |text| - 1 :: text[i] != q
    ensures ClosingIn(text, q, col) == None
    decreases |text| - col
  {
    if col < |text| - 2 {
      SkipsEscapedEnd(text, q, col + 1);
    } else {
      assert ClosingIn(text, q, |text|) == None;
    }
  }

  lemma EscapedEndLines(q: char, e: string, p: string, text: string)
    requires IsQuote(q) && q !in e && EndsInBackslash(e) && OneLine(p) && text == p + (e + [q])
    ensures ClosingIn(Split(text)[0], q, |p|) == None
    ensures forall j | 0 < j < |Split(text)| :: ClosingIn(Split(text)[j], q, 0) == None
  {
    OneLineParts(q, e, p, text);
    SplitHasOnly(e, q);
    LastLineEnds(e);
    var inner, lines := Split(e), Split(text);
    if |lines| == 1 {
      EndIsSkipped(q, e, p, lines[0]);
    } else {
      OpensOnFirstLine(q, inner[0], p, lines[0]);
      forall j | 0 < j < |lines| ensures ClosingIn(lines[j], q, 0) == None {
        LaterLine(q, inner[j], lines[j], j == |lines| - 1);
      }
    }
  }

  lemma LaterLine(q: char, inner: string, line: string, last: bool)
    requires IsQuote(q) && q !in inner && (last ==> EndsInBackslash(inner))
    requires line == if last then inner + [q] else inner
    ensures ClosingIn(line, q, 0) == None
  {
    if last {
      EndIsSkipped(q, inner, "", line);
    } else {
      NoClosing(line, q, 0);
    }
  }

  lemma {:induction false} LastLineEnds(e: string)
    requires EndsInBackslash(e)
    ensures EndsInBackslash(Split(e)[|Split(e)| - 1])
  {
    var before := e[..|e| - 1];
    assert e == before + ['\\'];
    SplitSuffix(before, '\\');
  }

  lemma EndIsSkipped(q: char, e: string, p: string, line: string)
    requires IsQuote(q) && q !in e && EndsInBackslash(e) && (line == p + (e + [q]) || (p == "" && line == e + [q]))
    ensures ClosingIn(line, q, |p|) == None
  {
    forall i | |p| <= i < |line| - 1 ensures line[i] != q {
      assert line[i] == e[i - |p|];
    }
    assert line[|p| + (|e| - 1)] == e[|e| - 1];
    SkipsEscapedEnd(line, q, |p|);
  }

  lemma {:induction false} TrimEndIsPrefix(s: string)
    ensures |TrimEnd(s)| <= |s| && TrimEnd(s) == s[..|TrimEnd(s)|]
  {
    if s != "" && IsSpace(s[|s| - 1]) {
      TrimEndIsPrefix(s[..|s| - 1]);
    }
  }

  lemma UnescapedKeepsFirst(s: string, letter: char, c: char)
    requires s != "" && s[0] != '\\'
    ensures Unescaped(s, letter, c) != "" && Unescaped(s, letter, c)[0] == s[0]
  {
  }

  /** An opening quote without its partner stays part of the value. */
  lemma DecodesOpen(q: char, x: string)
    requires IsQuote(q) && q !in x
    ensures var (value, quote) := DecodeValue([q] + x);
      value != "" && value[0] == q && quote == Unquoted
  {
    var raw := [q] + x;
    TrimEndKeepsFirst(raw);
    TrimEndIsPrefix(raw);
    var trimmed := Trim(raw);
    assert !Quoted(trimmed) by {
      if |trimmed| > 1 {
        assert trimmed[|trimmed| - 1] == raw[|trimmed| - 1] == x[|trimmed| - 2];
      }
    }
    if q == '"' {
      UnescapedKeepsFirst(trimmed, 'n', '\n');
      UnescapedKeepsFirst(Unescaped(trimmed, 'n', '\n'), 'r', '\r');
    }
  }

  lemma PlainOfRest(text: string, index: nat, head: Head, rest: string)
    requires head.length <= |text| && rest == text[head.length..]
    ensures var item := PlainItem(text, index, head);
      item.Assignment? && item.key == head.key
      && (item.value, item.quote) == DecodeValue(rest[..IndexOf(rest, '#')])
  {
  }

  /** What is left of the first line after the `=`. */
  function FirstRest(q: char, e: string): string {
    if |Split(e)| == 1 then [q] + e + [q] else [q] + Split(e)[0]
  }

  lemma RestOfFirst(key: string, q: char, body: string, first: string)
    requires first == key + "=" + [q] + body
    ensures |key| + 1 < |first| && first[|key| + 1..] == [q] + body
  {
  }

  lemma FirstRestIs(key: string, q: char, e: string, p: string, text: string)
    requires IsQuote(q) && p == key + "=" + [q] && OneLine(p) && text == p + (e + [q])
    ensures |Split(text)| == |Split(e)| && |key| + 1 < |Split(text)[0]|
    ensures Split(text)[0][|key| + 1..] == FirstRest(q, e)
  {
    OneLineParts(q, e, p, text);
    RestOfFirst(key, q, if |Split(e)| == 1 then e + [q] else Split(e)[0], Split(text)[0]);
    Associates([q], e, [q]);
  }

  lemma {:induction false} EscapingKeepsChar(v: string, c: char)
    requires c != '\\' && c != '$'
    ensures c in EscapeDollars(v) <==> c in v
  {
    if v != "" {
      EscapingKeepsChar(v[1..], c);
      assert v == [v[0]] + v[1..];
    }
  }

  lemma OneLineIffNoNewline(e: string)
    ensures |Split(e)| == 1 <==> '\n' !in e
  {
    JoinOfSplit(e);
    SplitIsOneLine(e);
    if '\n' !in e {
      SplitOfOneLine(e);
    }
    if |Split(e)| == 1 {
      assert OneLine(Split(e)[0]);
    }
  }

  /** A comment sign or a line end leaves the opening quote without a partner. */
  lemma OpenRaw(q: char, e: string)
    requires IsQuote(q) && q !in e && ('\n' in e || '#' in e)
    ensures var rest := FirstRest(q, e); var raw := rest[..IndexOf(rest, '#')];
      raw != "" && raw[0] == q && q !in raw[1..]
  {
    OneLineIffNoNewline(e);
    SplitHasOnly(e, q);
    var rest := FirstRest(q, e);
    var hash := IndexOf(rest, '#');
    var inner := if |Split(e)| == 1 then e else Split(e)[0];
    assert forall i | 0 <= i < |inner| :: rest[i + 1] == inner[i] && inner[i] in inner;
    if |Split(e)| == 1 {
      var j :| 0 <= j < |e| && e[j] == '#';
      assert rest[j + 1] == '#' && hash <= j + 1;
    }
    forall i | 0 <= i < hash - 1 ensures rest[..hash][1..][i] != q {
      assert rest[..hash][1..][i] == inner[i];
    }
  }

  lemma WholeRaw(q: char, e: string)
    requires IsQuote(q) && '\n' !in e && '#' !in e
    ensures var rest := FirstRest(q, e); rest[..IndexOf(rest, '#')] == [q] + e + [q]
  {
    OneLineIffNoNewline(e);
    var rest := FirstRest(q, e);
    assert '#' !in rest;
  }

  // ---- the line read as it stands ----

  lemma OpenLineIsPlain(lines: seq<string>, index: nat, head: Head, rest: string)
    requires index < |lines| && KeyLine(lines[index]) == Some(head) && head.length <= |lines[index]|
    requires QuotedEnd(lines, index, head) == None && rest == lines[index][head.length..]
    ensures ItemAt(lines, index).1 == index + 1
    ensures var item := ItemAt(lines, index).0;
      item.Assignment? && item.key == head.key && (item.value, item.quote) == DecodeValue(rest[..IndexOf(rest, '#')])
  {
    PlainOfRest(lines[index], index, head, rest);
    assert ItemAt(lines, index) == (PlainItem(lines[index], index, head), index + 1);
  }

  function HeadOf(key: string): Head {
    Head(key, false, |key| + 1)
  }

  lemma QuotedLine(lines: seq<string>, index: nat, key: string, v: string)
    requires ValidKey(key) && FormatValue(v).Some? && v != "" && !Bare(v) && StandsAt(lines, index, Written(key, v))
    ensures index < |lines| && |key| + 1 < |lines[index]| && lines[index][|key| + 1] == QuoteOf(v)
    ensures KeyLine(lines[index]) == Some(HeadOf(key))
    ensures |Split(Written(key, v))| == |Split(Inside(v))|
    ensures lines[index][|key| + 1..] == FirstRest(QuoteOf(v), Inside(v))
  {
    WrittenQuoted(key, v);
    QuotedText(lines, index, key, QuoteOf(v), Inside(v), Written(key, v));
  }

  lemma QuotedText(lines: seq<string>, index: nat, key: string, q: char, e: string, text: string)
    requires ValidKey(key) && IsQuote(q) && text == key + "=" + ([q] + e + [q]) && StandsAt(lines, index, text)
    ensures index < |lines| && |key| + 1 < |lines[index]| && lines[index][|key| + 1] == q
    ensures KeyLine(lines[index]) == Some(HeadOf(key))
    ensures |Split(text)| == |Split(e)| && lines[index][|key| + 1..] == FirstRest(q, e)
  {
    var p := key + "=" + [q];
    SplitsAtQuote(key, q, e, text);
    OpeningIsOneLine(key, q);
    HeadOfQuoted(lines, index, key, q, e, p, text);
    FirstRestIs(key, q, e, p, text);
    assert lines[index] == lines[index..index + |Split(text)|][0];
  }

  /** Without a closing quote further down, the value is read back exactly when it is on one line
      without a comment sign. */
  lemma OpenEntry(lines: seq<string>, index: nat, key: string, v: string)
    requires ValidKey(key) && FormatValue(v).Some? && EndsInBackslash(v) && StandsAt(lines, index, Written(key, v))
    requires |key| + 1 <= |lines[index]| && QuotedEnd(lines, index, HeadOf(key)) == None
    ensures ItemAt(lines, index).1 == index + 1
    ensures '\n' !in v && '#' !in v ==>
              ItemReads(ItemAt(lines, index).0, (key, v)) && |Split(Written(key, v))| == 1
    ensures '\n' in v || '#' in v ==> ShowsQuote(ItemAt(lines, index).0, key, QuoteOf(v))
  {
    BackslashIsQuoted(v);
    WrittenQuoted(key, v);
    QuotedLine(lines, index, key, v);
    var q, e := QuoteOf(v), Inside(v);
    var rest := FirstRest(q, e);
    OpenLineIsPlain(lines, index, HeadOf(key), rest);
    EscapingKeepsChar(v, '\n');
    EscapingKeepsChar(v, '#');
    OneLineIffNoNewline(e);
    RestDecodes(q, e);
    if '\n' !in v && '#' !in v {
      EscapedReads(e, StyleOf(q), v);
    } else {
      FirstQuoteShows(ItemAt(lines, index).0, key, q);
    }
  }

  lemma RestDecodes(q: char, e: string)
    requires IsQuote(q) && q !in e && (q != '\'' ==> !HasPair(e, 'n') && !HasPair(e, 'r'))
    ensures var rest := FirstRest(q, e); var (value, quote) := DecodeValue(rest[..IndexOf(rest, '#')]);
      if '\n' !in e && '#' !in e then value == e && quote == StyleOf(q)
      else value != "" && value[0] == q && quote == Unquoted
  {
    if '\n' !in e && '#' !in e {
      WholeRaw(q, e);
      DecodesQuoted(q, e);
    } else {
      OpenRaw(q, e);
      var rest := FirstRest(q, e);
      var raw := rest[..IndexOf(rest, '#')];
      assert raw == [q] + raw[1..];
      DecodesOpen(q, raw[1..]);
    }
  }

  /** Whatever the assignment expands to, the quote is part of it. */
  ghost predicate ShowsQuote(item: Item, key: string, q: char) {
    && item.Assignment? && item.key == key
    && forall t, m :: var meaning := ValueMeaning(t, item.value, item.quote, m); meaning.Means? ==> q in meaning.text
  }

  /** So it is read as no value without that quote. */
  lemma ShownQuoteMisleads(item: Item, key: string, q: char, v: string)
    requires ShowsQuote(item, key, q) && q !in v
    ensures !ItemReads(item, (key, v))
  {
    var t, m := Setting(map[], EMPTY_ENV, false), map[];
    var meaning := ValueMeaning(t, item.value, item.quote, m);
    assert ItemReads(item, (key, v)) ==> meaning == Means(v);
  }

  lemma FirstQuoteShows(item: Item, key: string, q: char)
    requires item.Assignment? && item.key == key && IsQuote(q)
    requires item.quote == Unquoted && item.value != "" && item.value[0] == q
    ensures ShowsQuote(item, key, q)
  {
    forall t, m ensures var meaning := ValueMeaning(t, item.value, item.quote, m); meaning.Means? ==> q in meaning.text {
      var rest := item.value[1..];
      assert item.value == [q] + rest;
      LiteralStep(t, item.value, q, rest, m);
      var meaning := TextMeaning(t, rest, m);
      if meaning.Means? {
        assert ([q] + meaning.text)[0] == q;
      }
    }
  }

  // ---- the meaning of a text, character by character ----

  function Prefixed(x: string, meaning: Meaning): Meaning {
    if meaning.Means? then Means(x + meaning.text) else meaning
  }

  lemma PrefixedTwice(x: string, y: string, meaning: Meaning)
    ensures Prefixed(x, Prefixed(y, meaning)) == Prefixed(x + y, meaning) && Prefixed("", meaning) == meaning
  {
    if meaning.Means? {
      Associates(x, y, meaning.text);
      assert "" + meaning.text == meaning.text;
    }
  }

  lemma LiteralStep(t: Setting, s: string, c: char, rest: string, m: Solution)
    requires s == [c] + rest && c != '$' && !(c == '\\' && rest != "" && rest[0] == '$')
    ensures TextMeaning(t, s, m) == Prefixed([c], TextMeaning(t, rest, m))
  {
    assert PieceAt(s) == (Literal(c), 1) && s[1..] == rest;
    assert PieceMeaning(t, Literal(c), m) == Means([c]);
  }

  lemma EscapedStep(t: Setting, s: string, rest: string, m: Solution)
    requires s == "\\$" + rest
    ensures TextMeaning(t, s, m) == Prefixed("$", TextMeaning(t, rest, m))
  {
    assert PieceAt(s) == (Escaped, 2) && s[2..] == rest;
    assert PieceMeaning(t, Escaped, m) == Means("$");
  }

  // ---- a quote further down closes the value ----

  lemma {:induction false} BetweenSplits(lines: seq<string>, index: nat, col: nat, mid: nat, last: nat, end: nat)
    requires index < mid <= last < |lines| && col <= |lines[index]| && end < |lines[last]|
    ensures Between(lines, index, col, last, end)
         == Join(lines[index..mid], "\n")[col..] + ("\n" + Between(lines, mid, 0, last, end))
    decreases mid - index
  {
    var own := lines[index..mid];
    if mid == index + 1 {
      assert own == [lines[index]];
    } else {
      BetweenSplits(lines, index + 1, 0, mid, last, end);
      assert own[1..] == lines[index + 1..mid];
      var inner, rest := "\n" + Join(own[1..], "\n"), "\n" + Between(lines, mid, 0, last, end);
      assert Join(own, "\n")[col..] == lines[index][col..] + inner;
      assert Join(own[1..], "\n")[0..] == Join(own[1..], "\n");
      Associates(lines[index][col..], inner, rest);
      Associates("\n", Join(own[1..], "\n"), rest);
    }
  }

  lemma {:induction false} ClosesLater(lines: seq<string>, q: char, line: nat, col: nat, mid: nat)
    requires line < mid <= |lines| && ClosingIn(lines[line], q, col) == None
    requires forall j | line < j < mid :: ClosingIn(lines[j], q, 0) == None
    ensures ClosingFrom(lines, q, line, col) == ClosingFrom(lines, q, mid, 0)
    decreases mid - line
  {
    if line + 1 < mid {
      ClosesLater(lines, q, line + 1, 0, mid);
    }
  }

  lemma {:induction false} ClosingIsQuote(text: string, q: char, col: nat)
    ensures ClosingIn(text, q, col).Some? ==> text[ClosingIn(text, q, col).value] == q
    decreases |text| - col
  {
    if col < |text| {
      ClosingIsQuote(text, q, col + 1);
      ClosingIsQuote(text, q, col + 2);
    }
  }

  lemma {:induction false} ClosingFromIsQuote(lines: seq<string>, q: char, line: nat, col: nat)
    ensures var r := ClosingFrom(lines, q, line, col); r.Some? ==> lines[r.value.0][r.value.1] == q
    decreases |lines| - line
  {
    if line < |lines| {
      ClosingIsQuote(lines[line], q, col);
      ClosingFromIsQuote(lines, q, line + 1, 0);
    }
  }

  lemma {:induction false} BetweenEnds(lines: seq<string>, index: nat, col: nat, last: nat, end: nat)
    requires index <= last < |lines| && col <= |lines[index]| && end < |lines[last]| && (index == last ==> col <= end)
    ensures var b := Between(lines, index, col, last, end); b != "" && b[|b| - 1] == lines[last][end]
    decreases last - index
  {
    if index < last {
      BetweenEnds(lines, index + 1, 0, last, end);
    }
  }

  /** The raw text that is swallowed: the whole written value, its closing quote included, a line end,
      and more, up to a quote. */
  lemma SwallowedRaw(lines: seq<string>, index: nat, key: string, q: char, e: string, text: string, last: nat, end: nat)
    returns (more: string)
    requires ValidKey(key) && IsQuote(q) && q !in e && EndsInBackslash(e) && text == key + "=" + ([q] + e + [q])
    requires StandsAt(lines, index, text) && |key| + 1 < |lines[index]|
    requires ClosingFrom(lines, q, index, |key| + 2) == Some((last, end))
    ensures index < last < |lines| && end < |lines[last]|
    ensures Between(lines, index, |key| + 1, last, end) == [q] + e + [q] + more
    ensures more != "" && more[|more| - 1] == q
  {
    var p := key + "=" + [q];
    SplitsAtQuote(key, q, e, text);
    OpeningIsOneLine(key, q);
    var mid := ClosesBelow(lines, index, q, e, p, text);
    ClosingFromIsQuote(lines, q, index, |p|);
    var below := Between(lines, mid, 0, last, end);
    JoinOfSplit(text);
    RawGoesOn(lines, index, |key| + 1, mid, last, end, Split(text), below);
    more := "\n" + below;
  }

  lemma SplitsAtQuote(key: string, q: char, e: string, text: string)
    requires text == key + "=" + ([q] + e + [q])
    ensures text == key + "=" + [q] + (e + [q]) && |text| > |key| && text[|key| + 1..] == [q] + e + [q]
  {
  }

  lemma ClosesBelow(lines: seq<string>, index: nat, q: char, e: string, p: string, text: string) returns (mid: nat)
    requires IsQuote(q) && q !in e && EndsInBackslash(e) && OneLine(p) && text == p + (e + [q])
    requires StandsAt(lines, index, text)
    ensures mid == index + |Split(text)| && ClosingFrom(lines, q, index, |p|) == ClosingFrom(lines, q, mid, 0)
  {
    EscapedEndLines(q, e, p, text);
    OwnLines(lines, index, text);
    mid := index + |Split(text)|;
    ClosesLater(lines, q, index, |p|, mid);
  }

  lemma RawGoesOn(
      lines: seq<string>, index: nat, col: nat, mid: nat, last: nat, end: nat, own: seq<string>, below: string)
    requires index < mid <= last < |lines| && end < |lines[last]| && col <= |lines[index]|
    requires lines[index..mid] == own && col <= |Join(own, "\n")| && below == Between(lines, mid, 0, last, end)
    ensures Between(lines, index, col, last, end) == Join(own, "\n")[col..] + ("\n" + below)
    ensures ("\n" + below)[|below|] == lines[last][end]
  {
    BetweenSplits(lines, index, col, mid, last, end);
    BetweenEnds(lines, mid, 0, last, end);
  }

  lemma OwnLines(lines: seq<string>, index: nat, text: string)
    requires StandsAt(lines, index, text)
    ensures forall j | 0 <= j < |Split(text)| :: lines[index + j] == Split(text)[j]
    ensures forall j | index <= j < index + |Split(text)| :: lines[j] == Split(text)[j - index]
  {
    forall j | 0 <= j < |Split(text)| ensures lines[index + j] == Split(text)[j] {
      assert lines[index..index + |Split(text)|][j] == Split(text)[j];
    }
    forall j | index <= j < index + |Split(text)| ensures lines[j] == Split(text)[j - index] {
      assert lines[index + (j - index)] == Split(text)[j - index];
    }
  }

  lemma {:induction false} UnescapedPrefix(x: string, rest: string, letter: char, c: char)
    requires !HasPair(x, letter) && x != "" && x[|x| - 1] != '\\'
    ensures Unescaped(x + rest, letter, c) == x + Unescaped(rest, letter, c)
  {
    var all := x + rest;
    assert all[1..] == x[1..] + rest;
    if |x| > 1 {
      UnescapedPrefix(x[1..], rest, letter, c);
      assert all[1] == x[1];
      assert [x[0]] + (x[1..] + Unescaped(rest, letter, c)) == x + Unescaped(rest, letter, c);
    } else {
      assert x == [x[0]] && x[1..] + rest == rest;
    }
  }

  lemma EscapeStep(v: string, c: char, rest: string)
    requires v == [c] + rest
    ensures EscapeDollars(v) == (if c == '$' then "\\$" else [c]) + EscapeDollars(rest)
  {
    assert v[1..] == rest;
  }

  /** An escaped text in front of another one means the original in front of the other's meaning. */
  lemma {:induction false} EscapedPrefix(t: Setting, v: string, y: string, m: Solution)
    requires y != "" && y[0] != '$'
    ensures TextMeaning(t, EscapeDollars(v) + y, m) == Prefixed(v, TextMeaning(t, y, m))
  {
    if v == "" {
      assert EscapeDollars(v) + y == y;
      PrefixedTwice("", "", TextMeaning(t, y, m));
    } else {
      var c, rest := v[0], v[1..];
      assert v == [c] + rest;
      EscapedPrefix(t, rest, y, m);
      EscapeStep(v, c, rest);
      EscapedStart(rest);
      PrefixStep(t, c, EscapeDollars(rest), y, m);
      PrefixedTwice([c], rest, TextMeaning(t, y, m));
    }
  }

  lemma EscapedStart(v: string)
    ensures EscapeDollars(v) != "" ==> EscapeDollars(v)[0] != '$'
  {
  }

  lemma PrefixStep(t: Setting, c: char, e: string, y: string, m: Solution)
    requires (e != "" ==> e[0] != '$') && y != "" && y[0] != '$'
    ensures TextMeaning(t, (if c == '$' then "\\$" else [c]) + e + y, m) == Prefixed([c], TextMeaning(t, e + y, m))
  {
    var first := if c == '$' then "\\$" else [c];
    Associates(first, e, y);
    assert (e + y)[0] != '$';
    if c == '$' {
      EscapedStep(t, first + (e + y), e + y, m);
    } else {
      LiteralStep(t, first + (e + y), c, e + y, m);
    }
  }

  lemma SwallowedValue(q: char, v: string, more: string)
    requires IsQuote(q) && q !in v && more != "" && more[|more| - 1] == q
    requires var e := if q == '\'' then v else EscapeDollars(v);
      q !in e && (q == '"' ==> !HasPair(e, 'n') && !HasPair(e, 'r'))
    ensures var e := if q == '\'' then v else EscapeDollars(v);
      exists rest :: DecodeValue([q] + e + [q] + more) == (e + [q] + rest, StyleOf(q))
  {
    var e := if q == '\'' then v else EscapeDollars(v);
    var tail := more[..|more| - 1];
    assert more == tail + [q];
    Rearranges([q], e, tail);
    DecodesEnclosed(q, e + [q] + tail);
    if q == '"' {
      UnescapedTwice(e, q, tail);
    }
  }

  lemma Rearranges(q: string, e: string, tail: string)
    ensures q + e + q + (tail + q) == q + (e + q + tail) + q
  {
  }

  lemma DecodesEnclosed(q: char, inner: string)
    requires IsQuote(q)
    ensures DecodeValue([q] + inner + [q])
         == (if q == '"' then Unescaped(Unescaped(inner, 'n', '\n'), 'r', '\r') else inner, StyleOf(q))
  {
    var raw := [q] + inner + [q];
    TrimKeeps(raw);
    assert raw[1..|raw| - 1] == inner;
  }

  lemma UnescapedTwice(e: string, q: char, tail: string)
    requires IsQuote(q) && !HasPair(e, 'n') && !HasPair(e, 'r')
    ensures Unescaped(Unescaped(e + [q] + tail, 'n', '\n'), 'r', '\r')
         == e + [q] + Unescaped(Unescaped(tail, 'n', '\n'), 'r', '\r')
  {
    PairAtEnd(e, q, 'n');
    PairAtEnd(e, q, 'r');
    UnescapedPrefix(e + [q], tail, 'n', '\n');
    UnescapedPrefix(e + [q], Unescaped(tail, 'n', '\n'), 'r', '\r');
  }

  lemma {:induction false} PairAtEnd(e: string, q: char, letter: char)
    requires !HasPair(e, letter) && q != letter
    ensures !HasPair(e + [q], letter)
  {
    if e != "" {
      PairAtEnd(e[1..], q, letter);
      PairStep(e + [q], e[0], e[1..] + [q], letter);
      PairStep(e, e[0], e[1..], letter);
    }
  }

  lemma SwallowedShows(item: Item, key: string, q: char, v: string, rest: string)
    requires item.Assignment? && item.key == key && IsQuote(q) && item.quote == StyleOf(q)
    requires item.value == (if q == '\'' then v else EscapeDollars(v)) + [q] + rest
    ensures ShowsQuote(item, key, q)
  {
    forall t, m ensures var meaning := ValueMeaning(t, item.value, item.quote, m); meaning.Means? ==> q in meaning.text {
      if q == '\'' {
        assert item.value[|v|] == q;
      } else {
        var y := [q] + rest;
        assert item.value == EscapeDollars(v) + y;
        EscapedPrefix(t, v, y, m);
        LiteralStep(t, y, q, rest, m);
        var meaning := TextMeaning(t, rest, m);
        if meaning.Means? {
          assert (v + ([q] + meaning.text))[|v|] == q;
        }
      }
    }
  }

  /** With a quote further down that closes it, the value is lost, whatever it is. */
  lemma SwallowedEntry(lines: seq<string>, index: nat, key: string, v: string)
    requires ValidKey(key) && FormatValue(v).Some? && EndsInBackslash(v) && StandsAt(lines, index, Written(key, v))
    requires |key| + 1 <= |lines[index]| && QuotedEnd(lines, index, HeadOf(key)).Some?
    ensures ShowsQuote(ItemAt(lines, index).0, key, QuoteOf(v))
  {
    BackslashIsQuoted(v);
    WrittenQuoted(key, v);
    QuotedLine(lines, index, key, v);
    var q := QuoteOf(v);
    var (last, end) := QuotedEnd(lines, index, HeadOf(key)).value;
    var more := SwallowedRaw(lines, index, key, q, Inside(v), Written(key, v), last, end);
    SwallowedValue(q, v, more);
    ItemIsClosed(lines, index, HeadOf(key), last, end);
    var item := ItemAt(lines, index).0;
    var rest :| DecodeValue([q] + Inside(v) + [q] + more) == (Inside(v) + [q] + rest, StyleOf(q));
    SwallowedShows(item, key, q, v, rest);
  }

  lemma ItemIsClosed(lines: seq<string>, index: nat, head: Head, last: nat, end: nat)
    requires index < |lines| && head.length <= |lines[index]| && KeyLine(lines[index]) == Some(head)
    requires QuotedEnd(lines, index, head) == Some((last, end))
    ensures ItemAt(lines, index) == (Closed(lines, index, head, last, end), last + 1)
    ensures var item := ItemAt(lines, index).0;
      && item.Assignment? && item.key == head.key
      && (item.value, item.quote) == DecodeValue(Between(lines, index, head.length, last, end))
  {
  }
}
