/** Writing a value so that parsing reads it back: the printer, and how one written line is parsed. */
module DotenvWriter {
  import opened Prelude
  import opened Text
  import opened DotenvDocument
  import opened Expand

  // ---- the printer ----

  predicate BareChar(c: char) {
    !IsSpace(c) && c != '#' && !IsQuote(c) && c != '\\' && c != '$'
  }

  predicate Bare(v: string) {
    v != "" && forall i | 0 <= i < |v| :: BareChar(v[i])
  }

  function EscapeDollars(v: string): string {
    if v == "" then "" else (if v[0] == '$' then "\\$" else [v[0]]) + EscapeDollars(v[1..])
  }

  /** A backslash directly before `letter`. */
  predicate HasPair(s: string, letter: char) {
    |s| > 1 && ((s[0] == '\\' && s[1] == letter) || HasPair(s[1..], letter))
  }

  predicate DoubleUnsafe(v: string) {
    HasPair(v, 'n') || HasPair(v, 'r') || HasPair(v, '$')
  }

  /** The value as it is written, or none when it cannot be quoted. */
  function FormatValue(v: string): Option<string> {
    if v == "" then Some("")
    else if Bare(v) then Some(v)
    else if '\'' !in v then Some(['\''] + v + ['\''])
    else if '"' !in v && !DoubleUnsafe(v) then Some(['"'] + EscapeDollars(v) + ['"'])
    else if '`' !in v && !DoubleUnsafe(v) then Some(['`'] + EscapeDollars(v) + ['`'])
    else None
  }

  function Written(key: string, v: string): string {
    key + "=" + if FormatValue(v).Some? then FormatValue(v).value else ""
  }

  predicate Formats(pairs: seq<(string, string)>) {
    forall i | 0 <= i < |pairs| :: FormatValue(pairs[i].1).Some?
  }

  function WrittenAll(pairs: seq<(string, string)>): seq<string> {
    seq(|pairs|, i requires 0 <= i < |pairs| => Written(pairs[i].0, pairs[i].1))
  }

  function Stringify(pairs: seq<(string, string)>): Option<string> {
    if Formats(pairs) then Some(Join(WrittenAll(pairs), "\n")) else None
  }

  // ---- small facts about text ----

  lemma TrimKeeps(s: string)
    requires s == "" || (!IsSpace(s[0]) && !IsSpace(s[|s| - 1]))
    ensures Trim(s) == s
  {
  }

  lemma {:induction false} SplitOfOneLine(s: string)
    requires OneLine(s)
    ensures Split(s) == [s]
  {
    if s != "" {
      SplitOfOneLine(s[1..]);
      assert [s[0]] + s[1..] == s;
    }
  }

  /** `c` put in front of the first line. */
  function Prepend(c: char, lines: seq<string>): seq<string>
    requires lines != []
  {
    [[c] + lines[0]] + lines[1..]
  }

  lemma SplitStep(s: string, c: char, rest: string)
    requires s == [c] + rest
    ensures Split(s) == if c == '\n' then [""] + Split(rest) else Prepend(c, Split(rest))
  {
    assert s[1..] == rest;
  }

  lemma PrependAppends(c: char, a: seq<string>, b: seq<string>)
    requires a != []
    ensures Prepend(c, a + b) == Prepend(c, a) + b
  {
    assert (a + b)[1..] == a[1..] + b;
  }

  function PutBefore(p: string, lines: seq<string>): seq<string>
    requires lines != []
  {
    [p + lines[0]] + lines[1..]
  }

  lemma PutBeforeStep(c: char, p: string, lines: seq<string>)
    requires lines != []
    ensures Prepend(c, PutBefore(p, lines)) == PutBefore([c] + p, lines) && PutBefore("", lines) == lines
  {
    Associates([c], p, lines[0]);
    assert PutBefore(p, lines)[1..] == lines[1..];
    assert "" + lines[0] == lines[0];
  }

  lemma {:induction false} SplitPrefix(p: string, s: string)
    requires OneLine(p)
    ensures Split(p + s) == PutBefore(p, Split(s))
  {
    if p == "" {
      assert p + s == s;
      PutBeforeStep('x', "", Split(s));
    } else {
      var c, rest := p[0], p[1..];
      assert p == [c] + rest;
      SplitPrefix(rest, s);
      Associates([c], rest, s);
      SplitStep(p + s, c, rest + s);
      PutBeforeStep(c, rest, Split(s));
    }
  }

  lemma {:induction false} SplitJoined(a: string, b: string)
    ensures Split(a + ("\n" + b)) == Split(a) + Split(b)
  {
    var tail := "\n" + b;
    if a == "" {
      assert a + tail == tail;
      SplitStep(tail, '\n', b);
    } else {
      var c, rest := a[0], a[1..];
      SplitJoined(rest, b);
      Associates([c], rest, tail);
      assert a == [c] + rest;
      SplitStep(a + tail, c, rest + tail);
      SplitStep(a, c, rest);
      PrependAppends(c, Split(rest), Split(b));
      PrefixAppends(Split(rest), Split(b));
    }
  }

  lemma PrefixAppends(a: seq<string>, b: seq<string>)
    ensures [""] + (a + b) == [""] + a + b
  {
  }

  /** `c` put after the last line. */
  function Append(lines: seq<string>, c: char): seq<string>
    requires lines != []
  {
    lines[..|lines| - 1] + [lines[|lines| - 1] + [c]]
  }

  lemma AppendCommutes(first: char, lines: seq<string>, c: char)
    requires lines != []
    ensures Prepend(first, Append(lines, c)) == Append(Prepend(first, lines), c)
    ensures [""] + Append(lines, c) == Append([""] + lines, c)
  {
    if |lines| == 1 {
      assert [first] + (lines[0] + [c]) == [first] + lines[0] + [c];
    }
  }

  lemma {:induction false} SplitSuffix(s: string, c: char)
    requires c != '\n'
    ensures Split(s + [c]) == Append(Split(s), c)
  {
    if s == "" {
      assert s + [c] == [c];
      SplitOfOneLine([c]);
    } else {
      SplitSuffix(s[1..], c);
      SplitStep(s + [c], s[0], s[1..] + [c]);
      AppendCommutes(s[0], Split(s[1..]), c);
    }
  }

  lemma {:induction false} SplitHasOnly(s: string, q: char)
    requires q !in s
    ensures forall i | 0 <= i < |Split(s)| :: q !in Split(s)[i]
  {
    if s != "" {
      SplitHasOnly(s[1..], q);
    }
  }

  lemma {:induction false} SplitLast(s: string)
    ensures var last := Split(s)[|Split(s)| - 1];
      last != "" ==> s != "" && s[|s| - 1] == last[|last| - 1]
  {
    if s != "" {
      SplitLast(s[1..]);
    }
  }

  // ---- the head of a written line ----

  predicate ValidKey(key: string) {
    key != "" && forall i | 0 <= i < |key| :: KeyChar(key[i])
  }

  lemma {:induction false} KeyEnds(s: string, i: nat, e: nat)
    requires i <= e < |s| && !KeyChar(s[e]) && forall j | i <= j < e :: KeyChar(s[j])
    ensures KeyEnd(s, i) == e
    decreases e - i
  {
    if i < e {
      KeyEnds(s, i + 1, e);
    }
  }

  lemma KeyCharsAreNot(c: char)
    requires KeyChar(c)
    ensures !IsSpace(c) && c != '=' && c != '\n' && c != '\r' && c != '\U{FEFF}'
  {
  }

  /** A written line is read as this key, without `export`, and a value that starts after the `=`. */
  lemma HeadOfWritten(key: string, tail: string, s: string)
    requires ValidKey(key) && s == key + "=" + tail && (tail == "" || !IsSpace(tail[0]))
    ensures KeyLine(s) == Some(Head(key, false, |key| + 1))
  {
    var n := |key|;
    assert s[n] == '=' && forall i | 0 <= i < n :: s[i] == key[i];
    assert tail != "" ==> s[n + 1] == tail[0];
    KeyCharsAreNot(s[0]);
    assert !ExportAt(s, 0) by {
      if 6 < n {
        KeyCharsAreNot(s[6]);
      } else if n < 6 && 6 < |s| {
        assert s[0..6][n] == '=' && "export"[n] != '=';
      }
    }
    KeyEnds(s, 0, n);
    assert SpacesEnd(s, n) == n;
    assert SpacesEnd(s, n + 1) == n + 1;
    assert s[0..n] == key;
  }

  // ---- the closing quote ----

  lemma {:induction false} NoClosing(text: string, q: char, col: nat)
    requires forall i | col <= i < |text| :: text[i] != q
    ensures ClosingIn(text, q, col) == None
    decreases |text| - col
  {
    if col < |text| {
      NoClosing(text, q, col + 1);
    }
  }

  lemma {:induction false} ClosesAtEnd(text: string, q: char, col: nat)
    requires col < |text| && text[|text| - 1] == q && q != '\\'
    requires forall i | col <= i < |text| - 1 :: text[i] != q
    requires col < |text| - 1 ==> text[|text| - 2] != '\\'
    ensures ClosingIn(text, q, col) == Some(|text| - 1)
    decreases |text| - col
  {
    if col < |text| - 1 {
      ClosesAtEnd(text, q, col + 1);
    }
  }

  lemma {:induction false} ClosesInLastLine(lines: seq<string>, q: char, line: nat, col: nat, last: nat)
    requires line <= last < |lines|
    requires forall j | line < j < last :: q !in lines[j]
    requires line < last ==> ClosingIn(lines[line], q, col) == None && ClosingIn(lines[last], q, 0) == Some(|lines[last]| - 1)
    requires line == last ==> ClosingIn(lines[line], q, col) == Some(|lines[last]| - 1)
    requires |lines[last]| > 0
    ensures ClosingFrom(lines, q, line, col) == Some((last, |lines[last]| - 1))
    decreases last - line
  {
    if line < last {
      if line + 1 < last {
        NoClosing(lines[line + 1], q, 0);
      }
      ClosesInLastLine(lines, q, line + 1, 0, last);
    }
  }

  // ---- the text between the quotes ----

  lemma {:induction false} BetweenIsTail(lines: seq<string>, index: nat, col: nat, last: nat)
    requires index <= last < |lines| && col <= |lines[index]| && |lines[last]| > 0 && (index == last ==> col < |lines[last]|)
    ensures Between(lines, index, col, last, |lines[last]| - 1) == Join(lines[index..last + 1], "\n")[col..]
    decreases last - index
  {
    var parts := lines[index..last + 1];
    if index == last {
      assert parts == [lines[index]];
    } else {
      BetweenIsTail(lines, index + 1, 0, last);
      assert parts[1..] == lines[index + 1..last + 1];
      var tail := "\n" + Join(parts[1..], "\n");
      assert (lines[index] + tail)[col..] == lines[index][col..] + tail;
    }
  }

  // ---- a quoted value ----

  /** What can stand between the quotes: no such quote, and no backslash before the closing one. */
  predicate Enclosed(q: char, e: string) {
    IsQuote(q) && q !in e && (e != "" ==> e[|e| - 1] != '\\')
  }

  lemma OneLineParts(q: char, e: string, p: string, text: string)
    requires IsQuote(q) && OneLine(p) && text == p + (e + [q])
    ensures var inner, lines := Split(e), Split(text); var m := |inner| - 1;
      && |lines| == m + 1
      && lines[0] == p + (if m == 0 then e + [q] else inner[0])
      && (forall j | 0 < j < m :: lines[j] == inner[j])
      && (m > 0 ==> lines[m] == inner[m] + [q])
  {
    SplitSuffix(e, q);
    SplitPrefix(p, e + [q]);
    JoinOfSplit(e);
  }

  lemma LinesClose(q: char, e: string, p: string, text: string)
    requires Enclosed(q, e) && OneLine(p) && text == p + (e + [q])
    ensures var lines := Split(text); var m := |lines| - 1;
      && |lines[m]| > 0
      && (m == 0 ==> ClosingIn(lines[0], q, |p|) == Some(|lines[0]| - 1))
      && (m > 0 ==> ClosingIn(lines[0], q, |p|) == None && ClosingIn(lines[m], q, 0) == Some(|lines[m]| - 1))
      && (forall j | 0 < j < m :: q !in lines[j])
  {
    OneLineParts(q, e, p, text);
    SplitHasOnly(e, q);
    var inner, lines := Split(e), Split(text);
    var m := |inner| - 1;
    if m == 0 {
      ClosesOnOneLine(q, e, p, lines[0]);
    } else {
      OpensOnFirstLine(q, inner[0], p, lines[0]);
      SplitLast(e);
      ClosesOnOneLine(q, inner[m], "", lines[m]);
    }
  }

  lemma ClosesOnOneLine(q: char, e: string, p: string, line: string)
    requires Enclosed(q, e) && (line == p + (e + [q]) || (p == "" && line == e + [q]))
    ensures ClosingIn(line, q, |p|) == Some(|line| - 1)
  {
    assert forall i | 0 <= i < |e| :: line[|p| + i] == e[i] && e[i] in e;
    forall i | |p| <= i < |line| - 1 ensures line[i] != q {
      assert line[|p| + (i - |p|)] == e[i - |p|];
    }
    assert e != "" ==> line[|p| + (|e| - 1)] == e[|e| - 1];
    ClosesAtEnd(line, q, |p|);
  }

  lemma OpensOnFirstLine(q: char, first: string, p: string, line: string)
    requires q !in first && line == p + first
    ensures ClosingIn(line, q, |p|) == None
  {
    forall i | |p| <= i < |line| ensures line[i] != q {
      assert line[i] == first[i - |p|];
    }
    NoClosing(line, q, |p|);
  }

  /** The lines of `text` stand in `lines` from `index` on. */
  predicate StandsAt(lines: seq<string>, index: nat, text: string) {
    index + |Split(text)| <= |lines| && lines[index..index + |Split(text)|] == Split(text)
  }

  lemma ClosingOfWritten(lines: seq<string>, index: nat, q: char, e: string, p: string, text: string)
    requires Enclosed(q, e) && OneLine(p) && text == p + (e + [q]) && StandsAt(lines, index, text)
    ensures var last := index + |Split(text)| - 1;
      |lines[last]| > 0 && ClosingFrom(lines, q, index, |p|) == Some((last, |lines[last]| - 1))
  {
    LinesClose(q, e, p, text);
    var own := Split(text);
    forall j | 0 <= j < |own| ensures lines[index + j] == own[j] {
      assert lines[index..index + |own|][j] == own[j];
    }
    ClosesInLastLine(lines, q, index, |p|, index + |own| - 1);
  }

  lemma OpeningIsOneLine(key: string, q: char)
    requires ValidKey(key) && IsQuote(q)
    ensures OneLine(key + "=" + [q])
  {
    forall i | 0 <= i < |key| ensures key[i] != '\n' {
      KeyCharsAreNot(key[i]);
    }
  }

  lemma HeadOfQuoted(lines: seq<string>, index: nat, key: string, q: char, e: string, p: string, text: string)
    requires ValidKey(key) && IsQuote(q) && p == key + "=" + [q] && text == p + (e + [q])
    requires StandsAt(lines, index, text) && OneLine(p)
    ensures |key| + 1 < |lines[index]| && lines[index][|key| + 1] == q
    ensures KeyLine(lines[index]) == Some(Head(key, false, |key| + 1))
  {
    OneLineParts(q, e, p, text);
    var own := Split(text);
    assert lines[index] == lines[index..index + |own|][0];
    var tail := lines[index][|key| + 1..];
    assert lines[index] == key + "=" + tail;
    HeadOfWritten(key, tail, lines[index]);
  }

  lemma QuotedParses(lines: seq<string>, index: nat, key: string, q: char, e: string, text: string)
    requires ValidKey(key) && Enclosed(q, e) && text == key + "=" + ([q] + e + [q]) && StandsAt(lines, index, text)
    ensures var (item, next) := ItemAt(lines, index);
      && next == index + |Split(text)| && item.Assignment? && item.key == key
      && (item.value, item.quote) == DecodeValue([q] + e + [q])
  {
    var p := key + "=" + [q];
    assert text == p + (e + [q]) && text[|key| + 1..] == [q] + e + [q];
    OpeningIsOneLine(key, q);
    HeadOfQuoted(lines, index, key, q, e, p, text);
    ClosingOfWritten(lines, index, q, e, p, text);
    var last := index + |Split(text)| - 1;
    RawOfWritten(lines, index, |key| + 1, last, text, [q] + e + [q]);
    ItemIsQuoted(lines, index, Head(key, false, |key| + 1), last, [q] + e + [q]);
  }

  lemma RawOfWritten(lines: seq<string>, index: nat, col: nat, last: nat, text: string, raw: string)
    requires index <= last < |lines| && lines[index..last + 1] == Split(text)
    requires col < |lines[index]| && |lines[last]| > 0 && col <= |text| && raw == text[col..]
    ensures Between(lines, index, col, last, |lines[last]| - 1) == raw
  {
    BetweenIsTail(lines, index, col, last);
    JoinOfSplit(text);
  }

  lemma ItemIsQuoted(lines: seq<string>, index: nat, head: Head, last: nat, raw: string)
    requires index <= last < |lines|
    requires head.length < |lines[index]| && IsQuote(lines[index][head.length])
    requires |lines[last]| > 0 && (index == last ==> head.length < |lines[last]|)
    requires ClosingFrom(lines, lines[index][head.length], index, head.length + 1) == Some((last, |lines[last]| - 1))
    requires Between(lines, index, head.length, last, |lines[last]| - 1) == raw
    ensures var (item, next) := ItemWith(lines, index, Some(head));
      next == last + 1 && item.Assignment? && item.key == head.key && (item.value, item.quote) == DecodeValue(raw)
  {
    QuotedEndIs(lines, index, head, last);
  }

  lemma QuotedEndIs(lines: seq<string>, index: nat, head: Head, last: nat)
    requires index <= last < |lines| && head.length < |lines[index]| && IsQuote(lines[index][head.length])
    requires |lines[last]| > 0
    requires ClosingFrom(lines, lines[index][head.length], index, head.length + 1) == Some((last, |lines[last]| - 1))
    ensures QuotedEnd(lines, index, head) == Some((last, |lines[last]| - 1))
  {
    NothingAfter(lines[last]);
  }

  lemma NothingAfter(s: string)
    ensures OnlyComment(s[|s|..])
  {
    assert s[|s|..] == "";
  }

  // ---- an unquoted value ----

  lemma BareParses(lines: seq<string>, index: nat, key: string, v: string, text: string)
    requires ValidKey(key) && (v == "" || Bare(v)) && text == key + "=" + v && StandsAt(lines, index, text)
    ensures ItemAt(lines, index).1 == index + |Split(text)|
    ensures var item := ItemAt(lines, index).0;
      item.Assignment? && item.key == key && item.value == v && item.quote == Unquoted
  {
    BareIsOneLine(key, v, text);
    SplitOfOneLine(text);
    assert lines[index] == lines[index..index + 1][0];
    HeadOfWritten(key, v, text);
    BareItem(key, v, text, index);
  }

  lemma BareIsOneLine(key: string, v: string, text: string)
    requires ValidKey(key) && (v == "" || Bare(v)) && text == key + "=" + v
    ensures OneLine(text)
  {
    forall i | 0 <= i < |text| ensures text[i] != '\n' {
      if i < |key| {
        KeyCharsAreNot(key[i]);
      } else if i > |key| {
        assert text[i] == v[i - |key| - 1] && BareChar(v[i - |key| - 1]);
      }
    }
  }

  lemma BareItem(key: string, v: string, text: string, index: nat)
    requires (v == "" || Bare(v)) && text == key + "=" + v
    ensures var item := PlainItem(text, index, Head(key, false, |key| + 1));
      item.key == key && item.value == v && item.quote == Unquoted
    ensures v != "" ==> !IsQuote(text[|key| + 1])
  {
    var rest := text[|key| + 1..];
    assert rest == v;
    assert IndexOf(rest, '#') == |rest| && rest[..|rest|] == v;
    TrimKeeps(v);
  }

  // ---- decoding what was written ----

  lemma {:induction false} UnescapedKeeps(s: string, letter: char, c: char)
    requires !HasPair(s, letter)
    ensures Unescaped(s, letter, c) == s
  {
    if s != "" {
      UnescapedKeeps(s[1..], letter, c);
      assert [s[0]] + s[1..] == s;
    }
  }

  lemma {:induction false} EscapingAddsNoPair(v: string, letter: char)
    requires letter == 'n' || letter == 'r'
    ensures HasPair(EscapeDollars(v), letter) ==> HasPair(v, letter)
    ensures v != "" ==> EscapeDollars(v) != "" && EscapeDollars(v)[0] == (if v[0] == '$' then '\\' else v[0])
  {
    if v != "" {
      var rest := EscapeDollars(v[1..]);
      EscapingAddsNoPair(v[1..], letter);
      PairStep(v, v[0], v[1..], letter);
      if v[0] == '$' {
        PairStep(['$'] + rest, '$', rest, letter);
        PairStep(EscapeDollars(v), '\\', ['$'] + rest, letter);
      } else {
        PairStep(EscapeDollars(v), v[0], rest, letter);
      }
    }
  }

  lemma PairStep(s: string, c: char, rest: string, letter: char)
    requires s == [c] + rest
    ensures HasPair(s, letter) <==> rest != "" && ((c == '\\' && rest[0] == letter) || HasPair(rest, letter))
  {
    assert s[1..] == rest;
  }

  lemma {:induction false} EscapingKeepsEnds(v: string, q: char)
    requires IsQuote(q)
    ensures q in EscapeDollars(v) ==> q in v
    ensures v != "" ==> EscapeDollars(v) != "" && EscapeDollars(v)[|EscapeDollars(v)| - 1] == v[|v| - 1]
  {
    if v != "" {
      EscapingKeepsEnds(v[1..], q);
      assert v == [v[0]] + v[1..];
    }
  }

  lemma DecodesQuoted(q: char, e: string)
    requires IsQuote(q) && (q == '"' ==> !HasPair(e, 'n') && !HasPair(e, 'r'))
    ensures DecodeValue([q] + e + [q]) == (e, StyleOf(q))
  {
    var raw := [q] + e + [q];
    TrimKeeps(raw);
    assert raw[1..|raw| - 1] == e;
    if q == '"' {
      UnescapedKeeps(e, 'n', '\n');
      UnescapedKeeps(e, 'r', '\r');
    }
  }

  /** An escaped text means the original one, whatever is known. */
  lemma {:induction false} EscapedMeans(t: Setting, v: string, m: Solution)
    ensures TextMeaning(t, EscapeDollars(v), m) == Means(v)
  {
    if v != "" {
      var rest, s := EscapeDollars(v[1..]), EscapeDollars(v);
      EscapedMeans(t, v[1..], m);
      EscapingAddsNoPair(v[1..], 'n');
      if v[0] == '$' {
        assert PieceAt(s) == (Escaped, 2) && s[2..] == rest;
      } else {
        assert PieceAt(s) == (Literal(v[0]), 1) && s[1..] == rest;
      }
      assert [v[0]] + v[1..] == v;
    }
  }

  // ---- one written entry ----

  predicate EndsInBackslash(v: string) {
    v != "" && v[|v| - 1] == '\\'
  }

  /** Written so that its quote is closed. */
  predicate Closes(v: string) {
    FormatValue(v).Some? && !EndsInBackslash(v)
  }

  /** A value the round trip is promised for. */
  predicate Portable(v: string) {
    Closes(v) && !HasCrlf(v)
  }

  function ValueMeaning(t: Setting, value: string, quote: QuoteStyle, m: Solution): Meaning {
    if quote.Single? then Means(value) else TextMeaning(t, value, m)
  }

  /** An assignment of the key that expands to the value, whatever else is known. */
  ghost predicate ItemReads(item: Item, pair: (string, string)) {
    item.Assignment? && item.key == pair.0 && Reads(item.value, item.quote, pair.1)
  }

  ghost predicate Reads(value: string, quote: QuoteStyle, v: string) {
    forall t, m :: ValueMeaning(t, value, quote, m) == Means(v)
  }

  lemma EscapedReads(value: string, quote: QuoteStyle, v: string)
    requires value == if quote.Single? then v else EscapeDollars(v)
    ensures Reads(value, quote, v)
  {
    forall t, m ensures ValueMeaning(t, value, quote, m) == Means(v) {
      EscapedMeans(t, v, m);
    }
  }

  lemma {:induction false} NothingToEscape(v: string)
    requires '$' !in v
    ensures EscapeDollars(v) == v
  {
    if v != "" {
      NothingToEscape(v[1..]);
      assert [v[0]] + v[1..] == v;
    }
  }

  lemma QuotedReads(lines: seq<string>, index: nat, key: string, q: char, v: string, text: string)
    requires ValidKey(key) && IsQuote(q) && q !in v && !EndsInBackslash(v) && StandsAt(lines, index, text)
    requires var e := if q == '\'' then v else EscapeDollars(v);
      text == key + "=" + ([q] + e + [q]) && (q == '"' ==> !HasPair(v, 'n') && !HasPair(v, 'r'))
    ensures ItemAt(lines, index).1 == index + |Split(text)| && ItemReads(ItemAt(lines, index).0, (key, v))
  {
    var e := if q == '\'' then v else EscapeDollars(v);
    EscapingKeepsEnds(v, q);
    EscapingAddsNoPair(v, 'n');
    EscapingAddsNoPair(v, 'r');
    QuotedParses(lines, index, key, q, e, text);
    DecodesQuoted(q, e);
    EscapedReads(e, StyleOf(q), v);
  }

  lemma WrittenParses(lines: seq<string>, index: nat, key: string, v: string)
    requires ValidKey(key) && Closes(v) && StandsAt(lines, index, Written(key, v))
    ensures ItemAt(lines, index).1 == index + |Split(Written(key, v))| && ItemReads(ItemAt(lines, index).0, (key, v))
  {
    var text := Written(key, v);
    if v == "" || Bare(v) {
      BareParses(lines, index, key, v, text);
      BareHasNoDollar(v);
      NothingToEscape(v);
      EscapedReads(v, Unquoted, v);
    } else if '\'' !in v {
      QuotedReads(lines, index, key, '\'', v, text);
    } else if '"' !in v && !DoubleUnsafe(v) {
      QuotedReads(lines, index, key, '"', v, text);
    } else {
      QuotedReads(lines, index, key, '`', v, text);
    }
  }

  lemma BareHasNoDollar(v: string)
    requires v == "" || Bare(v)
    ensures '$' !in v
  {
  }
}
