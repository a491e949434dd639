/** A file of one entry: the exact values that come back from writing, parsing and expanding, and
    what the others come back as. */
module DotenvReadsBack {
  import opened Prelude
  import opened Text
  import opened DotenvDocument
  import opened DotenvWriter
  import opened DotenvEntry
  import opened DotenvRoundTrip
  import opened Expand

  // ---- what no step of reading makes more of ----

  /** The characters that are not backslashes. */
  function Weight(s: string): nat {
    if s == "" then 0 else (if s[0] == '\\' then 0 else 1) + Weight(s[1..])
  }

  lemma {:induction false} WeightAppends(a: string, b: string)
    ensures Weight(a + b) == Weight(a) + Weight(b)
  {
    if a == "" {
      assert a + b == b;
    } else {
      WeightAppends(a[1..], b);
      assert (a + b)[1..] == a[1..] + b;
    }
  }

  lemma WeightOfPart(s: string, i: nat, j: nat)
    requires i <= j <= |s|
    ensures Weight(s[..i]) + Weight(s[i..j]) + Weight(s[j..]) == Weight(s)
    ensures Weight(s[i..j]) <= Weight(s)
  {
    WeightAppends(s[..i], s[i..j]);
    WeightAppends(s[..i] + s[i..j], s[j..]);
    assert s[..i] + s[i..j] + s[j..] == s;
  }

  lemma WeightOfPrefix(s: string, i: nat)
    requires i <= |s|
    ensures Weight(s[..i]) + Weight(s[i..]) == Weight(s)
  {
    WeightAppends(s[..i], s[i..]);
    assert s[..i] + s[i..] == s;
  }

  lemma WeightOfChar(c: char)
    ensures Weight([c]) == if c == '\\' then 0 else 1
  {
    assert [c][1..] == "";
  }

  lemma WeightStep(s: string, c: char, rest: string)
    requires s == [c] + rest
    ensures Weight(s) == (if c == '\\' then 0 else 1) + Weight(rest)
  {
    assert s[1..] == rest;
  }

  lemma {:induction false} EscapingKeepsWeight(v: string)
    ensures Weight(EscapeDollars(v)) == Weight(v)
  {
    if v != "" {
      EscapingKeepsWeight(v[1..]);
      WeightOfChar(v[0]);
      WeightStep("\\$", '\\', "$");
      WeightOfChar('$');
      WeightAppends(if v[0] == '$' then "\\$" else [v[0]], EscapeDollars(v[1..]));
    }
  }

  lemma {:induction false} NormalizingLightens(v: string)
    ensures Weight(Normalized(v)) <= Weight(v)
  {
    if v == "" {
    } else if CrlfAt(v, 0) {
      var rest := v[2..];
      NormalizingLightens(rest);
      assert v == ['\r'] + (['\n'] + rest);
      WeightStep(v, '\r', ['\n'] + rest);
      WeightStep(['\n'] + rest, '\n', rest);
      WeightStep(Normalized(v), '\n', Normalized(rest));
    } else {
      NormalizingLightens(v[1..]);
      WeightStep(Normalized(v), v[0], Normalized(v[1..]));
    }
  }

  lemma {:induction false} UnescapingLightens(s: string, letter: char, c: char)
    requires letter != '\\'
    ensures Weight(Unescaped(s, letter, c)) <= Weight(s)
  {
    if s == "" {
    } else if |s| > 1 && s[0] == '\\' && s[1] == letter {
      var rest := s[2..];
      UnescapingLightens(rest, letter, c);
      assert s == ['\\'] + ([letter] + rest);
      WeightStep(s, '\\', [letter] + rest);
      WeightStep([letter] + rest, letter, rest);
      WeightStep(Unescaped(s, letter, c), c, Unescaped(rest, letter, c));
    } else {
      UnescapingLightens(s[1..], letter, c);
      WeightStep(Unescaped(s, letter, c), s[0], Unescaped(s[1..], letter, c));
    }
  }

  lemma {:induction false} TrimmingLightens(s: string)
    ensures Weight(TrimStart(s)) <= Weight(s)
  {
    if s != "" && IsSpace(s[0]) {
      TrimmingLightens(s[1..]);
    }
  }

  lemma DecodingLightens(raw: string)
    ensures Weight(DecodeValue(raw).0) <= Weight(raw)
  {
    TrimmingLightens(raw);
    var start := TrimStart(raw);
    TrimEndIsPrefix(start);
    var trimmed := Trim(raw);
    WeightOfPrefix(start, |trimmed|);
    InnerLightens(trimmed);
  }

  lemma InnerLightens(trimmed: string)
    ensures var inner := if Quoted(trimmed) then trimmed[1..|trimmed| - 1] else trimmed;
      && Weight(inner) <= Weight(trimmed)
      && Weight(Unescaped(Unescaped(inner, 'n', '\n'), 'r', '\r')) <= Weight(trimmed)
  {
    var inner := if Quoted(trimmed) then trimmed[1..|trimmed| - 1] else trimmed;
    if Quoted(trimmed) {
      WeightOfPart(trimmed, 1, |trimmed| - 1);
    }
    UnescapingLightens(inner, 'n', '\n');
    UnescapingLightens(Unescaped(inner, 'n', '\n'), 'r', '\r');
  }

  // ---- the weight of an assignment ----

  /** The key and the separator weigh at least two. */
  lemma HeadHasWeight(s: string)
    requires KeyLine(s).Some?
    ensures var n := KeyLine(s).value.length; n <= |s| && Weight(s[..n]) >= 2
  {
    var i := SpacesEnd(s, 0);
    if ExportAt(s, i) && KeyAt(s, SpacesEnd(s, i + 6), true).Some? {
      KeyHasWeight(s, SpacesEnd(s, i + 6), true);
    } else {
      KeyHasWeight(s, i, false);
    }
  }

  lemma KeyHasWeight(s: string, i: nat, exported: bool)
    requires i <= |s| && KeyAt(s, i, exported).Some?
    ensures Weight(s[..KeyAt(s, i, exported).value.length]) >= 2
  {
    var e := KeyEnd(s, i);
    var n := SeparatorEnd(s, e).value;
    var sep := SpacesEnd(s, e);
    if sep < |s| && s[sep] == '=' {
      TwoWeigh(s, i, sep, n);
    } else {
      TwoWeigh(s, i, e, n);
    }
  }

  lemma TwoWeigh(s: string, a: nat, b: nat, n: nat)
    requires a < b < n <= |s| && s[a] != '\\' && s[b] != '\\'
    ensures Weight(s[..n]) >= 2
  {
    var p := s[..n];
    WeightOfPart(p, a, b);
    WeightStep(p[a..b], s[a], p[a + 1..b]);
    WeightStep(p[b..], s[b], p[b + 1..]);
  }

  lemma {:induction false} BetweenIsPart(lines: seq<string>, index: nat, col: nat, last: nat, end: nat)
    requires index <= last < |lines| && col <= |lines[index]| && end < |lines[last]| && (index == last ==> col <= end)
    ensures Weight(lines[index][..col]) + Weight(Between(lines, index, col, last, end))
         <= Weight(Join(lines[index..last + 1], "\n"))
    decreases last - index
  {
    var parts := lines[index..last + 1];
    WeightOfPrefix(lines[index], col);
    if index == last {
      assert parts == [lines[index]];
      WeightOfPart(lines[index], col, end + 1);
    } else {
      BetweenIsPart(lines, index + 1, 0, last, end);
      assert parts[1..] == lines[index + 1..last + 1];
      var inner, rest := Between(lines, index + 1, 0, last, end), Join(parts[1..], "\n");
      WeightAppends("\n", inner);
      WeightAppends("\n", rest);
      WeightAppends(lines[index][col..], "\n" + inner);
      WeightAppends(lines[index], "\n" + rest);
    }
  }

  /** A value weighs at least two less than the text it was read from. */
  lemma ItemHasWeight(lines: seq<string>, index: nat)
    requires index < |lines|
    ensures var item := ItemAt(lines, index).0; item.Assignment? ==> Weight(item.value) + 2 <= Weight(item.text)
  {
    var head := KeyLine(lines[index]);
    if head.Some? {
      HeadHasWeight(lines[index]);
      var end := QuotedEnd(lines, index, head.value);
      if end.Some? {
        ClosedHasWeight(lines, index, head.value, end.value.0, end.value.1);
      } else {
        PlainHasWeight(lines[index], index, head.value);
      }
    }
  }

  lemma ClosedHasWeight(lines: seq<string>, index: nat, head: Head, last: nat, end: nat)
    requires index <= last < |lines| && head.length <= |lines[index]| && end < |lines[last]|
    requires (index == last ==> head.length <= end) && Weight(lines[index][..head.length]) >= 2
    ensures var item := Closed(lines, index, head, last, end); Weight(item.value) + 2 <= Weight(item.text)
  {
    BetweenIsPart(lines, index, head.length, last, end);
    DecodingLightens(Between(lines, index, head.length, last, end));
  }

  lemma PlainHasWeight(text: string, index: nat, head: Head)
    requires head.length <= |text| && Weight(text[..head.length]) >= 2
    ensures var item := PlainItem(text, index, head); Weight(item.value) + 2 <= Weight(item.text)
  {
    var rest := text[head.length..];
    WeightOfPrefix(text, head.length);
    WeightOfPrefix(rest, IndexOf(rest, '#'));
    DecodingLightens(rest[..IndexOf(rest, '#')]);
  }

  lemma {:induction false} ItemsHaveWeight(lines: seq<string>, index: nat, i: nat)
    requires index <= |lines| && i < |ItemsFrom(lines, index)|
    ensures var item := ItemsFrom(lines, index)[i];
      item.Assignment? ==> Weight(item.value) + 2 <= Weight(item.text)
    decreases |lines| - index
  {
    ItemHasWeight(lines, index);
    if i > 0 {
      ItemsHaveWeight(lines, ItemAt(lines, index).1, i - 1);
    }
  }

  lemma {:induction false} WeightOfJoined(texts: seq<string>, i: nat)
    requires i < |texts|
    ensures Weight(texts[i]) <= Weight(Join(texts, "\n"))
    ensures i > 0 ==> Weight(texts[0]) + Weight(texts[i]) < Weight(Join(texts, "\n"))
  {
    if |texts| > 1 {
      var rest := Join(texts[1..], "\n");
      WeightAppends(texts[0], "\n" + rest);
      WeightStep("\n" + rest, '\n', rest);
      if i > 0 {
        WeightOfJoined(texts[1..], i - 1);
      }
    }
  }

  // ---- expanding alone ----

  lemma FallbackIsPart(s: string)
    requires s != "" && PieceAt(s).0.Reference?
    ensures var (piece, n) := PieceAt(s); Weight(piece.fallback) <= Weight(s[..n])
  {
    var braced := Braced(s);
    if braced.Some? && PieceAt(s) == braced.value {
      var e := NameEnd(s, 2);
      if !(e < |s| && s[e] == '}') {
        var from := OperatorAt(s, e).value.1;
        var to := FallbackEnd(s, from).value;
        var p := s[..to + 1];
        assert p[from..to] == s[from..to];
        WeightOfPart(p, from, to);
      }
    }
  }

  lemma {:induction false} PieceLightens(t: Setting, piece: Piece)
    requires t.env == EMPTY_ENV
    ensures var meaning := PieceMeaning(t, piece, map[]);
      meaning.Means? ==>
        Weight(meaning.text) <= match piece case Literal(c) => Weight([c]) case Escaped => 1 case Reference(_, _, f) => Weight(f)
    decreases FallbackSize(piece), 1
  {
    match piece
    case Literal(c) =>
    case Escaped => WeightOfChar('$');
    case Reference(name, op, fallback) => ExpandingLightens(t, fallback);
  }

  lemma {:induction false} ExpandingLightens(t: Setting, s: string)
    requires t.env == EMPTY_ENV
    ensures var meaning := TextMeaning(t, s, map[]); meaning.Means? ==> Weight(meaning.text) <= Weight(s)
    decreases |s|, 0
  {
    if s != "" {
      var (piece, n) := PieceAt(s);
      PieceLightens(t, piece);
      ExpandingLightens(t, s[n..]);
      WeightOfPrefix(s, n);
      PieceHasWeight(s);
      var first, rest := PieceMeaning(t, piece, map[]), TextMeaning(t, s[n..], map[]);
      if first.Means? && rest.Means? {
        WeightAppends(first.text, rest.text);
      }
    }
  }

  lemma PieceHasWeight(s: string)
    requires s != ""
    ensures var (piece, n) := PieceAt(s);
      Weight(s[..n]) >= match piece case Literal(c) => Weight([c]) case Escaped => 1 case Reference(_, _, f) => Weight(f)
  {
    var (piece, n) := PieceAt(s);
    match piece
    case Literal(c) => assert s[..n] == [c];
    case Escaped =>
      assert s[..n] == "\\$";
      WeightStep("\\$", '\\', "$");
      WeightOfChar('$');
    case Reference(_, _, f) => FallbackIsPart(s);
  }

  // ---- a file of one entry ----

  /** What writing, parsing and expanding gives back. */
  predicate ComesBack(v: string) {
    !HasCrlf(v) && (EndsInBackslash(v) ==> '\n' !in v && '#' !in v)
  }

  lemma LinesOfOne(key: string, v: string)
    requires ValidKey(key) && FormatValue(v).Some?
    ensures CanWrite([(key, v)]) && Stringify([(key, v)]).value == Written(key, v)
    ensures LinesIn(Written(key, v)) == Split(Written(key, Normalized(v)))
    ensures StandsAt(LinesIn(Written(key, v)), 0, Written(key, Normalized(v)))
  {
    var pairs := [(key, v)];
    LinesOfStringified(pairs);
    assert WrittenAll(pairs) == [Written(key, v)];
    FlatStep(BlocksOf(pairs), Split(Written(key, Normalized(v))), []);
  }

  /** After the last line there is no quote left to close the value. */
  lemma LastStaysOpen(key: string, w: string)
    requires ValidKey(key) && FormatValue(w).Some? && EndsInBackslash(w)
    ensures StaysOpen(Split(Written(key, w)), 0, key)
  {
    BackslashIsQuoted(w);
    WrittenQuoted(key, w);
    TextStaysOpen(key, QuoteOf(w), Inside(w), Written(key, w), Split(Written(key, w)));
  }

  lemma TextStaysOpen(key: string, q: char, e: string, text: string, lines: seq<string>)
    requires ValidKey(key) && IsQuote(q) && q !in e && EndsInBackslash(e) && text == key + "=" + ([q] + e + [q])
    requires lines == Split(text)
    ensures StaysOpen(lines, 0, key)
  {
    assert StandsAt(lines, 0, text);
    QuotedText(lines, 0, key, q, e, text);
    SplitsAtQuote(key, q, e, text);
    OpeningIsOneLine(key, q);
    var mid := ClosesBelow(lines, 0, q, e, key + "=" + [q], text);
    NeverClosed(lines, HeadOf(key));
  }

  lemma NeverClosed(lines: seq<string>, head: Head)
    requires lines != [] && head.length < |lines[0]|
    requires ClosingFrom(lines, lines[0][head.length], 0, head.length + 1) == None
    ensures QuotedEnd(lines, 0, head) == None
  {
  }

  lemma OneIsLegibleIff(key: string, v: string)
    requires ValidKey(key) && FormatValue(v).Some?
    ensures Legible(LinesIn(Written(key, v)), [(key, v)]) <==> ComesBack(v)
  {
    LinesOfOne(key, v);
    NormalIffNoCrlf(v);
    if !HasCrlf(v) && EndsInBackslash(v) {
      LastStaysOpen(key, v);
    }
    var lines := LinesIn(Written(key, v));
    assert BlocksOf([(key, v)])[..0] == [] && StartOf([(key, v)], 0) == 0;
    assert Legible(lines, [(key, v)]) <==> LegibleAt(lines, 0, key, v);
  }

  /** The answer for one key is the meaning of its entry before anything is known. */
  lemma OneKeyMeans(t: Setting, key: string, v: string)
    requires Answers(t, map[key := v])
    ensures key in t.raw && EntryMeaning(t, key, map[]) == Means(v)
  {
    var m := map[key := v];
    var order :| Derived(t, order, m);
    assert key in m;
    var k := order[|order| - 1];
    assert k in m && m - {k} == map[];
  }

  lemma {:induction false} RawComesFrom(items: seq<Item>, k: string) returns (i: nat)
    requires k in RawOf(EntriesOf(items))
    ensures i < |items| && items[i].Assignment? && items[i].key == k
    ensures RawOf(EntriesOf(items))[k] == Expandable(k, items[i].value, items[i].quote)
  {
    var n := |items| - 1;
    var last, before := items[n], EntriesOf(items[..n]);
    if last.Assignment? {
      RawStep(before, Expandable(last.key, last.value, last.quote));
    }
    if last.Assignment? && last.key == k {
      i := n;
    } else {
      i := RawComesFrom(items[..n], k);
    }
  }

  lemma RawStep(before: seq<Expandable>, last: Expandable)
    ensures RawOf(before + [last]) == RawOf(before)[last.key := last]
  {
    assert (before + [last])[..|before|] == before;
  }

  lemma MapOfOne(key: string, v: string)
    ensures MapOf([(key, v)]) == map[key := v]
  {
    assert [(key, v)][..0] == [];
    assert MapOf([]) == map[];
  }

  lemma WeightOfWritten(key: string, q: char, e: string, v: string, text: string)
    requires text == key + "=" + ([q] + e + [q]) && IsQuote(q) && (e == v || e == EscapeDollars(v))
    ensures Weight(text) == Weight(key) + 3 + Weight(v)
  {
    EscapingKeepsWeight(v);
    WeightAppends(key, "=");
    WeightOfChar('=');
    WeightAppends(key + "=", [q] + e + [q]);
    WeightOfQuoted(q, e);
  }

  lemma WeightOfQuoted(q: char, e: string)
    requires IsQuote(q)
    ensures Weight([q] + e + [q]) == 2 + Weight(e)
  {
    WeightAppends([q] + e, [q]);
    WeightAppends([q], e);
    WeightOfChar(q);
  }

  lemma WeightOfOpening(key: string, q: char, line: string)
    requires |line| >= |key| + 2 && line[..|key| + 2] == key + "=" + [q] && IsQuote(q)
    ensures Weight(line) >= Weight(key) + 2
  {
    WeightOfPrefix(line, |key| + 2);
    WeightAppends(key, "=");
    WeightOfChar('=');
    WeightAppends(key + "=", [q]);
    WeightOfChar(q);
  }

  /** Behind the first line there is too little left to hold the value. */
  lemma LaterItemsAreLight(key: string, w: string, lines: seq<string>, i: nat)
    requires ValidKey(key) && FormatValue(w).Some? && w != "" && !Bare(w) && lines == Split(Written(key, w))
    requires ItemAt(lines, 0).1 == 1 && 0 < i < |ItemsFrom(lines, 0)| && ItemsFrom(lines, 0)[i].Assignment?
    ensures Weight(ItemsFrom(lines, 0)[i].value) < Weight(w)
  {
    var text, items := Written(key, w), ItemsFrom(lines, 0);
    TextsCoverLines(lines, 0);
    assert lines[0..] == lines;
    JoinOfSplit(text);
    WeightOfJoined(Texts(items), i);
    ItemsHaveWeight(lines, 0, i);
    WrittenQuoted(key, w);
    WeightOfWritten(key, QuoteOf(w), Inside(w), w, text);
    FirstTextWeighs(key, w, lines);
    assert Texts(items)[0] == items[0].text == ItemAt(lines, 0).0.text && Texts(items)[i] == items[i].text;
  }

  lemma FirstTextWeighs(key: string, w: string, lines: seq<string>)
    requires ValidKey(key) && FormatValue(w).Some? && w != "" && !Bare(w) && lines == Split(Written(key, w))
    requires ItemAt(lines, 0).1 == 1
    ensures Weight(ItemAt(lines, 0).0.text) >= Weight(key) + 2
  {
    var q, e, text := QuoteOf(w), Inside(w), Written(key, w);
    var p := key + "=" + [q];
    WrittenQuoted(key, w);
    SplitsAtQuote(key, q, e, text);
    OpeningIsOneLine(key, q);
    OneLineParts(q, e, p, text);
    assert lines[0][..|p|] == p;
    WeightOfOpening(key, q, lines[0]);
    assert lines[0..1] == [lines[0]];
  }

  /** A value that ends in a backslash and has a line end or a comment sign does not come back, nor
      does what it was before its line ends were normalised. */
  lemma LostValue(key: string, v: string, lines: seq<string>, override: bool)
    requires ValidKey(key) && FormatValue(v).Some? && lines == Split(Written(key, Normalized(v)))
    requires EndsInBackslash(v) && ('\n' in v || '#' in v)
    ensures !Answers(Setting(RawOf(EntriesOf(ItemsFrom(lines, 0))), EMPTY_ENV, override), map[key := v])
  {
    var w := Normalized(v);
    var items := ItemsFrom(lines, 0);
    var t := Setting(RawOf(EntriesOf(items)), EMPTY_ENV, override);
    LostIsOpen(key, v, lines);
    if Answers(t, map[key := v]) {
      OneKeyMeans(t, key, v);
      var i := RawComesFrom(items, key);
      assert ValueMeaning(t, items[i].value, items[i].quote, map[]) == Means(v);
      if i > 0 {
        ExpandingLightens(t, items[i].value);
        NormalizingLightens(v);
        LaterItemsAreLight(key, w, lines, i);
      }
      assert false;
    }
  }

  lemma LostIsOpen(key: string, v: string, lines: seq<string>)
    requires ValidKey(key) && FormatValue(v).Some? && lines == Split(Written(key, Normalized(v)))
    requires EndsInBackslash(v) && ('\n' in v || '#' in v)
    ensures var w := Normalized(v); FormatValue(w).Some? && w != "" && !Bare(w)
    ensures QuoteOf(v) !in v && ItemAt(lines, 0).1 == 1 && ShowsQuote(ItemsFrom(lines, 0)[0], key, QuoteOf(v))
  {
    var w := Normalized(v);
    NormalizedIsQuotedAlike(v);
    NormalizedKeepsChar(v, '\n');
    NormalizedKeepsChar(v, '#');
    BackslashIsQuoted(v);
    BackslashIsQuoted(w);
    WrittenQuoted(key, v);
    LastStaysOpen(key, w);
    assert StandsAt(lines, 0, Written(key, w));
    OpenEntry(lines, 0, key, w);
  }

  /** A value with CRLF that is read at all is read normalised. */
  lemma NormalizedValue(key: string, v: string, lines: seq<string>, override: bool)
    requires ValidKey(key) && FormatValue(v).Some? && lines == Split(Written(key, Normalized(v)))
    requires HasCrlf(v) && !EndsInBackslash(v)
    ensures !Answers(Setting(RawOf(EntriesOf(ItemsFrom(lines, 0))), EMPTY_ENV, override), map[key := v])
  {
    var w := Normalized(v);
    NormalizedIsQuotedAlike(v);
    NormalIffNoCrlf(v);
    assert StandsAt(lines, 0, Written(key, w));
    WrittenParses(lines, 0, key, w);
    OneItem(lines);
    OtherAnswer(ItemAt(lines, 0).0, key, w, v, override);
  }

  lemma OneItem(lines: seq<string>)
    requires lines != [] && ItemAt(lines, 0).1 == |lines|
    ensures ItemsFrom(lines, 0) == [ItemAt(lines, 0).0]
  {
    assert ItemsFrom(lines, |lines|) == [];
  }

  lemma OtherAnswer(item: Item, key: string, w: string, v: string, override: bool)
    requires ItemReads(item, (key, w)) && v != w
    ensures !Answers(Setting(RawOf(EntriesOf([item])), EMPTY_ENV, override), map[key := v])
  {
    var pairs := [(key, w)];
    assert AllRead([item], pairs);
    ItemsExpand([item], pairs, EMPTY_ENV, override);
    MapOfOne(key, w);
    OneAnswer(Setting(RawOf(EntriesOf([item])), EMPTY_ENV, override), map[key := w]);
    assert map[key := w][key] != map[key := v][key];
  }

  /** For every value that can be written: alone in a file it comes back, under the empty environment
      or any other, exactly when it has no CRLF, and neither a line end nor a comment sign if it ends
      in a backslash. */
  lemma WrittenReadsBackIff(key: string, v: string, override: bool)
    requires ValidKey(key) && FormatValue(v).Some?
    ensures Formats([(key, v)])
    ensures ReadsBack([(key, v)], EMPTY_ENV, override) <==> ComesBack(v)
    ensures (forall env, o :: ReadsBack([(key, v)], env, o)) <==> ComesBack(v)
  {
    var pairs, lines := [(key, v)], LinesIn(Written(key, v));
    LinesOfOne(key, v);
    OneIsLegibleIff(key, v);
    if ComesBack(v) {
      forall env, o ensures ReadsBack(pairs, env, o) {
        LegibleFileExpands(pairs, env, o);
      }
    } else {
      MapOfOne(key, v);
      if EndsInBackslash(v) && ('\n' in v || '#' in v) {
        LostValue(key, v, lines, override);
      } else {
        CrlfHasNewline(v);
        NormalizedValue(key, v, lines, override);
      }
      assert Parsed(Written(key, v)).items == ItemsFrom(lines, 0);
      assert !ReadsBack(pairs, EMPTY_ENV, override);
    }
  }

  lemma CrlfHasNewline(v: string)
    requires HasCrlf(v)
    ensures '\n' in v
  {
    var i: nat :| i < |v| && CrlfAt(v, i);
    assert v[i + 1] in v;
  }

  /** The value `#` followed by a backslash is written, and expands to something else. */
  lemma HashAndBackslashAreLost(override: bool)
    ensures var v := "#\\"; FormatValue(v).Some? && !ReadsBack([("A", v)], EMPTY_ENV, override)
  {
    var v := "#\\";
    assert '#' in v && '\r' !in v;
    WrittenReadsBackIff("A", v, override);
  }

  // ---- a later entry closes the quote ----

  const FIRST := ("A", "x\\")
  const SECOND := ("B", "' #x")

  lemma FirstIsWritten()
    ensures FormatValue(FIRST.1).Some? && Written(FIRST.0, FIRST.1) == "A='x\\'" && ComesBack(FIRST.1)
  {
    var v := FIRST.1;
    assert !BareChar(v[1]) && '\'' !in v && '\n' !in v && '#' !in v;
  }

  lemma SecondIsWritten()
    ensures FormatValue(SECOND.1).Some? && Written(SECOND.0, SECOND.1) == "B=\"' #x\"" && ComesBack(SECOND.1)
  {
    var v := SECOND.1;
    assert v[0] == '\'';
    DoubleQuoted(SECOND.0, v);
    assert "B" + "=" + (['"'] + v + ['"']) == "B=\"' #x\"";
  }

  lemma DoubleQuoted(key: string, v: string)
    requires '\'' in v && '"' !in v && '\\' !in v && '$' !in v && '\r' !in v
    ensures FormatValue(v).Some? && Written(key, v) == key + "=" + (['"'] + v + ['"']) && ComesBack(v)
  {
    var i :| 0 <= i < |v| && v[i] == '\'';
    assert !BareChar(v[i]);
    NothingToEscape(v);
    NoBackslashNoPair(v, 'n');
    NoBackslashNoPair(v, 'r');
    NoBackslashNoPair(v, '$');
  }

  lemma TwoLines(p: (string, string), q: (string, string), first: string, second: string)
    requires CanWrite([p, q]) && !HasCrlf(p.1) && !HasCrlf(q.1)
    requires Written(p.0, p.1) == first && Written(q.0, q.1) == second && OneLine(first) && OneLine(second)
    ensures LinesIn(Stringify([p, q]).value) == [first, second]
  {
    NoCrlfIsNormal(p.1);
    NoCrlfIsNormal(q.1);
    SplitOfOneLine(first);
    SplitOfOneLine(second);
    LinesOfStringified([p, q]);
    var blocks := BlocksOf([p, q]);
    assert blocks == [[first], [second]];
    FlatStep(blocks, [first], [[second]]);
    FlatStep([[second]], [second], []);
  }

  lemma {:induction false} NoBackslashNoPair(s: string, letter: char)
    requires '\\' !in s
    ensures !HasPair(s, letter)
  {
    if s != "" {
      NoBackslashNoPair(s[1..], letter);
    }
  }

  /** Both values come back alone; in one file the second one's quote closes the first one's, the
      file is read as one assignment, and the second key is gone. */
  lemma LaterQuoteClosesIt(env: Env, override: bool)
    ensures ComesBack(FIRST.1) && ComesBack(SECOND.1) && Formats([FIRST, SECOND])
    ensures |Parsed(Stringify([FIRST, SECOND]).value).items| == 1 && !ReadsBack([FIRST, SECOND], env, override)
  {
    FirstIsWritten();
    SecondIsWritten();
    var first, second := "A='x\\'", "B=\"' #x\"";
    TwoLines(FIRST, SECOND, first, second);
    SwallowingItem([first, second]);
    SecondIsGone(FIRST, SECOND, [first, second], env, override);
  }

  lemma SecondIsGone(p: (string, string), q: (string, string), lines: seq<string>, env: Env, override: bool)
    requires Formats([p, q]) && LinesIn(Stringify([p, q]).value) == lines && p.0 != q.0
    requires lines != [] && ItemAt(lines, 0).1 == |lines| && ItemAt(lines, 0).0.Assignment? && ItemAt(lines, 0).0.key == p.0
    ensures |Parsed(Stringify([p, q]).value).items| == 1 && !ReadsBack([p, q], env, override)
  {
    OneItem(lines);
    OneKeyIsTooFew(ItemAt(lines, 0).0, p, q, env, override);
  }

  lemma OneKeyIsTooFew(item: Item, p: (string, string), q: (string, string), env: Env, override: bool)
    requires item.Assignment? && item.key == p.0 != q.0
    ensures !Answers(Setting(RawOf(EntriesOf([item])), env, override), MapOf([p, q]))
  {
    EntriesAre([item]);
    RawHasKeys(EntriesOf([item]));
    assert q.0 !in RawOf(EntriesOf([item]));
    MapKeys([p, q], q.0);
    assert [p, q][1].0 == q.0;
  }

  lemma SwallowingItem(lines: seq<string>)
    requires lines == ["A='x\\'", "B=\"' #x\""]
    ensures ItemAt(lines, 0).1 == 2 && ItemAt(lines, 0).0.Assignment? && ItemAt(lines, 0).0.key == "A"
  {
    HeadOfWritten("A", "'x\\'", lines[0]);
    assert ClosingIn(lines[0], '\'', 6) == None;
    assert ClosingIn(lines[0], '\'', 4) == None;
    assert ClosingIn(lines[0], '\'', 3) == None;
    assert ClosingIn(lines[1], '\'', 3) == Some(3);
    assert ClosingIn(lines[1], '\'', 1) == Some(3);
    assert ClosingIn(lines[1], '\'', 0) == Some(3);
    assert ClosingFrom(lines, '\'', 1, 0) == Some((1, 3));
    assert ClosingFrom(lines, '\'', 0, 3) == Some((1, 3));
    var after := lines[1][4..];
    assert after == " #x\"" && after[1..] == "#x\"" && TrimStart(after) == "#x\"";
    assert OnlyComment(after);
    ItemIsClosed(lines, 0, HeadOf("A"), 1, 3);
  }

  // ---- a value with line ends in a CRLF file ----

  lemma {:induction false} CrlfIsNormalized(s: string)
    requires '\r' !in s
    ensures Normalized(Crlf(s)) == s && AllCrlf(Crlf(s))
    ensures s != "" && s[0] != '\n' ==> Crlf(s) != "" && Crlf(s)[0] == s[0]
  {
    if s != "" {
      var c, rest := s[0], s[1..];
      CrlfIsNormalized(rest);
      CrlfStep(s, c, rest);
      assert s == [c] + rest;
      if c == '\n' {
        assert Crlf(s)[2..] == Crlf(rest);
      } else {
        assert Crlf(s)[1..] == Crlf(rest);
      }
    }
  }

  lemma WrittenHasNoReturn(key: string, v: string)
    requires ValidKey(key) && FormatValue(v).Some? && '\r' !in v
    ensures '\r' !in Written(key, v)
  {
    EscapingKeepsChar(v, '\r');
    forall i | 0 <= i < |key| ensures key[i] != '\r' {
      KeyCharsAreNot(key[i]);
    }
    assert '\r' !in key;
    assert '\r' !in FormatValue(v).value;
  }

  lemma WrittenHasNewline(key: string, v: string)
    requires FormatValue(v).Some? && '\n' in v
    ensures '\n' in Written(key, v)
  {
    EscapingKeepsChar(v, '\n');
    assert !Bare(v) by {
      var i :| 0 <= i < |v| && v[i] == '\n';
      assert !BareChar(v[i]);
    }
    var f := FormatValue(v).value;
    assert '\n' in f;
    var i :| 0 <= i < |f| && f[i] == '\n';
    assert Written(key, v)[|key| + 1 + i] == '\n';
  }

  lemma NewlineMakesCrlf(s: string)
    requires AllCrlf(s) && '\n' in s
    ensures HasCrlf(s)
  {
    var i :| 0 <= i < |s| && s[i] == '\n';
    assert CrlfAt(s, i - 1);
  }

  lemma CrlfText(text: string)
    requires LooksWritten(text) && '\n' in text && '\r' !in text
    ensures var s := Crlf(text); WithoutBom(s) == s && HasCrlf(s) && AllCrlf(s) && LinesIn(s) == Split(text)
  {
    var s := Crlf(text);
    KeyCharsAreNot(text[0]);
    CrlfIsNormalized(text);
    NormalizedKeepsChar(s, '\n');
    NewlineMakesCrlf(s);
    LinesFromNormal(s, text);
  }

  lemma LinesFromNormal(s: string, text: string)
    requires WithoutBom(s) == s && Normalized(s) == text && LooksWritten(text)
    ensures LinesIn(s) == Split(text)
  {
  }

  /** Any file of one assignment whose value spans lines, written with CRLF throughout, comes back
      changed. */
  lemma CrlfValueIsChanged(key: string, v: string)
    requires ValidKey(key) && Closes(v) && '\n' in v && '\r' !in v
    ensures var s := Crlf(Written(key, v)); Render(Parsed(s)) != s
  {
    var text := Written(key, v);
    var s, lines := Crlf(text), Split(text);
    WrittenLooks(key, v);
    WrittenHasNoReturn(key, v);
    WrittenHasNewline(key, v);
    CrlfText(text);
    CrlfRenderedIffOneLine(s);
    WrittenParses(lines, 0, key, v);
    OneItem(lines);
    JoinOfSplit(text);
    assert lines[0..|lines|] == lines;
    assert !OneLine(Texts(Parsed(s).items)[0]);
  }
}
