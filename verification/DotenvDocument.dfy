/** Dotenv files as documents that remember every byte: parsing into items, and rendering back. */
module DotenvDocument {
  import opened Prelude
  import opened Text
  import Expand

  type QuoteStyle = Expand.QuoteStyle

  datatype Item =
    | Assignment(key: string, value: string, quote: QuoteStyle, exported: bool, line: nat, comment: Option<string>,
                 text: string)
    | Other(line: nat, text: string)

  datatype Document = Document(items: seq<Item>, eol: string, trailingNewline: bool)

  // ---- lines ----

  function Join(parts: seq<string>, sep: string): string {
    if parts == [] then "" else if |parts| == 1 then parts[0] else parts[0] + (sep + Join(parts[1..], sep))
  }

  function Split(s: string): (lines: seq<string>)
    ensures lines != []
  {
    if s == "" then [""]
    else
      var rest := Split(s[1..]);
      if s[0] == '\n' then [""] + rest else [[s[0]] + rest[0]] + rest[1..]
  }

  /** Every CRLF pair becomes a line feed. */
  function Normalized(s: string): string {
    if s == "" then ""
    else if |s| > 1 && s[0] == '\r' && s[1] == '\n' then "\n" + Normalized(s[2..])
    else [s[0]] + Normalized(s[1..])
  }

  predicate CrlfAt(s: string, i: nat) {
    i + 1 < |s| && s[i] == '\r' && s[i + 1] == '\n'
  }

  predicate HasCrlf(s: string) {
    exists i: nat :: i < |s| && CrlfAt(s, i)
  }

  function WithoutBom(s: string): string {
    if s != "" && s[0] == '\U{FEFF}' then s[1..] else s
  }

  predicate EndsWithNewline(s: string) {
    s != "" && s[|s| - 1] == '\n'
  }

  function Body(normalized: string): string {
    if EndsWithNewline(normalized) then normalized[..|normalized| - 1] else normalized
  }

  function LinesOf(body: string): seq<string> {
    if body == "" then [] else Split(body)
  }

  // ---- the head of an assignment ----

  predicate KeyChar(c: char) {
    'A' <= c <= 'Z' || 'a' <= c <= 'z' || '0' <= c <= '9' || c == '_' || c == '.' || c == '-'
  }

  function SpacesEnd(s: string, i: nat): (e: nat)
    requires i <= |s|
    ensures i <= e <= |s|
    decreases |s| - i
  {
    if i < |s| && IsSpace(s[i]) then SpacesEnd(s, i + 1) else i
  }

  function KeyEnd(s: string, i: nat): (e: nat)
    requires i <= |s|
    ensures i <= e <= |s|
    decreases |s| - i
  {
    if i < |s| && KeyChar(s[i]) then KeyEnd(s, i + 1) else i
  }

  /** `=` with any white space around it, or a colon with white space after it. */
  function SeparatorEnd(s: string, i: nat): (r: Option<nat>)
    requires i <= |s|
    ensures r.Some? ==> i < r.value <= |s|
  {
    var e := SpacesEnd(s, i);
    if e < |s| && s[e] == '=' then Some(SpacesEnd(s, e + 1))
    else if i + 1 < |s| && s[i] == ':' && IsSpace(s[i + 1]) then Some(SpacesEnd(s, i + 1))
    else None
  }

  datatype Head = Head(key: string, exported: bool, length: nat)

  function KeyAt(s: string, i: nat, exported: bool): (r: Option<Head>)
    requires i <= |s|
    ensures r.Some? ==> r.value.length <= |s|
  {
    var e := KeyEnd(s, i);
    var sep := SeparatorEnd(s, e);
    if e == i || sep.None? then None else Some(Head(s[i..e], exported, sep.value))
  }

  predicate ExportAt(s: string, i: nat) {
    i + 6 < |s| && s[i..i + 6] == "export" && IsSpace(s[i + 6])
  }

  /** The key pattern at the start of a line: with the `export` prefix if that leads to a key, else
      without. */
  function KeyLine(s: string): (r: Option<Head>)
    ensures r.Some? ==> r.value.length <= |s|
  {
    var i := SpacesEnd(s, 0);
    var exported := if ExportAt(s, i) then KeyAt(s, SpacesEnd(s, i + 6), true) else None;
    if exported.Some? then exported else KeyAt(s, i, false)
  }

  // ---- values ----

  predicate IsQuote(c: char) {
    c == '"' || c == '\'' || c == '`'
  }

  function StyleOf(c: char): QuoteStyle {
    if c == '"' then Expand.Double else if c == '\'' then Expand.Single else Expand.Backtick
  }

  /** Every backslash followed by `letter` becomes `c`. */
  function Unescaped(s: string, letter: char, c: char): string {
    if s == "" then ""
    else if |s| > 1 && s[0] == '\\' && s[1] == letter then [c] + Unescaped(s[2..], letter, c)
    else [s[0]] + Unescaped(s[1..], letter, c)
  }

  predicate Quoted(trimmed: string) {
    |trimmed| > 1 && IsQuote(trimmed[0]) && trimmed[|trimmed| - 1] == trimmed[0]
  }

  function DecodeValue(raw: string): (string, QuoteStyle) {
    var trimmed := Trim(raw);
    var inner := if Quoted(trimmed) then trimmed[1..|trimmed| - 1] else trimmed;
    var value := if trimmed != "" && trimmed[0] == '"' then Unescaped(Unescaped(inner, 'n', '\n'), 'r', '\r') else inner;
    (value, if Quoted(trimmed) then StyleOf(trimmed[0]) else Expand.Unquoted)
  }

  // ---- the closing quote ----

  /** The first quote at or after `col` that no backslash escapes. */
  function ClosingIn(text: string, quote: char, col: nat): (r: Option<nat>)
    ensures r.Some? ==> col <= r.value < |text|
    decreases |text| - col
  {
    if col >= |text| then None
    else if text[col] == '\\' && col + 1 < |text| && text[col + 1] == quote then ClosingIn(text, quote, col + 2)
    else if text[col] == quote then Some(col)
    else ClosingIn(text, quote, col + 1)
  }

  function ClosingFrom(lines: seq<string>, quote: char, line: nat, col: nat): (r: Option<(nat, nat)>)
    ensures r.Some? ==> line <= r.value.0 < |lines| && r.value.1 < |lines[r.value.0]|
    ensures r.Some? && r.value.0 == line ==> col <= r.value.1
    decreases |lines| - line
  {
    if line >= |lines| then None
    else
      var here := ClosingIn(lines[line], quote, col);
      if here.Some? then Some((line, here.value)) else ClosingFrom(lines, quote, line + 1, 0)
  }

  method FindClosingQuote(lines: seq<string>, quote: char, startLine: nat, startCol: nat)
    returns (r: Option<(nat, nat)>)
    ensures r == ClosingFrom(lines, quote, startLine, startCol)
  {
    var line: nat, col: nat := startLine, startCol;
    while line < |lines|
      invariant ClosingFrom(lines, quote, startLine, startCol) == ClosingFrom(lines, quote, line, col)
      decreases |lines| - line
    {
      var text := lines[line];
      ghost var from: nat := col;
      while col < |text|
        invariant ClosingIn(text, quote, from) == ClosingIn(text, quote, col)
        decreases |text| - col
      {
        if text[col] == '\\' && col + 1 < |text| && text[col + 1] == quote {
          col := col + 2;
          continue;
        }
        if text[col] == quote {
          return Some((line, col));
        }
        col := col + 1;
      }
      line, col := line + 1, 0;
    }
    return None;
  }

  // ---- items ----

  predicate LineTerminator(c: char) {
    c == '\n' || c == '\r' || c == '\U{2028}' || c == '\U{2029}'
  }

  /** Nothing but white space and perhaps a comment. */
  predicate OnlyComment(after: string) {
    var t := TrimStart(after);
    t == "" || (t[0] == '#' && forall i | 0 <= i < |t| :: !LineTerminator(t[i]))
  }

  /** The text from `col` in line `index` up to and including `end` in line `last`. */
  function Between(lines: seq<string>, index: nat, col: nat, last: nat, end: nat): string
    requires index <= last < |lines| && col <= |lines[index]| && end < |lines[last]| && (index == last ==> col <= end)
    decreases last - index
  {
    if index == last then lines[index][col..end + 1]
    else lines[index][col..] + ("\n" + Between(lines, index + 1, 0, last, end))
  }

  function Closed(lines: seq<string>, index: nat, head: Head, last: nat, end: nat): (item: Item)
    requires index <= last < |lines| && head.length <= |lines[index]| && end < |lines[last]|
    requires index == last ==> head.length <= end
    ensures item.text == Join(lines[index..last + 1], "\n")
  {
    var (value, quote) := DecodeValue(Between(lines, index, head.length, last, end));
    var comment := Trim(lines[last][end + 1..]);
    Assignment(head.key, value, quote, head.exported, index + 1, if comment == "" then None else Some(comment),
               Join(lines[index..last + 1], "\n"))
  }

  /** Where a quoted value that nothing but a comment follows is closed. */
  function QuotedEnd(lines: seq<string>, index: nat, head: Head): (r: Option<(nat, nat)>)
    requires index < |lines| && head.length <= |lines[index]|
    ensures r.Some? ==> index <= r.value.0 < |lines| && r.value.1 < |lines[r.value.0]|
    ensures r.Some? && r.value.0 == index ==> head.length <= r.value.1
  {
    var text := lines[index];
    if head.length == |text| || !IsQuote(text[head.length]) then None
    else
      var closing := ClosingFrom(lines, text[head.length], index, head.length + 1);
      if closing.None? || !OnlyComment(lines[closing.value.0][closing.value.1 + 1..]) then None else closing
  }

  function QuotedItem(lines: seq<string>, index: nat, head: Head): (r: Option<(Item, nat)>)
    requires index < |lines| && head.length <= |lines[index]|
    ensures r.Some? ==> index < r.value.1 <= |lines| && r.value.0.text == Join(lines[index..r.value.1], "\n")
  {
    var end := QuotedEnd(lines, index, head);
    if end.None? then None else Some((Closed(lines, index, head, end.value.0, end.value.1), end.value.0 + 1))
  }

  function IndexOf(s: string, c: char): (i: nat)
    ensures i <= |s| && (i < |s| ==> s[i] == c) && forall j | 0 <= j < i :: s[j] != c
  {
    if s == "" || s[0] == c then 0 else 1 + IndexOf(s[1..], c)
  }

  function PlainItem(text: string, index: nat, head: Head): Item
    requires head.length <= |text|
  {
    var rest := text[head.length..];
    var hash := IndexOf(rest, '#');
    var raw := rest[..hash];
    var keep := hash < |rest| && (hash == 0 || IsSpace(raw[|raw| - 1]));
    var (value, quote) := DecodeValue(raw);
    Assignment(head.key, value, quote, head.exported, index + 1, if keep then Some(rest[hash..]) else None, text)
  }

  function ItemWith(lines: seq<string>, index: nat, head: Option<Head>): (r: (Item, nat))
    requires index < |lines| && (head.Some? ==> head.value.length <= |lines[index]|)
    ensures index < r.1 <= |lines| && r.0.text == Join(lines[index..r.1], "\n")
  {
    var text := lines[index];
    assert lines[index..index + 1] == [text];
    if head.None? then (Other(index + 1, text), index + 1)
    else
      var quoted := QuotedItem(lines, index, head.value);
      if quoted.Some? then quoted.value else (PlainItem(text, index, head.value), index + 1)
  }

  /** The item that starts at a line, and the line after it. */
  function ItemAt(lines: seq<string>, index: nat): (r: (Item, nat))
    requires index < |lines|
    ensures index < r.1 <= |lines| && r.0.text == Join(lines[index..r.1], "\n")
  {
    ItemWith(lines, index, KeyLine(lines[index]))
  }

  function ItemsFrom(lines: seq<string>, index: nat): seq<Item>
    requires index <= |lines|
    decreases |lines| - index
  {
    if index == |lines| then [] else var (item, next) := ItemAt(lines, index); [item] + ItemsFrom(lines, next)
  }

  function Parsed(content: string): Document {
    var withoutBom := WithoutBom(content);
    var normalized := Normalized(withoutBom);
    Document(ItemsFrom(LinesOf(Body(normalized)), 0), if HasCrlf(withoutBom) then "\r\n" else "\n",
             EndsWithNewline(normalized))
  }

  method FindQuotedEnd(lines: seq<string>, index: nat, head: Head) returns (r: Option<(nat, nat)>)
    requires index < |lines| && head.length <= |lines[index]|
    ensures r == QuotedEnd(lines, index, head)
  {
    var text := lines[index];
    if head.length == |text| || !IsQuote(text[head.length]) {
      return None;
    }
    r := FindClosingQuote(lines, text[head.length], index, head.length + 1);
    if r.Some? && !OnlyComment(lines[r.value.0][r.value.1 + 1..]) {
      return None;
    }
  }

  method ParseItem(lines: seq<string>, index: nat) returns (item: Item, next: nat)
    requires index < |lines|
    ensures (item, next) == ItemAt(lines, index)
  {
    var text := lines[index];
    var head := KeyLine(text);
    if head.None? {
      return Other(index + 1, text), index + 1;
    }
    var end := FindQuotedEnd(lines, index, head.value);
    if end.Some? {
      return Closed(lines, index, head.value, end.value.0, end.value.1), end.value.0 + 1;
    }
    return PlainItem(text, index, head.value), index + 1;
  }

  /** The parser, item by item; a quoted value may take several lines. */
  method Parse(content: string) returns (document: Document)
    ensures document == Parsed(content)
  {
    var withoutBom := WithoutBom(content);
    var eol := if HasCrlf(withoutBom) then "\r\n" else "\n";
    var normalized := Normalized(withoutBom);
    var lines := LinesOf(Body(normalized));
    var items: seq<Item> := [];
    var index := 0;
    while index < |lines|
      invariant index <= |lines| && ItemsFrom(lines, 0) == items + ItemsFrom(lines, index)
      decreases |lines| - index
    {
      var item, next := ParseItem(lines, index);
      assert ItemsFrom(lines, index) == [item] + ItemsFrom(lines, next);
      items, index := items + [item], next;
    }
    return Document(items, eol, EndsWithNewline(normalized));
  }

  function Texts(items: seq<Item>): seq<string> {
    seq(|items|, i requires 0 <= i < |items| => items[i].text)
  }

  function Render(document: Document): string {
    var body := Join(Texts(document.items), document.eol);
    if document.trailingNewline then body + document.eol else body
  }

  // ---- rendering what was parsed ----

  lemma {:induction false} JoinOfSplit(s: string)
    ensures Join(Split(s), "\n") == s
  {
    if s != "" {
      JoinOfSplit(s[1..]);
      var rest := Split(s[1..]);
      if s[0] == '\n' {
        assert ([""] + rest)[1..] == rest;
      } else {
        var lines := [[s[0]] + rest[0]] + rest[1..];
        if |rest| > 1 {
          assert lines[1..] == rest[1..];
        }
      }
    }
  }

  lemma {:induction false} JoinAppends(a: seq<string>, b: seq<string>, sep: string)
    requires a != [] && b != []
    ensures Join(a + b, sep) == Join(a, sep) + sep + Join(b, sep)
  {
    if |a| == 1 {
      assert (a + b)[1..] == b;
    } else {
      JoinAppends(a[1..], b, sep);
      assert (a + b)[1..] == a[1..] + b;
    }
  }

  /** The items' texts, joined, are the lines joined: nothing is lost, added or moved. */
  lemma {:induction false} TextsCoverLines(lines: seq<string>, index: nat)
    requires index <= |lines|
    ensures Join(Texts(ItemsFrom(lines, index)), "\n") == Join(lines[index..], "\n")
    ensures index < |lines| <==> ItemsFrom(lines, index) != []
    decreases |lines| - index
  {
    if index < |lines| {
      var (item, next) := ItemAt(lines, index);
      TextsCoverLines(lines, next);
      CoverStep(lines, index, item, next, ItemsFrom(lines, next));
    }
  }

  lemma CoverStep(lines: seq<string>, index: nat, item: Item, next: nat, rest: seq<Item>)
    requires index < next <= |lines| && item.text == Join(lines[index..next], "\n")
    requires Join(Texts(rest), "\n") == Join(lines[next..], "\n") && (next < |lines| <==> rest != [])
    ensures Join(Texts([item] + rest), "\n") == Join(lines[index..], "\n")
  {
    assert Texts([item] + rest) == [item.text] + Texts(rest);
    assert lines[index..] == lines[index..next] + lines[next..];
    if next < |lines| {
      JoinAppends([item.text], Texts(rest), "\n");
      JoinAppends(lines[index..next], lines[next..], "\n");
    } else {
      assert [item.text] + Texts(rest) == [item.text];
      assert lines[index..] == lines[index..next];
    }
  }

  lemma {:induction false} NoCrlfIsNormal(s: string)
    requires !HasCrlf(s)
    ensures Normalized(s) == s
  {
    if s != "" {
      assert !CrlfAt(s, 0);
      forall i: nat | i < |s[1..]| ensures !CrlfAt(s[1..], i) {
        assert !CrlfAt(s, i + 1);
      }
      NoCrlfIsNormal(s[1..]);
    }
  }

  lemma BodyIsItems(normalized: string)
    ensures Join(Texts(ItemsFrom(LinesOf(Body(normalized)), 0)), "\n") == Body(normalized)
  {
    var lines := LinesOf(Body(normalized));
    TextsCoverLines(lines, 0);
    assert lines[0..] == lines;
    JoinOfSplit(Body(normalized));
  }

  /** Without CRLF pairs and byte order mark, rendering a parsed file gives it back byte for byte. */
  lemma RenderOfParse(s: string)
    requires !HasCrlf(s) && WithoutBom(s) == s
    ensures Render(Parsed(s)) == s
  {
    NoCrlfIsNormal(s);
    BodyIsItems(s);
    RenderIs(ItemsFrom(LinesOf(Body(s)), 0), s);
  }

  lemma RenderIs(items: seq<Item>, s: string)
    requires Join(Texts(items), "\n") == Body(s)
    ensures Render(Document(items, "\n", EndsWithNewline(s))) == s
  {
  }

  // ---- files with CRLF line ends ----

  function LineEnd(c: char): string {
    if c == '\n' then "\r\n" else [c]
  }

  function Crlf(s: string): string {
    if s == "" then "" else LineEnd(s[0]) + Crlf(s[1..])
  }

  /** Every line feed follows a carriage return. */
  ghost predicate AllCrlf(s: string) {
    forall i | 0 <= i < |s| && s[i] == '\n' :: i > 0 && s[i - 1] == '\r'
  }

  predicate OneLine(s: string) {
    forall i | 0 <= i < |s| :: s[i] != '\n'
  }

  ghost predicate AllOneLine(parts: seq<string>) {
    forall i | 0 <= i < |parts| :: OneLine(parts[i])
  }

  lemma CrlfStep(s: string, c: char, rest: string)
    requires s == [c] + rest
    ensures Crlf(s) == LineEnd(c) + Crlf(rest)
  {
    assert s[1..] == rest;
  }

  lemma Associates(a: string, b: string, c: string)
    ensures a + b + c == a + (b + c)
  {
  }

  lemma {:induction false} SplitIsOneLine(s: string)
    ensures AllOneLine(Split(s))
  {
    if s != "" {
      SplitIsOneLine(s[1..]);
      assert OneLine(Split(s[1..])[0]);
    }
  }

  /** For each line feed in turn: does a carriage return stand before it? */
  function Ends(s: string): seq<bool> {
    if s == "" then []
    else if |s| > 1 && s[0] == '\r' && s[1] == '\n' then [true] + Ends(s[2..])
    else if s[0] == '\n' then [false] + Ends(s[1..])
    else Ends(s[1..])
  }

  function Feeds(s: string): nat {
    if s == "" then 0 else (if s[0] == '\n' then 1 else 0) + Feeds(s[1..])
  }

  /** The text with a carriage return put before the line feeds marked so. */
  function Restored(n: string, ends: seq<bool>): string {
    if n == "" then ""
    else if n[0] != '\n' then [n[0]] + Restored(n[1..], ends)
    else if ends == [] then "\n" + Restored(n[1..], ends)
    else (if ends[0] then "\r\n" else "\n") + Restored(n[1..], ends[1..])
  }

  lemma RestoredStep(n: string, c: char, rest: string, ends: seq<bool>)
    requires n == [c] + rest && c != '\n'
    ensures Restored(n, ends) == [c] + Restored(rest, ends) && Feeds(n) == Feeds(rest)
  {
    assert n[1..] == rest;
  }

  lemma RestoredFeed(n: string, rest: string, end: bool, ends: seq<bool>, all: seq<bool>)
    requires n == "\n" + rest && all == [end] + ends
    ensures Restored(n, all) == (if end then "\r\n" else "\n") + Restored(rest, ends)
    ensures Feeds(n) == 1 + Feeds(rest)
  {
    assert n[1..] == rest && all[1..] == ends;
  }

  lemma {:induction false} RestoresNormalized(s: string)
    ensures Restored(Normalized(s), Ends(s)) == s && |Ends(s)| == Feeds(Normalized(s))
  {
    if s == "" {
    } else if |s| > 1 && s[0] == '\r' && s[1] == '\n' {
      RestoresNormalized(s[2..]);
      RestoredFeed(Normalized(s), Normalized(s[2..]), true, Ends(s[2..]), Ends(s));
      assert s == "\r\n" + s[2..];
    } else if s[0] == '\n' {
      RestoresNormalized(s[1..]);
      RestoredFeed(Normalized(s), Normalized(s[1..]), false, Ends(s[1..]), Ends(s));
      assert s == "\n" + s[1..];
    } else {
      RestoresNormalized(s[1..]);
      RestoredStep(Normalized(s), s[0], Normalized(s[1..]), Ends(s));
      assert s == [s[0]] + s[1..];
    }
  }

  /** The line ends can be read off the restored text. */
  lemma {:induction false} RestoredDetermines(n: string, a: seq<bool>, b: seq<bool>)
    requires |a| == |b| == Feeds(n) && Restored(n, a) == Restored(n, b)
    ensures a == b
  {
    if n == "" {
    } else if n[0] != '\n' {
      RestoredStep(n, n[0], n[1..], a);
      RestoredStep(n, n[0], n[1..], b);
      SameHead([n[0]], Restored(n[1..], a), Restored(n[1..], b));
      RestoredDetermines(n[1..], a, b);
    } else {
      RestoredFeed(n, n[1..], a[0], a[1..], a);
      RestoredFeed(n, n[1..], b[0], b[1..], b);
      assert Restored(n, a)[0] == (if a[0] then '\r' else '\n') && Restored(n, b)[0] == (if b[0] then '\r' else '\n');
      SameHead(if a[0] then "\r\n" else "\n", Restored(n[1..], a[1..]), Restored(n[1..], b[1..]));
      RestoredDetermines(n[1..], a[1..], b[1..]);
    }
  }

  lemma SameHead(head: string, a: string, b: string)
    requires head + a == head + b
    ensures a == b
  {
    assert a == (head + a)[|head|..] && b == (head + b)[|head|..];
  }

  lemma {:induction false} FeedsAppend(x: string, y: string)
    ensures Feeds(x + y) == Feeds(x) + Feeds(y)
  {
    if x == "" {
      assert x + y == y;
    } else {
      FeedsAppend(x[1..], y);
      assert (x + y)[1..] == x[1..] + y;
    }
  }

  lemma {:induction false} RestoredAppends(x: string, y: string, a: seq<bool>, b: seq<bool>)
    requires |a| == Feeds(x)
    ensures Restored(x + y, a + b) == Restored(x, a) + Restored(y, b)
  {
    if x == "" {
      assert x + y == y && a + b == b;
    } else {
      var c, rest := x[0], x[1..];
      assert x == [c] + rest && x + y == [c] + (rest + y);
      if c != '\n' {
        RestoredAppends(rest, y, a, b);
        StepAppends(x, c, rest, y, a, b);
      } else {
        RestoredAppends(rest, y, a[1..], b);
        RestoredFeed(x, rest, a[0], a[1..], a);
        assert a + b == [a[0]] + (a[1..] + b);
        FeedAppends(x + y, rest + y, a[0], a[1..] + b, a + b, Restored(rest, a[1..]), Restored(y, b));
      }
    }
  }

  lemma StepAppends(x: string, c: char, rest: string, y: string, a: seq<bool>, b: seq<bool>)
    requires x == [c] + rest && c != '\n'
    requires Restored(rest + y, a + b) == Restored(rest, a) + Restored(y, b)
    ensures Restored(x + y, a + b) == Restored(x, a) + Restored(y, b)
  {
    Associates([c], rest, y);
    RestoredStep(x, c, rest, a);
    RestoredStep(x + y, c, rest + y, a + b);
    Associates([c], Restored(rest, a), Restored(y, b));
  }

  lemma FeedAppends(n: string, rest: string, end: bool, ends: seq<bool>, all: seq<bool>, r: string, t: string)
    requires n == "\n" + rest && all == [end] + ends && Restored(rest, ends) == r + t
    ensures Restored(n, all) == (if end then "\r\n" else "\n") + r + t
  {
    RestoredFeed(n, rest, end, ends, all);
    Associates(if end then "\r\n" else "\n", r, t);
  }

  function Unmarked(n: nat): seq<bool> {
    seq(n, _ => false)
  }

  lemma {:induction false} RestoredBare(x: string)
    ensures Restored(x, Unmarked(Feeds(x))) == x
  {
    if x != "" {
      var c, rest := x[0], x[1..];
      assert x == [c] + rest;
      RestoredBare(rest);
      if c != '\n' {
        RestoredStep(x, c, rest, Unmarked(Feeds(rest)));
      } else {
        RestoredFeed(x, rest, false, Unmarked(Feeds(rest)), Unmarked(Feeds(x)));
      }
    }
  }

  /** For each line feed of the joined texts: is it a seam between two of them? */
  function Seams(texts: seq<string>): seq<bool> {
    if texts == [] then []
    else if |texts| == 1 then Unmarked(Feeds(texts[0]))
    else Unmarked(Feeds(texts[0])) + ([true] + Seams(texts[1..]))
  }

  lemma {:induction false} SeamsRestore(texts: seq<string>)
    ensures Restored(Join(texts, "\n"), Seams(texts)) == Join(texts, "\r\n")
    ensures |Seams(texts)| == Feeds(Join(texts, "\n"))
  {
    if |texts| == 1 {
      RestoredBare(texts[0]);
    } else if texts != [] {
      var first, rest := texts[0], texts[1..];
      SeamsRestore(rest);
      RestoredBare(first);
      RestoredFeed("\n" + Join(rest, "\n"), Join(rest, "\n"), true, Seams(rest), [true] + Seams(rest));
      FeedsAppend(first, "\n" + Join(rest, "\n"));
      RestoredAppends(first, "\n" + Join(rest, "\n"), Unmarked(Feeds(first)), [true] + Seams(rest));
    }
  }

  /** The line feeds of a document: seams between items, a last one, and those inside an item. */
  function SeamsOf(document: Document): seq<bool> {
    Seams(Texts(document.items)) + if document.trailingNewline then [true] else []
  }

  lemma OneFeedMore(body: string, seams: seq<bool>)
    requires |seams| == Feeds(body)
    ensures Restored(body + "\n", seams + [true]) == Restored(body, seams) + "\r\n"
    ensures Feeds(body + "\n") == Feeds(body) + 1
  {
    FeedsAppend(body, "\n");
    RestoredAppends(body, "\n", seams, [true]);
    RestoredFeed("\n", "", true, [], [true]);
  }

  lemma RenderedIsRestored(items: seq<Item>, n: string)
    requires Join(Texts(items), "\n") == Body(n)
    ensures var document := Document(items, "\r\n", EndsWithNewline(n));
      Render(document) == Restored(n, SeamsOf(document)) && |SeamsOf(document)| == Feeds(n)
  {
    var texts := Texts(items);
    SeamsRestore(texts);
    RestoredWhole(n, Seams(texts), Join(texts, "\r\n"));
  }

  lemma RestoredWhole(n: string, seams: seq<bool>, body: string)
    requires |seams| == Feeds(Body(n)) && Restored(Body(n), seams) == body
    ensures var all := seams + if EndsWithNewline(n) then [true] else [];
      |all| == Feeds(n) && Restored(n, all) == if EndsWithNewline(n) then body + "\r\n" else body
  {
    if EndsWithNewline(n) {
      assert n == Body(n) + "\n";
      OneFeedMore(Body(n), seams);
    } else {
      assert seams + [] == seams;
    }
  }

  /** For every file: rendering what was parsed gives it back, its byte order mark aside, exactly
      when it has no CRLF, or a carriage return stands before a line feed exactly at the seams
      between items and at the end. */
  lemma RenderedIffSeams(s: string)
    ensures var w := WithoutBom(s);
      Render(Parsed(s)) == w <==> !HasCrlf(w) || Ends(w) == SeamsOf(Parsed(s))
  {
    var w := WithoutBom(s);
    var n := Normalized(w);
    BodyIsItems(n);
    if HasCrlf(w) {
      RenderedIsRestored(Parsed(s).items, n);
      RestoresNormalized(w);
      if Render(Parsed(s)) == w {
        RestoredDetermines(n, Ends(w), SeamsOf(Parsed(s)));
      }
    } else {
      NoCrlfIsNormal(w);
      RenderIs(Parsed(s).items, w);
    }
  }

  // ---- two consequences ----

  lemma {:induction false} AllCrlfEnds(s: string)
    requires AllCrlf(s)
    ensures false !in Ends(s)
  {
    if s == "" {
    } else if |s| > 1 && s[0] == '\r' && s[1] == '\n' {
      assert |s| > 2 ==> s[2] != '\n';
      AllCrlfEnds(s[2..]);
    } else {
      AllCrlfEnds(s[1..]);
    }
  }

  lemma {:induction false} FeedsOfOneLine(s: string)
    ensures Feeds(s) == 0 <==> OneLine(s)
  {
    if s != "" {
      FeedsOfOneLine(s[1..]);
      assert OneLine(s) <==> s[0] != '\n' && OneLine(s[1..]) by {
        assert forall i | 0 < i < |s| :: s[i] == s[1..][i - 1];
      }
    }
  }

  lemma {:induction false} SeamsOfOneLine(texts: seq<string>)
    ensures false !in Seams(texts) <==> AllOneLine(texts)
  {
    if texts != [] {
      FeedsOfOneLine(texts[0]);
      SeamsOfOneLine(texts[1..]);
      assert Feeds(texts[0]) > 0 ==> Unmarked(Feeds(texts[0]))[0] == false;
      assert AllOneLine(texts) <==> OneLine(texts[0]) && AllOneLine(texts[1..]) by {
        assert forall i | 0 < i < |texts| :: texts[i] == texts[1..][i - 1];
      }
    }
  }

  /** So a file with CRLF at every line end is changed by every item that spans lines: inside one,
      the line ends become bare line feeds. */
  lemma CrlfRenderedIffOneLine(s: string)
    requires WithoutBom(s) == s && HasCrlf(s) && AllCrlf(s)
    ensures Render(Parsed(s)) == s <==> AllOneLine(Texts(Parsed(s).items))
  {
    RenderedIffSeams(s);
    AllCrlfEnds(s);
    SeamsOfOneLine(Texts(Parsed(s).items));
    RestoresNormalized(s);
    BodyIsItems(Normalized(s));
    RenderedIsRestored(Parsed(s).items, Normalized(s));
    if false !in SeamsOf(Parsed(s)) {
      AllTrue(Ends(s), SeamsOf(Parsed(s)));
    }
  }

  lemma AllTrue(a: seq<bool>, b: seq<bool>)
    requires |a| == |b| && false !in a && false !in b
    ensures a == b
  {
    forall i | 0 <= i < |a| ensures a[i] == b[i] {
      assert a[i] in a && b[i] in b;
    }
  }
}
