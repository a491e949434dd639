/** The CBOR decoder for attestation objects and keys, and an independent reference: trees that
    carry the width of every head and every tag, with the encoding of RFC 8949, section 3.

    The text decoder `utf8` is a parameter: everything holds for every partial function. */
module Cbor {
  import opened Prelude
  import opened Bytes

  datatype Value =
    | Number(n: int)
    | Binary(data: seq<byte>)
    | Text(text: string)
    | List(items: seq<Value>)
    | Table(pairs: seq<(Value, Value)>)
    | Bool(b: bool)
    | Null

  datatype Failure = TooDeep | Truncated | UnsafeLength | Reserved | BadText | DuplicateKey | Unsupported

  type Utf8 = seq<byte> -> Option<string>

  const MAX_DEPTH := 32
  const MAX_SAFE_INTEGER := 0x1F_FFFF_FFFF_FFFF

  /** How many bytes of argument follow the initial byte. */
  function Width(additional: nat): nat
    requires 24 <= additional <= 27
  {
    if additional == 24 then 1 else if additional == 25 then 2 else if additional == 26 then 4 else 8
  }

  function LengthAt(bytes: seq<byte>, additional: nat, offset: nat): Result<(nat, nat), Failure> {
    if additional < 24 then Ok((additional, offset))
    else if additional > 27 then Err(Reserved)
    else
      var end := offset + Width(additional);
      if end > |bytes| then Err(Truncated)
      else
        var n := BigEndian(bytes[offset..end]);
        if additional == 27 && n > MAX_SAFE_INTEGER then Err(UnsafeLength) else Ok((n, end))
  }

  /** Map keys are compared by value only when they are not objects; every decoded byte string,
      array or map is a new object and equals no earlier key. */
  predicate Scalar(v: Value) {
    v.Number? || v.Text? || v.Bool? || v.Null?
  }

  predicate HasKey(pairs: seq<(Value, Value)>, key: Value) {
    Scalar(key) && exists i :: 0 <= i < |pairs| && pairs[i].0 == key
  }

  type Step = nat -> Result<(Value, nat), Failure>

  function Room(depth: nat): nat {
    if depth > MAX_DEPTH then 0 else MAX_DEPTH + 1 - depth
  }

  /** The decoder one level down. */
  function Nested(bytes: seq<byte>, depth: nat, utf8: Utf8): Step
    decreases Room(depth), 1
  {
    o => Decode(bytes, o, depth, utf8)
  }

  function Decode(bytes: seq<byte>, start: nat, depth: nat, utf8: Utf8): Result<(Value, nat), Failure>
    decreases Room(depth), 0
  {
    if depth > MAX_DEPTH then Err(TooDeep)
    else if start >= |bytes| then Err(Truncated)
    else
      var major, additional := bytes[start] / 32, bytes[start] % 32;
      match LengthAt(bytes, additional, start + 1)
      case Err(e) => Err(e)
      case Ok((n, offset)) =>
        if major <= 3 then DecodeLeaf(bytes, major, n, offset, utf8)
        else if major == 7 then DecodeSimple(additional, start)
        else
          var nested := Nested(bytes, depth + 1, utf8);
          if major == 4 then DecodeArray(nested, offset, n)
          else if major == 5 then DecodeMap(nested, offset, n)
          else nested(offset)
  }

  /** Integers, byte strings and texts. */
  function DecodeLeaf(bytes: seq<byte>, major: nat, n: nat, offset: nat, utf8: Utf8): Result<(Value, nat), Failure> {
    if major == 0 then Ok((Number(n), offset))
    else if major == 1 then Ok((Number(-1 - n), offset))
    else if offset + n > |bytes| then Err(Truncated)
    else
      var data := bytes[offset..offset + n];
      if major == 2 then Ok((Binary(data), offset + n))
      else
        match utf8(data)
        case None => Err(BadText)
        case Some(text) => Ok((Text(text), offset + n))
  }

  function DecodeSimple(additional: nat, start: nat): Result<(Value, nat), Failure> {
    if additional == 20 then Ok((Bool(false), start + 1))
    else if additional == 21 then Ok((Bool(true), start + 1))
    else if additional == 22 then Ok((Null, start + 1))
    else Err(Unsupported)
  }

  function DecodeArray(nested: Step, offset: nat, n: nat): Result<(Value, nat), Failure> {
    match DecodeItems(nested, offset, n, [])
    case Err(e) => Err(e)
    case Ok((items, end)) => Ok((List(items), end))
  }

  function DecodeMap(nested: Step, offset: nat, n: nat): Result<(Value, nat), Failure> {
    match DecodePairs(nested, offset, n, [])
    case Err(e) => Err(e)
    case Ok((pairs, end)) => Ok((Table(pairs), end))
  }

  /** The `n` elements still to come, after those in `done`. */
  function DecodeItems(nested: Step, offset: nat, n: nat, done: seq<Value>): Result<(seq<Value>, nat), Failure>
    decreases n
  {
    if n == 0 then Ok((done, offset))
    else
      match nested(offset)
      case Err(e) => Err(e)
      case Ok((v, next)) => DecodeItems(nested, next, n - 1, done + [v])
  }

  function DecodePairs(nested: Step, offset: nat, n: nat, done: seq<(Value, Value)>)
    : Result<(seq<(Value, Value)>, nat), Failure>
    decreases n
  {
    if n == 0 then Ok((done, offset))
    else
      match nested(offset)
      case Err(e) => Err(e)
      case Ok((k, middle)) =>
        match nested(middle)
        case Err(e) => Err(e)
        case Ok((v, next)) =>
          if HasKey(done, k) then Err(DuplicateKey) else DecodePairs(nested, next, n - 1, done + [(k, v)])
  }

  /** The decoder itself, with its loops over elements and entries. */
  method DecodeCbor(bytes: seq<byte>, start: nat, depth: nat, utf8: Utf8) returns (r: Result<(Value, nat), Failure>)
    ensures r == Decode(bytes, start, depth, utf8)
    decreases Room(depth), 0
  {
    if depth > MAX_DEPTH {
      return Err(TooDeep);
    }
    if start >= |bytes| {
      return Err(Truncated);
    }
    var major, additional := bytes[start] / 32, bytes[start] % 32;
    var head := LengthAt(bytes, additional, start + 1);
    if head.Err? {
      return Err(head.error);
    }
    var (n, from) := head.value;
    if major <= 3 {
      return DecodeLeaf(bytes, major, n, from, utf8);
    } else if major == 4 {
      r := ReadArray(bytes, from, n, depth + 1, utf8);
    } else if major == 5 {
      r := ReadMap(bytes, from, n, depth + 1, utf8);
    } else if major == 6 {
      r := DecodeCbor(bytes, from, depth + 1, utf8);
    } else {
      return DecodeSimple(additional, start);
    }
  }

  method ReadArray(bytes: seq<byte>, from: nat, n: nat, depth: nat, utf8: Utf8)
    returns (r: Result<(Value, nat), Failure>)
    ensures r == DecodeArray(Nested(bytes, depth, utf8), from, n)
    decreases Room(depth), 1
  {
    var values: seq<Value>, offset: nat := [], from;
    ghost var nested := Nested(bytes, depth, utf8);
    for index := 0 to n
      invariant DecodeItems(nested, from, n, []) == DecodeItems(nested, offset, n - index, values)
    {
      var item := DecodeCbor(bytes, offset, depth, utf8);
      assert nested(offset) == item;
      if item.Err? {
        return Err(item.error);
      }
      values, offset := values + [item.value.0], item.value.1;
    }
    return Ok((List(values), offset));
  }

  method ReadMap(bytes: seq<byte>, from: nat, n: nat, depth: nat, utf8: Utf8)
    returns (r: Result<(Value, nat), Failure>)
    ensures r == DecodeMap(Nested(bytes, depth, utf8), from, n)
    decreases Room(depth), 1
  {
    var values: seq<(Value, Value)>, offset: nat := [], from;
    ghost var nested := Nested(bytes, depth, utf8);
    for index := 0 to n
      invariant DecodePairs(nested, from, n, []) == DecodePairs(nested, offset, n - index, values)
    {
      var key := DecodeCbor(bytes, offset, depth, utf8);
      assert nested(offset) == key;
      if key.Err? {
        return Err(key.error);
      }
      var value := DecodeCbor(bytes, key.value.1, depth, utf8);
      assert nested(key.value.1) == value;
      if value.Err? {
        return Err(value.error);
      }
      if HasKey(values, key.value.0) {
        return Err(DuplicateKey);
      }
      values, offset := values + [(key.value.0, value.value.0)], value.value.1;
    }
    return Ok((Table(values), offset));
  }

  // ---- the reference ----

  /** A head's argument and how it is written: in the initial byte itself (`additional < 24`), or in
      the 1, 2, 4 or 8 bytes after it. */
  datatype Head = Head(additional: nat, argument: seq<byte>, n: nat)

  predicate HeadOk(h: Head) {
    if h.additional < 24 then h.n == h.additional && h.argument == []
    else
      && h.additional <= 27
      && |h.argument| == Width(h.additional)
      && h.n == BigEndian(h.argument)
      && (h.additional == 27 ==> h.n <= MAX_SAFE_INTEGER)
  }

  function EncodeHead(major: nat, h: Head): seq<byte>
    requires major < 8
  {
    if h.additional < 32 then [32 * major + h.additional] + h.argument else []
  }

  datatype Tree =
    | Unsigned(h: Head)
    | Negative(h: Head)
    | ByteString(h: Head, data: seq<byte>)
    | TextString(h: Head, data: seq<byte>)
    | Array(h: Head, items: seq<Tree>)
    | Entries(h: Head, keys: seq<Tree>, values: seq<Tree>)
    | Tagged(h: Head, t: Tree)
    | Simple(h: Head)

  predicate Apart(pairs: seq<(Value, Value)>, i: nat, j: nat)
    requires i < j < |pairs|
  {
    Scalar(pairs[j].0) ==> pairs[i].0 != pairs[j].0
  }

  predicate DistinctScalars(pairs: seq<(Value, Value)>) {
    forall i: nat, j: nat | i < j < |pairs| :: Apart(pairs, i, j)
  }

  /** Widths are honest, lengths are the real ones, texts decode, the nesting stays within the limit
      and no scalar key occurs twice in a map. */
  predicate Good(t: Tree, depth: nat, utf8: Utf8) {
    && depth <= MAX_DEPTH
    && HeadOk(t.h)
    && match t
       case Unsigned(_) => true
       case Negative(_) => true
       case ByteString(h, data) => h.n == |data|
       case TextString(h, data) => h.n == |data| && utf8(data).Some?
       case Array(h, items) => h.n == |items| && GoodAll(items, depth + 1, utf8)
       case Entries(h, keys, values) =>
         && h.n == |keys| == |values|
         && GoodAll(keys, depth + 1, utf8)
         && GoodAll(values, depth + 1, utf8)
         && DistinctScalars(Zip(ValuesOf(keys, utf8), ValuesOf(values, utf8)))
       case Tagged(_, t) => Good(t, depth + 1, utf8)
       case Simple(h) => h.additional in {20, 21, 22}
  }

  predicate GoodAll(ts: seq<Tree>, depth: nat, utf8: Utf8) {
    forall i | 0 <= i < |ts| :: Good(ts[i], depth, utf8)
  }

  function Zip<A, B>(a: seq<A>, b: seq<B>): (r: seq<(A, B)>)
    requires |a| == |b|
    ensures |r| == |a| && forall i | 0 <= i < |a| :: r[i] == (a[i], b[i])
  {
    seq(|a|, i requires 0 <= i < |a| => (a[i], b[i]))
  }

  function ValueOf(t: Tree, utf8: Utf8): Value {
    match t
    case Unsigned(h) => Number(h.n)
    case Negative(h) => Number(-1 - h.n)
    case ByteString(_, data) => Binary(data)
    case TextString(_, data) => var text := utf8(data); Text(if text.Some? then text.value else [])
    case Array(_, items) => List(ValuesOf(items, utf8))
    case Entries(_, keys, values) =>
      if |keys| == |values| then Table(Zip(ValuesOf(keys, utf8), ValuesOf(values, utf8))) else Null
    case Tagged(_, t) => ValueOf(t, utf8)
    case Simple(h) => if h.additional == 22 then Null else Bool(h.additional == 21)
  }

  function ValuesOf(ts: seq<Tree>, utf8: Utf8): (vs: seq<Value>)
    ensures |vs| == |ts|
  {
    seq(|ts|, i requires 0 <= i < |ts| => ValueOf(ts[i], utf8))
  }

  function Major(t: Tree): (m: nat)
    ensures m < 8
  {
    match t
    case Unsigned(_) => 0
    case Negative(_) => 1
    case ByteString(_, _) => 2
    case TextString(_, _) => 3
    case Array(_, _) => 4
    case Entries(_, _, _) => 5
    case Tagged(_, _) => 6
    case Simple(_) => 7
  }

  function Encode(t: Tree): seq<byte>
    decreases t, 1
  {
    EncodeHead(Major(t), t.h) + EncodeBody(t)
  }

  function EncodeBody(t: Tree): seq<byte>
    decreases t, 0
  {
    match t
    case Unsigned(_) => []
    case Negative(_) => []
    case ByteString(_, data) => data
    case TextString(_, data) => data
    case Array(_, items) => Flat(Codes(items))
    case Entries(_, keys, values) => if |keys| == |values| then FlatPairs(Codes(keys), Codes(values)) else []
    case Tagged(_, t) => Encode(t)
    case Simple(_) => []
  }

  function Codes(ts: seq<Tree>): (cs: seq<seq<byte>>)
    ensures |cs| == |ts|
    decreases ts, 0
  {
    seq(|ts|, i requires 0 <= i < |ts| => Encode(ts[i]))
  }

  function Flat(codes: seq<seq<byte>>): seq<byte> {
    if codes == [] then [] else codes[0] + Flat(codes[1..])
  }

  function FlatPairs(keys: seq<seq<byte>>, values: seq<seq<byte>>): seq<byte>
    requires |keys| == |values|
  {
    if keys == [] then [] else keys[0] + (values[0] + FlatPairs(keys[1..], values[1..]))
  }

  // ---- heads ----

  /** Every safe integer has a head, written in the fewest bytes. */
  lemma HeadFor(n: nat) returns (h: Head)
    requires n <= MAX_SAFE_INTEGER
    ensures HeadOk(h) && h.n == n
  {
    if n < 24 {
      h := Head(n, [], n);
    } else {
      var additional := if n < 0x100 then 24 else if n < 0x1_0000 then 25 else if n < 0x1_0000_0000 then 26 else 27;
      assert Pow256(1) == 0x100 && Pow256(2) == 0x1_0000;
      assert Pow256(3) == 0x100_0000 && Pow256(4) == 0x1_0000_0000;
      assert Pow256(6) == 0x1_0000_0000_0000;
      assert Pow256(8) == 0x1_0000_0000_0000_0000;
      ReadsBack(n, Width(additional));
      h := Head(additional, ToBigEndian(n, Width(additional)), n);
    }
  }

  /** What an initial byte and `LengthAt` make of an encoded head. */
  lemma HeadReadsBack(bytes: seq<byte>, offset: nat, major: nat, h: Head)
    requires major < 8 && HeadOk(h) && At(bytes, offset, EncodeHead(major, h))
    ensures offset < |bytes| && bytes[offset] / 32 == major && bytes[offset] % 32 == h.additional
    ensures LengthAt(bytes, h.additional, offset + 1) == Ok((h.n, offset + |EncodeHead(major, h)|))
  {
    assert Matches(bytes, offset, EncodeHead(major, h), offset);
    AtSplits(bytes, offset, [32 * major + h.additional], h.argument);
    AtIsSlice(bytes, offset + 1, h.argument);
  }

  // ---- arrays and maps, over whatever the level below decodes ----

  /** Where `code` stands, `nested` answers `value`. */
  predicate Answers(nested: Step, bytes: seq<byte>, o: nat, code: seq<byte>, value: Value) {
    At(bytes, o, code) ==> nested(o) == Ok((value, o + |code|))
  }

  ghost predicate AnswersAll(nested: Step, bytes: seq<byte>, codes: seq<seq<byte>>, values: seq<Value>) {
    && |codes| == |values|
    && forall i: nat, o: nat | i < |codes| :: Answers(nested, bytes, o, codes[i], values[i])
  }

  lemma AnswersRest(nested: Step, bytes: seq<byte>, codes: seq<seq<byte>>, values: seq<Value>)
    requires AnswersAll(nested, bytes, codes, values) && |codes| > 0
    ensures AnswersAll(nested, bytes, codes[1..], values[1..])
  {
    forall i: nat, o: nat | i < |codes| - 1 ensures Answers(nested, bytes, o, codes[1..][i], values[1..][i]) {
      assert Answers(nested, bytes, o, codes[i + 1], values[i + 1]);
    }
  }

  lemma {:induction false} DecodesItems(
      nested: Step, bytes: seq<byte>, offset: nat, codes: seq<seq<byte>>, values: seq<Value>, done: seq<Value>)
    requires AnswersAll(nested, bytes, codes, values) && At(bytes, offset, Flat(codes))
    ensures DecodeItems(nested, offset, |codes|, done) == Ok((done + values, offset + |Flat(codes)|))
    decreases |codes|
  {
    if codes == [] {
      assert done + values == done;
    } else {
      AtSplits(bytes, offset, codes[0], Flat(codes[1..]));
      assert Answers(nested, bytes, offset, codes[0], values[0]);
      AnswersRest(nested, bytes, codes, values);
      DecodesItems(nested, bytes, offset + |codes[0]|, codes[1..], values[1..], done + [values[0]]);
      assert done + [values[0]] + values[1..] == done + values;
    }
  }

  lemma NewKey(pairs: seq<(Value, Value)>, k: nat)
    requires DistinctScalars(pairs) && k < |pairs|
    ensures !HasKey(pairs[..k], pairs[k].0)
  {
    forall i: nat | i < k && Scalar(pairs[k].0) ensures pairs[..k][i].0 != pairs[k].0 {
      assert Apart(pairs, i, k);
    }
  }

  lemma {:induction false} DecodesPairs(
      nested: Step, bytes: seq<byte>, offset: nat, kcodes: seq<seq<byte>>, keys: seq<Value>,
      vcodes: seq<seq<byte>>, values: seq<Value>, all: seq<(Value, Value)>, k: nat)
    requires AnswersAll(nested, bytes, kcodes, keys) && AnswersAll(nested, bytes, vcodes, values)
    requires |keys| == |values| && k + |keys| == |all| && DistinctScalars(all)
    requires forall i | 0 <= i < |keys| :: all[k + i] == (keys[i], values[i])
    requires At(bytes, offset, FlatPairs(kcodes, vcodes))
    ensures DecodePairs(nested, offset, |keys|, all[..k]) == Ok((all, offset + |FlatPairs(kcodes, vcodes)|))
    decreases |kcodes|
  {
    if kcodes == [] {
      assert all[..k] == all;
    } else {
      AtSplits(bytes, offset, kcodes[0], vcodes[0] + FlatPairs(kcodes[1..], vcodes[1..]));
      AtSplits(bytes, offset + |kcodes[0]|, vcodes[0], FlatPairs(kcodes[1..], vcodes[1..]));
      assert Answers(nested, bytes, offset, kcodes[0], keys[0]);
      assert Answers(nested, bytes, offset + |kcodes[0]|, vcodes[0], values[0]);
      AnswersRest(nested, bytes, kcodes, keys);
      AnswersRest(nested, bytes, vcodes, values);
      NewKey(all, k);
      assert all[k + 0] == (keys[0], values[0]) && all[..k] + [all[k]] == all[..k + 1];
      forall i | 0 <= i < |keys| - 1 ensures all[k + 1 + i] == (keys[1..][i], values[1..][i]) {
        assert all[k + (i + 1)] == (keys[i + 1], values[i + 1]);
      }
      DecodesPairs(nested, bytes, offset + |kcodes[0]| + |vcodes[0]|, kcodes[1..], keys[1..], vcodes[1..], values[1..],
                   all, k + 1);
    }
  }

  /** Which bytes are some tree's encoding with which value; kept abstract in the loops. */
  type Coding = (seq<byte>, Value) -> bool

  ghost predicate Legible(r: Result<(Value, nat), Failure>, bytes: seq<byte>, o: nat, coded: Coding) {
    r.Ok? ==> exists code :: At(bytes, o, code) && coded(code, r.value.0) && r.value.1 == o + |code|
  }

  ghost predicate LegibleEverywhere(nested: Step, bytes: seq<byte>, coded: Coding) {
    forall o: nat {:trigger Legible(nested(o), bytes, o, coded)} :: Legible(nested(o), bytes, o, coded)
  }

  predicate AllCoded(coded: Coding, codes: seq<seq<byte>>, values: seq<Value>) {
    |codes| == |values| && forall i | 0 <= i < |codes| :: coded(codes[i], values[i])
  }

  lemma ReadCode(nested: Step, bytes: seq<byte>, o: nat, coded: Coding) returns (code: seq<byte>)
    requires LegibleEverywhere(nested, bytes, coded) && nested(o).Ok?
    ensures At(bytes, o, code) && coded(code, nested(o).value.0) && nested(o).value.1 == o + |code|
  {
    assert Legible(nested(o), bytes, o, coded);
    code :| At(bytes, o, code) && coded(code, nested(o).value.0) && nested(o).value.1 == o + |code|;
  }

  lemma ItemFlattens(bytes: seq<byte>, offset: nat, code: seq<byte>, codes: seq<seq<byte>>)
    requires At(bytes, offset, code) && At(bytes, offset + |code|, Flat(codes))
    ensures At(bytes, offset, Flat([code] + codes)) && |Flat([code] + codes)| == |code| + |Flat(codes)|
  {
    assert ([code] + codes)[1..] == codes;
    AtSplits(bytes, offset, code, Flat(codes));
  }

  lemma {:induction false} DecodedAreItems(
      nested: Step, bytes: seq<byte>, offset: nat, n: nat, done: seq<Value>, coded: Coding)
    returns (codes: seq<seq<byte>>, values: seq<Value>)
    requires LegibleEverywhere(nested, bytes, coded) && offset <= |bytes| && DecodeItems(nested, offset, n, done).Ok?
    ensures AllCoded(coded, codes, values) && |codes| == n && At(bytes, offset, Flat(codes))
    ensures DecodeItems(nested, offset, n, done).value == (done + values, offset + |Flat(codes)|)
    decreases n
  {
    if n == 0 {
      codes, values := [], [];
      assert done + values == done;
    } else {
      var code := ReadCode(nested, bytes, offset, coded);
      var (v, next) := nested(offset).value;
      var codes', values' := DecodedAreItems(nested, bytes, next, n - 1, done + [v], coded);
      codes, values := [code] + codes', [v] + values';
      ItemFlattens(bytes, offset, code, codes');
      assert done + [v] + values' == done + values;
    }
  }

  lemma StillDistinct(done: seq<(Value, Value)>, p: (Value, Value))
    requires DistinctScalars(done) && !HasKey(done, p.0)
    ensures DistinctScalars(done + [p])
  {
    var more := done + [p];
    forall i: nat, j: nat | i < j < |more| ensures Apart(more, i, j) {
      if j < |done| {
        assert Apart(done, i, j);
      }
    }
  }

  predicate PairsCoded(coded: Coding, kcodes: seq<seq<byte>>, vcodes: seq<seq<byte>>, pairs: seq<(Value, Value)>) {
    && |kcodes| == |vcodes| == |pairs|
    && forall i | 0 <= i < |pairs| :: coded(kcodes[i], pairs[i].0) && coded(vcodes[i], pairs[i].1)
  }

  lemma PairFlattens(
      bytes: seq<byte>, offset: nat, kcode: seq<byte>, vcode: seq<byte>, kcodes: seq<seq<byte>>, vcodes: seq<seq<byte>>)
    requires At(bytes, offset, kcode) && At(bytes, offset + |kcode|, vcode) && |kcodes| == |vcodes|
    requires At(bytes, offset + |kcode| + |vcode|, FlatPairs(kcodes, vcodes))
    ensures At(bytes, offset, FlatPairs([kcode] + kcodes, [vcode] + vcodes))
    ensures |FlatPairs([kcode] + kcodes, [vcode] + vcodes)| == |kcode| + |vcode| + |FlatPairs(kcodes, vcodes)|
  {
    assert ([kcode] + kcodes)[1..] == kcodes && ([vcode] + vcodes)[1..] == vcodes;
    AtSplits(bytes, offset + |kcode|, vcode, FlatPairs(kcodes, vcodes));
    AtSplits(bytes, offset, kcode, vcode + FlatPairs(kcodes, vcodes));
  }

  lemma {:induction false} DecodedArePairs(
      nested: Step, bytes: seq<byte>, offset: nat, n: nat, done: seq<(Value, Value)>, coded: Coding)
    returns (kcodes: seq<seq<byte>>, vcodes: seq<seq<byte>>, pairs: seq<(Value, Value)>)
    requires LegibleEverywhere(nested, bytes, coded) && offset <= |bytes|
    requires DecodePairs(nested, offset, n, done).Ok? && DistinctScalars(done)
    ensures PairsCoded(coded, kcodes, vcodes, pairs) && |pairs| == n
    ensures DistinctScalars(done + pairs) && At(bytes, offset, FlatPairs(kcodes, vcodes))
    ensures DecodePairs(nested, offset, n, done).value == (done + pairs, offset + |FlatPairs(kcodes, vcodes)|)
    decreases n
  {
    if n == 0 {
      kcodes, vcodes, pairs := [], [], [];
      assert done + pairs == done;
    } else {
      var kcode := ReadCode(nested, bytes, offset, coded);
      var (k, middle) := nested(offset).value;
      var vcode := ReadCode(nested, bytes, middle, coded);
      var (v, next) := nested(middle).value;
      StillDistinct(done, (k, v));
      var kcodes', vcodes', pairs' := DecodedArePairs(nested, bytes, next, n - 1, done + [(k, v)], coded);
      kcodes, vcodes, pairs := [kcode] + kcodes', [vcode] + vcodes', [(k, v)] + pairs';
      PairFlattens(bytes, offset, kcode, vcode, kcodes', vcodes');
      assert done + [(k, v)] + pairs' == done + pairs;
    }
  }

  // ---- decoding what was encoded ----

  /** `nested` decodes every good tree wherever it stands. */
  ghost predicate Complete(nested: Step, bytes: seq<byte>, depth: nat, utf8: Utf8) {
    forall t, o: nat {:trigger Answers(nested, bytes, o, Encode(t), ValueOf(t, utf8))} |
      Good(t, depth, utf8) :: Answers(nested, bytes, o, Encode(t), ValueOf(t, utf8))
  }

  lemma CompleteAnswersAll(nested: Step, bytes: seq<byte>, ts: seq<Tree>, depth: nat, utf8: Utf8)
    requires Complete(nested, bytes, depth, utf8) && GoodAll(ts, depth, utf8)
    ensures AnswersAll(nested, bytes, Codes(ts), ValuesOf(ts, utf8))
  {
    var codes, values := Codes(ts), ValuesOf(ts, utf8);
    forall i: nat, o: nat | i < |codes| ensures Answers(nested, bytes, o, codes[i], values[i]) {
      assert Answers(nested, bytes, o, Encode(ts[i]), ValueOf(ts[i], utf8));
    }
  }

  /** What `r` must be once the head is read: the major type decides. */
  predicate Dispatched(
      r: Result<(Value, nat), Failure>, major: nat, h: Head, nested: Step, bytes: seq<byte>, start: nat, offset: nat,
      utf8: Utf8) {
    && (major <= 3 ==> r == DecodeLeaf(bytes, major, h.n, offset, utf8))
    && (major == 4 ==> r == DecodeArray(nested, offset, h.n))
    && (major == 5 ==> r == DecodeMap(nested, offset, h.n))
    && (major == 6 ==> r == nested(offset))
    && (major == 7 ==> r == DecodeSimple(h.additional, start))
  }

  lemma AfterHead(bytes: seq<byte>, start: nat, depth: nat, utf8: Utf8, h: Head, offset: nat)
    requires depth <= MAX_DEPTH && start < |bytes| && bytes[start] % 32 == h.additional
    requires LengthAt(bytes, h.additional, start + 1) == Ok((h.n, offset))
    ensures Dispatched(Decode(bytes, start, depth, utf8), bytes[start] / 32, h, Nested(bytes, depth + 1, utf8),
                       bytes, start, offset, utf8)
  {
  }

  lemma DecodesArray(items: seq<Tree>, nested: Step, bytes: seq<byte>, offset: nat, depth: nat, utf8: Utf8)
    requires Complete(nested, bytes, depth, utf8) && GoodAll(items, depth, utf8) && At(bytes, offset, Flat(Codes(items)))
    ensures DecodeArray(nested, offset, |items|) == Ok((List(ValuesOf(items, utf8)), offset + |Flat(Codes(items))|))
  {
    CompleteAnswersAll(nested, bytes, items, depth, utf8);
    var values := ValuesOf(items, utf8);
    DecodesItems(nested, bytes, offset, Codes(items), values, []);
    assert [] + values == values;
  }

  lemma DecodesMap(
      keys: seq<Tree>, values: seq<Tree>, nested: Step, bytes: seq<byte>, offset: nat, depth: nat, utf8: Utf8)
    requires Complete(nested, bytes, depth, utf8) && GoodAll(keys, depth, utf8) && GoodAll(values, depth, utf8)
    requires |keys| == |values| && At(bytes, offset, FlatPairs(Codes(keys), Codes(values)))
    requires DistinctScalars(Zip(ValuesOf(keys, utf8), ValuesOf(values, utf8)))
    ensures DecodeMap(nested, offset, |keys|)
         == Ok((Table(Zip(ValuesOf(keys, utf8), ValuesOf(values, utf8))), offset + |FlatPairs(Codes(keys), Codes(values))|))
  {
    CompleteAnswersAll(nested, bytes, keys, depth, utf8);
    CompleteAnswersAll(nested, bytes, values, depth, utf8);
    MapOfAnswers(nested, bytes, offset, Codes(keys), ValuesOf(keys, utf8), Codes(values), ValuesOf(values, utf8));
  }

  lemma MapOfAnswers(
      nested: Step, bytes: seq<byte>, offset: nat, kcodes: seq<seq<byte>>, keys: seq<Value>,
      vcodes: seq<seq<byte>>, values: seq<Value>)
    requires AnswersAll(nested, bytes, kcodes, keys) && AnswersAll(nested, bytes, vcodes, values)
    requires |keys| == |values| && DistinctScalars(Zip(keys, values)) && At(bytes, offset, FlatPairs(kcodes, vcodes))
    ensures DecodeMap(nested, offset, |keys|) == Ok((Table(Zip(keys, values)), offset + |FlatPairs(kcodes, vcodes)|))
  {
    var all := Zip(keys, values);
    assert all[..0] == [];
    DecodesPairs(nested, bytes, offset, kcodes, keys, vcodes, values, all, 0);
  }

  lemma DecodesLeaf(t: Tree, bytes: seq<byte>, offset: nat, depth: nat, utf8: Utf8)
    requires Good(t, depth, utf8) && Major(t) <= 3 && At(bytes, offset, EncodeBody(t))
    ensures DecodeLeaf(bytes, Major(t), t.h.n, offset, utf8) == Ok((ValueOf(t, utf8), offset + |EncodeBody(t)|))
  {
    AtIsSlice(bytes, offset, EncodeBody(t));
  }

  lemma DispatchAnswers(
      r: Result<(Value, nat), Failure>, t: Tree, nested: Step, bytes: seq<byte>, start: nat, from: nat, depth: nat,
      utf8: Utf8)
    requires Good(t, depth, utf8) && At(bytes, from, EncodeBody(t)) && Complete(nested, bytes, depth + 1, utf8)
    requires Dispatched(r, Major(t), t.h, nested, bytes, start, from, utf8) && (t.Simple? ==> from == start + 1)
    ensures r == Ok((ValueOf(t, utf8), from + |EncodeBody(t)|))
  {
    if t.Array? {
      DecodesArray(t.items, nested, bytes, from, depth + 1, utf8);
    } else if t.Entries? {
      DecodesMap(t.keys, t.values, nested, bytes, from, depth + 1, utf8);
    } else if t.Tagged? {
      assert Answers(nested, bytes, from, Encode(t.t), ValueOf(t.t, utf8));
    } else if Major(t) <= 3 {
      DecodesLeaf(t, bytes, from, depth, utf8);
    }
  }

  lemma HeadIsRead(t: Tree, bytes: seq<byte>, start: nat)
    requires HeadOk(t.h) && At(bytes, start, Encode(t))
    ensures start < |bytes| && bytes[start] / 32 == Major(t) && bytes[start] % 32 == t.h.additional
    ensures var from := start + |EncodeHead(Major(t), t.h)|;
      LengthAt(bytes, t.h.additional, start + 1) == Ok((t.h.n, from)) && At(bytes, from, EncodeBody(t))
  {
    AtSplits(bytes, start, EncodeHead(Major(t), t.h), EncodeBody(t));
    HeadReadsBack(bytes, start, Major(t), t.h);
  }

  lemma {:induction false} NestedIsComplete(bytes: seq<byte>, depth: nat, utf8: Utf8)
    ensures Complete(Nested(bytes, depth, utf8), bytes, depth, utf8)
    decreases Room(depth), 1
  {
    var nested := Nested(bytes, depth, utf8);
    forall t, o: nat | Good(t, depth, utf8) ensures Answers(nested, bytes, o, Encode(t), ValueOf(t, utf8)) {
      assert nested(o) == Decode(bytes, o, depth, utf8);
      if At(bytes, o, Encode(t)) {
        DecodesEncoding(t, bytes, o, depth, utf8);
      }
    }
  }

  lemma {:induction false} DecodesEncoding(t: Tree, bytes: seq<byte>, offset: nat, depth: nat, utf8: Utf8)
    requires Good(t, depth, utf8) && At(bytes, offset, Encode(t))
    ensures Decode(bytes, offset, depth, utf8) == Ok((ValueOf(t, utf8), offset + |Encode(t)|))
    decreases Room(depth), 0
  {
    HeadIsRead(t, bytes, offset);
    var from := offset + |EncodeHead(Major(t), t.h)|;
    AfterHead(bytes, offset, depth, utf8, t.h, from);
    NestedIsComplete(bytes, depth + 1, utf8);
    DispatchAnswers(Decode(bytes, offset, depth, utf8), t, Nested(bytes, depth + 1, utf8), bytes, offset, from, depth, utf8);
  }

  // ---- whatever decodes was an encoding ----

  ghost predicate IsCode(t: Tree, code: seq<byte>, value: Value, depth: nat, utf8: Utf8) {
    Good(t, depth, utf8) && Encode(t) == code && ValueOf(t, utf8) == value
  }

  ghost function CodedAt(depth: nat, utf8: Utf8): Coding {
    (code, value) => exists t :: IsCode(t, code, value, depth, utf8)
  }

  lemma {:induction false} TreesFor(codes: seq<seq<byte>>, values: seq<Value>, depth: nat, utf8: Utf8)
    returns (ts: seq<Tree>)
    requires AllCoded(CodedAt(depth, utf8), codes, values)
    ensures |ts| == |codes| && forall i | 0 <= i < |ts| :: IsCode(ts[i], codes[i], values[i], depth, utf8)
    decreases |codes|
  {
    if codes == [] {
      ts := [];
    } else {
      var n := |codes| - 1;
      var rest := TreesFor(codes[..n], values[..n], depth, utf8);
      assert CodedAt(depth, utf8)(codes[n], values[n]);
      var t :| IsCode(t, codes[n], values[n], depth, utf8);
      ts := rest + [t];
      forall i | 0 <= i < n ensures IsCode(ts[i], codes[i], values[i], depth, utf8) {
        assert IsCode(rest[i], codes[..n][i], values[..n][i], depth, utf8);
      }
    }
  }

  lemma TreesWith(codes: seq<seq<byte>>, values: seq<Value>, depth: nat, utf8: Utf8) returns (ts: seq<Tree>)
    requires AllCoded(CodedAt(depth, utf8), codes, values)
    ensures GoodAll(ts, depth, utf8) && Codes(ts) == codes && ValuesOf(ts, utf8) == values
  {
    ts := TreesFor(codes, values, depth, utf8);
    forall i | 0 <= i < |ts|
      ensures Codes(ts)[i] == codes[i] && ValuesOf(ts, utf8)[i] == values[i] && Good(ts[i], depth, utf8)
    {
      assert IsCode(ts[i], codes[i], values[i], depth, utf8);
    }
  }

  lemma ArrayIsEncoding(nested: Step, bytes: seq<byte>, offset: nat, n: nat, depth: nat, utf8: Utf8)
    returns (items: seq<Tree>)
    requires LegibleEverywhere(nested, bytes, CodedAt(depth, utf8))
    requires offset <= |bytes| && DecodeArray(nested, offset, n).Ok?
    ensures |items| == n && GoodAll(items, depth, utf8) && At(bytes, offset, Flat(Codes(items)))
    ensures DecodeArray(nested, offset, n).value == (List(ValuesOf(items, utf8)), offset + |Flat(Codes(items))|)
  {
    var codes, values := DecodedAreItems(nested, bytes, offset, n, [], CodedAt(depth, utf8));
    assert [] + values == values;
    items := TreesWith(codes, values, depth, utf8);
  }

  lemma SplitCoded(coded: Coding, kcodes: seq<seq<byte>>, vcodes: seq<seq<byte>>, pairs: seq<(Value, Value)>)
    returns (keys: seq<Value>, values: seq<Value>)
    requires PairsCoded(coded, kcodes, vcodes, pairs)
    ensures AllCoded(coded, kcodes, keys) && AllCoded(coded, vcodes, values) && |keys| == |values|
    ensures Zip(keys, values) == pairs
  {
    keys := seq(|pairs|, i requires 0 <= i < |pairs| => pairs[i].0);
    values := seq(|pairs|, i requires 0 <= i < |pairs| => pairs[i].1);
  }

  lemma MapIsEncoding(nested: Step, bytes: seq<byte>, offset: nat, n: nat, depth: nat, utf8: Utf8)
    returns (keys: seq<Tree>, values: seq<Tree>)
    requires LegibleEverywhere(nested, bytes, CodedAt(depth, utf8))
    requires offset <= |bytes| && DecodeMap(nested, offset, n).Ok?
    ensures |keys| == |values| == n && GoodAll(keys, depth, utf8) && GoodAll(values, depth, utf8)
    ensures DistinctScalars(Zip(ValuesOf(keys, utf8), ValuesOf(values, utf8)))
    ensures At(bytes, offset, FlatPairs(Codes(keys), Codes(values)))
    ensures DecodeMap(nested, offset, n).value
         == (Table(Zip(ValuesOf(keys, utf8), ValuesOf(values, utf8))), offset + |FlatPairs(Codes(keys), Codes(values))|)
  {
    var coded := CodedAt(depth, utf8);
    var kcodes, vcodes, pairs := DecodedArePairs(nested, bytes, offset, n, [], coded);
    assert [] + pairs == pairs;
    var ks, vs := SplitCoded(coded, kcodes, vcodes, pairs);
    keys := TreesWith(kcodes, ks, depth, utf8);
    values := TreesWith(vcodes, vs, depth, utf8);
  }

  lemma BodyIsEncoding(
      r: Result<(Value, nat), Failure>, major: nat, h: Head, nested: Step, bytes: seq<byte>, start: nat, offset: nat,
      depth: nat, utf8: Utf8)
    returns (t: Tree)
    requires LegibleEverywhere(nested, bytes, CodedAt(depth + 1, utf8)) && depth <= MAX_DEPTH && HeadOk(h)
    requires major < 8 && Dispatched(r, major, h, nested, bytes, start, offset, utf8) && offset <= |bytes| && r.Ok?
    requires major == 7 ==> offset == start + 1
    ensures t.h == h && Major(t) == major && Good(t, depth, utf8) && At(bytes, offset, EncodeBody(t))
    ensures r.value == (ValueOf(t, utf8), offset + |EncodeBody(t)|)
  {
    if major <= 3 {
      t := LeafIsEncoding(r, major, h, bytes, offset, depth, utf8);
    } else if major == 4 {
      var items := ArrayIsEncoding(nested, bytes, offset, h.n, depth + 1, utf8);
      t := Array(h, items);
    } else if major == 5 {
      var keys, values := MapIsEncoding(nested, bytes, offset, h.n, depth + 1, utf8);
      t := Entries(h, keys, values);
    } else if major == 6 {
      t := TaggedIsEncoding(h, nested, bytes, offset, depth, utf8);
    } else {
      t := Simple(h);
    }
  }

  lemma LeafIsEncoding(
      r: Result<(Value, nat), Failure>, major: nat, h: Head, bytes: seq<byte>, offset: nat, depth: nat, utf8: Utf8)
    returns (t: Tree)
    requires depth <= MAX_DEPTH && HeadOk(h) && major <= 3 && offset <= |bytes|
    requires r.Ok? && r == DecodeLeaf(bytes, major, h.n, offset, utf8)
    ensures t.h == h && Major(t) == major && Good(t, depth, utf8) && At(bytes, offset, EncodeBody(t))
    ensures r.value == (ValueOf(t, utf8), offset + |EncodeBody(t)|)
  {
    if major == 0 {
      t := Unsigned(h);
    } else if major == 1 {
      t := Negative(h);
    } else {
      var data := bytes[offset..offset + h.n];
      t := if major == 2 then ByteString(h, data) else TextString(h, data);
      AtIsSlice(bytes, offset, data);
    }
  }

  lemma TaggedIsEncoding(h: Head, nested: Step, bytes: seq<byte>, offset: nat, depth: nat, utf8: Utf8)
    returns (t: Tree)
    requires LegibleEverywhere(nested, bytes, CodedAt(depth + 1, utf8)) && depth <= MAX_DEPTH && HeadOk(h)
    requires nested(offset).Ok?
    ensures t.Tagged? && t.h == h && Good(t, depth, utf8) && At(bytes, offset, EncodeBody(t))
    ensures nested(offset).value == (ValueOf(t, utf8), offset + |EncodeBody(t)|)
  {
    var code := ReadCode(nested, bytes, offset, CodedAt(depth + 1, utf8));
    var inner :| IsCode(inner, code, nested(offset).value.0, depth + 1, utf8);
    t := Tagged(h, inner);
  }

  lemma ReadsAHead(bytes: seq<byte>, offset: nat) returns (h: Head)
    requires offset < |bytes| && LengthAt(bytes, bytes[offset] % 32, offset + 1).Ok?
    ensures HeadOk(h) && h.additional == bytes[offset] % 32
    ensures At(bytes, offset, EncodeHead(bytes[offset] / 32, h))
    ensures LengthAt(bytes, h.additional, offset + 1).value == (h.n, offset + |EncodeHead(bytes[offset] / 32, h)|)
  {
    var additional := bytes[offset] % 32;
    var (n, end) := LengthAt(bytes, additional, offset + 1).value;
    h := Head(additional, bytes[offset + 1..end], n);
    AtIsSlice(bytes, offset + 1, h.argument);
    AtIsSlice(bytes, offset, [bytes[offset]]);
    AtSplits(bytes, offset, [bytes[offset]], h.argument);
  }

  lemma AcceptedHasHead(bytes: seq<byte>, offset: nat, depth: nat, utf8: Utf8)
    requires Decode(bytes, offset, depth, utf8).Ok?
    ensures depth <= MAX_DEPTH && offset < |bytes| && LengthAt(bytes, bytes[offset] % 32, offset + 1).Ok?
    ensures bytes[offset] / 32 == 7 ==> bytes[offset] % 32 < 24
  {
  }

  lemma {:induction false} NestedIsLegible(bytes: seq<byte>, depth: nat, utf8: Utf8)
    ensures LegibleEverywhere(Nested(bytes, depth, utf8), bytes, CodedAt(depth, utf8))
    decreases Room(depth), 1
  {
    var nested := Nested(bytes, depth, utf8);
    var coded := CodedAt(depth, utf8);
    forall o: nat ensures Legible(nested(o), bytes, o, coded) {
      assert nested(o) == Decode(bytes, o, depth, utf8);
      if nested(o).Ok? {
        var t := DecodedIsEncoding(bytes, o, depth, utf8);
        assert IsCode(t, Encode(t), ValueOf(t, utf8), depth, utf8);
        assert coded(Encode(t), nested(o).value.0);
      }
    }
  }

  /** Every accepted input starts with the encoding of a good tree, whose value is the answer. */
  lemma {:induction false} DecodedIsEncoding(bytes: seq<byte>, offset: nat, depth: nat, utf8: Utf8) returns (t: Tree)
    requires Decode(bytes, offset, depth, utf8).Ok?
    ensures Good(t, depth, utf8) && At(bytes, offset, Encode(t))
    ensures Decode(bytes, offset, depth, utf8).value == (ValueOf(t, utf8), offset + |Encode(t)|)
    decreases Room(depth), 0
  {
    AcceptedHasHead(bytes, offset, depth, utf8);
    var h := ReadsAHead(bytes, offset);
    var major := bytes[offset] / 32;
    var head := EncodeHead(major, h);
    AfterHead(bytes, offset, depth, utf8, h, offset + |head|);
    NestedIsLegible(bytes, depth + 1, utf8);
    t := BodyIsEncoding(Decode(bytes, offset, depth, utf8), major, h, Nested(bytes, depth + 1, utf8), bytes, offset,
                        offset + |head|, depth, utf8);
    AtSplits(bytes, offset, head, EncodeBody(t));
  }

  // ---- the main results ----

  /** Decoding an encoding, wherever it stands and whatever follows it, gives its value and its
      length. */
  lemma RoundTrip(t: Tree, before: seq<byte>, suffix: seq<byte>, depth: nat, utf8: Utf8)
    requires Good(t, depth, utf8)
    ensures Decode(before + Encode(t) + suffix, |before|, depth, utf8)
         == Ok((ValueOf(t, utf8), |before| + |Encode(t)|))
  {
    var bytes := before + Encode(t) + suffix;
    AtIsSlice(bytes, |before|, Encode(t));
    DecodesEncoding(t, bytes, |before|, depth, utf8);
  }

  /** The decoder accepts exactly the encodings of good trees, and answers exactly their values. */
  lemma AcceptsExactlyEncodings(bytes: seq<byte>, start: nat, depth: nat, utf8: Utf8, v: Value, end: nat)
    ensures Decode(bytes, start, depth, utf8) == Ok((v, end))
       <==> exists t :: && Good(t, depth, utf8) && At(bytes, start, Encode(t))
                        && v == ValueOf(t, utf8) && end == start + |Encode(t)|
  {
    if Decode(bytes, start, depth, utf8) == Ok((v, end)) {
      var t := DecodedIsEncoding(bytes, start, depth, utf8);
    }
    forall t | Good(t, depth, utf8) && At(bytes, start, Encode(t))
      ensures Decode(bytes, start, depth, utf8) == Ok((ValueOf(t, utf8), start + |Encode(t)|))
    {
      DecodesEncoding(t, bytes, start, depth, utf8);
    }
  }

  /** A successful decode advances, stays in bounds, and depends on the consumed bytes alone: the
      same bytes anywhere else decode to the same value. */
  lemma ConsumedBytesDecide(
      bytes: seq<byte>, start: nat, depth: nat, utf8: Utf8, v: Value, end: nat, other: seq<byte>, at: nat)
    requires Decode(bytes, start, depth, utf8) == Ok((v, end))
    ensures start < end <= |bytes|
    ensures At(other, at, bytes[start..end]) ==> Decode(other, at, depth, utf8) == Ok((v, at + end - start))
  {
    var t := DecodedIsEncoding(bytes, start, depth, utf8);
    assert |Encode(t)| > 0;
    AtIsSlice(bytes, start, Encode(t));
    if At(other, at, Encode(t)) {
      DecodesEncoding(t, other, at, depth, utf8);
    }
  }
}
