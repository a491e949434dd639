/** Base32 without padding (RFC 4648, section 6). The reference works on the whole bit string; the
    program works on an accumulator that wraps at 32 bits. */
module Base32 {
  import opened Prelude
  import opened Bytes
  import opened Text

  const ALPHABET := "ABCDEFGHIJKLMNOPQRSTUVWXYZ234567"
  const WORD := 0x1_0000_0000

  // ---- the reference: bits, cut into groups ----

  function Pow2(k: nat): (p: nat)
    ensures p > 0
  {
    if k == 0 then 1 else 2 * Pow2(k - 1)
  }

  /** The low `w` bits of `v`, the highest first. */
  function BitsOf(v: nat, w: nat): (b: seq<bool>)
    ensures |b| == w
  {
    if w == 0 then [] else BitsOf(v / 2, w - 1) + [v % 2 == 1]
  }

  function Num(bits: seq<bool>): nat {
    if bits == [] then 0 else 2 * Num(bits[..|bits| - 1]) + if bits[|bits| - 1] then 1 else 0
  }

  /** Every unit as `w` bits, one after another. */
  function Flat(units: seq<nat>, w: nat): (b: seq<bool>)
    ensures |b| == w * |units|
  {
    if units == [] then [] else BitsOf(units[0], w) + Flat(units[1..], w)
  }

  /** Groups of five bits, the last filled up with zeros. */
  function Fives(bits: seq<bool>): seq<nat> {
    if bits == [] then []
    else if |bits| < 5 then [Num(bits + seq(5 - |bits|, _ => false))]
    else [Num(bits[..5])] + Fives(bits[5..])
  }

  /** Groups of eight bits; an incomplete last group is dropped. */
  function Eights(bits: seq<bool>): seq<nat> {
    if |bits| < 8 then [] else [Num(bits[..8])] + Eights(bits[8..])
  }

  // ---- numbers and their bits ----

  lemma {:induction false} HighMultipleIsUnseen(v: nat, k: nat, w: nat)
    ensures BitsOf(v + k * Pow2(w), w) == BitsOf(v, w)
  {
    if w > 0 {
      var q := k * Pow2(w - 1);
      assert v + k * Pow2(w) == v + 2 * q;
      assert (v + 2 * q) / 2 == v / 2 + q && (v + 2 * q) % 2 == v % 2;
      HighMultipleIsUnseen(v / 2, k, w - 1);
    }
  }

  lemma {:induction false} PowAdds(a: nat, b: nat)
    ensures Pow2(a + b) == Pow2(a) * Pow2(b)
  {
    if a > 0 {
      PowAdds(a - 1, b);
    }
  }

  /** The wrapped accumulator agrees with the unbounded one on the low 32 bits. */
  lemma WrappedAgrees(v: nat, w: nat)
    requires w <= 32
    ensures BitsOf(v % WORD, w) == BitsOf(v, w)
  {
    assert Pow2(32) == WORD by {
      assert Pow2(8) == 0x100;
      PowAdds(8, 8);
      PowAdds(16, 16);
    }
    PowAdds(32 - w, w);
    var q, p := v / WORD, Pow2(w);
    var k := q * Pow2(32 - w);
    assert q * WORD == k * p by {
      Reassociate(q, Pow2(32 - w), p);
    }
    HighMultipleIsUnseen(v % WORD, k, w);
    assert v == v % WORD + q * WORD;
  }

  lemma Reassociate(a: nat, b: nat, c: nat)
    ensures a * (b * c) == a * b * c
  {
  }

  /** `v >>> k`. */
  function Shifted(v: nat, k: nat): nat {
    if k == 0 then v else Shifted(v / 2, k - 1)
  }

  lemma {:induction false} HighAndLow(v: nat, j: nat, k: nat)
    ensures BitsOf(v, j + k) == BitsOf(Shifted(v, k), j) + BitsOf(v, k)
  {
    if k > 0 {
      HighAndLow(v / 2, j, k - 1);
    }
  }

  lemma NumStep(v: nat, w: nat)
    ensures Num(BitsOf(v, w + 1)) == 2 * Num(BitsOf(v / 2, w)) + v % 2
  {
    var b := BitsOf(v, w + 1);
    assert b[..w] == BitsOf(v / 2, w);
  }

  lemma {:induction false} NumAndRest(v: nat, w: nat)
    ensures v == Num(BitsOf(v, w)) + Shifted(v, w) * Pow2(w) && Num(BitsOf(v, w)) < Pow2(w)
  {
    if w > 0 {
      NumStep(v, w - 1);
      NumAndRest(v / 2, w - 1);
      var q := Shifted(v / 2, w - 1) * Pow2(w - 1);
      assert Shifted(v, w) * Pow2(w) == 2 * q;
    }
  }

  /** `v & 31` is the number of the low five bits. */
  lemma NumOfFive(v: nat)
    ensures Num(BitsOf(v, 5)) == v % 32
  {
    NumAndRest(v, 5);
    assert Pow2(5) == 32;
  }

  /** `v & 0xff` is the number of the low eight bits. */
  lemma NumOfEight(v: nat)
    ensures Num(BitsOf(v, 8)) == v % 256
  {
    NumAndRest(v, 8);
    assert Pow2(8) == 256;
  }

  lemma {:induction false} BitsOfNum(bits: seq<bool>)
    ensures BitsOf(Num(bits), |bits|) == bits
  {
    if bits != [] {
      BitsOfNum(bits[..|bits| - 1]);
    }
  }

  // ---- both cuts ----

  lemma {:induction false} FlatAppends(units: seq<nat>, u: nat, w: nat)
    ensures Flat(units + [u], w) == Flat(units, w) + BitsOf(u, w)
  {
    if units == [] {
      assert Flat([u], w) == BitsOf(u, w) + Flat([], w);
    } else {
      FlatAppends(units[1..], u, w);
      assert (units + [u])[1..] == units[1..] + [u];
    }
  }

  lemma FivesStep(bits: seq<bool>, group: seq<bool>, rest: seq<bool>)
    requires |group| == 5 && bits == group + rest
    ensures Fives(bits) == [Num(group)] + Fives(rest)
  {
    assert bits[..5] == group && bits[5..] == rest;
  }

  lemma {:induction false} FivesAppend(a: seq<bool>, b: seq<bool>)
    requires |a| % 5 == 0
    ensures Fives(a + b) == Fives(a) + Fives(b)
    decreases |a|
  {
    if a == [] {
      assert a + b == b;
    } else {
      var group, rest := a[..5], a[5..];
      FivesAppend(rest, b);
      FivesStep(a, group, rest);
      assert a + b == group + (rest + b);
      FivesStep(a + b, group, rest + b);
    }
  }

  lemma EightsStep(bits: seq<bool>, group: seq<bool>, rest: seq<bool>)
    requires |group| == 8 && bits == group + rest
    ensures Eights(bits) == [Num(group)] + Eights(rest)
  {
    assert bits[..8] == group && bits[8..] == rest;
  }

  lemma {:induction false} EightsAppend(a: seq<bool>, b: seq<bool>)
    requires |a| % 8 == 0
    ensures Eights(a + b) == Eights(a) + Eights(b)
    decreases |a|
  {
    if a == [] {
      assert a + b == b;
    } else {
      var group, rest := a[..8], a[8..];
      EightsAppend(rest, b);
      EightsStep(a, group, rest);
      assert a + b == group + (rest + b);
      EightsStep(a + b, group, rest + b);
    }
  }

  /** The groups of five hold the bits again, followed by fewer than five zeros. */
  lemma {:induction false} FivesHold(bits: seq<bool>)
    ensures |Fives(bits)| == (|bits| + 4) / 5
    ensures Flat(Fives(bits), 5) == bits + seq(5 * |Fives(bits)| - |bits|, _ => false)
  {
    if bits == [] {
    } else if |bits| < 5 {
      var filled := bits + seq(5 - |bits|, _ => false);
      BitsOfNum(filled);
      assert Flat([Num(filled)], 5) == BitsOf(Num(filled), 5) + Flat([], 5);
    } else {
      FivesHold(bits[5..]);
      BitsOfNum(bits[..5]);
      var rest := Fives(bits[5..]);
      assert ([Num(bits[..5])] + rest)[1..] == rest;
      assert bits == bits[..5] + bits[5..];
      var k := 5 * |rest| - |bits[5..]|;
      assert bits[..5] + (bits[5..] + seq(k, _ => false)) == bits + seq(k, _ => false);
    }
  }

  lemma {:induction false} EightsHold(bytes: seq<byte>, tail: seq<bool>)
    requires |tail| < 8
    ensures Eights(Flat(bytes, 8) + tail) == bytes
  {
    if bytes == [] {
      assert Flat(bytes, 8) + tail == tail;
    } else {
      EightsHold(bytes[1..], tail);
      var first, rest := BitsOf(bytes[0], 8), Flat(bytes[1..], 8);
      MoveOver(first, rest, tail, rest + tail, first + (rest + tail));
      EightsStep(Flat(bytes, 8) + tail, first, rest + tail);
      NumOfEight(bytes[0]);
      assert bytes == [bytes[0]] + bytes[1..];
    }
  }

  lemma FivesPush(done: seq<bool>, group: seq<bool>)
    requires |done| % 5 == 0 && |group| == 5
    ensures Fives(done + group) == Fives(done) + [Num(group)]
  {
    FivesAppend(done, group);
    FivesStep(group, group, []);
  }

  lemma EightsPush(done: seq<bool>, group: seq<bool>)
    requires |done| % 8 == 0 && |group| == 8
    ensures Eights(done + group) == Eights(done) + [Num(group)]
  {
    EightsAppend(done, group);
    EightsStep(group, group, []);
  }

  // ---- the accumulator ----

  lemma {:induction false} ShiftIn(v: nat, u: nat, w: nat, k: nat)
    requires u < Pow2(k)
    ensures BitsOf(v * Pow2(k) + u, w + k) == BitsOf(v, w) + BitsOf(u, k)
  {
    if k == 0 {
      assert BitsOf(v, w) + [] == BitsOf(v, w);
    } else {
      var q := v * Pow2(k - 1);
      assert v * Pow2(k) + u == 2 * q + u;
      assert (2 * q + u) / 2 == q + u / 2 && (2 * q + u) % 2 == u % 2;
      ShiftIn(v, u / 2, w, k - 1);
      assert BitsOf(v, w) + BitsOf(u / 2, k - 1) + [u % 2 == 1] == BitsOf(v, w) + BitsOf(u, k);
    }
  }

  /** `(value << k) | u` on 32 bits. */
  function Push(value: nat, u: nat, k: nat): nat {
    (value * Pow2(k) + u) % WORD
  }

  lemma PushedBits(value: nat, u: nat, w: nat, k: nat)
    requires u < Pow2(k) && w + k <= 32
    ensures BitsOf(Push(value, u, k), w + k) == BitsOf(value, w) + BitsOf(u, k)
  {
    WrappedAgrees(value * Pow2(k) + u, w + k);
    ShiftIn(value, u, w, k);
  }

  lemma {:induction false} ZeroBits(k: nat)
    ensures BitsOf(0, k) == seq(k, _ => false)
  {
    if k > 0 {
      ZeroBits(k - 1);
    }
  }

  // ---- text ----

  function Symbol(i: nat): char
    requires i < 32
  {
    if i < 26 then ('A' as int + i) as char else ('2' as int + i - 26) as char
  }

  lemma AlphabetIs(i: nat)
    requires i < 32
    ensures Symbol(i) == ALPHABET[i]
  {
    assert forall j | 0 <= j < 26 :: ALPHABET[j] as int == 'A' as int + j;
    assert forall j | 26 <= j < 32 :: ALPHABET[j] as int == '2' as int + j - 26;
  }

  function Symbols(groups: seq<nat>): (s: string)
    ensures |s| == |groups|
  {
    seq(|groups|, i requires 0 <= i < |groups| => Symbol(groups[i] % 32))
  }

  function IndexIn(c: char): (r: Option<nat>)
    ensures r.Some? ==> r.value < 32 && Symbol(r.value) == c
    ensures r.None? ==> forall i | 0 <= i < 32 :: Symbol(i) != c
  {
    if 'A' <= c <= 'Z' then Some(c as int - 'A' as int)
    else if '2' <= c <= '7' then Some(26 + (c as int - '2' as int))
    else None
  }

  predicate AllSymbols(s: string) {
    forall i | 0 <= i < |s| :: IndexIn(s[i]).Some?
  }

  function Indices(s: string): (r: seq<nat>)
    requires AllSymbols(s)
    ensures |r| == |s|
  {
    seq(|s|, i requires 0 <= i < |s| => IndexIn(s[i]).value)
  }

  /** How `toUpperCase` maps one character; it may give several. */
  type Upper = char -> string

  /** Padding and white space removed, the rest upper-cased. */
  function Cleaned(input: string, upper: Upper): string {
    if input == "" then ""
    else
      var rest := Cleaned(input[1..], upper);
      if input[0] == '=' || IsSpace(input[0]) then rest else upper(input[0]) + rest
  }

  function Encoded(bytes: seq<byte>): string {
    Symbols(Fives(Flat(bytes, 8)))
  }

  function Decoded(input: string, upper: Upper): Option<seq<nat>> {
    var cleaned := Cleaned(input, upper);
    if AllSymbols(cleaned) then Some(Eights(Flat(Indices(cleaned), 5))) else None
  }

  // ---- the program ----

  /** `text` spells the groups of five of `done`, and `value` still holds the `bits` bits after it. */
  ghost predicate Spelled(text: string, done: seq<bool>, value: nat, bits: nat, all: seq<bool>) {
    |done| % 5 == 0 && text == Symbols(Fives(done)) && done + BitsOf(value, bits) == all
  }

  lemma SpellNext(text: string, done: seq<bool>, value: nat, bits: nat, all: seq<bool>)
    requires Spelled(text, done, value, bits, all) && bits >= 5
    ensures var high := Shifted(value, bits - 5);
      Spelled(text + [Symbol(high % 32)], done + BitsOf(high, 5), value, bits - 5, all)
  {
    var high := Shifted(value, bits - 5);
    var group, low := BitsOf(high, 5), BitsOf(value, bits - 5);
    HighAndLow(value, 5, bits - 5);
    NumOfFive(high);
    FivesPush(done, group);
    SymbolsPush(Fives(done), Num(group));
    MoveOver(done, group, low, BitsOf(value, bits), all);
  }

  lemma MoveOver(done: seq<bool>, group: seq<bool>, low: seq<bool>, pending: seq<bool>, all: seq<bool>)
    requires done + pending == all && pending == group + low
    ensures done + group + low == all
  {
    assert done + (group + low) == done + group + low;
  }

  lemma SymbolsPush(groups: seq<nat>, g: nat)
    ensures Symbols(groups + [g]) == Symbols(groups) + [Symbol(g % 32)]
  {
  }

  lemma Received(done: seq<bool>, value: nat, bits: nat, before: seq<bool>, u: nat, k: nat)
    requires done + BitsOf(value, bits) == before && u < Pow2(k) && bits + k <= 32
    ensures done + BitsOf(Push(value, u, k), bits + k) == before + BitsOf(u, k)
  {
    PushedBits(value, u, bits, k);
    assert done + (BitsOf(value, bits) + BitsOf(u, k)) == done + BitsOf(value, bits) + BitsOf(u, k);
  }

  lemma FlatGrows(units: seq<nat>, i: nat, w: nat)
    requires i < |units|
    ensures Flat(units[..i + 1], w) == Flat(units[..i], w) + BitsOf(units[i], w)
  {
    assert units[..i + 1] == units[..i] + [units[i]];
    FlatAppends(units[..i], units[i], w);
  }

  method Base32Encode(bytes: seq<byte>) returns (output: string)
    ensures output == Encoded(bytes)
  {
    var bits, value := 0, 0;
    output := "";
    ghost var done: seq<bool> := [];
    for i := 0 to |bytes|
      invariant bits < 5 && Spelled(output, done, value, bits, Flat(bytes[..i], 8))
    {
      ghost var all := Flat(bytes[..i + 1], 8);
      assert Pow2(8) == 256;
      Received(done, value, bits, Flat(bytes[..i], 8), bytes[i], 8);
      FlatGrows(bytes, i, 8);
      value := Push(value, bytes[i], 8);
      bits := bits + 8;
      while bits >= 5
        invariant Spelled(output, done, value, bits, all)
      {
        SpellNext(output, done, value, bits, all);
        output := output + [Symbol(Shifted(value, bits - 5) % 32)];
        done := done + BitsOf(Shifted(value, bits - 5), 5);
        bits := bits - 5;
      }
    }
    assert bytes[..|bytes|] == bytes;
    SpellLast(output, done, value, bits, Flat(bytes, 8));
    if bits > 0 {
      output := output + [Symbol(Push(value, 0, 5 - bits) % 32)];
    }
  }

  lemma SpellLast(text: string, done: seq<bool>, value: nat, bits: nat, all: seq<bool>)
    requires Spelled(text, done, value, bits, all) && bits < 5
    ensures Symbols(Fives(all)) == if bits > 0 then text + [Symbol(Push(value, 0, 5 - bits) % 32)] else text
  {
    FivesAppend(done, BitsOf(value, bits));
    if bits > 0 {
      LastGroup(value, bits);
      SymbolsPush(Fives(done), Push(value, 0, 5 - bits) % 32);
    } else {
      assert done + [] == done;
    }
  }

  lemma LastGroup(value: nat, bits: nat)
    requires 0 < bits < 5
    ensures Fives(BitsOf(value, bits)) == [Push(value, 0, 5 - bits) % 32]
  {
    PushedBits(value, 0, bits, 5 - bits);
    ZeroBits(5 - bits);
    NumOfFive(Push(value, 0, 5 - bits));
  }

  /** `out` holds the groups of eight of `done`, and `value` still holds the `bits` bits after it. */
  ghost predicate Held(out: seq<nat>, done: seq<bool>, value: nat, bits: nat, all: seq<bool>) {
    |done| % 8 == 0 && out == Eights(done) && done + BitsOf(value, bits) == all
  }

  lemma HoldNext(out: seq<nat>, done: seq<bool>, value: nat, bits: nat, all: seq<bool>)
    requires Held(out, done, value, bits, all) && bits >= 8
    ensures var high := Shifted(value, bits - 8);
      Held(out + [high % 256], done + BitsOf(high, 8), value, bits - 8, all)
  {
    var high := Shifted(value, bits - 8);
    var group, low := BitsOf(high, 8), BitsOf(value, bits - 8);
    HighAndLow(value, 8, bits - 8);
    NumOfEight(high);
    EightsPush(done, group);
    MoveOver(done, group, low, BitsOf(value, bits), all);
  }

  lemma ReceivedIndex(out: seq<nat>, done: seq<bool>, value: nat, bits: nat, indices: seq<nat>, index: nat)
    requires Held(out, done, value, bits, Flat(indices, 5)) && index < 32 && bits < 8
    ensures Held(out, done, Push(value, index, 5), bits + 5, Flat(indices + [index], 5))
  {
    assert Pow2(5) == 32;
    Received(done, value, bits, Flat(indices, 5), index, 5);
    FlatAppends(indices, index, 5);
  }

  method Base32Decode(input: string, upper: Upper) returns (r: Option<seq<nat>>)
    ensures r == Decoded(input, upper)
  {
    var cleaned := Cleaned(input, upper);
    var bits, value := 0, 0;
    var out: seq<nat> := [];
    ghost var indices: seq<nat> := [];
    ghost var done: seq<bool> := [];
    for i := 0 to |cleaned|
      invariant bits < 8 && Held(out, done, value, bits, Flat(indices, 5))
      invariant |indices| == i && forall j | 0 <= j < i :: IndexIn(cleaned[j]) == Some(indices[j])
    {
      var index := IndexIn(cleaned[i]);
      if index.None? {
        return None;
      }
      ReceivedIndex(out, done, value, bits, indices, index.value);
      indices := indices + [index.value];
      value := Push(value, index.value, 5);
      bits := bits + 5;
      if bits >= 8 {
        HoldNext(out, done, value, bits, Flat(indices, 5));
        out := out + [Shifted(value, bits - 8) % 256];
        done := done + BitsOf(Shifted(value, bits - 8), 8);
        bits := bits - 8;
      }
    }
    assert Indices(cleaned) == indices;
    HeldAll(out, done, value, bits, Flat(indices, 5));
    return Some(out);
  }

  lemma HeldAll(out: seq<nat>, done: seq<bool>, value: nat, bits: nat, all: seq<bool>)
    requires Held(out, done, value, bits, all) && bits < 8
    ensures out == Eights(all)
  {
    EightsAppend(done, BitsOf(value, bits));
  }

  // ---- the main results ----

  lemma IndicesOfSymbols(groups: seq<nat>)
    requires forall i | 0 <= i < |groups| :: groups[i] < 32
    ensures AllSymbols(Symbols(groups)) && Indices(Symbols(groups)) == groups
  {
    forall i | 0 <= i < |groups| ensures IndexIn(Symbols(groups)[i]) == Some(groups[i]) { }
  }

  lemma {:induction false} FivesAreSmall(bits: seq<bool>)
    ensures forall i | 0 <= i < |Fives(bits)| :: Fives(bits)[i] < 32
  {
    if bits != [] {
      var group := if |bits| < 5 then bits + seq(5 - |bits|, _ => false) else bits[..5];
      BitsOfNum(group);
      NumOfFive(Num(group));
      if |bits| >= 5 {
        FivesAreSmall(bits[5..]);
      }
    }
  }

  /** Whatever cleans up to an encoding decodes to the encoded bytes: lower case, spaces and padding
      included. */
  lemma TolerantRoundTrip(bytes: seq<byte>, input: string, upper: Upper)
    requires Cleaned(input, upper) == Encoded(bytes)
    ensures Decoded(input, upper) == Some(bytes)
  {
    var bits := Flat(bytes, 8);
    FivesAreSmall(bits);
    IndicesOfSymbols(Fives(bits));
    FivesHold(bits);
    EightsHold(bytes, seq(5 * |Fives(bits)| - |bits|, _ => false));
  }

  predicate KeepsAlphabet(upper: Upper) {
    forall c: char | IndexIn(c).Some? :: upper(c) == [c]
  }

  lemma {:induction false} CleanStays(s: string, upper: Upper)
    requires AllSymbols(s) && KeepsAlphabet(upper)
    ensures Cleaned(s, upper) == s
  {
    if s != "" {
      CleanStays(s[1..], upper);
      assert s == [s[0]] + s[1..] && IndexIn(s[0]).Some?;
    }
  }

  /** Decoding an encoding gives the bytes again, and the encoding has ceil(8n / 5) characters. */
  lemma RoundTrip(bytes: seq<byte>, upper: Upper)
    requires KeepsAlphabet(upper)
    ensures Decoded(Encoded(bytes), upper) == Some(bytes)
    ensures |Encoded(bytes)| == (8 * |bytes| + 4) / 5
  {
    var bits := Flat(bytes, 8);
    FivesAreSmall(bits);
    IndicesOfSymbols(Fives(bits));
    FivesHold(bits);
    CleanStays(Encoded(bytes), upper);
    TolerantRoundTrip(bytes, Encoded(bytes), upper);
  }
}
