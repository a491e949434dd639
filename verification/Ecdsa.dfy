/** The two ECDSA signature converters: fixed-width r||s (RFC 7518, section 3.4) to DER (RFC 3279,
    section 2.2.3) and back. */
module Ecdsa {
  import opened Prelude
  import opened Bytes

  function Zeros(n: nat): (z: seq<byte>)
    ensures |z| == n
  {
    seq(n, _ => 0)
  }

  /** Leading zeros dropped, the last byte always kept. */
  function Trimmed(v: seq<byte>): seq<byte> {
    if |v| > 1 && v[0] == 0 then Trimmed(v[1..]) else v
  }

  /** The content of the DER integer with the big-endian magnitude `v`. */
  function Integer(v: seq<byte>): seq<byte> {
    var t := Trimmed(v);
    if t != [] && t[0] > 0x7f then [0] + t else t
  }

  function Field(integer: seq<byte>): seq<byte> {
    [0x02, |integer| % 256] + integer
  }

  /** The two integers, each with tag and length, without the sequence's own header. */
  function Content(raw: seq<byte>): seq<byte> {
    var half := |raw| / 2;
    var r, s := Integer(raw[..half]), Integer(raw[half..]);
    Field(r) + Field(s)
  }

  /** What the converter to DER answers for any input; one length byte, stored modulo 256. */
  function ToDer(raw: seq<byte>): seq<byte> {
    [0x30, |Content(raw)| % 256] + Content(raw)
  }

  /** The same signature with its length in the long form of one byte. */
  function ToLongDer(raw: seq<byte>): seq<byte> {
    [0x30, 0x81, |Content(raw)| % 256] + Content(raw)
  }

  /** `target.set(source, offset)` on typed arrays. */
  method SetBytes(target: array<byte>, source: seq<byte>, offset: nat)
    requires offset + |source| <= target.Length
    modifies target
    ensures target[..offset + |source|] == old(target[..offset]) + source
    ensures target[offset + |source|..] == old(target[offset + |source|..])
  {
    for i := 0 to |source|
      invariant forall j | 0 <= j < target.Length ::
                  target[j] == if offset <= j < offset + i then source[j - offset] else old(target[j])
    {
      target[offset + i] := source[i];
    }
  }

  method Trim(value: seq<byte>) returns (bytes: seq<byte>, leading: bool)
    ensures bytes == Trimmed(value)
    ensures Integer(value) == if leading then [0] + bytes else bytes
  {
    var start := 0;
    while start < |value| - 1 && value[start] == 0
      invariant 0 <= start <= |value|
      invariant Trimmed(value[start..]) == Trimmed(value)
    {
      assert value[start..][1..] == value[start + 1..];
      start := start + 1;
    }
    bytes := value[start..];
    leading := bytes != [] && bytes[0] > 0x7f;
  }

  /** Writes tag, length and content of one integer and answers where it ends. */
  method SetInteger(der: array<byte>, offset: nat, bytes: seq<byte>, leading: bool) returns (end: nat)
    requires offset + 2 + |bytes| + (if leading then 1 else 0) <= der.Length
    modifies der
    ensures var content := if leading then [0] + bytes else bytes;
      end == offset + 2 + |content| && der[..end] == old(der[..offset]) + Field(content)
  {
    var size := |bytes| + if leading then 1 else 0;
    SetBytes(der, [0x02, size % 256], offset);
    if leading {
      SetBytes(der, [0], offset + 2);
      SetBytes(der, bytes, offset + 3);
    } else {
      SetBytes(der, bytes, offset + 2);
    }
    end := offset + 2 + size;
    assert old(der[..offset]) + [0x02, size % 256] + [0] + bytes
        == old(der[..offset]) + ([0x02, size % 256] + ([0] + bytes));
    assert old(der[..offset]) + [0x02, size % 256] + bytes == old(der[..offset]) + ([0x02, size % 256] + bytes);
  }

  method JwsSignatureToDer(raw: seq<byte>) returns (der: array<byte>)
    ensures der[..] == ToDer(raw)
  {
    var half := |raw| / 2;
    var r, rLeading := Trim(raw[..half]);
    var s, sLeading := Trim(raw[half..]);
    ghost var first, second := Field(Integer(raw[..half])), Field(Integer(raw[half..]));
    var length := 2 + |r| + (if rLeading then 1 else 0) + 2 + |s| + (if sLeading then 1 else 0);
    assert length == |first| + |second|;
    der := new byte[2 + length];
    SetBytes(der, [0x30, length % 256], 0);
    assert der[..2] == [0x30, length % 256];
    var offset := SetInteger(der, 2, r, rLeading);
    assert der[..offset] == [0x30, length % 256] + first;
    offset := SetInteger(der, offset, s, sLeading);
    Whole(der[..], offset, [0x30, length % 256], first, second);
  }

  lemma Whole(der: seq<byte>, end: nat, head: seq<byte>, first: seq<byte>, second: seq<byte>)
    requires end == |der| && der[..end] == head + first + second
    ensures der == head + (first + second)
  {
    assert der[..end] == der;
    assert head + first + second == head + (first + second);
  }

  // ---- from DER ----

  /** A minimal non-negative integer of at most 32 bytes, padded to 32; anything else is refused. */
  function Normalize(integer: seq<byte>): Option<seq<byte>> {
    if integer == [] || integer[0] >= 0x80 then None
    else if |integer| > 1 && integer[0] == 0 && integer[1] < 0x80 then None
    else
      var value := if integer[0] == 0 then integer[1..] else integer;
      if |value| > 32 then None else Some(Zeros(32 - |value|) + value)
  }

  /** The contents of the two integer fields that fill `body`. */
  function Fields(body: seq<byte>): Option<(seq<byte>, seq<byte>)> {
    if |body| < 2 || body[0] != 0x02 then None
    else
      var split := 2 + body[1] as int;
      if |body| < split + 2 || body[split] != 0x02 || split + 2 + body[split + 1] as int != |body| then None
      else Some((body[2..split], body[split + 2..]))
  }

  /** Where the two fields begin: after a short length, or after a long one of a single byte; the
      length must reach exactly to the end. */
  function Header(signature: seq<byte>): Option<nat> {
    if |signature| < 2 || signature[0] != 0x30 then None
    else if signature[1] < 0x80 then
      if 2 + signature[1] as int != |signature| then None else Some(2)
    else if signature[1] != 0x81 || |signature| < 3 || 3 + signature[2] as int != |signature| then None
    else Some(3)
  }

  /** Both fields normalised. */
  function RawOf(body: seq<byte>): Option<seq<byte>> {
    var fields := Fields(body);
    if fields.None? then None
    else
      var r, s := Normalize(fields.value.0), Normalize(fields.value.1);
      if r.None? || s.None? then None else Some(r.value + s.value)
  }

  function ToRaw(signature: seq<byte>): Option<seq<byte>> {
    var header := Header(signature);
    if header.None? || header.value > |signature| then None else RawOf(signature[header.value..])
  }

  method NormalizeBytes(integer: seq<byte>) returns (r: Option<seq<byte>>)
    ensures r == Normalize(integer)
  {
    if |integer| == 0 || integer[0] / 0x80 % 2 != 0 {
      return None;
    }
    if |integer| > 1 && integer[0] == 0 && integer[1] / 0x80 % 2 == 0 {
      return None;
    }
    var value := if integer[0] == 0 then integer[1..] else integer;
    if |value| > 32 {
      return None;
    }
    var padded := new byte[32](_ => 0);
    ghost var zeros := padded[..32 - |value|];
    SetBytes(padded, value, 32 - |value|);
    assert zeros == Zeros(32 - |value|);
    assert padded[..32 - |value| + |value|] == padded[..];
    return Some(padded[..]);
  }

  /** The converter from DER, advancing `offset` through the signature. */
  method DerEcdsaToRaw(signature: seq<byte>) returns (raw: Option<seq<byte>>)
    ensures raw == ToRaw(signature)
  {
    if |signature| < 1 || signature[0] != 0x30 || |signature| < 2 {
      return None;
    }
    var offset: int, sequenceLength: int := 2, signature[1];
    if signature[1] >= 0x80 {
      if signature[1] % 0x80 != 1 || |signature| < 3 {
        return None;
      }
      offset, sequenceLength := 3, signature[2];
    }
    if offset + sequenceLength != |signature| {
      return None;
    }
    assert Header(signature) == Some(offset);
    var fields := ReadFields(signature, offset);
    if fields.None? {
      return None;
    }
    var normalizedR := NormalizeBytes(fields.value.0);
    var normalizedS := NormalizeBytes(fields.value.1);
    return if normalizedR.None? || normalizedS.None? then None else Some(normalizedR.value + normalizedS.value);
  }

  method ReadFields(signature: seq<byte>, start: nat) returns (fields: Option<(seq<byte>, seq<byte>)>)
    requires start <= |signature|
    ensures fields == Fields(signature[start..])
  {
    var offset: int := start;
    ghost var body := signature[start..];
    if |signature| <= offset + 1 || signature[offset] != 0x02 {
      return None;
    }
    var rLength: int := signature[offset + 1];
    assert body[0] == 0x02 && body[1] == rLength;
    offset := offset + 2 + rLength;
    if |signature| <= offset + 1 || signature[offset] != 0x02 {
      assert |body| > 2 + rLength ==> body[2 + rLength] == signature[offset];
      return None;
    }
    var r := signature[start + 2..start + 2 + rLength];
    var sLength: int := signature[offset + 1];
    assert body[2 + rLength] == 0x02 && body[3 + rLength] == sLength;
    if offset + 2 + sLength != |signature| {
      return None;
    }
    var s := signature[start + 4 + rLength..offset + 2 + sLength];
    SliceOfRest(signature, start, 2, 2 + rLength);
    SliceOfRest(signature, start, 4 + rLength, |body|);
    assert body[4 + rLength..|body|] == body[4 + rLength..];
    assert r == body[2..2 + rLength];
    assert s == body[4 + rLength..];
    return Some((r, s));
  }

  lemma SliceOfRest(bytes: seq<byte>, start: nat, i: nat, j: nat)
    requires start <= |bytes| && i <= j <= |bytes| - start
    ensures bytes[start + i..start + j] == bytes[start..][i..j]
  {
  }

  // ---- integers ----

  lemma {:induction false} TrimmedPads(v: seq<byte>)
    requires v != []
    ensures 0 < |Trimmed(v)| <= |v| && (|Trimmed(v)| > 1 ==> Trimmed(v)[0] != 0)
    ensures v == Zeros(|v| - |Trimmed(v)|) + Trimmed(v)
  {
    if |v| > 1 && v[0] == 0 {
      TrimmedPads(v[1..]);
      var n := |v| - |Trimmed(v)|;
      assert Zeros(n) == [0] + Zeros(n - 1);
      assert v == [0] + v[1..];
    }
  }

  lemma {:induction false} PaddedTrims(n: nat, w: seq<byte>)
    requires w != [] && (|w| > 1 ==> w[0] != 0)
    ensures Trimmed(Zeros(n) + w) == w
  {
    if n == 0 {
      assert Zeros(0) + w == w;
    } else {
      PaddedTrims(n - 1, w);
      assert (Zeros(n) + w)[1..] == Zeros(n - 1) + w;
    }
  }

  /** Thirty-two bytes survive the trip through the DER integer. */
  lemma IntegerNormalizes(v: seq<byte>)
    requires |v| == 32
    ensures Normalize(Integer(v)) == Some(v) && 0 < |Integer(v)| <= 33
  {
    TrimmedPads(v);
    var t := Trimmed(v);
    if t[0] > 0x7f {
      assert ([0] + t)[1..] == t;
    } else if t == [0] {
      assert v == Zeros(32 - 1) + [0] == Zeros(32) + [];
    }
  }

  /** Every integer the normalisation accepts is the DER integer of its answer. */
  lemma NormalizedIsInteger(i: seq<byte>)
    requires Normalize(i).Some?
    ensures |Normalize(i).value| == 32 && Integer(Normalize(i).value) == i
  {
    var v := Normalize(i).value;
    if i[0] != 0 {
      PaddedTrims(32 - |i|, i);
    } else if |i| == 1 {
      assert v == Zeros(32) == Zeros(31) + [0];
      PaddedTrims(31, [0]);
    } else {
      PaddedTrims(32 - |i[1..]|, i[1..]);
      assert i == [0] + i[1..];
    }
  }

  // ---- the two fields and the header ----

  lemma FieldsReadBack(body: seq<byte>, r: seq<byte>, s: seq<byte>)
    requires |r| < 256 && |s| < 256 && body == Field(r) + Field(s)
    ensures Fields(body) == Some((r, s))
  {
    var split := 2 + |r|;
    assert body[1] == |r| && body[split] == 0x02 && body[split + 1] == |s|;
    assert body[2..split] == r && body[split + 2..] == s;
  }

  lemma FieldsFill(body: seq<byte>)
    requires Fields(body).Some?
    ensures body == Field(Fields(body).value.0) + Field(Fields(body).value.1)
  {
    var (r, s) := Fields(body).value;
    var split := 2 + |r|;
    assert body == body[..2] + r + (body[split..split + 2] + s);
    assert body[..2] == [0x02, |r|] && body[split..split + 2] == [0x02, |s|];
  }

  lemma RawContent(raw: seq<byte>)
    requires |raw| == 64
    ensures |Content(raw)| <= 70 && RawOf(Content(raw)) == Some(raw)
  {
    IntegerNormalizes(raw[..32]);
    IntegerNormalizes(raw[32..]);
    FieldsReadBack(Content(raw), Integer(raw[..32]), Integer(raw[32..]));
    assert raw == raw[..32] + raw[32..];
  }

  lemma ContentOfRaw(body: seq<byte>)
    requires RawOf(body).Some?
    ensures |RawOf(body).value| == 64 && Content(RawOf(body).value) == body
  {
    var (r, s) := Fields(body).value;
    FieldsFill(body);
    NormalizedIsInteger(r);
    NormalizedIsInteger(s);
    var raw := RawOf(body).value;
    assert raw[..32] == Normalize(r).value && raw[32..] == Normalize(s).value;
  }

  lemma ShortHeader(content: seq<byte>)
    requires |content| < 0x80
    ensures Header([0x30, |content|] + content) == Some(2) && ([0x30, |content|] + content)[2..] == content
  {
  }

  lemma LongHeader(content: seq<byte>)
    requires |content| < 256
    ensures Header([0x30, 0x81, |content|] + content) == Some(3) && ([0x30, 0x81, |content|] + content)[3..] == content
  {
  }

  lemma HeaderIsExact(d: seq<byte>)
    requires Header(d).Some?
    ensures 2 <= Header(d).value <= |d|
    ensures var content := d[Header(d).value..];
      d == if d[1] < 0x80 then [0x30, |content| % 256] + content else [0x30, 0x81, |content| % 256] + content
  {
    var h := Header(d).value;
    assert d == d[..h] + d[h..];
    assert d[..h] == if d[1] < 0x80 then [0x30, d[1]] else [0x30, 0x81, d[2]];
  }

  lemma AcceptedIsDer(d: seq<byte>)
    requires ToRaw(d).Some?
    ensures |d| > 1 && |ToRaw(d).value| == 64
    ensures d == (if d[1] < 0x80 then ToDer(ToRaw(d).value) else ToLongDer(ToRaw(d).value))
  {
    HeaderIsExact(d);
    ContentOfRaw(d[Header(d).value..]);
  }

  // ---- the main results ----

  /** DER and back gives every 64-byte signature again. */
  lemma RawRoundTrip(raw: seq<byte>)
    requires |raw| == 64
    ensures ToRaw(ToDer(raw)) == Some(raw) && ToRaw(ToLongDer(raw)) == Some(raw)
  {
    RawContent(raw);
    SpellingsReadBack(raw, Content(raw));
  }

  lemma SpellingsReadBack(raw: seq<byte>, content: seq<byte>)
    requires |content| <= 70 && RawOf(content) == Some(raw)
    ensures ToRaw([0x30, |content| % 256] + content) == Some(raw)
    ensures ToRaw([0x30, 0x81, |content| % 256] + content) == Some(raw)
  {
    ShortHeader(content);
    LongHeader(content);
  }

  /** The converter from DER accepts exactly the two spellings of a 64-byte signature. */
  lemma AcceptsExactly(d: seq<byte>, raw: seq<byte>)
    ensures ToRaw(d) == Some(raw) <==> |raw| == 64 && (d == ToDer(raw) || d == ToLongDer(raw))
  {
    if ToRaw(d) == Some(raw) {
      AcceptedIsDer(d);
    } else if |raw| == 64 {
      RawRoundTrip(raw);
    }
  }

  /** An accepted signature is reproduced byte for byte exactly when its length is in the short form. */
  lemma ReproducedIffShort(d: seq<byte>)
    requires ToRaw(d).Some?
    ensures |d| > 1 && (ToDer(ToRaw(d).value) == d <==> d[1] < 0x80)
  {
    AcceptedIsDer(d);
    RawContent(ToRaw(d).value);
  }

  /** r = s = 1 with its length spelled 0x81 0x06 is accepted and comes back two bytes apart. */
  lemma LongFormIsNotReproduced()
    ensures var d: seq<byte> := [0x30, 0x81, 0x06, 0x02, 0x01, 0x01, 0x02, 0x01, 0x01];
      ToRaw(d).Some? && ToDer(ToRaw(d).value) != d
  {
    var d: seq<byte> := [0x30, 0x81, 0x06, 0x02, 0x01, 0x01, 0x02, 0x01, 0x01];
    FieldsReadBack(d[3..], [0x01], [0x01]);
    ReproducedIffShort(d);
  }
}
