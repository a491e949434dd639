/** Bytes and their big-endian readings. */
module Bytes {
  type byte = x: int | 0 <= x < 256

  function BigEndian(s: seq<byte>): nat {
    if s == [] then 0 else 256 * BigEndian(s[..|s| - 1]) + s[|s| - 1]
  }

  function ToBigEndian(n: nat, size: nat): (s: seq<byte>)
    ensures |s| == size
  {
    if size == 0 then [] else ToBigEndian(n / 256, size - 1) + [n % 256]
  }

  function Pow256(k: nat): (p: nat)
    ensures p > 0
  {
    if k == 0 then 1 else 256 * Pow256(k - 1)
  }

  lemma {:induction false} ReadsBack(n: nat, size: nat)
    requires n < Pow256(size)
    ensures BigEndian(ToBigEndian(n, size)) == n
  {
    if size > 0 {
      ReadsBack(n / 256, size - 1);
      var s := ToBigEndian(n, size);
      assert s[..|s| - 1] == ToBigEndian(n / 256, size - 1);
    }
  }

  predicate Matches(bytes: seq<byte>, i: nat, part: seq<byte>, offset: nat)
    requires offset <= i < offset + |part| <= |bytes|
  {
    bytes[i] == part[i - offset]
  }

  /** `part` stands in `bytes` at `offset`. */
  predicate At(bytes: seq<byte>, offset: nat, part: seq<byte>) {
    offset + |part| <= |bytes| && forall i: nat | offset <= i < offset + |part| :: Matches(bytes, i, part, offset)
  }

  lemma AtIsSlice(bytes: seq<byte>, offset: nat, part: seq<byte>)
    ensures At(bytes, offset, part) <==> offset + |part| <= |bytes| && bytes[offset..offset + |part|] == part
  {
    if offset + |part| <= |bytes| {
      var slice := bytes[offset..offset + |part|];
      if slice == part {
        forall i: nat | offset <= i < offset + |part| ensures Matches(bytes, i, part, offset) {
          assert slice[i - offset] == bytes[i];
        }
      }
      if At(bytes, offset, part) {
        forall j | 0 <= j < |part| ensures slice[j] == part[j] {
          assert Matches(bytes, offset + j, part, offset);
        }
      }
    }
  }

  lemma AtSplits(bytes: seq<byte>, offset: nat, a: seq<byte>, b: seq<byte>)
    ensures At(bytes, offset, a + b) <==> At(bytes, offset, a) && At(bytes, offset + |a|, b)
  {
    AtIsSlice(bytes, offset, a + b);
    AtIsSlice(bytes, offset, a);
    AtIsSlice(bytes, offset + |a|, b);
    if offset + |a| + |b| <= |bytes| {
      var first, second := bytes[offset..offset + |a|], bytes[offset + |a|..offset + |a| + |b|];
      assert bytes[offset..offset + |a| + |b|] == first + second;
      assert (first + second)[..|a|] == first && (first + second)[|a|..] == second;
      assert (a + b)[..|a|] == a && (a + b)[|a|..] == b;
    }
  }
}
