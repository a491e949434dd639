/** `canonical` and `stableJson`: the form of a value that checksums and payload hashes are taken
    over, what the form keeps of the value, and what its JSON text keeps of the form. */
module CanonicalJson {

  /** A value as the program holds it: members in insertion order, keys distinct. `NonFinite` are
      the numbers NaN and the infinities. */
  datatype Json =
    | Null
    | Undefined
    | Bool(b: bool)
    | Number(n: int)
    | NonFinite(which: int)
    | BigInt(n: int)
    | Str(s: string)
    | Arr(items: seq<Json>)
    | Obj(members: seq<Member>)

  datatype Member = Member(key: string, value: Json)

  /** A value up to the order of members: an object is a map. */
  datatype Value =
    | VNull
    | VUndefined
    | VBool(b: bool)
    | VNumber(n: int)
    | VNonFinite(which: int)
    | VBigInt(n: int)
    | VStr(s: string)
    | VArr(items: seq<Value>)
    | VObj(members: map<string, Value>)

  predicate HasKey(members: seq<Member>, key: string) {
    exists i :: 0 <= i < |members| && members[i].key == key
  }

  predicate WellFormed(v: Json) {
    match v
    case Arr(items) => forall i | 0 <= i < |items| :: WellFormed(items[i])
    case Obj(members) =>
      && (forall i, j | 0 <= i < j < |members| :: members[i].key != members[j].key)
      && (forall i | 0 <= i < |members| :: WellFormed(members[i].value))
    case _ => true
  }

  /** A member the copy keeps: assigning `undefined` is skipped, and assigning the key
      "__proto__" sets a prototype instead of a member. */
  predicate Kept(m: Member) {
    !m.value.Undefined? && m.key != "__proto__"
  }

  // ---- the order of keys ----

  predicate Before(a: string, b: string) {
    if b == "" then false
    else if a == "" then true
    else if a[0] != b[0] then a[0] < b[0]
    else Before(a[1..], b[1..])
  }

  lemma {:induction false} BeforeTotal(a: string, b: string)
    ensures a == b || Before(a, b) || Before(b, a)
    ensures !(Before(a, b) && Before(b, a))
    ensures !Before(a, a)
  {
    if a != "" && b != "" && a[0] == b[0] {
      BeforeTotal(a[1..], b[1..]);
      assert a == [a[0]] + a[1..] && b == [b[0]] + b[1..];
    }
    if a != "" {
      BeforeTotal(a[1..], a[1..]);
    }
  }

  lemma {:induction false} BeforeTransitive(a: string, b: string, c: string)
    requires Before(a, b) && Before(b, c)
    ensures Before(a, c)
  {
    if a != "" && a[0] == b[0] == c[0] {
      BeforeTransitive(a[1..], b[1..], c[1..]);
    }
  }

  // ---- canonical ----

  function Insert(m: Member, sorted: seq<Member>): seq<Member> {
    if sorted == [] || Before(m.key, sorted[0].key) then [m] + sorted
    else [sorted[0]] + Insert(m, sorted[1..])
  }

  function Canonical(v: Json): Json
    decreases v, 0
  {
    match v
    case Arr(items) => Arr(CanonicalItems(items))
    case Obj(members) => Obj(CanonicalMembers(members))
    case _ => v
  }

  function CanonicalItems(items: seq<Json>): (r: seq<Json>)
    ensures |r| == |items|
    decreases items, 0
  {
    if items == [] then [] else [Canonical(items[0])] + CanonicalItems(items[1..])
  }

  /** The sorted members, canonical inside, without those that are not kept. */
  function CanonicalMembers(members: seq<Member>): seq<Member>
    decreases members, 0
  {
    if members == [] then []
    else
      var rest := CanonicalMembers(members[1..]);
      if Kept(members[0]) then Insert(Member(members[0].key, Canonical(members[0].value)), rest) else rest
  }

  /** What the form keeps of a value: its kept members, in any order. */
  function Meaning(v: Json): Value
    decreases v, 0
  {
    match v
    case Null => VNull
    case Undefined => VUndefined
    case Bool(b) => VBool(b)
    case Number(n) => VNumber(n)
    case NonFinite(which) => VNonFinite(which)
    case BigInt(n) => VBigInt(n)
    case Str(s) => VStr(s)
    case Arr(items) => VArr(MeaningItems(items))
    case Obj(members) => VObj(MeaningMembers(members))
  }

  function MeaningItems(items: seq<Json>): (r: seq<Value>)
    ensures |r| == |items|
    decreases items, 0
  {
    if items == [] then [] else [Meaning(items[0])] + MeaningItems(items[1..])
  }

  function MeaningMembers(members: seq<Member>): map<string, Value>
    decreases members, 0
  {
    if members == [] then map[]
    else
      var rest := MeaningMembers(members[1..]);
      if Kept(members[0]) then rest[members[0].key := Meaning(members[0].value)] else rest
  }

  // ---- sorted members are determined by the map they are ----

  ghost predicate Sorted(members: seq<Member>) {
    forall i, j | 0 <= i < j < |members| :: Before(members[i].key, members[j].key)
  }

  function ToMap(members: seq<Member>): map<string, Json> {
    if members == [] then map[] else ToMap(members[1..])[members[0].key := members[0].value]
  }

  lemma {:induction false} ToMapKeys(members: seq<Member>, key: string)
    ensures key in ToMap(members) <==> HasKey(members, key)
  {
    if members != [] {
      ToMapKeys(members[1..], key);
      if HasKey(members, key) && members[0].key != key {
        var i :| 0 <= i < |members| && members[i].key == key;
        assert members[1..][i - 1].key == key;
      }
      if HasKey(members[1..], key) {
        var i :| 0 <= i < |members[1..]| && members[1..][i].key == key;
        assert members[i + 1].key == key;
      }
    }
  }

  lemma {:induction false} InsertIntoMap(m: Member, sorted: seq<Member>)
    requires m.key !in ToMap(sorted)
    ensures ToMap(Insert(m, sorted)) == ToMap(sorted)[m.key := m.value]
  {
    if sorted != [] && !Before(m.key, sorted[0].key) {
      InsertIntoMap(m, sorted[1..]);
      assert Insert(m, sorted)[1..] == Insert(m, sorted[1..]);
    } else {
      assert ([m] + sorted)[1..] == sorted;
    }
  }

  lemma {:induction false} InsertKeepsSorted(m: Member, sorted: seq<Member>)
    requires Sorted(sorted) && m.key !in ToMap(sorted)
    ensures Sorted(Insert(m, sorted))
  {
    if sorted == [] {
    } else if Before(m.key, sorted[0].key) {
      forall j | 0 <= j < |sorted|
        ensures Before(m.key, sorted[j].key)
      {
        if j > 0 { BeforeTransitive(m.key, sorted[0].key, sorted[j].key); }
      }
    } else {
      BeforeTotal(m.key, sorted[0].key);
      InsertKeepsSorted(m, sorted[1..]);
      InsertedKeysAbove(m, sorted[1..], sorted[0].key);
    }
  }

  lemma {:induction false} InsertedKeysAbove(m: Member, sorted: seq<Member>, low: string)
    requires Before(low, m.key) && forall j | 0 <= j < |sorted| :: Before(low, sorted[j].key)
    ensures forall j | 0 <= j < |Insert(m, sorted)| :: Before(low, Insert(m, sorted)[j].key)
  {
    if sorted != [] && !Before(m.key, sorted[0].key) {
      InsertedKeysAbove(m, sorted[1..], low);
    }
  }

  lemma FirstIsLeast(members: seq<Member>, key: string)
    requires Sorted(members) && members != [] && key in ToMap(members)
    ensures key == members[0].key || Before(members[0].key, key)
  {
    ToMapKeys(members, key);
  }

  lemma {:induction false} SortedUnique(a: seq<Member>, b: seq<Member>)
    requires Sorted(a) && Sorted(b) && ToMap(a) == ToMap(b)
    ensures a == b
  {
    assert (a != [] ==> a[0].key in ToMap(a)) && (b != [] ==> b[0].key in ToMap(b));
    if a != [] && b != [] {
      FirstIsLeast(a, b[0].key);
      FirstIsLeast(b, a[0].key);
      BeforeTotal(a[0].key, b[0].key);
      RestOf(a);
      RestOf(b);
      SortedUnique(a[1..], b[1..]);
      assert a == [a[0]] + a[1..] && b == [b[0]] + b[1..];
    }
  }

  lemma RestOf(members: seq<Member>)
    requires Sorted(members) && members != []
    ensures Sorted(members[1..])
    ensures ToMap(members[1..]) == ToMap(members) - {members[0].key}
  {
    var key := members[0].key;
    BeforeTotal(key, key);
    assert !HasKey(members[1..], key);
    ToMapKeys(members[1..], key);
  }

  // ---- what canonical keeps ----

  ghost predicate DistinctKeys(members: seq<Member>) {
    forall i, j | 0 <= i < j < |members| :: members[i].key != members[j].key
  }

  lemma {:induction false} CanonicalKeys(members: seq<Member>, key: string)
    ensures key in ToMap(CanonicalMembers(members)) ==> HasKey(members, key)
  {
    if members != [] {
      CanonicalKeys(members[1..], key);
      InsertKeys(Member(members[0].key, Canonical(members[0].value)), CanonicalMembers(members[1..]), key);
      if HasKey(members[1..], key) {
        var i :| 0 <= i < |members[1..]| && members[1..][i].key == key;
        assert members[i + 1].key == key;
      }
    }
  }

  lemma {:induction false} InsertKeys(m: Member, sorted: seq<Member>, key: string)
    ensures key in ToMap(Insert(m, sorted)) ==> key == m.key || key in ToMap(sorted)
  {
    if sorted != [] && !Before(m.key, sorted[0].key) {
      InsertKeys(m, sorted[1..], key);
      assert Insert(m, sorted)[1..] == Insert(m, sorted[1..]);
    } else {
      assert ([m] + sorted)[1..] == sorted;
    }
  }

  lemma HeadKeyIsNew(members: seq<Member>)
    requires DistinctKeys(members) && members != []
    ensures members[0].key !in ToMap(CanonicalMembers(members[1..]))
    ensures DistinctKeys(members[1..])
  {
    CanonicalKeys(members[1..], members[0].key);
  }

  lemma {:induction false} CanonicalMembersSorted(members: seq<Member>)
    requires DistinctKeys(members)
    ensures Sorted(CanonicalMembers(members))
  {
    if members != [] {
      HeadKeyIsNew(members);
      CanonicalMembersSorted(members[1..]);
      InsertKeepsSorted(Member(members[0].key, Canonical(members[0].value)), CanonicalMembers(members[1..]));
    }
  }

  /** Key by key: the canonical object and the meaning both come from the same kept member. */
  lemma {:induction false} MemberOf(members: seq<Member>, key: string) returns (i: nat)
    requires DistinctKeys(members)
    ensures key in MeaningMembers(members) <==> key in ToMap(CanonicalMembers(members))
    ensures key in MeaningMembers(members) ==>
              && i < |members| && members[i].key == key
              && MeaningMembers(members)[key] == Meaning(members[i].value)
              && ToMap(CanonicalMembers(members))[key] == Canonical(members[i].value)
  {
    i := 0;
    if members != [] {
      HeadKeyIsNew(members);
      InsertIntoMap(Member(members[0].key, Canonical(members[0].value)), CanonicalMembers(members[1..]));
      var j := MemberOf(members[1..], key);
      i := if Kept(members[0]) && members[0].key == key then 0 else j + 1;
    }
  }

  /** Same meaning, same form. */
  lemma {:induction false} SameMeaningSameForm(a: Json, b: Json)
    requires WellFormed(a) && WellFormed(b) && Meaning(a) == Meaning(b)
    ensures Canonical(a) == Canonical(b)
    decreases a, 1
  {
    if a.Arr? {
      SameItems(a.items, b.items);
    } else if a.Obj? {
      var ma, mb := ToMap(CanonicalMembers(a.members)), ToMap(CanonicalMembers(b.members));
      forall key
        ensures key in ma <==> key in mb
        ensures key in ma ==> ma[key] == mb[key]
      {
        var i := MemberOf(a.members, key);
        var j := MemberOf(b.members, key);
        if key in ma {
          SameMeaningSameForm(a.members[i].value, b.members[j].value);
        }
      }
      assert ma == mb;
      CanonicalMembersSorted(a.members);
      CanonicalMembersSorted(b.members);
      SortedUnique(CanonicalMembers(a.members), CanonicalMembers(b.members));
    }
  }

  lemma {:induction false} SameItems(a: seq<Json>, b: seq<Json>)
    requires (forall i | 0 <= i < |a| :: WellFormed(a[i])) && (forall i | 0 <= i < |b| :: WellFormed(b[i]))
    requires MeaningItems(a) == MeaningItems(b)
    ensures CanonicalItems(a) == CanonicalItems(b)
    decreases a, 0
  {
    assert |a| == |MeaningItems(a)| == |b|;
    if a != [] {
      assert MeaningItems(a)[0] == MeaningItems(b)[0];
      assert MeaningItems(a)[1..] == MeaningItems(a[1..]) && MeaningItems(b)[1..] == MeaningItems(b[1..]);
      SameMeaningSameForm(a[0], b[0]);
      SameItems(a[1..], b[1..]);
    }
  }

  /** Taking the canonical form does not change the meaning. */
  lemma {:induction false} FormKeepsMeaning(v: Json)
    requires WellFormed(v)
    ensures Meaning(Canonical(v)) == Meaning(v)
    decreases v, 1
  {
    if v.Arr? {
      ItemsKeepMeaning(v.items);
    } else if v.Obj? {
      MembersKeepMeaning(v.members);
    }
  }

  lemma {:induction false} ItemsKeepMeaning(items: seq<Json>)
    requires forall i | 0 <= i < |items| :: WellFormed(items[i])
    ensures MeaningItems(CanonicalItems(items)) == MeaningItems(items)
    decreases items, 0
  {
    if items != [] {
      FormKeepsMeaning(items[0]);
      ItemsKeepMeaning(items[1..]);
      assert CanonicalItems(items)[1..] == CanonicalItems(items[1..]);
    }
  }

  lemma {:induction false} MembersKeepMeaning(members: seq<Member>)
    requires DistinctKeys(members) && forall i | 0 <= i < |members| :: WellFormed(members[i].value)
    ensures MeaningMembers(CanonicalMembers(members)) == MeaningMembers(members)
    decreases members, 0
  {
    if members != [] {
      var head := members[0];
      HeadKeyIsNew(members);
      MembersKeepMeaning(members[1..]);
      if Kept(head) {
        FormKeepsMeaning(head.value);
        InsertKeepsMeaning(Member(head.key, Canonical(head.value)), CanonicalMembers(members[1..]));
      }
    }
  }

  lemma {:induction false} InsertKeepsMeaning(m: Member, sorted: seq<Member>)
    requires Kept(m) && m.key !in ToMap(sorted)
    ensures MeaningMembers(Insert(m, sorted)) == MeaningMembers(sorted)[m.key := Meaning(m.value)]
  {
    if sorted != [] && !Before(m.key, sorted[0].key) {
      InsertKeepsMeaning(m, sorted[1..]);
      assert Insert(m, sorted)[1..] == Insert(m, sorted[1..]);
    } else {
      assert ([m] + sorted)[1..] == sorted;
    }
  }

  /** Equal forms exactly for equal kept meanings: neither key order nor `undefined` members
      matter, and everything else that is kept does. */
  lemma SameFormIffSameMeaning(a: Json, b: Json)
    requires WellFormed(a) && WellFormed(b)
    ensures Canonical(a) == Canonical(b) <==> Meaning(a) == Meaning(b)
  {
    FormKeepsMeaning(a);
    FormKeepsMeaning(b);
    if Meaning(a) == Meaning(b) {
      SameMeaningSameForm(a, b);
    }
  }

  // ---- what the form loses ----

  /** The whole value: every member that is not `undefined`, one named "__proto__" too. */
  function FullMeaning(v: Json): Value
    decreases v, 0
  {
    match v
    case Arr(items) => VArr(FullItems(items))
    case Obj(members) => VObj(FullMembers(members))
    case _ => Meaning(v)
  }

  function FullItems(items: seq<Json>): (r: seq<Value>)
    ensures |r| == |items|
    decreases items, 0
  {
    if items == [] then [] else [FullMeaning(items[0])] + FullItems(items[1..])
  }

  function FullMembers(members: seq<Member>): map<string, Value>
    decreases members, 0
  {
    if members == [] then map[]
    else
      var rest := FullMembers(members[1..]);
      if members[0].value.Undefined? then rest else rest[members[0].key := FullMeaning(members[0].value)]
  }

  /** No member named "__proto__" anywhere, except where it is `undefined`. */
  predicate NoProto(v: Json)
    decreases v, 0
  {
    match v
    case Arr(items) => NoProtoItems(items)
    case Obj(members) => NoProtoMembers(members)
    case _ => true
  }

  predicate NoProtoItems(items: seq<Json>)
    decreases items, 0
  {
    items == [] || (NoProto(items[0]) && NoProtoItems(items[1..]))
  }

  predicate NoProtoMembers(members: seq<Member>)
    decreases members, 0
  {
    members == []
    || ((members[0].value.Undefined? || (members[0].key != "__proto__" && NoProto(members[0].value)))
        && NoProtoMembers(members[1..]))
  }

  lemma {:induction false} KeptIsFullIff(v: Json)
    requires WellFormed(v)
    ensures FullMeaning(v) == Meaning(v) <==> NoProto(v)
    decreases v, 1
  {
    if v.Arr? {
      KeptItemsIff(v.items);
    } else if v.Obj? {
      KeptMembersIff(v.members);
    }
  }

  lemma {:induction false} KeptItemsIff(items: seq<Json>)
    requires forall i | 0 <= i < |items| :: WellFormed(items[i])
    ensures FullItems(items) == MeaningItems(items) <==> NoProtoItems(items)
    decreases items, 0
  {
    if items != [] {
      KeptIsFullIff(items[0]);
      KeptItemsIff(items[1..]);
      SameCons(FullMeaning(items[0]), FullItems(items[1..]), Meaning(items[0]), MeaningItems(items[1..]));
    }
  }

  lemma SameCons<T>(a: T, more: seq<T>, b: T, rest: seq<T>)
    ensures [a] + more == [b] + rest <==> a == b && more == rest
  {
    if [a] + more == [b] + rest {
      assert ([a] + more)[0] == a && ([b] + rest)[0] == b;
      assert ([a] + more)[1..] == more && ([b] + rest)[1..] == rest;
    }
  }

  lemma {:induction false} FullKeys(members: seq<Member>, key: string)
    ensures key in FullMembers(members) ==> HasKey(members, key)
    ensures key in MeaningMembers(members) ==> HasKey(members, key) && key != "__proto__"
  {
    if members != [] {
      FullKeys(members[1..], key);
      if HasKey(members[1..], key) {
        var i :| 0 <= i < |members[1..]| && members[1..][i].key == key;
        assert members[i + 1].key == key;
      }
    }
  }

  lemma {:induction false} KeptMembersIff(members: seq<Member>)
    requires DistinctKeys(members) && forall i | 0 <= i < |members| :: WellFormed(members[i].value)
    ensures FullMembers(members) == MeaningMembers(members) <==> NoProtoMembers(members)
    decreases members, 0
  {
    if members != [] {
      var head, rest := members[0], members[1..];
      KeptMembersIff(rest);
      FullKeys(rest, head.key);
      FullKeys(members, "__proto__");
      assert !HasKey(rest, head.key);
      KeptIsFullIff(head.value);
      if Kept(head) {
        SameUpdate(FullMembers(rest), MeaningMembers(rest), head.key, FullMeaning(head.value), Meaning(head.value));
      } else if !head.value.Undefined? {
        assert "__proto__" in FullMembers(members);
      }
    }
  }

  lemma SameUpdate<V>(a: map<string, V>, b: map<string, V>, key: string, x: V, y: V)
    requires key !in a && key !in b
    ensures a[key := x] == b[key := y] <==> a == b && x == y
  {
    if a[key := x] == b[key := y] {
      assert a == a[key := x] - {key} && b == b[key := y] - {key};
      assert a[key := x][key] == x && b[key := y][key] == y;
    }
  }

  lemma {:induction false} FormHasNoProto(v: Json)
    ensures NoProto(Canonical(v))
    decreases v, 1
  {
    if v.Arr? {
      FormItemsHaveNoProto(v.items);
    } else if v.Obj? {
      FormMembersHaveNoProto(v.members);
    }
  }

  lemma {:induction false} FormItemsHaveNoProto(items: seq<Json>)
    ensures NoProtoItems(CanonicalItems(items))
    decreases items, 0
  {
    if items != [] {
      FormHasNoProto(items[0]);
      FormItemsHaveNoProto(items[1..]);
      assert CanonicalItems(items)[1..] == CanonicalItems(items[1..]);
    }
  }

  lemma {:induction false} FormMembersHaveNoProto(members: seq<Member>)
    ensures NoProtoMembers(CanonicalMembers(members))
    decreases members, 0
  {
    if members != [] {
      var head := members[0];
      FormMembersHaveNoProto(members[1..]);
      if Kept(head) {
        FormHasNoProto(head.value);
        InsertKeepsNoProto(Member(head.key, Canonical(head.value)), CanonicalMembers(members[1..]));
      }
    }
  }

  lemma {:induction false} InsertKeepsNoProto(m: Member, sorted: seq<Member>)
    requires m.key != "__proto__" && NoProto(m.value) && NoProtoMembers(sorted)
    ensures NoProtoMembers(Insert(m, sorted))
  {
    if sorted != [] && !Before(m.key, sorted[0].key) {
      InsertKeepsNoProto(m, sorted[1..]);
      assert Insert(m, sorted)[1..] == Insert(m, sorted[1..]);
    } else {
      assert ([m] + sorted)[1..] == sorted;
    }
  }

  lemma {:induction false} FormIsWellFormed(v: Json)
    requires WellFormed(v)
    ensures WellFormed(Canonical(v))
    decreases v, 1
  {
    if v.Arr? {
      FormItemsWellFormed(v.items);
    } else if v.Obj? {
      CanonicalMembersSorted(v.members);
      SortedDistinct(CanonicalMembers(v.members));
      FormMembersWellFormed(v.members);
    }
  }

  lemma {:induction false} FormItemsWellFormed(items: seq<Json>)
    requires forall i | 0 <= i < |items| :: WellFormed(items[i])
    ensures forall i | 0 <= i < |items| :: WellFormed(CanonicalItems(items)[i])
    decreases items, 0
  {
    if items != [] {
      FormIsWellFormed(items[0]);
      FormItemsWellFormed(items[1..]);
    }
  }

  lemma {:induction false} FormMembersWellFormed(members: seq<Member>)
    requires forall i | 0 <= i < |members| :: WellFormed(members[i].value)
    ensures forall i | 0 <= i < |CanonicalMembers(members)| :: WellFormed(CanonicalMembers(members)[i].value)
    decreases members, 0
  {
    if members != [] {
      FormMembersWellFormed(members[1..]);
      FormIsWellFormed(members[0].value);
      var m, sorted := Member(members[0].key, Canonical(members[0].value)), CanonicalMembers(members[1..]);
      InsertedIsOneOf(m, sorted);
      forall x | x in Insert(m, sorted) ensures WellFormed(x.value) {
        if x != m {
          var i :| 0 <= i < |sorted| && sorted[i] == x;
        }
      }
      forall i | 0 <= i < |CanonicalMembers(members)| ensures WellFormed(CanonicalMembers(members)[i].value) {
        assert Kept(members[0]) ==> CanonicalMembers(members)[i] in Insert(m, sorted);
      }
    }
  }

  lemma {:induction false} InsertedIsOneOf(m: Member, sorted: seq<Member>)
    ensures forall x | x in Insert(m, sorted) :: x == m || x in sorted
  {
    if sorted != [] && !Before(m.key, sorted[0].key) {
      InsertedIsOneOf(m, sorted[1..]);
    }
  }

  lemma SortedDistinct(members: seq<Member>)
    requires Sorted(members)
    ensures DistinctKeys(members)
  {
    forall i, j | 0 <= i < j < |members| ensures members[i].key != members[j].key {
      BeforeTotal(members[i].key, members[j].key);
    }
  }

  /** The form is the whole value exactly when no member is named "__proto__", `undefined` ones
      excused. */
  lemma FormIsWholeIffNoProto(v: Json)
    requires WellFormed(v)
    ensures FullMeaning(Canonical(v)) == FullMeaning(v) <==> NoProto(v)
  {
    FormIsWellFormed(v);
    FormHasNoProto(v);
    KeptIsFullIff(Canonical(v));
    FormKeepsMeaning(v);
    KeptIsFullIff(v);
  }

  /** Between such values the form decides: equal exactly when the values are. */
  lemma SameFormIffSameValue(a: Json, b: Json)
    requires WellFormed(a) && WellFormed(b) && NoProto(a) && NoProto(b)
    ensures Canonical(a) == Canonical(b) <==> FullMeaning(a) == FullMeaning(b)
  {
    SameFormIffSameMeaning(a, b);
    KeptIsFullIff(a);
    KeptIsFullIff(b);
  }

  /** A member named "__proto__" can hold anything without showing in the form. */
  lemma ProtoMemberIsLost(members: seq<Member>, i: nat, value: Json)
    requires i < |members| && members[i].key == "__proto__"
    ensures Canonical(Obj(members)) == Canonical(Obj(members[i := Member("__proto__", value)]))
  {
    ReplaceUnkept(members, i, value);
  }

  lemma {:induction false} ReplaceUnkept(members: seq<Member>, i: nat, value: Json)
    requires i < |members| && members[i].key == "__proto__"
    ensures CanonicalMembers(members) == CanonicalMembers(members[i := Member("__proto__", value)])
  {
    var other := members[i := Member("__proto__", value)];
    if i > 0 {
      ReplaceUnkept(members[1..], i - 1, value);
      assert other[1..] == members[1..][i - 1 := Member("__proto__", value)];
    } else {
      assert other[1..] == members[1..];
    }
  }

  // ---- the text ----

  function Digits(n: nat): string {
    if n < 10 then [('0' as int + n) as char] else Digits(n / 10) + [('0' as int + n % 10) as char]
  }

  function Decimal(n: int): string {
    if n < 0 then "-" + Digits(-n) else Digits(n)
  }

  /** What the JSON text of a form shows: a bigint as its decimal string, and null for `undefined`
      items and for numbers that are not finite. Texts are equal exactly when these are. */
  function Printed(v: Json): Json
    decreases v, 0
  {
    match v
    case NonFinite(_) => Null
    case BigInt(n) => Str(Decimal(n))
    case Arr(items) => Arr(PrintedItems(items))
    case Obj(members) => Obj(PrintedMembers(members))
    case _ => v
  }

  function PrintedItems(items: seq<Json>): (r: seq<Json>)
    ensures |r| == |items|
    decreases items, 0
  {
    if items == [] then []
    else [if items[0].Undefined? then Null else Printed(items[0])] + PrintedItems(items[1..])
  }

  function PrintedMembers(members: seq<Member>): (r: seq<Member>)
    ensures |r| == |members|
    decreases members, 0
  {
    if members == [] then []
    else [Member(members[0].key, Printed(members[0].value))] + PrintedMembers(members[1..])
  }

  /** Nothing the text shows as something else: no bigint, no number that is not finite, no
      `undefined` item. */
  predicate Textual(v: Json)
    decreases v, 0
  {
    match v
    case NonFinite(_) => false
    case BigInt(_) => false
    case Arr(items) => TextualItems(items)
    case Obj(members) => TextualMembers(members)
    case _ => true
  }

  predicate TextualItems(items: seq<Json>)
    decreases items, 0
  {
    items == [] || (!items[0].Undefined? && Textual(items[0]) && TextualItems(items[1..]))
  }

  predicate TextualMembers(members: seq<Member>)
    decreases members, 0
  {
    members == [] || (Textual(members[0].value) && TextualMembers(members[1..]))
  }

  /** The text shows a form as it is exactly when there is nothing of that kind in it. */
  lemma {:induction false} PrintedAsItIsIff(v: Json)
    ensures Printed(v) == v <==> Textual(v)
    decreases v, 1
  {
    if v.Arr? {
      PrintedItemsIff(v.items);
    } else if v.Obj? {
      PrintedMembersIff(v.members);
    }
  }

  lemma {:induction false} PrintedItemsIff(items: seq<Json>)
    ensures PrintedItems(items) == items <==> TextualItems(items)
    decreases items, 0
  {
    if items != [] {
      PrintedAsItIsIff(items[0]);
      PrintedItemsIff(items[1..]);
      assert items == [items[0]] + items[1..];
      SameCons(if items[0].Undefined? then Null else Printed(items[0]), PrintedItems(items[1..]), items[0], items[1..]);
    }
  }

  lemma {:induction false} PrintedMembersIff(members: seq<Member>)
    ensures PrintedMembers(members) == members <==> TextualMembers(members)
    decreases members, 0
  {
    if members != [] {
      PrintedAsItIsIff(members[0].value);
      PrintedMembersIff(members[1..]);
      assert members == [members[0]] + members[1..];
      SameCons(Member(members[0].key, Printed(members[0].value)), PrintedMembers(members[1..]), members[0], members[1..]);
    }
  }

  /** Between such forms the text decides; and with no "__proto__" member either, it decides the
      values. */
  lemma SameTextIffSameValue(a: Json, b: Json)
    requires WellFormed(a) && WellFormed(b) && NoProto(a) && NoProto(b)
    requires Textual(Canonical(a)) && Textual(Canonical(b))
    ensures Printed(Canonical(a)) == Printed(Canonical(b)) <==> FullMeaning(a) == FullMeaning(b)
  {
    PrintedAsItIsIff(Canonical(a));
    PrintedAsItIsIff(Canonical(b));
    SameFormIffSameValue(a, b);
  }

  /** A form that is not of that kind shares its text with another one: its own print. */
  lemma OtherwiseSharesItsText(v: Json)
    requires !Textual(v)
    ensures Printed(v) != v && Printed(Printed(v)) == Printed(v)
  {
    PrintedAsItIsIff(v);
    PrintedIsTextual(v);
    PrintedAsItIsIff(Printed(v));
  }

  lemma {:induction false} PrintedIsTextual(v: Json)
    ensures Textual(Printed(v)) && (Printed(v).Undefined? <==> v.Undefined?)
    decreases v, 1
  {
    if v.Arr? {
      PrintedItemsTextual(v.items);
    } else if v.Obj? {
      PrintedMembersTextual(v.members);
    }
  }

  lemma {:induction false} PrintedItemsTextual(items: seq<Json>)
    ensures TextualItems(PrintedItems(items))
    decreases items, 0
  {
    if items != [] {
      PrintedIsTextual(items[0]);
      PrintedItemsTextual(items[1..]);
      assert PrintedItems(items)[1..] == PrintedItems(items[1..]);
    }
  }

  lemma {:induction false} PrintedMembersTextual(members: seq<Member>)
    ensures TextualMembers(PrintedMembers(members))
    decreases members, 0
  {
    if members != [] {
      PrintedIsTextual(members[0].value);
      PrintedMembersTextual(members[1..]);
      assert PrintedMembers(members)[1..] == PrintedMembers(members[1..]);
    }
  }

  /** Concretely: `[undefined]` and `[null]`, and the bigint 5 and the string "5", are different
      forms with the same text. */
  lemma TextsCollide()
    ensures Canonical(Arr([Undefined])) != Canonical(Arr([Null]))
    ensures Printed(Canonical(Arr([Undefined]))) == Printed(Canonical(Arr([Null])))
    ensures Canonical(BigInt(5)) != Canonical(Str("5")) && Printed(Canonical(BigInt(5))) == Printed(Canonical(Str("5")))
  {
    assert Canonical(Arr([Undefined])).items == [Undefined] + CanonicalItems([]);
    assert Canonical(Arr([Null])).items == [Null] + CanonicalItems([]);
    assert PrintedItems([Undefined]) == [Null] + PrintedItems([]);
    assert PrintedItems([Null]) == [Null] + PrintedItems([]);
    assert Decimal(5) == "5";
  }
}
