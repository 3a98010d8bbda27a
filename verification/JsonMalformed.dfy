/** What the binary JSON reader makes of documents no encoder writes, in terms of the bytes themselves. */
module JsonMalformed {
  import opened Prelude
  import opened Bytes
  import opened JsonBinary

  // ----- containers

  /** Kinds 0 to 3 are small object, large object, small array, large array. */
  function OffsetBytes(kind: byte): nat { if kind == 0 || kind == 2 then 2 else 4 }

  /** A value entry is a type and an offset, a key entry an offset and a length. */
  function EntryBytes(kind: byte): nat { 1 + OffsetBytes(kind) + if kind <= 1 then OffsetBytes(kind) + 2 else 0 }

  function Count(kind: byte, data: seq<byte>): nat
    requires |data| >= 2 * OffsetBytes(kind)
  {
    FromLe(data[..OffsetBytes(kind)])
  }

  function DeclaredSize(kind: byte, data: seq<byte>): nat
    requires |data| >= 2 * OffsetBytes(kind)
  {
    FromLe(data[OffsetBytes(kind)..2 * OffsetBytes(kind)])
  }

  lemma FrameOf(kind: byte, data: seq<byte>)
    requires kind <= 3
    ensures var os := OffsetBytes(kind);
            ReadFrame(data, kind == 0 || kind == 2, kind <= 1)
            == if |data| < 2 * os then Err(ShortData)
               else if DeclaredSize(kind, data) > |data| then Err(InvalidSize)
               else if 2 * os + Count(kind, data) * EntryBytes(kind) > DeclaredSize(kind, data) then Err(HeaderTooLarge)
               else Ok(Frame(kind == 0 || kind == 2, kind <= 1, Count(kind, data)))
  {
    hide FromLe;
    var os := OffsetBytes(kind);
    if |data| >= 2 * os {
      assert data[os..][..os] == data[os..2 * os];
      var n := Count(kind, data);
      if kind <= 1 { assert n * EntryBytes(kind) == n * (1 + os) + n * (2 + os); }
    }
  }

  /** A container is refused when its counters are cut off, when it claims more bytes than there are, or
      when its entries do not fit its claim; nothing else is looked at before. */
  lemma ContainerRefused(kind: byte, data: seq<byte>)
    requires kind <= 3
    ensures |data| < 2 * OffsetBytes(kind) ==> Parse(kind, data, {}) == Err(ShortData)
    ensures |data| >= 2 * OffsetBytes(kind) && DeclaredSize(kind, data) > |data| ==>
              Parse(kind, data, {}) == Err(InvalidSize)
    ensures |data| >= 2 * OffsetBytes(kind) && DeclaredSize(kind, data) <= |data|
            && 2 * OffsetBytes(kind) + Count(kind, data) * EntryBytes(kind) > DeclaredSize(kind, data)
            ==> Parse(kind, data, {}) == Err(HeaderTooLarge)
  {
    hide ReadFrame, ParseKeys, Values, FromLe;
    FrameOf(kind, data);
  }

  /** Where entry i of a container stands. */
  function EntryAt(kind: byte, count: nat, i: nat): nat
  {
    2 * OffsetBytes(kind) + (1 + OffsetBytes(kind)) * i + if kind <= 1 then (2 + OffsetBytes(kind)) * count else 0
  }

  /** Types that are stored in the entry itself: literals and 16-bit numbers, in large containers 32-bit
      numbers as well. */
  predicate InEntry(kind: byte, item: byte)
  {
    item == 4 || item == 5 || item == 6 || (OffsetBytes(kind) == 4 && (item == 7 || item == 8))
  }

  lemma PlaceOf(kind: byte, data: seq<byte>, count: nat, i: nat)
    requires kind <= 3 && |data| >= EntryAt(kind, count, i) + 1 + OffsetBytes(kind)
    ensures var e := EntryAt(kind, count, i); var field := data[e + 1..e + 1 + OffsetBytes(kind)];
            Locate(data, Frame(kind == 0 || kind == 2, kind <= 1, count), i)
            == Ok(if InEntry(kind, data[e]) then Inside(data[e], field)
                  else if FromLe(field) > |data| then Beyond
                  else At(data[e], FromLe(field)))
  {
    hide FromLe;
    var e, os := EntryAt(kind, count, i), OffsetBytes(kind);
    assert data[e + 1..][..os] == data[e + 1..e + 1 + os];
  }

  /** As soon as one value lies beyond the data, the whole container reads as null. */
  lemma BeyondIsNull(kind: byte, data: seq<byte>, f: Frame, i: nat)
    requires kind <= 3 && ReadFrame(data, kind == 0 || kind == 2, kind <= 1) == Ok(f) && ParseKeys(data, f).Ok?
    requires i < f.count && Locate(data, f, i) == Ok(Beyond)
    requires Values(data, f, i, {kind}).Ok? && Values(data, f, i, {kind}).value.Some?
    ensures Parse(kind, data, {}) == Ok(JNull)
  {
    hide ReadFrame, ParseKeys, Locate, Values;
    ValuesNext(data, f, i, Values(data, f, i, {kind}).value.value, {kind});
    ValuesStop(data, f, i + 1, f.count, {kind});
    assert {} + {kind} == {kind};
  }

  // ----- scalars

  /** Bytes a number or a double needs, by its type code. */
  function Needs(kind: byte): nat
  {
    if kind == 5 || kind == 6 then 2 else if kind == 7 || kind == 8 then 4 else if 9 <= kind <= 11 then 8 else 0
  }

  /** A scalar is refused exactly when its type is unknown, its bytes are cut off, it is no literal, or its
      opaque payload has no meaning. */
  lemma ScalarRefused(kind: byte, data: seq<byte>)
    requires kind >= 4
    ensures Parse(kind, data, {}) == Err(UnknownType) <==> kind == 13 || kind == 14 || kind >= 16
    ensures Parse(kind, data, {}) == Err(ShortData)
            <==> (kind == 4 && data == []) || (5 <= kind <= 11 && |data| < Needs(kind))
    ensures Parse(kind, data, {}) == Err(NotLiteral) <==> kind == 4 && data != [] && data[0] > 2
    ensures Parse(kind, data, {}).Err? && Parse(kind, data, {}).error.BadOpaque? ==> kind == 15
  {
    hide FromLe, AsSigned, ParseString;
  }

  // ----- dictionaries

  lemma {:induction false} PutMembers(members: seq<Member>, key: seq<byte>, value: Json, m: Member)
    requires forall i, j :: 0 <= i < j < |members| ==> members[i].key != members[j].key
    ensures m in Put(members, key, value) <==> m == Member(key, value) || (m in members && m.key != key)
  {
    if members != [] {
      assert members == [members[0]] + members[1..];
      if members[0].key == key {
        assert forall x :: x in members[1..] ==> x.key != key;
      } else {
        PutMembers(members[1..], key, value, m);
      }
    }
  }

  lemma {:induction false} PutKeepsDistinct(members: seq<Member>, key: seq<byte>, value: Json)
    requires forall i, j :: 0 <= i < j < |members| ==> members[i].key != members[j].key
    ensures var r := Put(members, key, value); forall i, j :: 0 <= i < j < |r| ==> r[i].key != r[j].key
  {
    if members != [] && members[0].key == key {
      var r := Put(members, key, value);
      assert |r| == |members| && forall i :: 0 <= i < |r| ==> r[i].key == members[i].key;
    } else if members != [] {
      var r := Put(members[1..], key, value);
      PutKeepsDistinct(members[1..], key, value);
      forall i | 0 <= i < |r| ensures r[i].key != members[0].key
      {
        PutMembers(members[1..], key, value, r[i]);
        assert r[i] in r;
      }
      assert Put(members, key, value) == [members[0]] + r;
    }
  }

  /** Member i of the first n is m, and no later one has its key. */
  ghost predicate LastAt(keys: seq<seq<byte>>, values: seq<Json>, n: nat, m: Member, i: nat)
    requires n <= |keys| && n <= |values|
  {
    i < n && m == Member(keys[i], values[i]) && forall j :: i < j < n ==> keys[j] != m.key
  }

  ghost predicate IsLast(keys: seq<seq<byte>>, values: seq<Json>, n: nat, m: Member)
    requires n <= |keys| && n <= |values|
  {
    exists i :: LastAt(keys, values, n, m, i)
  }

  lemma IsLastNext(keys: seq<seq<byte>>, values: seq<Json>, n: nat, m: Member)
    requires 0 < n <= |keys| && n <= |values|
    ensures IsLast(keys, values, n, m) <==>
            || m == Member(keys[n - 1], values[n - 1])
            || (IsLast(keys, values, n - 1, m) && m.key != keys[n - 1])
  {
    if m == Member(keys[n - 1], values[n - 1]) {
      assert LastAt(keys, values, n, m, n - 1);
    } else if IsLast(keys, values, n, m) {
      var i :| LastAt(keys, values, n, m, i);
      assert LastAt(keys, values, n - 1, m, i);
    }
    if IsLast(keys, values, n - 1, m) && m.key != keys[n - 1] {
      var i :| LastAt(keys, values, n - 1, m, i);
      assert LastAt(keys, values, n, m, i);
    }
  }

  /** In a document with repeated keys the last value of each key is kept, and no other. */
  lemma {:induction false} LastValueWins(keys: seq<seq<byte>>, values: seq<Json>, n: nat, m: Member)
    requires n <= |keys| && n <= |values|
    ensures var d := Dict(keys, values, n); forall i, j :: 0 <= i < j < |d| ==> d[i].key != d[j].key
    ensures m in Dict(keys, values, n) <==> IsLast(keys, values, n, m)
  {
    if n > 0 {
      LastValueWins(keys, values, n - 1, m);
      IsLastNext(keys, values, n, m);
      hide Put, LastAt;
      PutKeepsDistinct(Dict(keys, values, n - 1), keys[n - 1], values[n - 1]);
      PutMembers(Dict(keys, values, n - 1), keys[n - 1], values[n - 1], m);
    }
  }
}
