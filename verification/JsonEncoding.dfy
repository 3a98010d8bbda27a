/** A reference encoder for MySQL's binary JSON, and the proof that the reader inverts it. */
module JsonEncoding {
  import opened Prelude
  import opened Bytes
  import opened JsonOpaque
  import opened JsonBinary
  import D = Decimals
  import DecimalDecoders

  /** A document; every container carries the format, small or large, it is stored in. */
  datatype Tree =
    | Null
    | Bool(b: bool)
    | Number(size: NumType, n: int)
    | Float(raw: seq<byte>)
    | Text(raw: seq<byte>)
    | Dec(field: byte, negative: bool, digits: nat, precision: byte, scale: byte)
    | Time(field: byte, clock: Clock)
    | Date(field: byte, day: Day, clock: Clock)
    | Other(field: byte, raw: seq<byte>)
    | Array(small: bool, items: seq<Tree>)
    | Object(small: bool, keys: seq<seq<byte>>, items: seq<Tree>)

  datatype NumType = I16 | U16 | I32 | U32 | I64 | U64

  // ----- the storage format's own numbers

  function NumCode(size: NumType): byte
  {
    match size case I16 => 5 case U16 => 6 case I32 => 7 case U32 => 8 case I64 => 9 case U64 => 10
  }

  function Kind(t: Tree): byte
  {
    match t
    case Null => 4
    case Bool(_) => 4
    case Number(size, _) => NumCode(size)
    case Float(_) => 11
    case Text(_) => 12
    case Dec(_, _, _, _, _) => 15
    case Time(_, _) => 15
    case Date(_, _, _) => 15
    case Other(_, _) => 15
    case Array(small, _) => if small then 2 else 3
    case Object(small, _, _) => if small then 0 else 1
  }

  function Width(size: NumType): nat
  {
    match size case I16 => 2 case U16 => 2 case I32 => 4 case U32 => 4 case I64 => 8 case U64 => 8
  }

  predicate Signed(size: NumType) { size.I16? || size.I32? || size.I64? }

  /** Bytes of an offset or a count; the reader's sizes are these. */
  function Wide(small: bool): (w: nat)
    ensures w == OffsetSize(small) && w + 2 == KeyEntrySize(small) && w + 1 == ValueEntrySize(small)
  {
    if small then 2 else 4
  }

  /** A literal, or a number no wider than an offset, is stored in its entry; the reader's rule is this. */
  predicate FitsInEntry(t: Tree, small: bool)
    ensures FitsInEntry(t, small) == IsInline(Kind(t), small)
  {
    match t
    case Null => true
    case Bool(_) => true
    case Number(size, _) => Width(size) <= Wide(small)
    case _ => false
  }

  /** The number fits its type. */
  predicate InRange(size: NumType, n: int)
  {
    var p: int := Pow256(Width(size));
    if Signed(size) then -p <= 2 * n < p else 0 <= n < p
  }

  /** The value a reader should see. */
  function Meaning(t: Tree): Json
  {
    match t
    case Null => JNull
    case Bool(b) => JBool(b)
    case Number(_, n) => JInt(n)
    case Float(raw) => JDouble(raw)
    case Text(raw) => JString(raw)
    case Dec(_, negative, n, _, scale) => JOpaque(OpaqueDecimal(D.Decimal(negative, n, scale)))
    case Time(_, clock) => JOpaque(OpaqueTime(clock))
    case Date(_, day, clock) => JOpaque(OpaqueDate(day, clock))
    case Other(_, raw) => JOpaque(OpaqueText(raw))
    case Array(_, items) => JArray(seq(|items|, i requires 0 <= i < |items| => Meaning(items[i])))
    case Object(_, keys, items) =>
      if |keys| != |items| then JNull
      else JObject(Dict(keys, seq(|items|, i requires 0 <= i < |items| => Meaning(items[i])), |items|))
  }

  /** DECIMAL and NEWDECIMAL; TIME and TIME2; DATE, DATETIME and DATETIME2. */
  const DECIMAL_FIELDS: set<byte> := {0, 246}
  const TIME_FIELDS: set<byte> := {11, 19}
  const DATE_FIELDS: set<byte> := {10, 12, 18}

  // ----- the encoder

  function EncodeVarint(n: nat): (b: seq<byte>)
  {
    if n < 128 then [n] else [128 + n % 128] + EncodeVarint(n / 128)
  }

  /** What an entry holds: the value itself, or where it is stored. */
  datatype Slot = Slot(kind: byte, stored: bool, raw: seq<byte>)

  function Concat(parts: seq<seq<byte>>): seq<byte>
  {
    if parts == [] then [] else parts[0] + Concat(parts[1..])
  }

  function Blob(s: Slot): seq<byte> { if s.stored then s.raw else [] }

  function Blobs(slots: seq<Slot>): (r: seq<seq<byte>>)
    ensures |r| == |slots| && forall i :: 0 <= i < |r| ==> r[i] == Blob(slots[i])
  {
    seq(|slots|, i requires 0 <= i < |slots| => Blob(slots[i]))
  }

  function Head(small: bool, keys: nat, slots: nat): nat
  {
    2 * Wide(small) + keys * (2 + Wide(small)) + slots * (1 + Wide(small))
  }

  function KeyEntry(small: bool, head: nat, keys: seq<seq<byte>>, i: nat): (e: seq<byte>)
    requires i < |keys|
    ensures |e| == KeyEntrySize(small)
  {
    Le(head + |Concat(keys[..i])|, Wide(small)) + Le(|keys[i]|, 2)
  }

  function KeyEntries(small: bool, head: nat, keys: seq<seq<byte>>): (r: seq<seq<byte>>)
    ensures |r| == |keys| && forall i :: 0 <= i < |r| ==> r[i] == KeyEntry(small, head, keys, i)
  {
    seq(|keys|, i requires 0 <= i < |keys| => KeyEntry(small, head, keys, i))
  }

  function ValueEntry(small: bool, start: nat, slots: seq<Slot>, i: nat): seq<byte>
    requires i < |slots|
  {
    [slots[i].kind]
    + if slots[i].stored then Le(start + |Concat(Blobs(slots)[..i])|, Wide(small)) else slots[i].raw
  }

  function ValueEntries(small: bool, start: nat, slots: seq<Slot>): (r: seq<seq<byte>>)
    ensures |r| == |slots| && forall i :: 0 <= i < |r| ==> r[i] == ValueEntry(small, start, slots, i)
  {
    seq(|slots|, i requires 0 <= i < |slots| => ValueEntry(small, start, slots, i))
  }

  function Size(small: bool, keys: seq<seq<byte>>, slots: seq<Slot>): nat
  {
    Head(small, |keys|, |slots|) + |Concat(keys)| + |Concat(Blobs(slots))|
  }

  /** Count, size, key entries, value entries, keys, values. */
  function Assemble(small: bool, keys: seq<seq<byte>>, slots: seq<Slot>): seq<byte>
  {
    var head := Head(small, |keys|, |slots|);
    Le(|slots|, Wide(small)) + (Le(Size(small, keys, slots), Wide(small))
    + (Concat(KeyEntries(small, head, keys)) + (Concat(ValueEntries(small, head + |Concat(keys)|, slots))
    + (Concat(keys) + Concat(Blobs(slots))))))
  }

  function Code(t: Tree): nat { if t == Null then 0 else if t == Bool(true) then 1 else 2 }

  function Inlined(small: bool, t: Tree): seq<byte>
  {
    if t.Number? then
      var m := TwosComplement(t.n, Wide(small));
      if m < 0 then [] else Le(m, Wide(small))
    else Le(Code(t), Wide(small))
  }

  predicate IsOpaque(t: Tree) { t.Dec? || t.Time? || t.Date? || t.Other? }

  function Field(t: Tree): byte
    requires IsOpaque(t)
  {
    match t
    case Dec(field, _, _, _, _) => field
    case Time(field, _) => field
    case Date(field, _, _) => field
    case Other(field, _) => field
  }

  function Payload(t: Tree): seq<byte>
    requires IsOpaque(t)
  {
    match t
    case Dec(_, negative, n, precision, scale) =>
      [precision, scale] + if scale <= precision then D.Encode(negative, n, D.ShapeOf(precision, scale)) else []
    case Time(_, clock) => Le(PackTime(clock), 8)
    case Date(_, day, clock) => Le(PackDate(day, clock), 8)
    case Other(_, raw) => raw
  }

  function Encode(t: Tree): seq<byte>
    decreases t, 2
  {
    match t
    case Null => [0]
    case Bool(b) => [if b then 1 else 2]
    case Number(size, n) =>
      var m := TwosComplement(n, Width(size));
      if m < 0 then [] else Le(m, Width(size))
    case Float(raw) => raw
    case Text(raw) => EncodeVarint(|raw|) + raw
    case Dec(_, _, _, _, _) => [Field(t)] + (EncodeVarint(|Payload(t)|) + Payload(t))
    case Time(_, _) => [Field(t)] + (EncodeVarint(|Payload(t)|) + Payload(t))
    case Date(_, _, _) => [Field(t)] + (EncodeVarint(|Payload(t)|) + Payload(t))
    case Other(_, _) => [Field(t)] + (EncodeVarint(|Payload(t)|) + Payload(t))
    case Array(small, items) => Assemble(small, [], Slots(t))
    case Object(small, keys, items) => Assemble(small, keys, Slots(t))
  }

  function SlotOf(small: bool, t: Tree): Slot
    decreases t, 3
  {
    if FitsInEntry(t, small) then Slot(Kind(t), false, Inlined(small, t)) else Slot(Kind(t), true, Encode(t))
  }

  function Slots(t: Tree): (r: seq<Slot>)
    requires t.Array? || t.Object?
    ensures |r| == |t.items|
    ensures forall i :: 0 <= i < |r| ==> r[i] == SlotOf(t.small, t.items[i])
    decreases t, 1
  {
    seq(|t.items|, i requires 0 <= i < |t.items| => SlotOf(t.small, t.items[i]))
  }

  /** Numbers fit their types, and the offsets of every container fit its format. */
  ghost predicate Encodable(t: Tree)
    decreases t
  {
    match t
    case Null => true
    case Bool(_) => true
    case Number(size, n) => InRange(size, n)
    case Float(raw) => |raw| == 8
    case Text(raw) => |raw| < 0x8_0000_0000
    case Dec(field, _, n, precision, scale) =>
      field in DECIMAL_FIELDS && 1 <= precision && scale <= precision && n < D.Pow10(precision)
    case Time(field, clock) => field in TIME_FIELDS && ValidClock(clock)
    case Date(field, day, clock) => field in DATE_FIELDS && InCalendar(day) && ValidClock(clock)
    case Other(field, raw) => field !in DECIMAL_FIELDS + TIME_FIELDS + DATE_FIELDS && |raw| < 0x8_0000_0000
    case Array(small, items) =>
      && Size(small, [], Slots(t)) < Pow256(Wide(small))
      && forall i :: 0 <= i < |items| ==> Encodable(items[i])
    case Object(small, keys, items) =>
      && |keys| == |items|
      && Size(small, keys, Slots(t)) < Pow256(Wide(small))
      && (forall i :: 0 <= i < |keys| ==> |keys[i]| < 0x1_0000)
      && forall i :: 0 <= i < |items| ==> Encodable(items[i])
  }

  // ----- finding a piece of a layout

  /** The bytes x stand at position p. */
  predicate HasAt(data: seq<byte>, p: nat, x: seq<byte>) { p + |x| <= |data| && data[p..p + |x|] == x }

  lemma HasStart(x: seq<byte>, rest: seq<byte>)
    ensures HasAt(x + rest, 0, x)
  {
  }

  lemma HasBoth(data: seq<byte>, p: nat, x: seq<byte>, y: seq<byte>)
    requires HasAt(data, p, x + y)
    ensures HasAt(data, p, x) && HasAt(data, p + |x|, y)
  {
    var xy := data[p..p + |x| + |y|];
    assert data[p..p + |x|] == xy[..|x|];
    assert data[p + |x|..p + |x| + |y|] == xy[|x|..];
  }

  lemma {:induction false} HasPart(data: seq<byte>, p: nat, parts: seq<seq<byte>>, i: nat)
    requires i < |parts| && HasAt(data, p, Concat(parts))
    ensures HasAt(data, p + |Concat(parts[..i])|, parts[i])
    decreases i
  {
    HasBoth(data, p, parts[0], Concat(parts[1..]));
    if i == 0 {
      assert Concat(parts[..0]) == [];
    } else {
      HasPart(data, p + |parts[0]|, parts[1..], i - 1);
      assert parts[..i][1..] == parts[1..][..i - 1];
    }
  }

  lemma {:induction false} ConcatWidth(parts: seq<seq<byte>>, w: nat, i: nat)
    requires i <= |parts| && forall j :: 0 <= j < |parts| ==> |parts[j]| == w
    ensures |Concat(parts[..i])| == w * i
    decreases i
  {
    if i > 0 {
      ConcatWidth(parts[1..], w, i - 1);
      assert parts[..i][1..] == parts[1..][..i - 1];
      assert w * i == w + w * (i - 1);
    }
  }

  lemma {:induction false} ConcatPrefix(parts: seq<seq<byte>>, i: nat)
    requires i < |parts|
    ensures |Concat(parts[..i])| + |parts[i]| <= |Concat(parts)|
  {
    if i > 0 {
      ConcatPrefix(parts[1..], i - 1);
      assert parts[..i][1..] == parts[1..][..i - 1];
    }
  }

  lemma ReadsNumber(data: seq<byte>, p: nat, n: nat, k: nat)
    requires HasAt(data, p, Le(n, k)) && n < Pow256(k)
    ensures Unsigned(From(data, p), k) == Ok(n)
  {
    hide Le, FromLe;
    assert data[p..][..k] == data[p..p + k];
    FromLeOfLe(n, k);
  }

  // ----- a container is read as it was assembled

  ghost predicate LayoutFits(small: bool, keys: seq<seq<byte>>, slots: seq<Slot>)
  {
    && Size(small, keys, slots) < Pow256(OffsetSize(small))
    && (keys == [] || |keys| == |slots|)
    && (forall i :: 0 <= i < |keys| ==> |keys[i]| < 0x1_0000)
    && (forall i :: 0 <= i < |slots| ==> slots[i].stored == !IsInline(slots[i].kind, small))
    && (forall i :: 0 <= i < |slots| && !slots[i].stored ==> |slots[i].raw| == OffsetSize(small))
  }

  /** The six parts of a container, each at its place. */
  ghost predicate LaidOut(data: seq<byte>, small: bool, keys: seq<seq<byte>>, slots: seq<Slot>)
  {
    var os := OffsetSize(small);
    var head := Head(small, |keys|, |slots|);
    && HasAt(data, 0, Le(|slots|, os))
    && HasAt(data, os, Le(Size(small, keys, slots), os))
    && HasAt(data, 2 * os, Concat(KeyEntries(small, head, keys)))
    && HasAt(data, 2 * os + |keys| * KeyEntrySize(small), Concat(ValueEntries(small, head + |Concat(keys)|, slots)))
    && HasAt(data, head, Concat(keys))
    && HasAt(data, head + |Concat(keys)|, Concat(Blobs(slots)))
  }

  lemma EntriesWidth(small: bool, keys: seq<seq<byte>>, slots: seq<Slot>)
    requires LayoutFits(small, keys, slots)
    ensures var head := Head(small, |keys|, |slots|); var start := head + |Concat(keys)|;
            && |Concat(KeyEntries(small, head, keys))| == |keys| * KeyEntrySize(small)
            && |Concat(ValueEntries(small, start, slots))| == |slots| * ValueEntrySize(small)
            && (forall i :: 0 <= i <= |keys| ==>
                  |Concat(KeyEntries(small, head, keys)[..i])| == KeyEntrySize(small) * i)
            && (forall i :: 0 <= i <= |slots| ==>
                  |Concat(ValueEntries(small, start, slots)[..i])| == ValueEntrySize(small) * i)
  {
    hide Concat, Head, Size, KeyEntry;
    var head := Head(small, |keys|, |slots|);
    var start := head + |Concat(keys)|;
    var ke, ve := KeyEntries(small, head, keys), ValueEntries(small, start, slots);
    assert ke[..|keys|] == ke && ve[..|slots|] == ve;
    forall i | 0 <= i <= |keys| ensures |Concat(ke[..i])| == KeyEntrySize(small) * i
    {
      ConcatWidth(ke, KeyEntrySize(small), i);
    }
    forall i | 0 <= i <= |slots| ensures |Concat(ve[..i])| == ValueEntrySize(small) * i
    {
      ConcatWidth(ve, ValueEntrySize(small), i);
    }
  }

  lemma SixParts(a: seq<byte>, b: seq<byte>, c: seq<byte>, d: seq<byte>, e: seq<byte>, f: seq<byte>, rest: seq<byte>)
    ensures var all := a + (b + (c + (d + (e + f)))); var data := all + rest;
            && |all| == |a| + |b| + |c| + |d| + |e| + |f|
            && HasAt(data, 0, a) && HasAt(data, |a|, b) && HasAt(data, |a| + |b|, c) && HasAt(data, |a| + |b| + |c|, d)
            && HasAt(data, |a| + |b| + |c| + |d|, e) && HasAt(data, |a| + |b| + |c| + |d| + |e|, f)
  {
    hide HasAt;
    var all := a + (b + (c + (d + (e + f))));
    HasStart(all, rest);
    HasBoth(all + rest, 0, a, b + (c + (d + (e + f))));
    HasBoth(all + rest, |a|, b, c + (d + (e + f)));
    HasBoth(all + rest, |a| + |b|, c, d + (e + f));
    HasBoth(all + rest, |a| + |b| + |c|, d, e + f);
    HasBoth(all + rest, |a| + |b| + |c| + |d|, e, f);
  }

  lemma AssembledIsLaidOut(small: bool, keys: seq<seq<byte>>, slots: seq<Slot>, rest: seq<byte>)
    requires LayoutFits(small, keys, slots)
    ensures LaidOut(Assemble(small, keys, slots) + rest, small, keys, slots)
    ensures |Assemble(small, keys, slots)| == Size(small, keys, slots)
  {
    hide Concat, HasAt, Le, KeyEntries, ValueEntries, LayoutFits, Blobs;
    EntriesWidth(small, keys, slots);
    var os := OffsetSize(small);
    var head := Head(small, |keys|, |slots|);
    SixParts(Le(|slots|, os), Le(Size(small, keys, slots), os), Concat(KeyEntries(small, head, keys)),
             Concat(ValueEntries(small, head + |Concat(keys)|, slots)), Concat(keys), Concat(Blobs(slots)), rest);
  }

  lemma FrameReads(data: seq<byte>, small: bool, isObject: bool, keys: seq<seq<byte>>, slots: seq<Slot>)
    requires LayoutFits(small, keys, slots) && LaidOut(data, small, keys, slots)
    requires |data| >= Size(small, keys, slots) && |keys| == (if isObject then |slots| else 0)
    ensures ReadFrame(data, small, isObject) == Ok(Frame(small, isObject, |slots|))
  {
    hide HasAt, Concat, Le, Unsigned, KeyEntries, ValueEntries, Blobs;
    var size := Size(small, keys, slots);
    assert |slots| <= size;
    ReadsNumber(data, 0, |slots|, OffsetSize(small));
    ReadsNumber(data, OffsetSize(small), size, OffsetSize(small));
    assert From(data, 0) == data;
    assert HeaderSize(Frame(small, isObject, |slots|)) == Head(small, |keys|, |slots|);
  }

  lemma KeyFound(data: seq<byte>, small: bool, keys: seq<seq<byte>>, slots: seq<Slot>, i: nat)
    requires LayoutFits(small, keys, slots) && LaidOut(data, small, keys, slots) && i < |keys|
    ensures var head := Head(small, |keys|, |slots|); var offset := head + |Concat(keys[..i])|;
            && HasAt(data, 2 * OffsetSize(small) + KeyEntrySize(small) * i, KeyEntry(small, head, keys, i))
            && HasAt(data, offset, keys[i]) && offset <= Size(small, keys, slots)
  {
    hide Concat, KeyEntry, ValueEntries, Blobs, HasAt, LayoutFits, OffsetSize, Head, KeyEntrySize;
    EntriesWidth(small, keys, slots);
    var head := Head(small, |keys|, |slots|);
    HasPart(data, 2 * OffsetSize(small), KeyEntries(small, head, keys), i);
    HasPart(data, head, keys, i);
    ConcatPrefix(keys, i);
  }

  lemma EntryReads(data: seq<byte>, entry: nat, offset: nat, key: seq<byte>, small: bool)
    requires HasAt(data, entry, Le(offset, OffsetSize(small)) + Le(|key|, 2)) && HasAt(data, offset, key)
    requires offset < Pow256(OffsetSize(small)) && |key| < 0x1_0000
    ensures DecodeCount(From(data, entry), small) == Ok(offset)
    ensures DecodeUint(From(data, entry + OffsetSize(small))) == |key|
    ensures Take(From(data, offset), |key|) == key
  {
    hide Le, FromLe, HasAt, OffsetSize, Pow256;
    var os := OffsetSize(small);
    HasBoth(data, entry, Le(offset, os), Le(|key|, 2));
    ReadsNumber(data, entry, offset, os);
    Pow256Values();
    ReadsNumber(data, entry + os, |key|, 2);
    Sliced(data, offset, key);
  }

  lemma KeyReads(data: seq<byte>, small: bool, keys: seq<seq<byte>>, slots: seq<Slot>, i: nat)
    requires LayoutFits(small, keys, slots) && LaidOut(data, small, keys, slots) && i < |keys|
    ensures KeyAt(data, Frame(small, true, |slots|), i) == Ok(keys[i])
  {
    hide Concat, Le, Blobs, HasAt, LaidOut, Size, Head, OffsetSize, Pow256, DecodeCount, DecodeUint, From, Take;
    KeyFound(data, small, keys, slots, i);
    var entry := 2 * OffsetSize(small) + KeyEntrySize(small) * i;
    EntryReads(data, entry, Head(small, |keys|, |slots|) + |Concat(keys[..i])|, keys[i], small);
  }

  lemma Sliced(data: seq<byte>, p: nat, x: seq<byte>)
    requires HasAt(data, p, x)
    ensures Take(From(data, p), |x|) == x && p <= |data| && data[p..] == x + data[p + |x|..]
  {
  }

  lemma {:induction false} KeysRead(data: seq<byte>, small: bool, keys: seq<seq<byte>>, slots: seq<Slot>, n: nat)
    requires LayoutFits(small, keys, slots) && LaidOut(data, small, keys, slots) && n <= |keys|
    ensures Keys(data, Frame(small, true, |slots|), n) == Ok(keys[..n])
  {
    hide LayoutFits, LaidOut, KeyAt;
    if n > 0 {
      KeysRead(data, small, keys, slots, n - 1);
      KeyReads(data, small, keys, slots, n - 1);
      assert keys[..n] == keys[..n - 1] + [keys[n - 1]];
    }
  }

  lemma SlotFound(data: seq<byte>, small: bool, isObject: bool, keys: seq<seq<byte>>, slots: seq<Slot>, i: nat)
    requires LayoutFits(small, keys, slots) && LaidOut(data, small, keys, slots) && i < |slots|
    requires |keys| == if isObject then |slots| else 0
    ensures var start := Head(small, |keys|, |slots|) + |Concat(keys)|;
            var offset := start + |Concat(Blobs(slots)[..i])|;
            && HasAt(data, EntryOffset(Frame(small, isObject, |slots|), i), ValueEntry(small, start, slots, i))
            && HasAt(data, offset, Blobs(slots)[i]) && 0 < offset <= Size(small, keys, slots)
  {
    hide Concat, KeyEntries, ValueEntry, HasAt, LayoutFits, OffsetSize, KeyEntrySize;
    EntriesWidth(small, keys, slots);
    var start := Head(small, |keys|, |slots|) + |Concat(keys)|;
    HasPart(data, 2 * OffsetSize(small) + |keys| * KeyEntrySize(small), ValueEntries(small, start, slots), i);
    HasPart(data, start, Blobs(slots), i);
    ConcatPrefix(Blobs(slots), i);
    assert OffsetSize(small) > 0 by { SizeIsPositive(small); }
  }

  lemma SizeIsPositive(small: bool)
    ensures OffsetSize(small) > 0
  {
  }

  lemma LocateInside(data: seq<byte>, f: Frame, i: nat, kind: byte, raw: seq<byte>)
    requires HasAt(data, EntryOffset(f, i), [kind] + raw) && IsInline(kind, f.small) && |raw| == OffsetSize(f.small)
    ensures Locate(data, f, i) == Ok(Inside(kind, raw))
  {
    hide HasAt, EntryOffset;
    var entry := EntryOffset(f, i);
    HasBoth(data, entry, [kind], raw);
    Sliced(data, entry, [kind]);
    Sliced(data, entry + 1, raw);
  }

  lemma LocateAt(data: seq<byte>, f: Frame, i: nat, kind: byte, offset: nat)
    requires HasAt(data, EntryOffset(f, i), [kind] + Le(offset, OffsetSize(f.small))) && !IsInline(kind, f.small)
    requires offset < Pow256(OffsetSize(f.small)) && offset <= |data|
    ensures Locate(data, f, i) == Ok(At(kind, offset))
  {
    hide HasAt, EntryOffset, Le, Pow256, Unsigned;
    var entry := EntryOffset(f, i);
    HasBoth(data, entry, [kind], Le(offset, OffsetSize(f.small)));
    Sliced(data, entry, [kind]);
    ReadsNumber(data, entry + 1, offset, OffsetSize(f.small));
  }

  /** Where the reader finds slot i: its raw bytes inline, or a positive offset at which they stand. */
  lemma SlotLocated(data: seq<byte>, small: bool, isObject: bool, keys: seq<seq<byte>>, slots: seq<Slot>, i: nat)
    requires LayoutFits(small, keys, slots) && LaidOut(data, small, keys, slots) && i < |slots|
    requires |keys| == if isObject then |slots| else 0
    ensures var place := Locate(data, Frame(small, isObject, |slots|), i);
            if slots[i].stored
            then place.Ok? && place.value.At? && place.value.kind == slots[i].kind && place.value.offset > 0
                 && HasAt(data, place.value.offset, slots[i].raw)
            else place == Ok(Inside(slots[i].kind, slots[i].raw))
  {
    hide Concat, Le, HasAt, LaidOut, Size, Head, Locate, EntryOffset, Pow256, IsInline;
    SlotFound(data, small, isObject, keys, slots, i);
    var f := Frame(small, isObject, |slots|);
    if slots[i].stored {
      var offset := Head(small, |keys|, |slots|) + |Concat(keys)| + |Concat(Blobs(slots)[..i])|;
      Sliced(data, offset, slots[i].raw);
      LocateAt(data, f, i, slots[i].kind, offset);
    } else {
      LocateInside(data, f, i, slots[i].kind, slots[i].raw);
    }
  }

  /** Every continuation of the blob parses to v. */
  ghost predicate Decodes(kind: byte, blob: seq<byte>, v: Json)
  {
    forall rest: seq<byte> :: Parse(kind, blob + rest, {}) == Ok(v)
  }

  ghost predicate SlotDecodes(s: Slot, v: Json)
  {
    if s.stored then Decodes(s.kind, s.raw, v) else ParseScalar(s.kind, s.raw) == Ok(v)
  }

  lemma {:induction false} ValuesRead(data: seq<byte>, small: bool, isObject: bool, keys: seq<seq<byte>>,
                                      slots: seq<Slot>, vs: seq<Json>,
                                      n: nat, visited: set<byte>)
    requires LayoutFits(small, keys, slots) && LaidOut(data, small, keys, slots)
    requires |keys| == if isObject then |slots| else 0
    requires |vs| == |slots| && n <= |slots| && forall i :: 0 <= i < |slots| ==> SlotDecodes(slots[i], vs[i])
    ensures Values(data, Frame(small, isObject, |slots|), n, visited) == Ok(Some(vs[..n]))
  {
    hide LayoutFits, LaidOut, Locate, Parse, ParseScalar;
    if n > 0 {
      ValuesRead(data, small, isObject, keys, slots, vs, n - 1, visited);
      SlotLocated(data, small, isObject, keys, slots, n - 1);
      assert vs[..n] == vs[..n - 1] + [vs[n - 1]];
      var s := slots[n - 1];
      assert SlotDecodes(s, vs[n - 1]);
      if s.stored {
        var offset := Locate(data, Frame(small, isObject, |slots|), n - 1).value.offset;
        Sliced(data, offset, s.raw);
        assert Parse(s.kind, s.raw + data[offset + |s.raw|..], {}) == Ok(vs[n - 1]);
      }
    }
  }

  function ContainerKind(small: bool, isObject: bool): byte
  {
    if isObject then (if small then SMALL_OBJECT else LARGE_OBJECT) else if small then SMALL_ARRAY else LARGE_ARRAY
  }

  function Whole(isObject: bool, keys: seq<seq<byte>>, vs: seq<Json>): Json
    requires isObject ==> |keys| == |vs|
  {
    if isObject then JObject(Dict(keys, vs, |vs|)) else JArray(vs)
  }

  /** A container parses once its three readers have succeeded. */
  lemma ParseOfParts(small: bool, isObject: bool, data: seq<byte>, keys: seq<seq<byte>>, vs: seq<Json>)
    requires ReadFrame(data, small, isObject) == Ok(Frame(small, isObject, |vs|))
    requires isObject ==> Keys(data, Frame(small, true, |vs|), |vs|) == Ok(keys) && |keys| == |vs|
    requires Values(data, Frame(small, isObject, |vs|), |vs|, {ContainerKind(small, isObject)}) == Ok(Some(vs))
    ensures Parse(ContainerKind(small, isObject), data, {}) == Ok(Whole(isObject, keys, vs))
  {
    hide ReadFrame, Keys, Values, Dict;
    var kind := ContainerKind(small, isObject);
    assert {} + {kind} == {kind};
    assert small == (kind == SMALL_OBJECT || kind == SMALL_ARRAY) && isObject == (kind <= LARGE_OBJECT);
  }

  lemma ContainerDecodes(small: bool, isObject: bool, keys: seq<seq<byte>>, slots: seq<Slot>, vs: seq<Json>)
    requires LayoutFits(small, keys, slots) && |keys| == if isObject then |slots| else 0
    requires |vs| == |slots| && forall i :: 0 <= i < |slots| ==> SlotDecodes(slots[i], vs[i])
    ensures Decodes(ContainerKind(small, isObject), Assemble(small, keys, slots), Whole(isObject, keys, vs))
  {
    hide LayoutFits, LaidOut, ReadFrame, Keys, Values, SlotDecodes, Assemble, Whole, Parse;
    var kind := ContainerKind(small, isObject);
    forall rest: seq<byte> ensures Parse(kind, Assemble(small, keys, slots) + rest, {}) == Ok(Whole(isObject, keys, vs))
    {
      var data := Assemble(small, keys, slots) + rest;
      AssembledIsLaidOut(small, keys, slots, rest);
      FrameReads(data, small, isObject, keys, slots);
      if isObject { KeysRead(data, small, keys, slots, |keys|); }
      assert keys[..|keys|] == keys && vs[..|vs|] == vs;
      ValuesRead(data, small, isObject, keys, slots, vs, |slots|, {kind});
      ParseOfParts(small, isObject, data, keys, vs);
    }
  }

  // ----- scalars are read as they were written

  function Pow128(k: nat): (p: nat)
    ensures p >= 1
  {
    if k == 0 then 1 else 128 * Pow128(k - 1)
  }

  /** A varint is read back within k bytes exactly when the number has at most 7k bits. */
  lemma {:induction false} VarintRoundTrip(n: nat, k: nat, rest: seq<byte>)
    requires k > 0
    ensures n < Pow128(k) ==> Varint(EncodeVarint(n) + rest, k) == Some((n, |EncodeVarint(n)|))
    ensures n >= Pow128(k) ==> Varint(EncodeVarint(n) + rest, k) == None
    decreases k
  {
    var data := EncodeVarint(n) + rest;
    if n < 128 {
      assert data[0] == n;
    } else {
      assert data[1..] == EncodeVarint(n / 128) + rest;
      if k > 1 { VarintRoundTrip(n / 128, k - 1, rest); }
    }
  }

  /** decode_variable_length inverts the encoding of exactly the numbers below 2^35, and returns zeros
      for all others. */
  lemma VariableLengthRoundTrip(n: nat, rest: seq<byte>)
    ensures VariableLength(EncodeVarint(n) + rest) == if n < 0x8_0000_0000 then (n, |EncodeVarint(n)|) else (0, 0)
  {
    hide Varint, EncodeVarint;
    assert Pow128(5) == 0x8_0000_0000;
    VarintRoundTrip(n, 5, rest);
  }

  lemma IntegerReads(n: int, k: nat, signed: bool, rest: seq<byte>)
    requires var p: int := Pow256(k); if signed then -p <= 2 * n < p else 0 <= n < p
    ensures TwosComplement(n, k) >= 0
    ensures ParseInteger(Le(TwosComplement(n, k), k) + rest, k, signed) == Ok(JInt(n))
  {
    hide Le, FromLe;
    var m := TwosComplement(n, k);
    HasStart(Le(m, k), rest);
    ReadsNumber(Le(m, k) + rest, 0, m, k);
    assert From(Le(m, k) + rest, 0) == Le(m, k) + rest;
  }

  lemma TextReads(raw: seq<byte>, rest: seq<byte>)
    requires |raw| < 0x8_0000_0000
    ensures ParseString(EncodeVarint(|raw|) + raw + rest) == JString(raw)
  {
    hide VariableLength, EncodeVarint;
    var v := EncodeVarint(|raw|);
    assert v + raw + rest == v + (raw + rest);
    VariableLengthRoundTrip(|raw|, raw + rest);
    assert From(v + (raw + rest), |v|) == raw + rest;
  }

  lemma NumberReads(size: NumType, n: int, rest: seq<byte>)
    requires InRange(size, n)
    ensures ParseScalar(NumCode(size), Encode(Number(size, n)) + rest) == Ok(JInt(n))
  {
    hide ParseInteger, Le, TwosComplement, Pow256;
    IntegerReads(n, Width(size), Signed(size), rest);
  }

  lemma PackedReads(n: nat)
    requires 2 * n < 0x1_0000_0000_0000_0000
    ensures ParsePacked(Le(n, 8)) == Ok(n)
  {
    hide Le, FromLe, Pow256;
    Pow256Values();
    FromLeOfLe(n, 8);
    assert Le(n, 8)[..8] == Le(n, 8);
  }

  lemma PackedBounds(d: Day, c: Clock)
    requires ValidDay(d) && ValidClock(c)
    ensures 2 * PackDate(d, c) < 0x1_0000_0000_0000_0000
  {
    assert PackDay(d) <= 4_160_031;
    ClockBound(c);
    hide PackDay, PackClock;
  }

  lemma DecimalSize(precision: byte, scale: byte)
    requires scale <= precision
    ensures D.EncodedSize(D.ShapeOf(precision, scale)) < 0x1_0000
  {
    var h := D.ShapeOf(precision, scale);
    assert h.whole <= 28 && h.fraction <= 28;
  }

  lemma DecimalDecodes(field: byte, precision: byte, scale: byte, b: seq<byte>, d: D.Decimal)
    requires field in DECIMAL_FIELDS && D.BytesDecimal(b, D.BytesShape(precision, scale)) == Ok(d)
    ensures DecodeOpaque(field, [precision, scale] + b) == Ok(OpaqueDecimal(d))
  {
    hide D.BytesDecimal, D.BytesShape;
    var data := [precision, scale] + b;
    assert data[2..] == b && data[0] == precision && data[1] == scale;
  }

  lemma DecimalPayload(t: Tree)
    requires t.Dec? && Encodable(t)
    ensures |Payload(t)| < 0x8_0000_0000
    ensures DecodeOpaque(t.field, Payload(t)) == Ok(OpaqueDecimal(D.Decimal(t.negative, t.digits, t.scale)))
  {
    hide D.BytesDecimal, D.Encode, D.Pow10, D.EncodedSize, DecodeOpaque, D.PacketDecimal;
    var h := D.ShapeOf(t.precision, t.scale);
    var b := D.Encode(t.negative, t.digits, h);
    DecimalSize(t.precision, t.scale);
    DecimalDecoders.BothDecodersInvert(t.negative, t.digits, t.precision, t.scale, []);
    assert b + [] == b;
    DecimalDecodes(t.field, t.precision, t.scale, b, D.Decimal(t.negative, t.digits, t.scale));
  }

  /** The payload of an opaque value means the value. */
  lemma PayloadDecodes(t: Tree)
    requires IsOpaque(t) && Encodable(t)
    ensures |Payload(t)| < 0x8_0000_0000
    ensures DecodeOpaque(Field(t), Payload(t)).Ok? && Meaning(t) == JOpaque(DecodeOpaque(Field(t), Payload(t)).value)
  {
    hide ParsePacked, UnpackTime, UnpackDate, PackTime, PackDate, ParseDecimalValue;
    match t {
      case Dec(_, _, _, _, _) => DecimalPayload(t);
      case Time(_, clock) => TimePayload(clock);
      case Date(_, day, clock) =>
        CalendarIsValid(day);
        DatePayload(day, clock);
      case Other(_, _) =>
    }
  }

  lemma TimePayload(c: Clock)
    requires ValidClock(c)
    ensures ParsePacked(Le(PackTime(c), 8)) == Ok(PackTime(c)) && UnpackTime(PackTime(c)) == Ok(OpaqueTime(c))
  {
    ClockBound(c);
    hide PackClock, UnpackTime, ParsePacked;
    PackedReads(PackTime(c));
    TimeRoundTrip(c, false);
  }

  lemma DatePayload(d: Day, c: Clock)
    requires ValidDay(d) && ValidClock(c)
    ensures ParsePacked(Le(PackDate(d, c), 8)) == Ok(PackDate(d, c))
    ensures UnpackDate(PackDate(d, c)) == Ok(OpaqueDate(d, c))
  {
    hide PackDate, UnpackDate, ParsePacked;
    PackedBounds(d, c);
    PackedReads(PackDate(d, c));
    DateRoundTrip(d, c);
  }

  lemma OpaqueReads(field: byte, payload: seq<byte>, rest: seq<byte>)
    requires |payload| < 0x8_0000_0000 && DecodeOpaque(field, payload).Ok?
    ensures ParseOpaque([field] + (EncodeVarint(|payload|) + payload) + rest)
            == Ok(JOpaque(DecodeOpaque(field, payload).value))
  {
    hide VariableLength, EncodeVarint, DecodeOpaque;
    var v := EncodeVarint(|payload|);
    var data := [field] + (v + payload) + rest;
    assert data[1..] == v + (payload + rest);
    VariableLengthRoundTrip(|payload|, payload + rest);
    assert From(v + (payload + rest), |v|) == payload + rest;
    assert Take(payload + rest, |payload|) == payload;
  }

  lemma OpaqueEncoding(t: Tree)
    requires IsOpaque(t)
    ensures Encode(t) == [Field(t)] + (EncodeVarint(|Payload(t)|) + Payload(t))
  {
    hide Payload, EncodeVarint;
  }

  lemma OpaqueIsScalar(data: seq<byte>)
    ensures Parse(OPAQUE, data, {}) == ParseOpaque(data)
  {
    hide ParseOpaque, ParseLiteral, ParseInteger, ParseString;
  }

  lemma OpaqueTreeDecodes(t: Tree)
    requires Encodable(t) && IsOpaque(t)
    ensures Decodes(OPAQUE, Encode(t), Meaning(t))
  {
    hide Encode, Meaning, Payload, Field, DecodeOpaque, EncodeVarint, ParseOpaque, Encodable, Parse;
    PayloadDecodes(t);
    OpaqueEncoding(t);
    forall rest: seq<byte> ensures Parse(OPAQUE, Encode(t) + rest, {}) == Ok(Meaning(t))
    {
      OpaqueReads(Field(t), Payload(t), rest);
      OpaqueIsScalar(Encode(t) + rest);
    }
  }

  lemma ScalarDecodes(t: Tree)
    requires Encodable(t) && !t.Array? && !t.Object? && !IsOpaque(t)
    ensures Decodes(Kind(t), Encode(t), Meaning(t))
  {
    forall rest: seq<byte> ensures Parse(Kind(t), Encode(t) + rest, {}) == Ok(Meaning(t))
    {
      hide ParseInteger, ParseString, ParseOpaque, Le, EncodeVarint, TwosComplement, Pow256;
      match t {
        case Null =>
        case Bool(_) =>
        case Float(raw) => assert (raw + rest)[..8] == raw;
        case Text(raw) => TextReads(raw, rest);
        case Number(size, n) =>
          NumberReads(size, n, rest);
          hide Encode, ParseScalar;
      }
    }
  }

  lemma LeFour(m: nat)
    ensures Le(m, 4)[..2] == [m % 256, m / 256 % 256] && Le(m, 4)[0] == m % 256
  {
    assert Le(m / 256, 3) == [m / 256 % 256] + Le(m / 256 / 256, 2);
  }

  /** The low half of a four-byte number. */
  lemma LowHalf(m: nat)
    requires m < 0x1_0000_0000
    ensures FromLe(Le(m, 4)[..2]) == m % 0x1_0000 && Le(m, 4)[0] == m % 256
  {
    hide FromLe, Le;
    LeFour(m);
    FromTwoBytes(m % 256, m / 256 % 256);
  }

  lemma LowByte(m: nat, k: nat)
    requires k > 0 && m < 256
    ensures Le(m, k)[0] == m
  {
  }

  lemma InlineNumber(small: bool, size: NumType, n: int)
    requires InRange(size, n) && Width(size) <= Wide(small)
    ensures TwosComplement(n, OffsetSize(small)) >= 0
    ensures ParseScalar(NumCode(size), Le(TwosComplement(n, OffsetSize(small)), OffsetSize(small))) == Ok(JInt(n))
  {
    hide Le, FromLe, Pow256, ParseLiteral, ParseString, ParseOpaque;
    Pow256Values();
    var os := OffsetSize(small);
    if Width(size) == os {
      IntegerReads(n, os, Signed(size), []);
      assert Le(TwosComplement(n, os), os) + [] == Le(TwosComplement(n, os), os);
    } else {
      LowHalf(TwosComplement(n, 4));
    }
  }

  lemma InlineLiteral(small: bool, t: Tree)
    requires t.Null? || t.Bool?
    ensures ParseScalar(LITERAL, Le(Code(t), OffsetSize(small))) == Ok(Meaning(t))
  {
    hide Le, ParseInteger, ParseString, ParseOpaque;
    LowByte(Code(t), OffsetSize(small));
  }

  /** An inlined value is as wide as an offset, and reads back. */
  lemma InlineDecodes(small: bool, t: Tree)
    requires Encodable(t) && IsInline(Kind(t), small)
    ensures SlotDecodes(SlotOf(small, t), Meaning(t)) && |Inlined(small, t)| == OffsetSize(small)
  {
    hide Le, FromLe, Pow256, Payload, Field, ParseScalar, Encode, TwosComplement;
    if t.Number? {
      InlineNumber(small, t.size, t.n);
    } else {
      InlineLiteral(small, t);
    }
  }

  // ----- the round trip

  lemma SlotsFit(t: Tree)
    requires Encodable(t) && (t.Array? || t.Object?)
    ensures LayoutFits(t.small, if t.Object? then t.keys else [], Slots(t))
  {
    hide Size, Inlined, IsInline;
    forall i | 0 <= i < |t.items| && IsInline(Kind(t.items[i]), t.small)
      ensures |Inlined(t.small, t.items[i])| == OffsetSize(t.small)
    {
      InlineDecodes(t.small, t.items[i]);
    }
  }

  function Meanings(items: seq<Tree>): seq<Json>
  {
    seq(|items|, i requires 0 <= i < |items| => Meaning(items[i]))
  }

  /** Whatever follows it, the encoding of a document parses to the document. */
  lemma {:induction false} JsonRoundTrip(t: Tree)
    requires Encodable(t)
    ensures Decodes(Kind(t), Encode(t), Meaning(t))
    decreases t
  {
    if t.Array? || t.Object? {
      hide Decodes, Assemble, LayoutFits, Dict, ParseScalar, IsInline, Inlined, Payload, Field;
      var slots, vs := Slots(t), Meanings(t.items);
      forall i | 0 <= i < |slots| ensures SlotDecodes(slots[i], vs[i])
      {
        if IsInline(Kind(t.items[i]), t.small) {
          InlineDecodes(t.small, t.items[i]);
        } else {
          JsonRoundTrip(t.items[i]);
        }
      }
      SlotsFit(t);
      ContainerDecodes(t.small, t.Object?, if t.Object? then t.keys else [], slots, vs);
    } else if IsOpaque(t) {
      OpaqueTreeDecodes(t);
    } else {
      ScalarDecodes(t);
    }
  }

  // ----- what dictionaries keep

  lemma {:induction false} PutNew(members: seq<Member>, key: seq<byte>, value: Json)
    requires forall i :: 0 <= i < |members| ==> members[i].key != key
    ensures Put(members, key, value) == members + [Member(key, value)]
  {
    if members != [] {
      PutNew(members[1..], key, value);
      assert members == [members[0]] + members[1..];
    }
  }

  /** With distinct keys an object keeps every member, in order. */
  lemma {:induction false} DistinctKeysKeepAll(keys: seq<seq<byte>>, values: seq<Json>, n: nat)
    requires n <= |keys| && n <= |values| && forall i, j :: 0 <= i < j < n ==> keys[i] != keys[j]
    ensures |Dict(keys, values, n)| == n
    ensures forall i :: 0 <= i < n ==> Dict(keys, values, n)[i] == Member(keys[i], values[i])
  {
    if n > 0 {
      hide Put;
      DistinctKeysKeepAll(keys, values, n - 1);
      PutNew(Dict(keys, values, n - 1), keys[n - 1], values[n - 1]);
    }
  }
}
