/** MySQL's binary JSON as pymysqlreplication/json_binary.py reads it.  Python's recursion has no
    guard: a value offset of zero parses the same bytes again.  The model carries the container kinds
    already being parsed on the same bytes, and reports Diverges where the original would call itself
    with arguments it is still working on. */
module JsonBinary {
  import opened Prelude
  import opened Bytes
  import opened JsonOpaque

  datatype Json =
    | JNull
    | JBool(b: bool)
    | JInt(n: int)
    | JDouble(raw: seq<byte>)
    | JString(raw: seq<byte>)
    | JOpaque(v: OpaqueValue)
    | JArray(items: seq<Json>)
    | JObject(members: seq<Member>)

  datatype Member = Member(key: seq<byte>, value: Json)

  datatype JsonError =
    | ShortData
    | InvalidSize
    | HeaderTooLarge
    | NotLiteral
    | UnknownType
    | BadOpaque(error: OpaqueError)
    | Diverges

  const SMALL_OBJECT: byte := 0
  const LARGE_OBJECT: byte := 1
  const SMALL_ARRAY: byte := 2
  const LARGE_ARRAY: byte := 3
  const LITERAL: byte := 4
  const INT16: byte := 5
  const UINT16: byte := 6
  const INT32: byte := 7
  const UINT32: byte := 8
  const INT64: byte := 9
  const UINT64: byte := 10
  const DOUBLE: byte := 11
  const STRING: byte := 12
  const OPAQUE: byte := 15

  // ----- slices and integers

  /** data[a:] */
  function From(data: seq<byte>, a: nat): seq<byte> { if a <= |data| then data[a..] else [] }

  /** data[:n] */
  function Take(data: seq<byte>, n: nat): seq<byte> { if n <= |data| then data[..n] else data }

  function Unsigned(data: seq<byte>, k: nat): Result<nat, JsonError>
  {
    if |data| < k then Err(ShortData) else Ok(FromLe(data[..k]))
  }

  function OffsetSize(small: bool): nat { if small then 2 else 4 }

  function DecodeCount(data: seq<byte>, small: bool): Result<nat, JsonError> { Unsigned(data, OffsetSize(small)) }

  /** A missing key length reads as zero. */
  function DecodeUint(data: seq<byte>): nat { if |data| < 2 then 0 else FromLe(data[..2]) }

  // ----- variable-length integers

  /** Seven bits a byte, least significant first, the top bit set on all but the last; at most k bytes. */
  function Varint(data: seq<byte>, k: nat): Option<(nat, nat)>
  {
    if k == 0 || data == [] then None
    else if data[0] < 128 then Some((data[0], 1))
    else
      match Varint(data[1..], k - 1)
      case Some(p) => Some((data[0] - 128 + 128 * p.0, 1 + p.1))
      case None => None
  }

  function VariableLength(data: seq<byte>): (nat, nat)
  {
    match Varint(data, 5) case Some(p) => p case None => (0, 0)
  }

  /** A number whose lower digits are already known. */
  function Shifted(length: nat, scale: nat, used: nat, higher: Option<(nat, nat)>): Option<(nat, nat)>
  {
    match higher
    case Some(p) => Some((length + scale * p.0, used + p.1))
    case None => None
  }

  /** Seven bits moved to their place. */
  function Placed(bits: nat, scale: nat): nat { bits * scale }

  lemma VarintStep(data: seq<byte>, k: nat, length: nat, scale: nat, used: nat)
    requires data != [] && k > 0
    ensures Shifted(length, scale, used, Varint(data, k)) ==
            if data[0] < 128 then Some((length + Placed(data[0], scale), used + 1))
            else Shifted(length + Placed(data[0] - 128, scale), 128 * scale, used + 1, Varint(data[1..], k - 1))
  {
    if data[0] >= 128 && Varint(data[1..], k - 1).Some? {
      Distribute(data[0] - 128, scale, Varint(data[1..], k - 1).value.0);
    }
  }

  lemma Distribute(v: nat, scale: nat, p: nat)
    ensures scale * (v + 128 * p) == v * scale + 128 * scale * p
  {
  }

  /** The loop of decode_variable_length; the shifted bits never meet, so or-ing them in is addition. */
  method DecodeVariableLength(data: seq<byte>) returns (length: nat, used: nat)
    ensures (length, used) == VariableLength(data)
  {
    var maxCount := if |data| < 5 then |data| else 5;
    var scale: nat := 1;
    length, used := 0, 0;
    hide Varint, Shifted, Placed;
    assert data[0..] == data;
    ShiftedByNothing(Varint(data, 5));
    while used < maxCount
      invariant used <= maxCount
      invariant Varint(data, 5) == Shifted(length, scale, used, Varint(data[used..], 5 - used))
    {
      var v := data[used];
      VarintStep(data[used..], 5 - used, length, scale, used);
      assert data[used..][1..] == data[used + 1..];
      if v < 128 { return length + Placed(v, scale), used + 1; }
      length := length + Placed(v - 128, scale);
      scale := 128 * scale;
      used := used + 1;
    }
    NoVarint(data[used..], 5 - used, length, scale, used);
    length, used := 0, 0;
  }

  lemma NoVarint(data: seq<byte>, k: nat, length: nat, scale: nat, used: nat)
    requires data == [] || k == 0
    ensures Shifted(length, scale, used, Varint(data, k)) == None
  {
  }

  lemma ShiftedByNothing(higher: Option<(nat, nat)>)
    ensures Shifted(0, 1, 0, higher) == higher
  {
  }

  // ----- scalars

  function ParseLiteral(data: seq<byte>): Result<Json, JsonError>
  {
    if data == [] then Err(ShortData)
    else if data[0] == 0 then Ok(JNull)
    else if data[0] == 1 then Ok(JBool(true))
    else if data[0] == 2 then Ok(JBool(false))
    else Err(NotLiteral)
  }

  function ParseInteger(data: seq<byte>, k: nat, signed: bool): Result<Json, JsonError>
  {
    match Unsigned(data, k)
    case Ok(n) => Ok(JInt(if signed then AsSigned(n, k) else n))
    case Err(e) => Err(e)
  }

  function ParseString(data: seq<byte>): Json
  {
    var (length, used) := VariableLength(data);
    JString(Take(From(data, used), length))
  }

  /** A field type, a length, and the bytes that the field type gives a meaning to. */
  function ParseOpaque(data: seq<byte>): Result<Json, JsonError>
  {
    if data == [] then Ok(JNull)
    else
      var (length, used) := VariableLength(data[1..]);
      match DecodeOpaque(data[0], Take(From(data[1..], used), length))
      case Ok(v) => Ok(JOpaque(v))
      case Err(e) => Err(BadOpaque(e))
  }

  function ParseScalar(kind: byte, data: seq<byte>): Result<Json, JsonError>
  {
    if kind == LITERAL then ParseLiteral(data)
    else if kind == INT16 then ParseInteger(data, 2, true)
    else if kind == UINT16 then ParseInteger(data, 2, false)
    else if kind == INT32 then ParseInteger(data, 4, true)
    else if kind == UINT32 then ParseInteger(data, 4, false)
    else if kind == INT64 then ParseInteger(data, 8, true)
    else if kind == UINT64 then ParseInteger(data, 8, false)
    else if kind == DOUBLE then (if |data| < 8 then Err(ShortData) else Ok(JDouble(data[..8])))
    else if kind == STRING then Ok(ParseString(data))
    else if kind == OPAQUE then ParseOpaque(data)
    else Err(UnknownType)
  }

  // ----- containers

  predicate IsContainer(kind: byte) { kind <= LARGE_ARRAY }

  predicate IsInline(kind: byte, small: bool)
  {
    kind == LITERAL || kind == INT16 || kind == UINT16 || (!small && (kind == INT32 || kind == UINT32))
  }

  datatype Frame = Frame(small: bool, isObject: bool, count: nat)

  function KeyEntrySize(small: bool): nat { 2 + OffsetSize(small) }
  function ValueEntrySize(small: bool): nat { 1 + OffsetSize(small) }

  function HeaderSize(f: Frame): nat
  {
    2 * OffsetSize(f.small) + f.count * ValueEntrySize(f.small)
    + (if f.isObject then f.count * KeyEntrySize(f.small) else 0)
  }

  function ReadFrame(data: seq<byte>, small: bool, isObject: bool): Result<Frame, JsonError>
  {
    match DecodeCount(data, small)
    case Err(e) => Err(e)
    case Ok(count) =>
      match DecodeCount(From(data, OffsetSize(small)), small)
      case Err(e) => Err(e)
      case Ok(size) =>
        if |data| < size then Err(InvalidSize)
        else if HeaderSize(Frame(small, isObject, count)) > size then Err(HeaderTooLarge)
        else Ok(Frame(small, isObject, count))
  }

  function KeyAt(data: seq<byte>, f: Frame, i: nat): Result<seq<byte>, JsonError>
  {
    var entry := 2 * OffsetSize(f.small) + KeyEntrySize(f.small) * i;
    match DecodeCount(From(data, entry), f.small)
    case Err(e) => Err(e)
    case Ok(offset) => Ok(Take(From(data, offset), DecodeUint(From(data, entry + OffsetSize(f.small)))))
  }

  function Keys(data: seq<byte>, f: Frame, n: nat): (r: Result<seq<seq<byte>>, JsonError>)
    ensures r.Ok? ==> |r.value| == n
  {
    if n == 0 then Ok([])
    else
      match Keys(data, f, n - 1)
      case Err(e) => Err(e)
      case Ok(ks) =>
        match KeyAt(data, f, n - 1)
        case Err(e) => Err(e)
        case Ok(k) => Ok(ks + [k])
  }

  /** Where an entry says its value is. */
  datatype Place = Inside(kind: byte, raw: seq<byte>) | At(kind: byte, offset: nat) | Beyond

  function EntryOffset(f: Frame, i: nat): nat
  {
    2 * OffsetSize(f.small) + ValueEntrySize(f.small) * i + (if f.isObject then KeyEntrySize(f.small) * f.count else 0)
  }

  function Locate(data: seq<byte>, f: Frame, i: nat): (r: Result<Place, JsonError>)
    ensures r.Ok? && r.value.At? ==> r.value.offset <= |data|
    ensures r.Ok? && r.value.Inside? ==> !IsContainer(r.value.kind)
  {
    var entry := EntryOffset(f, i);
    if |data| <= entry then Err(ShortData)
    else
      var kind := data[entry];
      if IsInline(kind, f.small) then Ok(Inside(kind, Take(data[entry + 1..], OffsetSize(f.small))))
      else
        match DecodeCount(data[entry + 1..], f.small)
        case Err(e) => Err(e)
        case Ok(offset) => Ok(if |data| < offset then Beyond else At(kind, offset))
  }

  /** out[key] = value: a new key goes last, a known one keeps its place. */
  function Put(members: seq<Member>, key: seq<byte>, value: Json): seq<Member>
  {
    if members == [] then [Member(key, value)]
    else if members[0].key == key then [Member(key, value)] + members[1..]
    else [members[0]] + Put(members[1..], key, value)
  }

  function Dict(keys: seq<seq<byte>>, values: seq<Json>, n: nat): seq<Member>
    requires n <= |keys| && n <= |values|
  {
    if n == 0 then [] else Put(Dict(keys, values, n - 1), keys[n - 1], values[n - 1])
  }

  function One(kind: byte, visited: set<byte>): nat { if kind in visited then 0 else 1 }

  /** How many container kinds may still be entered on the same bytes. */
  function Left(visited: set<byte>): nat
  {
    One(SMALL_OBJECT, visited) + One(LARGE_OBJECT, visited) + One(SMALL_ARRAY, visited) + One(LARGE_ARRAY, visited)
  }

  function Finish(f: Frame, keys: seq<seq<byte>>, values: Option<seq<Json>>): Json
    requires values.Some? ==> |values.value| == f.count && (f.isObject ==> |keys| == f.count)
  {
    match values
    case None => JNull
    case Some(vs) => if f.isObject then JObject(Dict(keys, vs, f.count)) else JArray(vs)
  }

  function ParseKeys(data: seq<byte>, f: Frame): (r: Result<seq<seq<byte>>, JsonError>)
    ensures r.Ok? && f.isObject ==> |r.value| == f.count
  {
    if f.isObject then Keys(data, f, f.count) else Ok([])
  }

  function Parse(kind: byte, data: seq<byte>, visited: set<byte>): Result<Json, JsonError>
    decreases |data|, Left(visited), 0, 0
  {
    if !IsContainer(kind) then ParseScalar(kind, data)
    else if kind in visited then Err(Diverges)
    else
      match ReadFrame(data, kind == SMALL_OBJECT || kind == SMALL_ARRAY, kind <= LARGE_OBJECT)
      case Err(e) => Err(e)
      case Ok(f) =>
        match ParseKeys(data, f)
        case Err(e) => Err(e)
        case Ok(keys) =>
          match Values(data, f, f.count, visited + {kind})
          case Err(e) => Err(e)
          case Ok(values) => Ok(Finish(f, keys, values))
  }

  /** The first n values in order, or None as soon as one lies beyond the data. */
  function Values(data: seq<byte>, f: Frame, n: nat, visited: set<byte>): (r: Result<Option<seq<Json>>, JsonError>)
    ensures r.Ok? && r.value.Some? ==> |r.value.value| == n
    decreases |data|, Left(visited), 1, n
  {
    if n == 0 then Ok(Some([]))
    else
      match Values(data, f, n - 1, visited)
      case Err(e) => Err(e)
      case Ok(None) => Ok(None)
      case Ok(Some(vs)) =>
        match Locate(data, f, n - 1)
        case Err(e) => Err(e)
        case Ok(Beyond) => Ok(None)
        case Ok(Inside(kind, raw)) => Append(vs, ParseScalar(kind, raw))
        case Ok(At(kind, offset)) => Append(vs, Parse(kind, data[offset..], if offset == 0 then visited else {}))
  }

  function Append(vs: seq<Json>, v: Result<Json, JsonError>): (r: Result<Option<seq<Json>>, JsonError>)
    ensures r.Ok? ==> r.value.Some? && |r.value.value| == |vs| + 1
  {
    match v
    case Ok(value) => Ok(Some(vs + [value]))
    case Err(e) => Err(e)
  }

  // ----- the reader with its loops

  lemma {:induction false} ValuesStop(data: seq<byte>, f: Frame, i: nat, n: nat, visited: set<byte>)
    requires i <= n && !(Values(data, f, i, visited).Ok? && Values(data, f, i, visited).value.Some?)
    ensures Values(data, f, n, visited) == Values(data, f, i, visited)
  {
    if i < n { ValuesStop(data, f, i, n - 1, visited); }
  }

  lemma {:induction false} KeysStop(data: seq<byte>, f: Frame, i: nat, n: nat)
    requires i <= n && Keys(data, f, i).Err?
    ensures Keys(data, f, n) == Keys(data, f, i)
  {
    hide KeyAt;
    if i < n { KeysStop(data, f, i, n - 1); }
  }

  method ParseJson(kind: byte, data: seq<byte>, visited: set<byte>) returns (r: Result<Json, JsonError>)
    ensures r == Parse(kind, data, visited)
    decreases |data|, Left(visited), 1
  {
    if IsContainer(kind) {
      r := ParseObjectOrArray(kind, data, visited);
    } else if kind == STRING {
      var length, used := DecodeVariableLength(data);
      r := Ok(JString(Take(From(data, used), length)));
    } else {
      r := ParseScalar(kind, data);
    }
  }

  method ReadKeys(data: seq<byte>, f: Frame) returns (r: Result<seq<seq<byte>>, JsonError>)
    ensures r == ParseKeys(data, f)
  {
    var keys: seq<seq<byte>> := [];
    if f.isObject {
      for i := 0 to f.count
        invariant Keys(data, f, i) == Ok(keys)
      {
        var key := KeyAt(data, f, i);
        if key.Err? {
          KeysStop(data, f, i + 1, f.count);
          return Err(key.error);
        }
        keys := keys + [key.value];
      }
    }
    r := Ok(keys);
  }

  /** One more value. */
  lemma ValuesNext(data: seq<byte>, f: Frame, i: nat, vs: seq<Json>, visited: set<byte>)
    requires Values(data, f, i, visited) == Ok(Some(vs))
    ensures Values(data, f, i + 1, visited) ==
            match Locate(data, f, i)
            case Err(e) => Err(e)
            case Ok(Beyond) => Ok(None)
            case Ok(Inside(kind, raw)) => Append(vs, ParseScalar(kind, raw))
            case Ok(At(kind, offset)) => Append(vs, Parse(kind, data[offset..], if offset == 0 then visited else {}))
  {
    hide Locate, ParseScalar, Parse, Append;
  }

  lemma NoValues(data: seq<byte>, f: Frame, visited: set<byte>)
    ensures Values(data, f, 0, visited) == Ok(Some([]))
  {
  }

  method ReadValues(data: seq<byte>, f: Frame, visited: set<byte>) returns (r: Result<Option<seq<Json>>, JsonError>)
    ensures r == Values(data, f, f.count, visited)
    decreases |data|, Left(visited), 2
  {
    hide Locate, Parse, ParseScalar, Values;
    var values: seq<Json> := [];
    NoValues(data, f, visited);
    for i := 0 to f.count
      invariant Values(data, f, i, visited) == Ok(Some(values))
    {
      ValuesNext(data, f, i, values, visited);
      var place := Locate(data, f, i);
      if place.Err? {
        ValuesStop(data, f, i + 1, f.count, visited);
        return Err(place.error);
      }
      if place.value.Beyond? {
        ValuesStop(data, f, i + 1, f.count, visited);
        return Ok(None);
      }
      var value;
      if place.value.Inside? {
        value := ParseScalar(place.value.kind, place.value.raw);
      } else {
        var offset := place.value.offset;
        value := ParseJson(place.value.kind, data[offset..], if offset == 0 then visited else {});
      }
      if value.Err? {
        ValuesStop(data, f, i + 1, f.count, visited);
        return Err(value.error);
      }
      values := values + [value.value];
    }
    r := Ok(Some(values));
  }

  method BuildDict(keys: seq<seq<byte>>, values: seq<Json>) returns (out: seq<Member>)
    requires |keys| == |values|
    ensures out == Dict(keys, values, |values|)
  {
    out := [];
    for i := 0 to |values|
      invariant out == Dict(keys, values, i)
    {
      out := Put(out, keys[i], values[i]);
    }
  }

  method ParseObjectOrArray(kind: byte, data: seq<byte>, visited: set<byte>) returns (r: Result<Json, JsonError>)
    requires IsContainer(kind)
    ensures r == Parse(kind, data, visited)
    decreases |data|, Left(visited), 0
  {
    hide ReadFrame, ParseKeys, Values, Dict;
    if kind in visited { return Err(Diverges); }
    var frame := ReadFrame(data, kind == SMALL_OBJECT || kind == SMALL_ARRAY, kind <= LARGE_OBJECT);
    if frame.Err? { return Err(frame.error); }
    var f := frame.value;
    FrameCopies(data, kind == SMALL_OBJECT || kind == SMALL_ARRAY, kind <= LARGE_OBJECT);
    var keys := ReadKeys(data, f);
    if keys.Err? { return Err(keys.error); }
    var values := ReadValues(data, f, visited + {kind});
    if values.Err? { return Err(values.error); }
    if values.value.None? { return Ok(JNull); }
    if !f.isObject { return Ok(JArray(values.value.value)); }
    var out := BuildDict(keys.value, values.value.value);
    r := Ok(JObject(out));
  }

  lemma FrameCopies(data: seq<byte>, small: bool, isObject: bool)
    requires ReadFrame(data, small, isObject).Ok?
    ensures ReadFrame(data, small, isObject).value.isObject == isObject
  {
  }
}
