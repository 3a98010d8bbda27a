/** Row events (pymysqlreplication/row_event.py): row images with a bitmap of present columns and a
    bitmap of NULLs, over integer, decimal, year and byte columns, and the loop that fetches all rows. */
module RowImages {
  import opened Prelude
  import opened Bytes
  import opened Bitmaps
  import opened Packets
  import opened Decimals
  import opened DecimalDecoders

  datatype IntType = Tiny | Short | Int24 | Long | LongLong

  /** Strings, blobs and geometries are length-prefixed bytes; floats and doubles are fixed-width bytes. */
  datatype Column =
    | IntColumn(size: IntType, unsigned: bool)
    | DecimalColumn(precision: nat, decimals: nat)
    | BytesColumn(lengthSize: nat)
    | FixedColumn(width: nat)
    | YearColumn

  datatype Value = Int(n: int) | Dec(d: Decimal) | Raw(bytes: seq<byte>)

  /** A column of a row: not in the image, NULL, or a value. */
  datatype Cell = Absent | Null | Present(value: Value)

  type Image = seq<Cell>

  datatype RowError = ShortRow | ShortBitmap | BadDecimal | Diverges

  predicate ColumnOk(c: Column)
  {
    && (c.DecimalColumn? ==> 1 <= c.precision && c.decimals <= c.precision)
    && (c.BytesColumn? ==> 1 <= c.lengthSize <= 8)
    && (c.FixedColumn? ==> c.width == 4 || c.width == 8)
  }

  predicate ColumnsOk(cols: seq<Column>) { forall i :: 0 <= i < |cols| ==> ColumnOk(cols[i]) }

  function Width(t: IntType): nat
  {
    match t case Tiny => 1 case Short => 2 case Int24 => 3 case Long => 4 case LongLong => 8
  }

  // ----- reading, on the bytes that are left

  /** A value and the bytes after it. */
  function ReadValue(c: Column, b: seq<byte>): (r: Result<(Value, seq<byte>), RowError>)
    requires ColumnOk(c)
    ensures r.Ok? ==> |r.value.1| <= |b| && r.value.1 == b[|b| - |r.value.1|..]
  {
    match c
    case IntColumn(size, unsigned) =>
      var w := Width(size);
      if |b| < w then Err(ShortRow)
      else Ok((Int(if unsigned then FromLe(b[..w]) else SignedLe(b[..w])), b[w..]))
    case DecimalColumn(precision, decimals) =>
      var h := ShapeOf(precision, decimals);
      (match PacketDecimal(b, h)
       case Ok(d) => if |b| < EncodedSize(h) then Err(ShortRow) else Ok((Dec(d), b[EncodedSize(h)..]))
       case Err(ShortData) => Err(ShortRow)
       case Err(InvalidText) => Err(BadDecimal))
    case BytesColumn(k) =>
      if |b| < k then Err(ShortRow)
      else
        var n := FromLe(b[..k]);
        if |b| < k + n then Err(ShortRow) else Ok((Raw(b[k..k + n]), b[k + n..]))
    case FixedColumn(w) => if |b| < w then Err(ShortRow) else Ok((Raw(b[..w]), b[w..]))
    case YearColumn => if |b| < 1 then Err(ShortRow) else Ok((Int(1900 + b[0] as int), b[1..]))
  }

  /** A present column's NULL bit, at its rank among the present columns, is inside the NULL bitmap. */
  lemma NullBitInBounds(present: seq<byte>, nulls: seq<byte>, i: nat)
    requires i < 8 * |present| && BitGet(present, i) && |nulls| == NullBytes(Rank(present, 8 * |present|))
    ensures Rank(present, i) < 8 * |nulls|
  {
    hide BitGet;
    RankGrows(present, i + 1, 8 * |present|);
  }

  /** Column i of an image. */
  function ReadCell(cols: seq<Column>, present: seq<byte>, nulls: seq<byte>, i: nat, b: seq<byte>)
    : (r: Result<(Cell, seq<byte>), RowError>)
    requires i < |cols| && ColumnsOk(cols) && |nulls| == NullBytes(Rank(present, 8 * |present|))
    ensures r.Ok? ==> |r.value.1| <= |b| && i < 8 * |present|
  {
    if i >= 8 * |present| then Err(ShortBitmap)
    else if !BitGet(present, i) then Ok((Absent, b))
    else
      NullBitInBounds(present, nulls, i);
      if BitGet(nulls, Rank(present, i)) then Ok((Null, b))
      else
        match ReadValue(cols[i], b)
        case Ok(p) => Ok((Present(p.0), p.1))
        case Err(e) => Err(e)
  }

  /** The first n columns. */
  function ReadCells(cols: seq<Column>, present: seq<byte>, nulls: seq<byte>, n: nat, b: seq<byte>)
    : (r: Result<(Image, seq<byte>), RowError>)
    requires n <= |cols| && ColumnsOk(cols) && |nulls| == NullBytes(Rank(present, 8 * |present|))
    ensures r.Ok? ==> |r.value.0| == n && |r.value.1| <= |b|
  {
    if n == 0 then Ok(([], b))
    else
      match ReadCells(cols, present, nulls, n - 1, b)
      case Err(e) => Err(e)
      case Ok(p) =>
        match ReadCell(cols, present, nulls, n - 1, p.1)
        case Err(e) => Err(e)
        case Ok(q) => Ok((p.0 + [q.0], q.1))
  }

  /** _read_column_data: the NULL bitmap, as long as the present bitmap has set bits, then the columns. */
  function ReadImage(cols: seq<Column>, present: seq<byte>, b: seq<byte>): (r: Result<(Image, seq<byte>), RowError>)
    requires ColumnsOk(cols)
    ensures r.Ok? ==> |r.value.1| + NullBytes(Rank(present, 8 * |present|)) <= |b|
  {
    var n := NullBytes(Rank(present, 8 * |present|));
    if |b| < n then Err(ShortRow) else ReadCells(cols, present, b[..n], |cols|, b[n..])
  }

  /** One row of an event: one image, or for an update the images before and after. */
  function ReadRow(cols: seq<Column>, bitmaps: seq<seq<byte>>, b: seq<byte>)
    : (r: Result<(seq<Image>, seq<byte>), RowError>)
    requires ColumnsOk(cols)
    ensures r.Ok? ==> |r.value.1| <= |b|
  {
    if bitmaps == [] then Ok(([], b))
    else
      match ReadImage(cols, bitmaps[0], b)
      case Err(e) => Err(e)
      case Ok(p) =>
        match ReadRow(cols, bitmaps[1..], p.1)
        case Err(e) => Err(e)
        case Ok(q) => Ok(([p.0] + q.0, q.1))
  }

  /** _fetch_rows: rows until `limit` more bytes are consumed.  A row that consumes nothing is fetched
      again and again. */
  function FetchRows(cols: seq<Column>, bitmaps: seq<seq<byte>>, b: seq<byte>, limit: int)
    : Result<(seq<seq<Image>>, seq<byte>), RowError>
    requires ColumnsOk(cols)
    decreases |b|
  {
    if limit <= 0 then Ok(([], b))
    else
      match ReadRow(cols, bitmaps, b)
      case Err(e) => Err(e)
      case Ok(p) =>
        if |p.1| == |b| then Err(Diverges)
        else
          match FetchRows(cols, bitmaps, p.1, limit - (|b| - |p.1|))
          case Err(e) => Err(e)
          case Ok(q) => Ok(([p.0] + q.0, q.1))
  }

  // ----- the reference encoding

  /** Bytes of a stored integer; the reader takes as many. */
  function StoredWidth(t: IntType): (w: nat)
    ensures w == Width(t)
  {
    if t.Tiny? then 1 else if t.Short? then 2 else if t.Int24? then 3 else if t.Long? then 4 else 8
  }

  predicate ValueFits(c: Column, v: Value)
  {
    match c
    case IntColumn(size, unsigned) =>
      var p: int := Pow256(StoredWidth(size));
      v.Int? && if unsigned then 0 <= v.n < p else -p <= 2 * v.n < p
    case DecimalColumn(precision, decimals) =>
      v.Dec? && v.d.coefficient < Pow10(precision) && v.d.scale == decimals
    case BytesColumn(k) => v.Raw? && |v.bytes| < Pow256(k)
    case FixedColumn(w) => v.Raw? && |v.bytes| == w
    case YearColumn => v.Int? && 1900 <= v.n < 1900 + 256
  }

  function EncodeValue(c: Column, v: Value): seq<byte>
    requires ColumnOk(c) && ValueFits(c, v)
  {
    match c
    case IntColumn(size, _) => Le(TwosComplement(v.n, StoredWidth(size)), StoredWidth(size))
    case DecimalColumn(precision, decimals) => Encode(v.d.negative, v.d.coefficient, ShapeOf(precision, decimals))
    case BytesColumn(k) => Le(|v.bytes|, k) + v.bytes
    case FixedColumn(_) => v.bytes
    case YearColumn => [v.n - 1900]
  }

  predicate CellFits(c: Column, cell: Cell) { cell.Present? ==> ValueFits(c, cell.value) }

  predicate ImageFits(cols: seq<Column>, image: Image)
  {
    |image| == |cols| && forall i :: 0 <= i < |cols| ==> CellFits(cols[i], image[i])
  }

  /** NULL flags of the columns in the image. */
  function NullBits(image: Image): (bits: seq<bool>)
  {
    if image == [] then []
    else if image[0].Absent? then NullBits(image[1..])
    else [image[0].Null?] + NullBits(image[1..])
  }

  function EncodeCells(cols: seq<Column>, image: Image): seq<byte>
    requires ColumnsOk(cols) && ImageFits(cols, image)
  {
    if image == [] then []
    else (if image[0].Present? then EncodeValue(cols[0], image[0].value) else []) + EncodeCells(cols[1..], image[1..])
  }

  function EncodeImage(cols: seq<Column>, image: Image): seq<byte>
    requires ColumnsOk(cols) && ImageFits(cols, image)
  {
    PackBits(NullBits(image)) + EncodeCells(cols, image)
  }

  /** The bitmap marks exactly the columns of the image, and its padding bits cost no extra byte. */
  ghost predicate Describes(present: seq<byte>, image: Image)
  {
    && |image| <= 8 * |present|
    && (forall i :: 0 <= i < |image| ==> (BitGet(present, i) <==> !image[i].Absent?))
    && NullBytes(Rank(present, 8 * |present|)) == NullBytes(Rank(present, |image|))
  }

  // ----- reading a value back

  lemma IntRoundTrip(size: IntType, unsigned: bool, v: Value, rest: seq<byte>)
    requires ValueFits(IntColumn(size, unsigned), v)
    ensures ReadValue(IntColumn(size, unsigned), EncodeValue(IntColumn(size, unsigned), v) + rest) == Ok((v, rest))
  {
    hide Le, FromLe, Pow256;
    var w := Width(size);
    var m := TwosComplement(v.n, w);
    FromLeOfLe(m, w);
    Spliced(Le(m, w), rest, w);
    assert Le(m, w)[..w] == Le(m, w) && Le(m, w)[w..] + rest == rest;
  }

  lemma DecimalRoundTrip(precision: nat, decimals: nat, v: Value, rest: seq<byte>)
    requires ColumnOk(DecimalColumn(precision, decimals)) && ValueFits(DecimalColumn(precision, decimals), v)
    ensures var c := DecimalColumn(precision, decimals); ReadValue(c, EncodeValue(c, v) + rest) == Ok((v, rest))
  {
    hide PacketDecimal, Encode, EncodedSize, Pow10;
    var h := ShapeOf(precision, decimals);
    BothDecodersInvert(v.d.negative, v.d.coefficient, precision, decimals, rest);
    var e := Encode(v.d.negative, v.d.coefficient, h);
    Spliced(e, rest, EncodedSize(h));
    assert e[EncodedSize(h)..] + rest == rest;
  }

  lemma BytesRoundTrip(k: nat, v: Value, rest: seq<byte>)
    requires ColumnOk(BytesColumn(k)) && ValueFits(BytesColumn(k), v)
    ensures ReadValue(BytesColumn(k), EncodeValue(BytesColumn(k), v) + rest) == Ok((v, rest))
  {
    hide Le, FromLe, Pow256;
    var head, body := Le(|v.bytes|, k), v.bytes;
    FromLeOfLe(|v.bytes|, k);
    var b := head + body + rest;
    assert b[..k] == head && b[k..k + |body|] == body && b[k + |body|..] == rest;
  }

  lemma FixedRoundTrip(w: nat, v: Value, rest: seq<byte>)
    requires ColumnOk(FixedColumn(w)) && ValueFits(FixedColumn(w), v)
    ensures ReadValue(FixedColumn(w), EncodeValue(FixedColumn(w), v) + rest) == Ok((v, rest))
  {
    assert (v.bytes + rest)[..w] == v.bytes && (v.bytes + rest)[w..] == rest;
  }

  lemma YearRoundTrip(v: Value, rest: seq<byte>)
    requires ValueFits(YearColumn, v)
    ensures ReadValue(YearColumn, EncodeValue(YearColumn, v) + rest) == Ok((v, rest))
  {
    var x: byte := v.n - 1900;
    assert ([x] + rest)[0] == x && ([x] + rest)[1..] == rest;
  }

  lemma ValueRoundTrip(c: Column, v: Value, rest: seq<byte>)
    requires ColumnOk(c) && ValueFits(c, v)
    ensures ReadValue(c, EncodeValue(c, v) + rest) == Ok((v, rest))
  {
    hide ReadValue, EncodeValue, ValueFits;
    match c {
      case IntColumn(size, unsigned) => IntRoundTrip(size, unsigned, v, rest);
      case DecimalColumn(precision, decimals) => DecimalRoundTrip(precision, decimals, v, rest);
      case BytesColumn(k) => BytesRoundTrip(k, v, rest);
      case FixedColumn(w) => FixedRoundTrip(w, v, rest);
      case YearColumn => YearRoundTrip(v, rest);
    }
  }

  // ----- reading an image back

  lemma {:induction false} NullBitsSplit(image: Image, n: nat)
    requires n <= |image|
    ensures NullBits(image) == NullBits(image[..n]) + NullBits(image[n..])
    decreases n
  {
    if n == 0 {
      assert image[n..] == image && image[..n] == [];
    } else {
      NullBitsSplit(image[1..], n - 1);
      assert image[..n][1..] == image[1..][..n - 1] && image[1..][n - 1..] == image[n..];
    }
  }

  lemma {:induction false} RankIsNullBits(present: seq<byte>, image: Image, n: nat)
    requires n <= |image| <= 8 * |present|
    requires forall i :: 0 <= i < |image| ==> (BitGet(present, i) <==> !image[i].Absent?)
    ensures Rank(present, n) == |NullBits(image[..n])|
  {
    if n > 0 {
      hide BitGet;
      RankIsNullBits(present, image, n - 1);
      NullBitsSplit(image[..n], n - 1);
      assert image[..n][..n - 1] == image[..n - 1] && image[..n][n - 1..] == [image[n - 1]];
      NullBitsOne(image[n - 1]);
    }
  }

  lemma NullBitsOne(c: Cell)
    ensures NullBits([c]) == if c.Absent? then [] else [c.Null?]
  {
    assert [c][1..] == [];
    assert NullBits([]) == [];
  }

  /** The NULL bit consulted for column i is the one written for it. */
  lemma NullBitRead(present: seq<byte>, image: Image, i: nat)
    requires Describes(present, image) && i < |image| && !image[i].Absent?
    ensures Rank(present, i) < |NullBits(image)| && NullBits(image)[Rank(present, i)] == image[i].Null?
  {
    hide BitGet, Rank, NullBytes;
    RankIsNullBits(present, image, i);
    NullBitsSplit(image, i);
    NullBitsSplit(image[i..], 1);
    assert image[i..][..1] == [image[i]];
    NullBitsOne(image[i]);
  }

  lemma {:induction false} EncodeCellsSplit(cols: seq<Column>, image: Image, n: nat)
    requires ColumnsOk(cols) && ImageFits(cols, image) && n < |image|
    ensures EncodeCells(cols[n..], image[n..]) ==
            (if image[n].Present? then EncodeValue(cols[n], image[n].value) else [])
            + EncodeCells(cols[n + 1..], image[n + 1..])
  {
    hide EncodeValue, ValueFits;
    assert cols[n..][1..] == cols[n + 1..] && image[n..][1..] == image[n + 1..];
  }

  /** Reading cell i, whose NULL flag is known, from its encoding. */
  lemma CellReadAs(cols: seq<Column>, present: seq<byte>, cell: Cell, i: nat, nulls: seq<byte>, tail: seq<byte>)
    requires ColumnsOk(cols) && i < |cols| && CellFits(cols[i], cell) && i < 8 * |present|
    requires |nulls| == NullBytes(Rank(present, 8 * |present|)) && (BitGet(present, i) <==> !cell.Absent?)
    requires !cell.Absent? ==> Rank(present, i) < 8 * |nulls| && BitGet(nulls, Rank(present, i)) == cell.Null?
    ensures var own := if cell.Present? then EncodeValue(cols[i], cell.value) else [];
            ReadCell(cols, present, nulls, i, own + tail) == Ok((cell, tail))
  {
    hide EncodeValue, ValueFits, ReadValue, BitGet, Rank, NullBytes;
    assert [] + tail == tail;
    if cell.Present? { ValueRoundTrip(cols[i], cell.value, tail); }
  }

  lemma CellDescribed(cols: seq<Column>, present: seq<byte>, image: Image, i: nat, nulls: seq<byte>)
    requires ColumnsOk(cols) && ImageFits(cols, image) && Describes(present, image) && i < |image|
    requires nulls == PackBits(NullBits(image)) && |nulls| == NullBytes(Rank(present, 8 * |present|))
    ensures i < |cols| && CellFits(cols[i], image[i]) && i < 8 * |present|
    ensures (BitGet(present, i) <==> !image[i].Absent?)
    ensures !image[i].Absent? ==> Rank(present, i) < 8 * |nulls| && BitGet(nulls, Rank(present, i)) == image[i].Null?
  {
    hide ValueFits, BitGet, Rank, PackBits, NullBits;
    if !image[i].Absent? {
      NullBitRead(present, image, i);
      PackedBit(NullBits(image), Rank(present, i));
    }
  }

  lemma CellRead(cols: seq<Column>, present: seq<byte>, image: Image, i: nat, nulls: seq<byte>, rest: seq<byte>)
    requires ColumnsOk(cols) && ImageFits(cols, image) && Describes(present, image) && i < |image|
    requires nulls == PackBits(NullBits(image)) && |nulls| == NullBytes(Rank(present, 8 * |present|))
    ensures ReadCell(cols, present, nulls, i, EncodeCells(cols[i..], image[i..]) + rest) ==
            Ok((image[i], EncodeCells(cols[i + 1..], image[i + 1..]) + rest))
  {
    hide EncodeValue, ValueFits, ReadCell, EncodeCells, BitGet, Rank, NullBytes, PackBits, NullBits, Describes;
    CellDescribed(cols, present, image, i, nulls);
    EncodeCellsSplit(cols, image, i);
    var tail := EncodeCells(cols[i + 1..], image[i + 1..]);
    CellReadAs(cols, present, image[i], i, nulls, tail + rest);
    Regroup(if image[i].Present? then EncodeValue(cols[i], image[i].value) else [], tail, rest);
  }

  lemma Regroup(a: seq<byte>, b: seq<byte>, c: seq<byte>)
    ensures a + b + c == a + (b + c)
  {
  }

  lemma {:induction false} CellsRead(cols: seq<Column>, present: seq<byte>, image: Image, n: nat, nulls: seq<byte>,
                                     rest: seq<byte>)
    requires ColumnsOk(cols) && ImageFits(cols, image) && Describes(present, image) && n <= |image|
    requires nulls == PackBits(NullBits(image)) && |nulls| == NullBytes(Rank(present, 8 * |present|))
    ensures ReadCells(cols, present, nulls, n, EncodeCells(cols, image) + rest) ==
            Ok((image[..n], EncodeCells(cols[n..], image[n..]) + rest))
  {
    hide EncodeCells, ReadCell, BitGet, Rank, NullBytes, PackBits, NullBits, Describes;
    if n == 0 {
      assert cols[0..] == cols && image[0..] == image;
    } else {
      CellsRead(cols, present, image, n - 1, nulls, rest);
      CellRead(cols, present, image, n - 1, nulls, rest);
      assert image[..n] == image[..n - 1] + [image[n - 1]];
    }
  }

  lemma PresentCount(present: seq<byte>, image: Image)
    requires Describes(present, image)
    ensures |PackBits(NullBits(image))| == NullBytes(Rank(present, 8 * |present|))
  {
    hide Rank, BitGet, NullBits, PackBits;
    RankIsNullBits(present, image, |image|);
    assert image[..|image|] == image;
  }

  lemma NoCells(cols: seq<Column>, image: Image)
    requires cols == [] && image == []
    ensures EncodeCells(cols, image) == []
  {
  }

  /** An image reads back from the front of any bytes. */
  lemma ImageRoundTrip(cols: seq<Column>, present: seq<byte>, image: Image, rest: seq<byte>)
    requires ColumnsOk(cols) && ImageFits(cols, image) && Describes(present, image)
    ensures ReadImage(cols, present, EncodeImage(cols, image) + rest) == Ok((image, rest))
  {
    hide EncodeCells, ReadCells, Rank, NullBytes, PackBits, NullBits, Describes;
    PresentCount(present, image);
    var nulls, body := PackBits(NullBits(image)), EncodeCells(cols, image);
    Spliced(nulls, body + rest, |nulls|);
    assert nulls + body + rest == nulls + (body + rest);
    assert nulls[..|nulls|] == nulls && nulls[|nulls|..] + (body + rest) == body + rest;
    CellsRead(cols, present, image, |cols|, nulls, rest);
    NoCells(cols[|cols|..], image[|cols|..]);
    assert image[..|image|] == image && [] + rest == rest;
  }

  // ----- reading rows back

  predicate RowEncodable(cols: seq<Column>, row: seq<Image>) { forall i :: 0 <= i < |row| ==> ImageFits(cols, row[i]) }

  ghost predicate RowFits(cols: seq<Column>, bitmaps: seq<seq<byte>>, row: seq<Image>)
  {
    |row| == |bitmaps| && RowEncodable(cols, row) && forall i :: 0 <= i < |row| ==> Describes(bitmaps[i], row[i])
  }

  function EncodeRow(cols: seq<Column>, row: seq<Image>): seq<byte>
    requires ColumnsOk(cols) && RowEncodable(cols, row)
  {
    if row == [] then [] else EncodeImage(cols, row[0]) + EncodeRow(cols, row[1..])
  }

  lemma {:induction false} RowRoundTrip(cols: seq<Column>, bitmaps: seq<seq<byte>>, row: seq<Image>, rest: seq<byte>)
    requires ColumnsOk(cols) && RowFits(cols, bitmaps, row)
    ensures ReadRow(cols, bitmaps, EncodeRow(cols, row) + rest) == Ok((row, rest))
  {
    hide ReadImage, EncodeImage, ImageFits, Describes;
    if row == [] {
      assert [] + rest == rest;
    } else {
      var first, others := EncodeImage(cols, row[0]), EncodeRow(cols, row[1..]);
      RowRoundTrip(cols, bitmaps[1..], row[1..], rest);
      ImageRoundTrip(cols, bitmaps[0], row[0], others + rest);
      assert first + others + rest == first + (others + rest);
      assert row == [row[0]] + row[1..];
    }
  }

  /** Some column is present, so every row has at least one byte of NULL bitmap. */
  predicate SomePresent(bitmaps: seq<seq<byte>>)
  {
    exists i :: 0 <= i < |bitmaps| && Rank(bitmaps[i], 8 * |bitmaps[i]|) > 0
  }

  /** With a column present a row consumes at least one byte. */
  lemma {:induction false} RowConsumes(cols: seq<Column>, bitmaps: seq<seq<byte>>, b: seq<byte>)
    requires ColumnsOk(cols) && SomePresent(bitmaps) && ReadRow(cols, bitmaps, b).Ok?
    ensures |ReadRow(cols, bitmaps, b).value.1| < |b|
    decreases |bitmaps|
  {
    hide ReadImage, Rank;
    var i :| 0 <= i < |bitmaps| && Rank(bitmaps[i], 8 * |bitmaps[i]|) > 0;
    if i > 0 {
      assert bitmaps[1..][i - 1] == bitmaps[i];
      RowConsumes(cols, bitmaps[1..], ReadImage(cols, bitmaps[0], b).value.1);
    }
  }

  function EncodeRows(cols: seq<Column>, rows: seq<seq<Image>>): seq<byte>
    requires ColumnsOk(cols) && forall r :: 0 <= r < |rows| ==> RowEncodable(cols, rows[r])
  {
    if rows == [] then [] else EncodeRow(cols, rows[0]) + EncodeRows(cols, rows[1..])
  }

  /** With some column present, fetching the rows of an event inverts encoding any list of rows. */
  lemma {:induction false} RowsRoundTrip(cols: seq<Column>, bitmaps: seq<seq<byte>>, rows: seq<seq<Image>>,
                                         rest: seq<byte>)
    requires ColumnsOk(cols) && SomePresent(bitmaps)
    requires forall r :: 0 <= r < |rows| ==> RowEncodable(cols, rows[r]) && RowFits(cols, bitmaps, rows[r])
    ensures FetchRows(cols, bitmaps, EncodeRows(cols, rows) + rest, |EncodeRows(cols, rows)|) == Ok((rows, rest))
  {
    hide ReadRow, EncodeRow, SomePresent;
    if rows == [] {
      assert [] + rest == rest;
    } else {
      assert RowFits(cols, bitmaps, rows[0]);
      var first, others := EncodeRow(cols, rows[0]), EncodeRows(cols, rows[1..]);
      RowsRoundTrip(cols, bitmaps, rows[1..], rest);
      RowRoundTrip(cols, bitmaps, rows[0], others + rest);
      assert first + others + rest == first + (others + rest);
      RowConsumes(cols, bitmaps, first + (others + rest));
      assert rows == [rows[0]] + rows[1..];
    }
  }

  /** Fetching terminates on every input when some column is present. */
  lemma {:induction false} FetchTerminates(cols: seq<Column>, bitmaps: seq<seq<byte>>, b: seq<byte>, limit: int)
    requires ColumnsOk(cols) && SomePresent(bitmaps)
    ensures FetchRows(cols, bitmaps, b, limit) != Err(Diverges)
    decreases |b|
  {
    hide ReadRow, SomePresent;
    ReadRowNeverDiverges(cols, bitmaps, b);
    if limit > 0 && ReadRow(cols, bitmaps, b).Ok? {
      RowConsumes(cols, bitmaps, b);
      var p := ReadRow(cols, bitmaps, b).value;
      FetchTerminates(cols, bitmaps, p.1, limit - (|b| - |p.1|));
    }
  }

  lemma {:induction false} ReadCellsNeverDiverge(cols: seq<Column>, present: seq<byte>, nulls: seq<byte>, n: nat,
                                                 b: seq<byte>)
    requires n <= |cols| && ColumnsOk(cols) && |nulls| == NullBytes(Rank(present, 8 * |present|))
    ensures ReadCells(cols, present, nulls, n, b) != Err(Diverges)
  {
    hide ReadValue, Rank, BitGet;
    if n > 0 {
      ReadCellsNeverDiverge(cols, present, nulls, n - 1, b);
      var p := ReadCells(cols, present, nulls, n - 1, b);
      if p.Ok? { ReadValueNeverDiverges(cols[n - 1], p.value.1); }
    }
  }

  lemma ReadValueNeverDiverges(c: Column, b: seq<byte>)
    requires ColumnOk(c)
    ensures ReadValue(c, b) != Err(Diverges)
  {
    hide PacketDecimal, FromLe, SignedLe;
  }

  lemma {:induction false} ReadRowNeverDiverges(cols: seq<Column>, bitmaps: seq<seq<byte>>, b: seq<byte>)
    requires ColumnsOk(cols)
    ensures ReadRow(cols, bitmaps, b) != Err(Diverges)
    decreases |bitmaps|
  {
    if bitmaps != [] {
      hide ReadCells, Rank;
      var n := NullBytes(Rank(bitmaps[0], 8 * |bitmaps[0]|));
      if |b| >= n { ReadCellsNeverDiverge(cols, bitmaps[0], b[..n], |cols|, b[n..]); }
      var image := ReadImage(cols, bitmaps[0], b);
      if image.Ok? { ReadRowNeverDiverges(cols, bitmaps[1..], image.value.1); }
    }
  }

  // ----- when no column is present

  lemma {:induction false} CellsAbsent(cols: seq<Column>, present: seq<byte>, nulls: seq<byte>, n: nat, b: seq<byte>)
    requires n <= |cols| <= 8 * |present| && ColumnsOk(cols) && Rank(present, 8 * |present|) == 0 && nulls == []
    ensures ReadCells(cols, present, nulls, n, b).Ok? && ReadCells(cols, present, nulls, n, b).value.1 == b
  {
    if n > 0 {
      CellsAbsent(cols, present, nulls, n - 1, b);
      RankGrows(present, n, 8 * |present|);
      assert Rank(present, n) == Rank(present, n - 1) + One(BitGet(present, n - 1));
      hide Rank, BitGet, ReadValue;
    }
  }

  lemma {:induction false} RowAbsent(cols: seq<Column>, bitmaps: seq<seq<byte>>, b: seq<byte>)
    requires ColumnsOk(cols) && !SomePresent(bitmaps) && forall i :: 0 <= i < |bitmaps| ==> |cols| <= 8 * |bitmaps[i]|
    ensures ReadRow(cols, bitmaps, b).Ok? && ReadRow(cols, bitmaps, b).value.1 == b
    decreases |bitmaps|
  {
    hide Rank, ReadCells;
    if bitmaps != [] {
      assert Rank(bitmaps[0], 8 * |bitmaps[0]|) == 0;
      CellsAbsent(cols, bitmaps[0], [], |cols|, b);
      assert b[..0] == [] && b[0..] == b;
      assert ReadImage(cols, bitmaps[0], b).value.1 == b;
      forall i | 0 <= i < |bitmaps| - 1 ensures Rank(bitmaps[1..][i], 8 * |bitmaps[1..][i]|) == 0
      {
        assert bitmaps[1..][i] == bitmaps[i + 1];
      }
      RowAbsent(cols, bitmaps[1..], b);
    }
  }

  /** As long as bytes are due, the fetch loop runs for ever exactly when no column is present. */
  lemma FetchDivergesIff(cols: seq<Column>, bitmaps: seq<seq<byte>>, b: seq<byte>, limit: int)
    requires ColumnsOk(cols) && limit > 0 && forall i :: 0 <= i < |bitmaps| ==> |cols| <= 8 * |bitmaps[i]|
    ensures FetchRows(cols, bitmaps, b, limit) == Err(Diverges) <==> !SomePresent(bitmaps)
  {
    hide ReadRow, SomePresent;
    if SomePresent(bitmaps) {
      FetchTerminates(cols, bitmaps, b, limit);
    } else {
      RowAbsent(cols, bitmaps, b);
    }
  }

  /** Padding bits that are zero cost nothing. */
  lemma {:induction false} ZeroPadding(present: seq<byte>, m: nat, n: nat)
    requires m <= n <= 8 * |present| && forall i :: m <= i < n ==> !BitGet(present, i)
    ensures Rank(present, n) == Rank(present, m)
  {
    if m < n {
      hide BitGet;
      ZeroPadding(present, m, n - 1);
    }
  }

  lemma ZeroPaddedDescribes(present: seq<byte>, image: Image)
    requires |image| <= 8 * |present|
    requires forall i :: 0 <= i < 8 * |present| ==> (BitGet(present, i) <==> i < |image| && !image[i].Absent?)
    ensures Describes(present, image)
  {
    hide BitGet, Rank;
    ZeroPadding(present, |image|, 8 * |present|);
  }
}
