/** The row readers as they run on a packet (pymysqlreplication/row_event.py), proved against the
    functions of RowImages. */
module RowReaders {
  import opened Prelude
  import opened Bytes
  import opened Bitmaps
  import opened Packets
  import opened Decimals
  import opened DecimalDecoders
  import opened RowImages

  /** The packet stands at the bytes `rest` of what was `b`, having counted the bytes between. */
  twostate predicate MovedTo(packet: Packet, rest: seq<byte>)
    reads packet
    requires old(packet.Valid())
  {
    && packet.Valid() && packet.buffer == [] && packet.Remaining() == rest
    && packet.readBytes == old(packet.readBytes) + |old(packet.Remaining())| - |rest|
  }

  /** read_length_coded_pascal_string: a little-endian length, then that many bytes. */
  method ReadPascalString(packet: Packet, k: nat) returns (r: Result<Value, RowError>)
    requires packet.Valid() && packet.buffer == [] && 1 <= k <= 8
    modifies packet
    ensures packet.Valid()
    ensures match ReadValue(BytesColumn(k), old(packet.Remaining()))
            case Ok(p) => r == Ok(p.0) && MovedTo(packet, p.1)
            case Err(e) => r == Err(e)
  {
    hide FromLe;
    ghost var b := packet.Remaining();
    var head := packet.Read(k);
    if head.Err? { return Err(ShortRow); }
    var n := FromLe(head.value);
    var body := packet.Read(n);
    if body.Err? { return Err(ShortRow); }
    DropTwice(b, k, n);
    r := Ok(Raw(body.value));
  }

  method ReadColumnValue(packet: Packet, c: Column) returns (r: Result<Value, RowError>)
    requires packet.Valid() && packet.buffer == [] && ColumnOk(c)
    modifies packet
    ensures packet.Valid()
    ensures match ReadValue(c, old(packet.Remaining()))
            case Ok(p) => r == Ok(p.0) && MovedTo(packet, p.1)
            case Err(e) => r == Err(e)
  {
    hide FromLe, SignedLe, PacketDecimal, EncodedSize;
    match c {
      case IntColumn(size, unsigned) =>
        var b := packet.Read(Width(size));
        if b.Err? { return Err(ShortRow); }
        r := Ok(Int(if unsigned then FromLe(b.value) else SignedLe(b.value)));
      case DecimalColumn(precision, decimals) =>
        PacketDecimalLength(packet.Remaining(), ShapeOf(precision, decimals));
        SizeIsDigits(ShapeOf(precision, decimals));
        var d := ReadNewDecimal(packet, precision, decimals);
        match d {
          case Ok(v) => r := Ok(Dec(v));
          case Err(ShortData) => r := Err(ShortRow);
          case Err(InvalidText) => r := Err(BadDecimal);
        }
      case BytesColumn(k) => r := ReadPascalString(packet, k);
      case FixedColumn(w) =>
        var b := packet.Read(w);
        if b.Err? { return Err(ShortRow); }
        r := Ok(Raw(b.value));
      case YearColumn =>
        var b := packet.Read(1);
        if b.Err? { return Err(ShortRow); }
        r := Ok(Int(1900 + b.value[0] as int));
    }
  }

  lemma PacketDecimalLength(b: seq<byte>, h: Shape)
    requires h.lead <= 9 && h.tail <= 8
    ensures PacketDecimal(b, h).Ok? ==> |b| >= EncodedSize(h)
  {
    hide ParseDecimal, LeadText, WholeText, FractionText, TailText;
  }

  lemma {:induction false} ReadCellsStop(cols: seq<Column>, present: seq<byte>, nulls: seq<byte>, i: nat, n: nat,
                                         b: seq<byte>)
    requires i <= n <= |cols| && ColumnsOk(cols) && |nulls| == NullBytes(Rank(present, 8 * |present|))
    requires ReadCells(cols, present, nulls, i, b).Err?
    ensures ReadCells(cols, present, nulls, n, b) == ReadCells(cols, present, nulls, i, b)
  {
    hide ReadCell, Rank;
    if i < n { ReadCellsStop(cols, present, nulls, i, n - 1, b); }
  }

  /** The column loop: each present column consults the NULL bit at its rank. */
  method ReadColumns(packet: Packet, cols: seq<Column>, present: seq<byte>, nulls: seq<byte>)
    returns (r: Result<Image, RowError>)
    requires packet.Valid() && packet.buffer == [] && ColumnsOk(cols)
    requires |nulls| == NullBytes(Rank(present, 8 * |present|))
    modifies packet
    ensures packet.Valid()
    ensures match ReadCells(cols, present, nulls, |cols|, old(packet.Remaining()))
            case Ok(p) => r == Ok(p.0) && MovedTo(packet, p.1)
            case Err(e) => r == Err(e)
  {
    ghost var b := packet.Remaining();
    var values: Image := [];
    var nullIndex := 0;
    for i := 0 to |cols|
      invariant packet.Valid() && MovedTo(packet, packet.Remaining())
      invariant ReadCells(cols, present, nulls, i, b) == Ok((values, packet.Remaining()))
      invariant i <= 8 * |present| || i == 0
      invariant i <= 8 * |present| ==> nullIndex == Rank(present, i)
    {
      hide ReadValue, BitGet, NullBytes;
      ghost var here := packet.Remaining();
      if i >= 8 * |present| {
        ReadCellsStop(cols, present, nulls, i + 1, |cols|, b);
        return Err(ShortBitmap);
      }
      if !BitGet(present, i) {
        values := values + [Absent];
      } else {
        NullBitInBounds(present, nulls, i);
        if BitGet(nulls, nullIndex) {
          values := values + [Null];
        } else {
          var v := ReadColumnValue(packet, cols[i]);
          if v.Err? {
            ReadCellsStop(cols, present, nulls, i + 1, |cols|, b);
            return Err(v.error);
          }
          values := values + [Present(v.value)];
        }
        nullIndex := nullIndex + 1;
      }
    }
    r := Ok(values);
  }

  method ReadColumnData(packet: Packet, cols: seq<Column>, present: seq<byte>) returns (r: Result<Image, RowError>)
    requires packet.Valid() && packet.buffer == [] && ColumnsOk(cols)
    modifies packet
    ensures packet.Valid()
    ensures match ReadImage(cols, present, old(packet.Remaining()))
            case Ok(p) => r == Ok(p.0) && MovedTo(packet, p.1)
            case Err(e) => r == Err(e)
  {
    hide ReadCells, Rank;
    var count := BitCount(present);
    var nulls := packet.Read((count + 7) / 8);
    if nulls.Err? { return Err(ShortRow); }
    r := ReadColumns(packet, cols, present, nulls.value);
  }

  /** A write or delete event passes one bitmap, an update event two. */
  method FetchOneRow(packet: Packet, cols: seq<Column>, bitmaps: seq<seq<byte>>)
    returns (r: Result<seq<Image>, RowError>)
    requires packet.Valid() && packet.buffer == [] && ColumnsOk(cols)
    modifies packet
    ensures packet.Valid()
    ensures match ReadRow(cols, bitmaps, old(packet.Remaining()))
            case Ok(p) => r == Ok(p.0) && MovedTo(packet, p.1)
            case Err(e) => r == Err(e)
    decreases |bitmaps|
  {
    hide ReadImage;
    if bitmaps == [] { return Ok([]); }
    var first := ReadColumnData(packet, cols, bitmaps[0]);
    if first.Err? { return Err(first.error); }
    var others := FetchOneRow(packet, cols, bitmaps[1..]);
    if others.Err? { return Err(others.error); }
    r := Ok([first.value] + others.value);
  }

  /** What the loop has still to do after some rows. */
  ghost function Continued(rows: seq<seq<Image>>, r: Result<(seq<seq<Image>>, seq<byte>), RowError>)
    : Result<(seq<seq<Image>>, seq<byte>), RowError>
  {
    match r
    case Ok(q) => Ok((rows + q.0, q.1))
    case Err(e) => Err(e)
  }

  lemma FetchStep(cols: seq<Column>, bitmaps: seq<seq<byte>>, b: seq<byte>, limit: int, rows: seq<seq<Image>>)
    requires ColumnsOk(cols) && limit > 0
    ensures Continued(rows, FetchRows(cols, bitmaps, b, limit)) ==
            match ReadRow(cols, bitmaps, b)
            case Err(e) => Err(e)
            case Ok(p) =>
              if |p.1| == |b| then Err(Diverges)
              else Continued(rows + [p.0], FetchRows(cols, bitmaps, p.1, limit - (|b| - |p.1|)))
  {
    hide ReadRow;
    match ReadRow(cols, bitmaps, b) {
      case Err(_) =>
      case Ok(p) =>
        if |p.1| != |b| {
          var f := FetchRows(cols, bitmaps, p.1, limit - (|b| - |p.1|));
          if f.Ok? { assert rows + ([p.0] + f.value.0) == rows + [p.0] + f.value.0; }
        }
    }
  }

  /** Rows are fetched while fewer bytes than the event has were read; an incomplete event has none. */
  method FetchAllRows(packet: Packet, cols: seq<Column>, bitmaps: seq<seq<byte>>, eventSize: int, complete: bool)
    returns (r: Result<seq<seq<Image>>, RowError>)
    requires packet.Valid() && packet.buffer == [] && ColumnsOk(cols)
    modifies packet
    ensures packet.Valid()
    ensures !complete ==> r == Ok([]) && packet.Remaining() == old(packet.Remaining())
    ensures complete ==>
            match FetchRows(cols, bitmaps, old(packet.Remaining()), eventSize - old(packet.readBytes))
            case Ok(q) => r == Ok(q.0) && packet.Remaining() == q.1
            case Err(e) => r == Err(e)
  {
    if !complete { return Ok([]); }
    ghost var goal := FetchRows(cols, bitmaps, packet.Remaining(), eventSize - packet.readBytes);
    var rows: seq<seq<Image>> := [];
    hide ReadRow, FetchRows, Continued;
    NothingBefore(goal);
    while packet.readBytes < eventSize
      invariant packet.Valid() && packet.buffer == []
      invariant goal == Continued(rows, FetchRows(cols, bitmaps, packet.Remaining(), eventSize - packet.readBytes))
      decreases eventSize - packet.readBytes
    {
      ghost var b, counted := packet.Remaining(), packet.readBytes;
      FetchStep(cols, bitmaps, b, eventSize - counted, rows);
      var before := packet.readBytes;
      var row := FetchOneRow(packet, cols, bitmaps);
      if row.Err? { return Err(row.error); }
      if packet.readBytes == before { return Err(Diverges); }
      rows := rows + [row.value];
    }
    FetchDone(cols, bitmaps, packet.Remaining(), eventSize - packet.readBytes, rows);
    r := Ok(rows);
  }

  lemma NothingBefore(r: Result<(seq<seq<Image>>, seq<byte>), RowError>)
    ensures Continued([], r) == r
  {
    if r.Ok? { assert [] + r.value.0 == r.value.0; }
  }

  lemma FetchDone(cols: seq<Column>, bitmaps: seq<seq<byte>>, b: seq<byte>, limit: int, rows: seq<seq<Image>>)
    requires ColumnsOk(cols) && limit <= 0
    ensures Continued(rows, FetchRows(cols, bitmaps, b, limit)) == Ok((rows, b))
  {
    assert rows + [] == rows;
  }
}
