/** When fetching rows ends.  Turns is the fetch loop as Python executes it, cut off after a number of
    turns; FetchRows is shown to be exactly its limit, and Diverges exactly the inputs on which no
    number of turns is enough. */
module RowTermination {
  import opened Prelude
  import opened Bytes
  import opened Bitmaps
  import opened RowImages

  type Rows = seq<seq<Image>>

  /** None: still looping when the turns were used up. */
  function Turns(cols: seq<Column>, bitmaps: seq<seq<byte>>, b: seq<byte>, limit: int, turns: nat)
    : Option<Result<(Rows, seq<byte>), RowError>>
    requires ColumnsOk(cols)
    decreases turns
  {
    if limit <= 0 then Some(Ok(([], b)))
    else if turns == 0 then None
    else
      match ReadRow(cols, bitmaps, b)
      case Err(e) => Some(Err(e))
      case Ok(p) =>
        match Turns(cols, bitmaps, p.1, limit - (|b| - |p.1|), turns - 1)
        case None => None
        case Some(Err(e)) => Some(Err(e))
        case Some(Ok(q)) => Some(Ok(([p.0] + q.0, q.1)))
  }

  // ----- a reader leaves a suffix of what it was given

  ghost predicate IsSuffix(rest: seq<byte>, b: seq<byte>) { |rest| <= |b| && rest == b[|b| - |rest|..] }

  lemma SuffixOfSuffix(a: seq<byte>, b: seq<byte>, c: seq<byte>)
    requires IsSuffix(a, b) && IsSuffix(b, c)
    ensures IsSuffix(a, c)
  {
  }

  lemma {:induction false} ReadCellsSuffix(cols: seq<Column>, present: seq<byte>, nulls: seq<byte>, n: nat,
                                           b: seq<byte>)
    requires n <= |cols| && ColumnsOk(cols) && |nulls| == NullBytes(Rank(present, 8 * |present|))
    requires ReadCells(cols, present, nulls, n, b).Ok?
    ensures IsSuffix(ReadCells(cols, present, nulls, n, b).value.1, b)
  {
    if n > 0 {
      hide ReadValue, Rank, BitGet;
      ReadCellsSuffix(cols, present, nulls, n - 1, b);
      var p := ReadCells(cols, present, nulls, n - 1, b).value;
      SuffixOfSuffix(ReadCells(cols, present, nulls, n, b).value.1, p.1, b);
    }
  }

  lemma {:induction false} ReadRowSuffix(cols: seq<Column>, bitmaps: seq<seq<byte>>, b: seq<byte>)
    requires ColumnsOk(cols) && ReadRow(cols, bitmaps, b).Ok?
    ensures IsSuffix(ReadRow(cols, bitmaps, b).value.1, b)
    decreases |bitmaps|
  {
    if bitmaps != [] {
      hide ReadCells, Rank;
      var n := NullBytes(Rank(bitmaps[0], 8 * |bitmaps[0]|));
      ReadCellsSuffix(cols, bitmaps[0], b[..n], |cols|, b[n..]);
      var p := ReadImage(cols, bitmaps[0], b).value;
      SuffixOfSuffix(p.1, b[n..], b);
      ReadRowSuffix(cols, bitmaps[1..], p.1);
      SuffixOfSuffix(ReadRow(cols, bitmaps, b).value.1, p.1, b);
    }
  }

  // ----- the limit

  /** A row that consumes nothing leaves the loop where it was. */
  lemma {:induction false} Stuck(cols: seq<Column>, bitmaps: seq<seq<byte>>, b: seq<byte>, limit: int, turns: nat)
    requires ColumnsOk(cols) && limit > 0 && ReadRow(cols, bitmaps, b).Ok? && |ReadRow(cols, bitmaps, b).value.1| == |b|
    ensures Turns(cols, bitmaps, b, limit, turns) == None
  {
    if turns > 0 {
      hide ReadRow;
      ReadRowSuffix(cols, bitmaps, b);
      assert b[0..] == b;
      Stuck(cols, bitmaps, b, limit, turns - 1);
    }
  }

  /** A first row in front of the answer for the rest. */
  function Prepend(row: seq<Image>, r: Result<(Rows, seq<byte>), RowError>): Result<(Rows, seq<byte>), RowError>
  {
    match r
    case Err(e) => Err(e)
    case Ok(q) => Ok(([row] + q.0, q.1))
  }

  /** One turn of the loop and one of the model, on a row that consumes something. */
  lemma OneTurn(cols: seq<Column>, bitmaps: seq<seq<byte>>, b: seq<byte>, limit: int, turns: nat)
    requires ColumnsOk(cols) && limit > 0 && turns > 0 && ReadRow(cols, bitmaps, b).Ok?
    requires |ReadRow(cols, bitmaps, b).value.1| < |b|
    ensures var p := ReadRow(cols, bitmaps, b).value; var left := limit - (|b| - |p.1|);
            var inner := Turns(cols, bitmaps, p.1, left, turns - 1);
            && Turns(cols, bitmaps, b, limit, turns) == (if inner.None? then None else Some(Prepend(p.0, inner.value)))
            && FetchRows(cols, bitmaps, b, limit) == Prepend(p.0, FetchRows(cols, bitmaps, p.1, left))
  {
    hide ReadRow;
  }

  /** A row that fails ends both. */
  lemma FailedTurn(cols: seq<Column>, bitmaps: seq<seq<byte>>, b: seq<byte>, limit: int, turns: nat)
    requires ColumnsOk(cols) && limit > 0 && turns > 0 && ReadRow(cols, bitmaps, b).Err?
    ensures Turns(cols, bitmaps, b, limit, turns) == Some(Err(ReadRow(cols, bitmaps, b).error))
    ensures FetchRows(cols, bitmaps, b, limit) == Err(ReadRow(cols, bitmaps, b).error)
  {
    hide ReadRow;
  }

  lemma NoTurn(cols: seq<Column>, bitmaps: seq<seq<byte>>, b: seq<byte>, limit: int, turns: nat)
    requires ColumnsOk(cols) && (limit <= 0 || turns == 0)
    ensures Turns(cols, bitmaps, b, limit, turns) == (if limit <= 0 then Some(Ok(([], b))) else None)
    ensures limit <= 0 ==> FetchRows(cols, bitmaps, b, limit) == Ok(([], b))
  {
  }

  /** Every answer of the loop is the model's, and never Diverges. */
  lemma {:induction false} TurnsAnswer(cols: seq<Column>, bitmaps: seq<seq<byte>>, b: seq<byte>, limit: int, turns: nat)
    requires ColumnsOk(cols) && Turns(cols, bitmaps, b, limit, turns).Some?
    ensures Turns(cols, bitmaps, b, limit, turns) == Some(FetchRows(cols, bitmaps, b, limit))
    ensures FetchRows(cols, bitmaps, b, limit) != Err(Diverges)
    decreases turns
  {
    hide ReadRow, Turns, FetchRows;
    if limit <= 0 || turns == 0 {
      NoTurn(cols, bitmaps, b, limit, turns);
    } else if ReadRow(cols, bitmaps, b).Err? {
      FailedTurn(cols, bitmaps, b, limit, turns);
      ReadRowNeverDiverges(cols, bitmaps, b);
    } else if |ReadRow(cols, bitmaps, b).value.1| == |b| {
      Stuck(cols, bitmaps, b, limit, turns);
    } else {
      var p := ReadRow(cols, bitmaps, b).value;
      OneTurn(cols, bitmaps, b, limit, turns);
      TurnsAnswer(cols, bitmaps, p.1, limit - (|b| - |p.1|), turns - 1);
    }
  }

  /** Every answer of the model but Diverges is reached. */
  lemma {:induction false} TurnsReach(cols: seq<Column>, bitmaps: seq<seq<byte>>, b: seq<byte>, limit: int)
    returns (turns: nat)
    requires ColumnsOk(cols) && FetchRows(cols, bitmaps, b, limit) != Err(Diverges)
    ensures Turns(cols, bitmaps, b, limit, turns) == Some(FetchRows(cols, bitmaps, b, limit))
    decreases |b|
  {
    turns := 1;
    if limit > 0 {
      hide ReadRow;
      if ReadRow(cols, bitmaps, b).Ok? {
        var p := ReadRow(cols, bitmaps, b).value;
        var more := TurnsReach(cols, bitmaps, p.1, limit - (|b| - |p.1|));
        turns := more + 1;
      }
    }
  }

  /** The loop returns a result after some number of turns exactly when the model returns it, and never
      returns exactly when the model says Diverges. */
  lemma FetchIsTheLimit(cols: seq<Column>, bitmaps: seq<seq<byte>>, b: seq<byte>, limit: int)
    requires ColumnsOk(cols)
    ensures forall turns: nat :: Turns(cols, bitmaps, b, limit, turns).Some?
              ==> Turns(cols, bitmaps, b, limit, turns) == Some(FetchRows(cols, bitmaps, b, limit))
    ensures FetchRows(cols, bitmaps, b, limit) == Err(Diverges)
            <==> forall turns: nat :: Turns(cols, bitmaps, b, limit, turns) == None
  {
    hide Turns, FetchRows;
    forall turns: nat | Turns(cols, bitmaps, b, limit, turns).Some?
      ensures Turns(cols, bitmaps, b, limit, turns) == Some(FetchRows(cols, bitmaps, b, limit))
      ensures FetchRows(cols, bitmaps, b, limit) != Err(Diverges)
    {
      TurnsAnswer(cols, bitmaps, b, limit, turns);
    }
    if FetchRows(cols, bitmaps, b, limit) != Err(Diverges) {
      var turns := TurnsReach(cols, bitmaps, b, limit);
      assert Turns(cols, bitmaps, b, limit, turns).Some?;
    }
  }

  /** As long as bytes are due, the fetch loop never returns exactly when no column is present. */
  lemma FetchNeverReturnsIff(cols: seq<Column>, bitmaps: seq<seq<byte>>, b: seq<byte>, limit: int)
    requires ColumnsOk(cols) && limit > 0 && forall i :: 0 <= i < |bitmaps| ==> |cols| <= 8 * |bitmaps[i]|
    ensures (forall turns: nat :: Turns(cols, bitmaps, b, limit, turns) == None) <==> !SomePresent(bitmaps)
  {
    hide Turns, FetchRows, SomePresent;
    FetchIsTheLimit(cols, bitmaps, b, limit);
    FetchDivergesIff(cols, bitmaps, b, limit);
  }
}
