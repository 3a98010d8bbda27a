/** When the binary JSON reader terminates.  Run is the reader as Python executes it, cut off at a
    nesting depth; Parse is shown to be exactly its limit, and Diverges exactly the documents on which
    no depth is enough. */
module JsonTermination {
  import opened Prelude
  import opened Bytes
  import opened JsonBinary

  /** None: still running when the depth was used up. */
  function Run(kind: byte, data: seq<byte>, depth: nat): Option<Result<Json, JsonError>>
    decreases depth, 0, 0
  {
    if !IsContainer(kind) then Some(ParseScalar(kind, data))
    else if depth == 0 then None
    else
      match ReadFrame(data, kind == SMALL_OBJECT || kind == SMALL_ARRAY, kind <= LARGE_OBJECT)
      case Err(e) => Some(Err(e))
      case Ok(f) =>
        match ParseKeys(data, f)
        case Err(e) => Some(Err(e))
        case Ok(keys) =>
          match RunValues(data, f, f.count, depth - 1)
          case None => None
          case Some(Err(e)) => Some(Err(e))
          case Some(Ok(values)) => Some(Ok(Finish(f, keys, values)))
  }

  function RunValues(data: seq<byte>, f: Frame, n: nat, depth: nat): (r: Option<Result<Option<seq<Json>>, JsonError>>)
    ensures r.Some? && r.value.Ok? && r.value.value.Some? ==> |r.value.value.value| == n
    decreases depth, 1, n
  {
    if n == 0 then Some(Ok(Some([])))
    else
      match RunValues(data, f, n - 1, depth)
      case None => None
      case Some(Err(e)) => Some(Err(e))
      case Some(Ok(None)) => Some(Ok(None))
      case Some(Ok(Some(vs))) =>
        match Locate(data, f, n - 1)
        case Err(e) => Some(Err(e))
        case Ok(Beyond) => Some(Ok(None))
        case Ok(Inside(kind, raw)) => Some(Append(vs, ParseScalar(kind, raw)))
        case Ok(At(kind, offset)) =>
          match Run(kind, data[offset..], depth)
          case None => None
          case Some(v) => Some(Append(vs, v))
  }

  // ----- more depth changes no answer

  lemma {:induction false} RunGrows(kind: byte, data: seq<byte>, depth: nat, more: nat)
    requires depth <= more && Run(kind, data, depth).Some?
    ensures Run(kind, data, more) == Run(kind, data, depth)
    decreases depth, 0, 0
  {
    hide ReadFrame, ParseKeys, ParseScalar, Finish, Append;
    if IsContainer(kind) {
      match ReadFrame(data, kind == SMALL_OBJECT || kind == SMALL_ARRAY, kind <= LARGE_OBJECT) {
        case Err(_) =>
        case Ok(f) => if ParseKeys(data, f).Ok? { RunValuesGrows(data, f, f.count, depth - 1, more - 1); }
      }
    }
  }

  lemma {:induction false} RunValuesGrows(data: seq<byte>, f: Frame, n: nat, depth: nat, more: nat)
    requires depth <= more && RunValues(data, f, n, depth).Some?
    ensures RunValues(data, f, n, more) == RunValues(data, f, n, depth)
    decreases depth, 1, n
  {
    hide Locate, ParseScalar, Run, Append;
    if n > 0 {
      RunValuesGrows(data, f, n - 1, depth, more);
      match Locate(data, f, n - 1) {
        case Ok(At(kind, offset)) =>
          if Run(kind, data[offset..], depth).Some? { RunGrows(kind, data[offset..], depth, more); }
        case _ =>
      }
    }
  }

  // ----- Run never answers Diverges

  lemma ScalarNeverDiverges(kind: byte, data: seq<byte>)
    ensures ParseScalar(kind, data) != Err(Diverges)
  {
  }

  lemma FrameNeverDiverges(data: seq<byte>, small: bool, isObject: bool)
    ensures ReadFrame(data, small, isObject) != Err(Diverges)
  {
  }

  lemma {:induction false} KeysNeverDiverge(data: seq<byte>, f: Frame, n: nat)
    ensures Keys(data, f, n) != Err(Diverges)
  {
    if n > 0 { KeysNeverDiverge(data, f, n - 1); }
  }

  lemma LocateNeverDiverges(data: seq<byte>, f: Frame, i: nat)
    ensures Locate(data, f, i) != Err(Diverges)
  {
  }

  lemma {:induction false} RunNeverDiverges(kind: byte, data: seq<byte>, depth: nat)
    ensures Run(kind, data, depth) != Some(Err(Diverges))
    decreases depth, 0, 0
  {
    hide ReadFrame, ParseKeys, ParseScalar, Finish;
    if !IsContainer(kind) {
      ScalarNeverDiverges(kind, data);
    } else if depth > 0 {
      var small, isObject := kind == SMALL_OBJECT || kind == SMALL_ARRAY, kind <= LARGE_OBJECT;
      FrameNeverDiverges(data, small, isObject);
      match ReadFrame(data, small, isObject) {
        case Err(_) =>
        case Ok(f) =>
          ParseKeysNeverDiverges(data, f);
          if ParseKeys(data, f).Ok? { RunValuesNeverDiverges(data, f, f.count, depth - 1); }
      }
    }
  }

  lemma ParseKeysNeverDiverges(data: seq<byte>, f: Frame)
    ensures ParseKeys(data, f) != Err(Diverges)
  {
    hide Keys;
    KeysNeverDiverge(data, f, f.count);
  }

  lemma {:induction false} RunValuesNeverDiverges(data: seq<byte>, f: Frame, n: nat, depth: nat)
    ensures RunValues(data, f, n, depth) != Some(Err(Diverges))
    decreases depth, 1, n
  {
    hide Locate, ParseScalar, Run;
    if n > 0 {
      RunValuesNeverDiverges(data, f, n - 1, depth);
      LocateNeverDiverges(data, f, n - 1);
      match Locate(data, f, n - 1) {
        case Ok(At(kind, offset)) => RunNeverDiverges(kind, data[offset..], depth);
        case Ok(Inside(kind, raw)) => ScalarNeverDiverges(kind, raw);
        case _ =>
      }
    }
  }

  // ----- what Parse answers, Run reaches

  lemma {:induction false} Reaches(kind: byte, data: seq<byte>, visited: set<byte>) returns (depth: nat)
    requires Parse(kind, data, visited) != Err(Diverges)
    ensures Run(kind, data, depth) == Some(Parse(kind, data, visited))
    decreases |data|, Left(visited), 0, 0
  {
    hide ReadFrame, ParseKeys, ParseScalar, Finish;
    depth := 1;
    if IsContainer(kind) {
      match ReadFrame(data, kind == SMALL_OBJECT || kind == SMALL_ARRAY, kind <= LARGE_OBJECT) {
        case Err(_) =>
        case Ok(f) =>
          if ParseKeys(data, f).Ok? {
            var inner := ReachesValues(data, f, f.count, visited + {kind});
            depth := inner + 1;
          }
      }
    }
  }

  lemma {:induction false} ReachesValues(data: seq<byte>, f: Frame, n: nat, visited: set<byte>) returns (depth: nat)
    requires Values(data, f, n, visited) != Err(Diverges)
    ensures RunValues(data, f, n, depth) == Some(Values(data, f, n, visited))
    decreases |data|, Left(visited), 1, n
  {
    hide Locate, ParseScalar, Run, Parse;
    depth := 0;
    if n > 0 {
      depth := ReachesValues(data, f, n - 1, visited);
      var before := Values(data, f, n - 1, visited);
      if before.Ok? && before.value.Some? {
        match Locate(data, f, n - 1) {
          case Ok(At(kind, offset)) =>
            var inner := Reaches(kind, data[offset..], if offset == 0 then visited else {});
            var most := if inner < depth then depth else inner;
            RunGrows(kind, data[offset..], inner, most);
            RunValuesGrows(data, f, n - 1, depth, most);
            depth := most;
          case _ =>
        }
      }
    }
  }

  // ----- what Run answers, Parse answers

  ghost predicate StillRunning(visited: set<byte>, data: seq<byte>, depth: nat)
  {
    forall k | k in visited :: Run(k, data, depth) == None
  }

  /** Calls that are still open at this depth cannot be among those that have returned. */
  lemma {:induction false} Answers(kind: byte, data: seq<byte>, depth: nat, visited: set<byte>)
    requires Run(kind, data, depth).Some? && StillRunning(visited, data, depth)
    ensures Some(Parse(kind, data, visited)) == Run(kind, data, depth)
    decreases depth, 0, 0
  {
    if IsContainer(kind) {
      if Run(kind, data, depth - 1).Some? {
        hide Run, Parse;
        RunGrows(kind, data, depth - 1, depth);
        RunningBefore(visited, data, depth);
        Answers(kind, data, depth - 1, visited);
      } else {
        RunningBefore(visited, data, depth);
        assert StillRunning(visited + {kind}, data, depth - 1);
        hide ReadFrame, ParseKeys, ParseScalar, Finish, StillRunning, Values, RunValues;
        match ReadFrame(data, kind == SMALL_OBJECT || kind == SMALL_ARRAY, kind <= LARGE_OBJECT) {
          case Err(_) =>
          case Ok(f) => if ParseKeys(data, f).Ok? { AnswersValues(data, f, f.count, depth - 1, visited + {kind}); }
        }
      }
    }
  }

  lemma RunningBefore(visited: set<byte>, data: seq<byte>, depth: nat)
    requires depth > 0 && StillRunning(visited, data, depth)
    ensures StillRunning(visited, data, depth - 1)
  {
    hide Run;
    forall k | k in visited ensures Run(k, data, depth - 1) == None
    {
      if Run(k, data, depth - 1).Some? { RunGrows(k, data, depth - 1, depth); }
    }
  }

  lemma {:induction false} AnswersValues(data: seq<byte>, f: Frame, n: nat, depth: nat, visited: set<byte>)
    requires RunValues(data, f, n, depth).Some? && StillRunning(visited, data, depth)
    ensures Some(Values(data, f, n, visited)) == RunValues(data, f, n, depth)
    decreases depth, 1, n
  {
    hide Locate, ParseScalar, Run, Parse;
    if n > 0 {
      AnswersValues(data, f, n - 1, depth, visited);
      match Locate(data, f, n - 1) {
        case Ok(At(kind, offset)) =>
          if Run(kind, data[offset..], depth).Some? {
            assert offset == 0 ==> data[offset..] == data;
            Answers(kind, data[offset..], depth, if offset == 0 then visited else {});
          }
        case _ =>
      }
    }
  }

  /** The reader returns r at some depth exactly when Parse is r, and runs for ever exactly when Parse
      says Diverges. */
  lemma ParseIsTheLimit(kind: byte, data: seq<byte>)
    ensures forall depth: nat :: Run(kind, data, depth).Some? ==> Run(kind, data, depth) == Some(Parse(kind, data, {}))
    ensures Parse(kind, data, {}) == Err(Diverges) <==> forall depth: nat :: Run(kind, data, depth) == None
  {
    hide Run, Parse;
    forall depth: nat | Run(kind, data, depth).Some? ensures Run(kind, data, depth) == Some(Parse(kind, data, {}))
    {
      Answers(kind, data, depth, {});
    }
    if Parse(kind, data, {}) == Err(Diverges) {
      forall depth: nat ensures Run(kind, data, depth) == None { RunNeverDiverges(kind, data, depth); }
    } else {
      var depth := Reaches(kind, data, {});
      assert Run(kind, data, depth).Some?;
    }
  }

  // ----- positive offsets shrink the slices

  /** Every container reached through the document's entries lies at a positive offset. */
  ghost predicate PositiveOffsets(kind: byte, data: seq<byte>)
    decreases |data|
  {
    IsContainer(kind) ==>
      match ReadFrame(data, kind == SMALL_OBJECT || kind == SMALL_ARRAY, kind <= LARGE_OBJECT)
      case Err(_) => true
      case Ok(f) => forall i :: 0 <= i < f.count ==> PositiveAt(data, Locate(data, f, i))
  }

  ghost predicate PositiveAt(data: seq<byte>, place: Result<Place, JsonError>)
    requires place.Ok? && place.value.At? ==> place.value.offset <= |data|
    decreases |data|, 0
  {
    place.Ok? && place.value.At? && IsContainer(place.value.kind) ==>
      place.value.offset > 0 && PositiveOffsets(place.value.kind, data[place.value.offset..])
  }

  lemma PositiveEntries(kind: byte, data: seq<byte>, f: Frame)
    requires PositiveOffsets(kind, data) && IsContainer(kind)
    requires ReadFrame(data, kind == SMALL_OBJECT || kind == SMALL_ARRAY, kind <= LARGE_OBJECT) == Ok(f)
    ensures forall i :: 0 <= i < f.count ==> PositiveAt(data, Locate(data, f, i))
  {
  }

  lemma {:induction false} PositiveReturns(kind: byte, data: seq<byte>, depth: nat)
    requires PositiveOffsets(kind, data) && depth > |data|
    ensures Run(kind, data, depth).Some?
    decreases depth, 0, 0
  {
    hide ReadFrame, ParseKeys, ParseScalar, Finish, Locate;
    if IsContainer(kind) {
      match ReadFrame(data, kind == SMALL_OBJECT || kind == SMALL_ARRAY, kind <= LARGE_OBJECT) {
        case Err(_) =>
        case Ok(f) =>
          PositiveEntries(kind, data, f);
          if ParseKeys(data, f).Ok? { PositiveValuesReturn(data, f, f.count, depth - 1); }
      }
    }
  }

  lemma {:induction false} PositiveValuesReturn(data: seq<byte>, f: Frame, n: nat, depth: nat)
    requires n <= f.count && depth >= |data| && forall i :: 0 <= i < f.count ==> PositiveAt(data, Locate(data, f, i))
    ensures RunValues(data, f, n, depth).Some?
    decreases depth, 1, n
  {
    hide Locate, ParseScalar, Append;
    if n > 0 {
      PositiveValuesReturn(data, f, n - 1, depth);
      assert PositiveAt(data, Locate(data, f, n - 1));
      match Locate(data, f, n - 1) {
        case Ok(At(kind, offset)) => if IsContainer(kind) { PositiveReturns(kind, data[offset..], depth); }
        case _ =>
      }
    }
  }

  /** With positive offsets the reader returns, nested at most as deep as the document is long. */
  lemma PositiveOffsetsTerminate(kind: byte, data: seq<byte>)
    requires PositiveOffsets(kind, data)
    ensures Run(kind, data, |data| + 1).Some? && Parse(kind, data, {}) != Err(Diverges)
  {
    hide Run, Parse;
    PositiveReturns(kind, data, |data| + 1);
    ParseIsTheLimit(kind, data);
    RunNeverDiverges(kind, data, |data| + 1);
  }

  /** An array of one array at offset zero is read for ever. */
  lemma ZeroOffsetDiverges()
    ensures var data: seq<byte> := [1, 0, 7, 0, 2, 0, 0]; Parse(SMALL_ARRAY, data, {}) == Err(Diverges)
    ensures var data: seq<byte> := [1, 0, 7, 0, 2, 0, 0]; forall depth: nat :: Run(SMALL_ARRAY, data, depth) == None
  {
    var data: seq<byte> := [1, 0, 7, 0, 2, 0, 0];
    hide FromLe, Run;
    assert data[..2] == [1, 0] && data[2..][..2] == [7, 0] && data[5..][..2] == [0, 0];
    FromTwoBytes(1, 0);
    FromTwoBytes(7, 0);
    FromTwoBytes(0, 0);
    var f := Frame(true, false, 1);
    assert ReadFrame(data, true, false) == Ok(f);
    assert Locate(data, f, 0) == Ok(At(SMALL_ARRAY, 0));
    assert data[0..] == data;
    assert Values(data, f, 1, {} + {SMALL_ARRAY}) == Err(Diverges);
    ParseIsTheLimit(SMALL_ARRAY, data);
  }
}
