/** The binary form of GTIDs and GTID sets (pymysqlreplication/gtid.py), the payload of MySQL's
    COM_BINLOG_DUMP_GTID: 16 bytes of server id, a count, and pairs of 64-bit little-endian bounds. */
module GtidCodec {
  import opened Prelude
  import opened Text
  import opened Bytes
  import opened GtidIntervals
  import opened GtidText

  datatype CodecError = NotHex | OutOfRange | Short | Rejected(error: TextError)

  // ----- hexadecimal

  function HexValue(c: char): (n: nat)
    requires IsHex(c)
    ensures n < 16
  {
    if IsDigit(c) then ValueOf(c)
    else if 'a' <= c <= 'f' then (c as int) - ('a' as int) + 10
    else (c as int) - ('A' as int) + 10
  }

  function HexDigit(n: nat): (c: char)
    requires n < 16
    ensures IsHex(c)
  {
    if n < 10 then DigitOf(n) else ['a', 'b', 'c', 'd', 'e', 'f'][n - 10]
  }

  function LowerChar(c: char): char
  {
    if 'A' <= c <= 'F' then ['a', 'b', 'c', 'd', 'e', 'f'][(c as int) - ('A' as int)] else c
  }

  function Lower(s: string): (r: string)
    ensures |r| == |s| && forall i :: 0 <= i < |s| ==> r[i] == LowerChar(s[i])
  {
    seq(|s|, i requires 0 <= i < |s| => LowerChar(s[i]))
  }

  /** binascii.unhexlify on digits that come in pairs. */
  function Unhexlify(s: string): (b: seq<byte>)
    requires AllHex(s) && |s| % 2 == 0
    ensures |b| == |s| / 2
  {
    if s == "" then [] else [16 * HexValue(s[0]) + HexValue(s[1])] + Unhexlify(s[2..])
  }

  function Hexlify(b: seq<byte>): (s: string)
    ensures |s| == 2 * |b| && AllHex(s)
  {
    if b == [] then "" else [HexDigit(b[0] / 16), HexDigit(b[0] % 16)] + Hexlify(b[1..])
  }

  lemma HexDigitOfValue(c: char)
    requires IsHex(c)
    ensures HexDigit(HexValue(c)) == LowerChar(c)
  {
  }

  lemma {:induction false} HexlifyUnhexlify(s: string)
    requires AllHex(s) && |s| % 2 == 0
    ensures Hexlify(Unhexlify(s)) == Lower(s)
  {
    if s != "" {
      hide AllHex, Hexlify, Unhexlify, HexDigit, LowerChar, HexValue;
      AllHexTail(s);
      HexlifyUnhexlify(s[2..]);
      var x := UnhexlifyFirst(s);
      HexlifyFirst(x, Unhexlify(s[2..]));
      LowerFirst(s);
    }
  }

  lemma AllHexTail(s: string)
    requires AllHex(s) && |s| >= 2
    ensures AllHex(s[2..])
  {
  }

  lemma UnhexlifyFirst(s: string) returns (x: byte)
    requires AllHex(s) && |s| % 2 == 0 && s != ""
    ensures Unhexlify(s) == [x] + Unhexlify(s[2..])
    ensures HexDigit(x / 16) == LowerChar(s[0]) && HexDigit(x % 16) == LowerChar(s[1])
  {
    hide HexValue, IsHex, HexDigit, LowerChar;
    HexPair(s[0], s[1]);
    x := 16 * HexValue(s[0]) + HexValue(s[1]);
  }

  lemma LowerFirst(s: string)
    requires |s| >= 2
    ensures Lower(s) == [LowerChar(s[0]), LowerChar(s[1])] + Lower(s[2..])
  {
  }

  lemma HexlifyFirst(x: byte, rest: seq<byte>)
    ensures Hexlify([x] + rest) == [HexDigit(x / 16), HexDigit(x % 16)] + Hexlify(rest)
  {
    assert ([x] + rest)[1..] == rest;
  }

  lemma HexPair(c: char, d: char)
    requires IsHex(c) && IsHex(d)
    ensures var x: byte := 16 * HexValue(c) + HexValue(d);
            HexDigit(x / 16) == LowerChar(c) && HexDigit(x % 16) == LowerChar(d)
  {
    hide HexValue, HexDigit, LowerChar;
    HexDigitOfValue(c);
    HexDigitOfValue(d);
  }

  lemma {:induction false} UnhexlifyConcat(a: string, b: string)
    requires AllHex(a) && AllHex(b) && |a| % 2 == 0 && |b| % 2 == 0
    ensures Unhexlify(a + b) == Unhexlify(a) + Unhexlify(b)
  {
    if a == "" {
      assert a + b == b;
    } else {
      assert (a + b)[2..] == a[2..] + b;
      UnhexlifyConcat(a[2..], b);
    }
  }

  // ----- server ids

  /** str.replace("-", "") */
  function Dashless(s: string): string
  {
    if s == "" then "" else (if s[0] == '-' then "" else [s[0]]) + Dashless(s[1..])
  }

  lemma {:induction false} DashlessPrefix(a: string, b: string)
    requires AllHex(a)
    ensures Dashless(a + b) == a + Dashless(b)
  {
    if a == "" {
      assert a + b == b;
    } else {
      assert (a + b)[1..] == a[1..] + b;
      DashlessPrefix(a[1..], b);
    }
  }

  lemma DashlessGroup(a: string, b: string)
    requires AllHex(a)
    ensures Dashless(a + "-" + b) == a + Dashless(b)
  {
    assert a + "-" + b == a + ("-" + b);
    DashlessPrefix(a, "-" + b);
    assert ("-" + b)[1..] == b;
  }

  lemma DashlessSid(s: string)
    requires IsSid(s)
    ensures Dashless(s) == s[..8] + (s[9..13] + (s[14..18] + (s[19..23] + s[24..])))
    ensures AllHex(Dashless(s)) && |Dashless(s)| == 32
  {
    assert s == s[..8] + "-" + s[9..];
    assert s[9..] == s[9..13] + "-" + s[14..];
    assert s[14..] == s[14..18] + "-" + s[19..];
    assert s[19..] == s[19..23] + "-" + s[24..];
    DashlessGroup(s[..8], s[9..]);
    DashlessGroup(s[9..13], s[14..]);
    DashlessGroup(s[14..18], s[19..]);
    DashlessGroup(s[19..23], s[24..]);
    DashlessPrefix(s[24..], "");
    assert s[24..] + "" == s[24..];
  }

  /** How decode spells sixteen bytes. */
  function SidText(b: seq<byte>): (s: string)
    requires |b| == 16
  {
    Hexlify(b[..4]) + "-" + Hexlify(b[4..6]) + "-" + Hexlify(b[6..8]) + "-" + Hexlify(b[8..10]) + "-" + Hexlify(b[10..])
  }

  lemma SidTextIsSid(b: seq<byte>)
    requires |b| == 16
    ensures IsSid(SidText(b))
  {
    hide Hexlify, AllHex;
    SidLayout(Hexlify(b[..4]), Hexlify(b[4..6]), Hexlify(b[6..8]), Hexlify(b[8..10]), Hexlify(b[10..]));
  }

  lemma SidLayout(g1: string, g2: string, g3: string, g4: string, g5: string)
    requires |g1| == 8 && |g2| == 4 && |g3| == 4 && |g4| == 4 && |g5| == 12
    requires AllHex(g1) && AllHex(g2) && AllHex(g3) && AllHex(g4) && AllHex(g5)
    ensures IsSid(g1 + "-" + g2 + "-" + g3 + "-" + g4 + "-" + g5)
  {
    hide AllHex;
    var s := g1 + "-" + g2 + "-" + g3 + "-" + g4 + "-" + g5;
    assert s[..8] == g1;
    assert s[9..13] == g2;
    assert s[14..18] == g3;
    assert s[19..23] == g4;
    assert s[24..] == g5;
  }

  /** Sixteen bytes hold a server id up to the case of its letters. */
  lemma SidRoundTrip(s: string)
    requires IsSid(s)
    ensures AllHex(Dashless(s)) && |Dashless(s)| == 32
    ensures SidText(Unhexlify(Dashless(s))) == Lower(s)
  {
    DashlessSid(s);
    hide Unhexlify, Dashless, Hexlify, AllHex, Lower;
    var g1, g2, g3, g4, g5 := s[..8], s[9..13], s[14..18], s[19..23], s[24..];
    HexGroups(g1, g2, g3, g4, g5);
    SidTextOfGroups(Unhexlify(g1), Unhexlify(g2), Unhexlify(g3), Unhexlify(g4), Unhexlify(g5));
    HexlifyUnhexlify(g1);
    HexlifyUnhexlify(g2);
    HexlifyUnhexlify(g3);
    HexlifyUnhexlify(g4);
    HexlifyUnhexlify(g5);
    LowerSid(s);
  }

  lemma SidTextOfGroups(b1: seq<byte>, b2: seq<byte>, b3: seq<byte>, b4: seq<byte>, b5: seq<byte>)
    requires |b1| == 4 && |b2| == 2 && |b3| == 2 && |b4| == 2 && |b5| == 6
    ensures SidText(b1 + (b2 + (b3 + (b4 + b5)))) ==
            Hexlify(b1) + "-" + Hexlify(b2) + "-" + Hexlify(b3) + "-" + Hexlify(b4) + "-" + Hexlify(b5)
  {
    hide Hexlify;
    var b := b1 + (b2 + (b3 + (b4 + b5)));
    SidPieces(b, b1, b2, b3, b4, b5);
  }

  lemma SidPieces(b: seq<byte>, b1: seq<byte>, b2: seq<byte>, b3: seq<byte>, b4: seq<byte>, b5: seq<byte>)
    requires |b1| == 4 && |b2| == 2 && |b3| == 2 && |b4| == 2 && |b5| == 6 && b == b1 + (b2 + (b3 + (b4 + b5)))
    ensures |b| == 16 && b[..4] == b1 && b[4..6] == b2 && b[6..8] == b3 && b[8..10] == b4 && b[10..] == b5
  {
    assert b[4..] == b2 + (b3 + (b4 + b5));
    assert b[6..] == b3 + (b4 + b5);
    assert b[8..] == b4 + b5;
  }

  lemma LowerConcat(a: string, b: string)
    ensures Lower(a + "-" + b) == Lower(a) + "-" + Lower(b)
  {
  }

  lemma LowerSid(s: string)
    requires IsSid(s)
    ensures Lower(s) == Lower(s[..8]) + "-" + Lower(s[9..13]) + "-" + Lower(s[14..18]) + "-" + Lower(s[19..23])
                        + "-" + Lower(s[24..])
  {
    hide Lower, AllHex;
    assert s == s[..23] + "-" + s[24..];
    assert s[..23] == s[..18] + "-" + s[19..23];
    assert s[..18] == s[..13] + "-" + s[14..18];
    assert s[..13] == s[..8] + "-" + s[9..13];
    LowerConcat(s[..23], s[24..]);
    LowerConcat(s[..18], s[19..23]);
    LowerConcat(s[..13], s[14..18]);
    LowerConcat(s[..8], s[9..13]);
  }

  lemma HexGroups(g1: string, g2: string, g3: string, g4: string, g5: string)
    requires |g1| == 8 && |g2| == 4 && |g3| == 4 && |g4| == 4 && |g5| == 12
    requires AllHex(g1) && AllHex(g2) && AllHex(g3) && AllHex(g4) && AllHex(g5)
    ensures AllHex(g1 + (g2 + (g3 + (g4 + g5))))
    ensures Unhexlify(g1 + (g2 + (g3 + (g4 + g5)))) ==
            Unhexlify(g1) + (Unhexlify(g2) + (Unhexlify(g3) + (Unhexlify(g4) + Unhexlify(g5))))
  {
    hide Unhexlify;
    UnhexlifyConcat(g4, g5);
    UnhexlifyConcat(g3, g4 + g5);
    UnhexlifyConcat(g2, g3 + (g4 + g5));
    UnhexlifyConcat(g1, g2 + (g3 + (g4 + g5)));
  }

  // ----- encode

  const WORD := 0x1_0000_0000_0000_0000

  predicate Fits(v: Interval) { 0 <= v.start < WORD && 0 <= v.stop < WORD }

  predicate AllFit(s: Intervals) { |s| < WORD && forall i :: 0 <= i < |s| ==> Fits(s[i]) }

  function EncodeIntervals(s: Intervals): (b: seq<byte>)
    requires AllFit(s)
    ensures |b| == 16 * |s|
  {
    if s == [] then []
    else EncodeIntervals(s[..|s| - 1]) + Le(s[|s| - 1].start, 8) + Le(s[|s| - 1].stop, 8)
  }

  function Encode(v: Value): Result<seq<byte>, CodecError>
  {
    var digits := Dashless(v.sid);
    if !AllHex(digits) || |digits| % 2 != 0 then Err(NotHex)
    else if !AllFit(v.intervals) then Err(OutOfRange)
    else Ok(Unhexlify(digits) + Le(|v.intervals|, 8) + EncodeIntervals(v.intervals))
  }

  function EncodedLength(v: Value): nat { 16 + 8 + 2 * 8 * |v.intervals| }

  /** The buffer that the encoder appends to. */
  method EncodeGtid(v: Value) returns (r: Result<seq<byte>, CodecError>)
    ensures r == Encode(v)
  {
    var digits := Dashless(v.sid);
    if !AllHex(digits) || |digits| % 2 != 0 { return Err(NotHex); }
    if |v.intervals| >= WORD { return Err(OutOfRange); }
    var buffer := Unhexlify(digits) + Le(|v.intervals|, 8);
    ghost var head := buffer;
    for i := 0 to |v.intervals|
      invariant AllFit(v.intervals[..i])
      invariant buffer == head + EncodeIntervals(v.intervals[..i])
    {
      var interval := v.intervals[i];
      if !Fits(interval) { return Err(OutOfRange); }
      assert v.intervals[..i + 1][..i] == v.intervals[..i];
      buffer := buffer + Le(interval.start, 8) + Le(interval.stop, 8);
    }
    assert v.intervals[..|v.intervals|] == v.intervals;
    r := Ok(buffer);
  }

  /** The promised length is the length, exactly for server ids that encode to sixteen bytes. */
  lemma EncodedLengthIsLength(v: Value)
    requires Encode(v).Ok?
    ensures |Encode(v).value| == EncodedLength(v) <==> |Dashless(v.sid)| == 32
  {
  }

  // ----- decode

  function IntervalAt(b: seq<byte>, i: nat): Interval
    requires 16 * i + 16 <= |b|
  {
    Interval(FromLe(b[16 * i..16 * i + 8]), FromLe(b[16 * i + 8..16 * i + 16]))
  }

  function IntervalsAt(b: seq<byte>, n: nat): (s: Intervals)
    requires 16 * n <= |b|
    ensures |s| == n && forall i :: 0 <= i < n ==> s[i] == IntervalAt(b, i)
  {
    seq(n, i requires 0 <= i < n => IntervalAt(b, i))
  }

  function ClosedTexts(s: Intervals): (r: seq<string>)
    ensures |r| == |s| && forall i :: 0 <= i < |s| ==> r[i] == ClosedText(s[i])
  {
    seq(|s|, i requires 0 <= i < |s| => ClosedText(s[i]))
  }

  /** What decode builds from the bytes goes through the text constructor. */
  function Rebuild(sid: seq<byte>, s: Intervals): Result<Value, CodecError>
    requires |sid| == 16
  {
    match FromText(SidText(sid) + ":" + Join(ClosedTexts(s), ':'))
    case Ok(v) => Ok(v)
    case Err(e) => Err(Rejected(e))
  }

  /** The GTID at the head of a payload, and what follows it. */
  function Decode(b: seq<byte>): Result<(Value, seq<byte>), CodecError>
  {
    if |b| < 24 then Err(Short)
    else
      var n := FromLe(b[16..24]);
      if |b| < 24 + 16 * n then Err(Short)
      else
        match Rebuild(b[..16], IntervalsAt(b[24..], n))
        case Ok(v) => Ok((v, b[24 + 16 * n..]))
        case Err(e) => Err(e)
  }

  lemma {:induction false} EncodedAt(s: Intervals, i: nat, rest: seq<byte>)
    requires AllFit(s) && i < |s|
    ensures IntervalAt(EncodeIntervals(s) + rest, i) == s[i]
    decreases |s|
  {
    var front, last := s[..|s| - 1], s[|s| - 1];
    var tail := Le(last.start, 8) + Le(last.stop, 8) + rest;
    assert EncodeIntervals(s) + rest == EncodeIntervals(front) + tail;
    if i < |s| - 1 {
      EncodedAt(front, i, tail);
    } else {
      var b := EncodeIntervals(front) + tail;
      assert b[16 * i..16 * i + 8] == Le(last.start, 8);
      assert b[16 * i + 8..16 * i + 16] == Le(last.stop, 8);
      Pow256Values();
      FromLeOfLe(last.start, 8);
      FromLeOfLe(last.stop, 8);
    }
  }

  lemma RebuildReturns(sid: seq<byte>, s: Intervals)
    requires |sid| == 16 && Canonical(s) && s != [] && AllFit(s)
    ensures Rebuild(sid, s) == Ok(Value(SidText(sid), s))
  {
    SidTextIsSid(sid);
    hide IsSid, ClosedText, IntervalCharacters, Join, SidText;
    var parts := ClosedTexts(s);
    forall i | 0 <= i < |s| ensures IntervalCharacters(parts[i]) && ParseInterval(parts[i]) == Ok(s[i])
    {
      assert Proper(s[i]) && Fits(s[i]);
      TextCharacters(s[i]);
      ClosedTextParses(s[i]);
    }
    AllParse(parts, s);
    ParseLayout(SidText(sid), parts);
    CanonicalRebuilds(s);
  }

  /** Decoding consumes exactly the encoding, and returns the GTID with its letters in lower case. */
  lemma DecodeOfEncode(v: Value, rest: seq<byte>)
    requires Canonical(v.intervals) && v.intervals != [] && IsSid(v.sid) && AllFit(v.intervals)
    ensures Encode(v).Ok? && |Encode(v).value| == EncodedLength(v)
    ensures Decode(Encode(v).value + rest) == Ok((Value(Lower(v.sid), v.intervals), rest))
  {
    hide IsSid, SidText, Rebuild, Dashless, Unhexlify, EncodeIntervals, Le, FromLe;
    SidRoundTrip(v.sid);
    var s := v.intervals;
    var sid, count, body := Unhexlify(Dashless(v.sid)), Le(|s|, 8), EncodeIntervals(s);
    var b := sid + count + body + rest;
    assert Encode(v).value + rest == b;
    assert b[..16] == sid && b[16..24] == count && b[24..] == body + rest;
    Pow256Values();
    FromLeOfLe(|s|, 8);
    forall i | 0 <= i < |s| ensures IntervalAt(body + rest, i) == s[i] { EncodedAt(s, i, rest); }
    assert IntervalsAt(body + rest, |s|) == s;
    RebuildReturns(sid, s);
    assert b[24 + 16 * |s|..] == rest;
  }

  lemma NothingToRebuild(sid: seq<byte>)
    requires |sid| == 16
    ensures Rebuild(sid, []).Err?
  {
    SidTextIsSid(sid);
    hide SidText;
    assert ClosedTexts([]) == [];
    assert Texts([]) == [];
    UnprintableFails(Value(SidText(sid), []));
  }

  /** Decoding undoes encoding exactly for lower-case server ids, at least one interval and bounds of
      64 bits. */
  lemma GtidBinaryRoundTrip(v: Value, rest: seq<byte>)
    requires Canonical(v.intervals) && IsSid(v.sid)
    ensures (Encode(v).Ok? && Decode(Encode(v).value + rest) == Ok((v, rest)))
            <==> Lower(v.sid) == v.sid && v.intervals != [] && AllFit(v.intervals)
  {
    hide IsSid, Rebuild, Unhexlify, Dashless, EncodeIntervals, SidText, Le, FromLe;
    if AllFit(v.intervals) {
      if v.intervals != [] {
        DecodeOfEncode(v, rest);
      } else {
        EmptyDoesNotDecode(v, rest);
      }
    }
  }

  lemma EmptyDoesNotDecode(v: Value, rest: seq<byte>)
    requires v.intervals == [] && IsSid(v.sid)
    ensures Encode(v).Ok? && Decode(Encode(v).value + rest).Err?
  {
    hide IsSid, Rebuild, Unhexlify, Dashless, SidText, Le, FromLe;
    SidRoundTrip(v.sid);
    var sid, count := Unhexlify(Dashless(v.sid)), Le(0, 8);
    assert EncodeIntervals([]) == [];
    var b := sid + count + rest;
    assert Encode(v).value + rest == b;
    assert b[..16] == sid && b[16..24] == count;
    Pow256Values();
    FromLeOfLe(0, 8);
    assert IntervalsAt(b[24..], 0) == [];
    NothingToRebuild(sid);
  }

  // ----- sets

  function EncodeAll(gs: seq<Value>): Result<seq<byte>, CodecError>
  {
    if gs == [] then Ok([])
    else
      match Encode(gs[0])
      case Err(e) => Err(e)
      case Ok(first) =>
        match EncodeAll(gs[1..])
        case Err(e) => Err(e)
        case Ok(rest) => Ok(first + rest)
  }

  function EncodeSet(gs: seq<Value>): Result<seq<byte>, CodecError>
  {
    if |gs| >= WORD then Err(OutOfRange)
    else
      match EncodeAll(gs)
      case Ok(b) => Ok(Le(|gs|, 8) + b)
      case Err(e) => Err(e)
  }

  function LengthAll(gs: seq<Value>): nat
  {
    if gs == [] then 0 else EncodedLength(gs[0]) + LengthAll(gs[1..])
  }

  function SetEncodedLength(gs: seq<Value>): nat { 8 + LengthAll(gs) }

  function DecodeAll(b: seq<byte>, n: nat): Result<(seq<Value>, seq<byte>), CodecError>
  {
    if n == 0 then Ok(([], b))
    else
      match Decode(b)
      case Err(e) => Err(e)
      case Ok(p) =>
        match DecodeAll(p.1, n - 1)
        case Err(e) => Err(e)
        case Ok(q) => Ok(([p.0] + q.0, q.1))
  }

  function DecodeSet(b: seq<byte>): Result<(seq<Value>, seq<byte>), CodecError>
  {
    if |b| < 8 then Err(Short) else DecodeAll(b[8..], FromLe(b[..8]))
  }

  ghost predicate Encodable(v: Value)
  {
    Canonical(v.intervals) && v.intervals != [] && IsSid(v.sid) && Lower(v.sid) == v.sid && AllFit(v.intervals)
  }

  lemma {:induction false} DecodeAllOfEncodeAll(gs: seq<Value>, rest: seq<byte>)
    requires forall i :: 0 <= i < |gs| ==> Encodable(gs[i])
    ensures EncodeAll(gs).Ok? && |EncodeAll(gs).value| == LengthAll(gs)
    ensures DecodeAll(EncodeAll(gs).value + rest, |gs|) == Ok((gs, rest))
  {
    hide Encode, Decode, EncodedLength;
    if gs == [] {
      assert [] + rest == rest;
    } else {
      DecodeAllOfEncodeAll(gs[1..], rest);
      assert Encodable(gs[0]);
      var others := EncodeAll(gs[1..]).value;
      DecodeOfEncode(gs[0], others + rest);
      var first := Encode(gs[0]).value;
      assert first + others + rest == first + (others + rest);
      assert gs == [gs[0]] + gs[1..];
    }
  }

  /** A set decodes to itself from the front of any payload, and its length is as announced. */
  lemma SetBinaryRoundTrip(gs: seq<Value>, rest: seq<byte>)
    requires |gs| < WORD && forall i :: 0 <= i < |gs| ==> Encodable(gs[i])
    ensures EncodeSet(gs).Ok? && |EncodeSet(gs).value| == SetEncodedLength(gs)
    ensures DecodeSet(EncodeSet(gs).value + rest) == Ok((gs, rest))
  {
    hide EncodeAll, DecodeAll, Le, FromLe, LengthAll, Encodable;
    DecodeAllOfEncodeAll(gs, rest);
    var count, body := Le(|gs|, 8), EncodeAll(gs).value;
    CutAtEight(count, body, rest);
    CountFits(|gs|);
  }

  lemma CutAtEight(count: seq<byte>, body: seq<byte>, rest: seq<byte>)
    requires |count| == 8
    ensures (count + body + rest)[..8] == count && (count + body + rest)[8..] == body + rest
  {
  }

  lemma CountFits(n: nat)
    requires n < WORD
    ensures FromLe(Le(n, 8)) == n
  {
    hide FromLe, Le;
    Pow256Values();
    FromLeOfLe(n, 8);
  }

  // ----- the readers on a payload cursor

  /** io.BytesIO: reading moves the position and may come back short. */
  class Payload {
    const data: seq<byte>
    var pos: nat

    ghost predicate Valid() reads this { pos <= |data| }

    ghost function Rest(): seq<byte> reads this requires Valid() { data[pos..] }

    constructor (data: seq<byte>)
      ensures Valid() && Rest() == data
    {
      this.data := data;
      pos := 0;
    }

    method Read(n: nat) returns (b: seq<byte>)
      requires Valid()
      modifies this
      ensures Valid()
      ensures if n <= |old(Rest())| then b == old(Rest())[..n] && Rest() == old(Rest())[n..]
              else b == old(Rest()) && Rest() == []
    {
      var end := if pos + n <= |data| then pos + n else |data|;
      b := data[pos..end];
      pos := end;
    }
  }

  method ReadSid(payload: Payload) returns (raw: seq<byte>, sid: string)
    requires payload.Valid()
    modifies payload
    ensures payload.Valid()
    ensures var b := old(payload.Rest());
            if |b| >= 16 then raw == b[..16] && sid == SidText(raw) && payload.Rest() == b[16..]
            else payload.Rest() == []
  {
    var g1 := payload.Read(4);
    var g2 := payload.Read(2);
    var g3 := payload.Read(2);
    var g4 := payload.Read(2);
    var g5 := payload.Read(6);
    raw := g1 + g2 + g3 + g4 + g5;
    sid := Hexlify(g1) + "-" + Hexlify(g2) + "-" + Hexlify(g3) + "-" + Hexlify(g4) + "-" + Hexlify(g5);
    hide Hexlify;
    ghost var b := old(payload.Rest());
    if |b| >= 16 {
      assert raw[..4] == g1 && raw[4..6] == g2 && raw[6..8] == g3 && raw[8..10] == g4 && raw[10..] == g5;
    }
  }

  lemma PairAt(b: seq<byte>, i: nat, pair: seq<byte>)
    requires 16 * i + 16 <= |b| && pair == b[16 * i..][..16]
    ensures IntervalsAt(b, i + 1) == IntervalsAt(b, i) + [Interval(FromLe(pair[..8]), FromLe(pair[8..]))]
    ensures b[16 * i..][16..] == b[16 * (i + 1)..]
  {
    hide FromLe;
    assert pair[..8] == b[16 * i..16 * i + 8] && pair[8..] == b[16 * i + 8..16 * i + 16];
  }

  method ReadIntervals(payload: Payload, n: nat) returns (r: Result<Intervals, CodecError>)
    requires payload.Valid()
    modifies payload
    ensures payload.Valid()
    ensures var b := old(payload.Rest());
            if |b| >= 16 * n then r == Ok(IntervalsAt(b, n)) && payload.Rest() == b[16 * n..] else r == Err(Short)
  {
    hide FromLe, IntervalsAt;
    var s: Intervals := [];
    ghost var b := payload.Rest();
    assert IntervalsAt(b, 0) == [];
    var i := 0;
    while i < n
      invariant 0 <= i <= n && payload.Valid() && 16 * i <= |b| && payload.Rest() == b[16 * i..]
      invariant s == IntervalsAt(b, i)
    {
      var pair := payload.Read(16);
      if |pair| < 16 { return Err(Short); }
      PairAt(b, i, pair);
      s := s + [Interval(FromLe(pair[..8]), FromLe(pair[8..]))];
      i := i + 1;
    }
    r := Ok(s);
  }

  method DecodeGtid(payload: Payload) returns (r: Result<Value, CodecError>)
    requires payload.Valid()
    modifies payload
    ensures payload.Valid()
    ensures match Decode(old(payload.Rest()))
            case Ok(p) => r == Ok(p.0) && payload.Rest() == p.1
            case Err(e) => r == Err(e)
  {
    hide FromLe, SidText, Join;
    ghost var b := payload.Rest();
    var raw, sid := ReadSid(payload);
    var count := payload.Read(8);
    if |count| < 8 { return Err(Short); }
    assert count == b[16..24] && payload.Rest() == b[24..];
    var s := ReadIntervals(payload, FromLe(count));
    if s.Err? { return Err(s.error); }
    match FromText(sid + ":" + Join(ClosedTexts(s.value), ':')) {
      case Ok(v) => r := Ok(v);
      case Err(e) => r := Err(Rejected(e));
    }
  }

  lemma {:induction false} DecodeAllPrefix(b: seq<byte>, i: nat, n: nat)
    requires i <= n
    ensures DecodeAll(b, n) ==
            match DecodeAll(b, i)
            case Err(e) => Err(e)
            case Ok(p) => (match DecodeAll(p.1, n - i) case Err(e) => Err(e) case Ok(q) => Ok((p.0 + q.0, q.1)))
    decreases i
  {
    hide Decode;
    if i == 0 {
      match DecodeAll(b, n) {
        case Ok(q) => assert [] + q.0 == q.0;
        case Err(_) =>
      }
    } else {
      match Decode(b) {
        case Err(_) =>
        case Ok(p) =>
          DecodeAllPrefix(p.1, i - 1, n - 1);
          match DecodeAll(p.1, i - 1) {
            case Err(_) =>
            case Ok(q) =>
              match DecodeAll(q.1, n - i) {
                case Err(_) =>
                case Ok(t) => assert [p.0] + (q.0 + t.0) == ([p.0] + q.0) + t.0;
              }
          }
      }
    }
  }

  /** GtidSet.decode: as many GTIDs as the leading count says, one after another. */
  method DecodeGtidSet(payload: Payload) returns (r: Result<seq<Value>, CodecError>)
    requires payload.Valid()
    modifies payload
    ensures payload.Valid()
    ensures match DecodeSet(old(payload.Rest()))
            case Ok(p) => r == Ok(p.0) && payload.Rest() == p.1
            case Err(e) => r == Err(e)
  {
    hide FromLe, Decode, DecodeAll;
    ghost var b := payload.Rest();
    var count := payload.Read(8);
    if |count| < 8 { return Err(Short); }
    var n := FromLe(count);
    var gs: seq<Value> := [];
    DecodeNone(b[8..]);
    var i := 0;
    while i < n
      invariant 0 <= i <= n && payload.Valid()
      invariant DecodeAll(b[8..], i) == Ok((gs, payload.Rest()))
    {
      ghost var here := payload.Rest();
      DecodeAllPrefix(b[8..], i, i + 1);
      DecodeAllPrefix(b[8..], i + 1, n);
      DecodeOne(here);
      var g := DecodeGtid(payload);
      if g.Err? { return Err(g.error); }
      gs := gs + [g.value];
      i := i + 1;
    }
    r := Ok(gs);
  }

  lemma DecodeNone(b: seq<byte>)
    ensures DecodeAll(b, 0) == Ok(([], b))
  {
  }

  lemma DecodeOne(b: seq<byte>)
    ensures DecodeAll(b, 1) == match Decode(b) case Ok(p) => Ok(([p.0], p.1)) case Err(e) => Err(e)
  {
    hide Decode;
    match Decode(b) {
      case Ok(p) =>
        DecodeNone(p.1);
        assert [p.0] + [] == [p.0];
      case Err(_) =>
    }
  }
}
