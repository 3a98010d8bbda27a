/** The text form of GTIDs and GTID sets (pymysqlreplication/gtid.py): `__str__`, `parse` and the
    constructors that read it. */
module GtidText {
  import opened Prelude
  import opened Text
  import opened GtidIntervals

  datatype TextError = BadFormat | BadIntervals(error: Error)

  // ----- printing

  /** str of a Python integer. */
  function IntText(n: int): (s: string)
    ensures s != "" && forall i :: 0 <= i < |s| ==> IsDigit(s[i]) || s[i] == '-'
  {
    if n < 0 then "-" + Digits(-n) else Digits(n)
  }

  function ClosedText(v: Interval): string { IntText(v.start) + "-" + IntText(v.stop - 1) }

  function IntervalText(v: Interval): string
  {
    if v.start + 1 != v.stop then ClosedText(v) else IntText(v.start)
  }

  function Texts(s: Intervals): (r: seq<string>)
    ensures |r| == |s| && forall i :: 0 <= i < |s| ==> r[i] == IntervalText(s[i])
  {
    seq(|s|, i requires 0 <= i < |s| => IntervalText(s[i]))
  }

  function GtidString(v: Value): string { v.sid + ":" + Join(Texts(v.intervals), ':') }

  // ----- parsing

  predicate IsHex(c: char) { IsDigit(c) || 'a' <= c <= 'f' || 'A' <= c <= 'F' }

  predicate AllHex(s: string) { forall i :: 0 <= i < |s| ==> IsHex(s[i]) }

  /** Five groups of 8, 4, 4, 4 and 12 hexadecimal digits. */
  predicate IsSid(s: string)
  {
    && |s| == 36 && s[8] == '-' && s[13] == '-' && s[18] == '-' && s[23] == '-'
    && AllHex(s[..8]) && AllHex(s[9..13]) && AllHex(s[14..18]) && AllHex(s[19..23]) && AllHex(s[24..])
  }

  /** The anchor $ also matches before one final line feed. */
  function Chomp(s: string): string
  {
    if s != "" && s[|s| - 1] == '\n' then s[..|s| - 1] else s
  }

  predicate IsNumeral(s: string) { s != "" && AllDigits(s) }

  function ParseInterval(text: string): Result<Interval, TextError>
  {
    var parts := Split(Chomp(text), '-');
    if |parts| == 1 && IsNumeral(parts[0]) then Ok(Interval(Number(parts[0]), Number(parts[0]) + 1))
    else if |parts| == 2 && IsNumeral(parts[0]) && IsNumeral(parts[1])
    then Ok(Interval(Number(parts[0]), Number(parts[1]) + 1))
    else Err(BadFormat)
  }

  predicate IntervalCharacters(s: string) { s != "" && forall i :: 0 <= i < |s| ==> IsDigit(s[i]) || s[i] == '-' }

  function ParseIntervals(parts: seq<string>): Result<Intervals, TextError>
  {
    if parts == [] then Ok([])
    else
      match ParseInterval(parts[0])
      case Err(e) => Err(e)
      case Ok(v) =>
        match ParseIntervals(parts[1..])
        case Err(e) => Err(e)
        case Ok(rest) => Ok([v] + rest)
  }

  /** The whole pattern: a server id and at least one colon-led part. */
  function Parse(text: string): Result<(string, Intervals), TextError>
  {
    var t := Chomp(text);
    if |t| < 36 || !IsSid(t[..36]) then Err(BadFormat)
    else
      var parts := Split(t[36..], ':');
      if |parts| < 2 || parts[0] != "" || !(forall i :: 1 <= i < |parts| ==> IntervalCharacters(parts[i]))
      then Err(BadFormat)
      else
        match ParseIntervals(parts[1..])
        case Ok(s) => Ok((t[..36], s))
        case Err(e) => Err(e)
  }

  /** Gtid(text): the parsed intervals are added one by one. */
  function FromText(text: string): Result<Value, TextError>
  {
    match Parse(text)
    case Err(e) => Err(e)
    case Ok(p) =>
      match AddAll([], p.1)
      case Ok(s) => Ok(Value(p.0, s))
      case Err(e) => Err(BadIntervals(e))
  }

  // ----- parsing undoes printing

  lemma {:induction false} NoSeparator(s: string, c: char)
    requires c !in s
    ensures Split(s, c) == [s]
  {
    SplitPrefix(s, "", c);
    assert s + "" == s;
  }

  lemma NumeralSplits(a: string, b: string)
    requires AllDigits(a) && AllDigits(b)
    ensures Split(a, '-') == [a] && Split(a + "-" + b, '-') == [a, b]
  {
    NoSeparator(a, '-');
    SplitTwo(a, b, '-');
  }

  lemma ClosedTextParses(v: Interval)
    requires v.start >= 0 && v.stop >= 1
    ensures ParseInterval(ClosedText(v)) == Ok(v)
  {
    var a, b := Digits(v.start), Digits(v.stop - 1);
    NumeralSplits(a, b);
    NumberOfDigits(v.start);
    NumberOfDigits(v.stop - 1);
    assert Chomp(a + "-" + b) == a + "-" + b;
  }

  lemma IntervalTextParses(v: Interval)
    requires v.start >= 0 && v.stop >= 1
    ensures ParseInterval(IntervalText(v)) == Ok(v)
  {
    if v.start + 1 == v.stop {
      NumeralSplits(Digits(v.start), "");
      NumberOfDigits(v.start);
    } else {
      ClosedTextParses(v);
    }
  }

  /** A number below zero leaves an empty first field. */
  lemma NegativeStartFails(v: Interval)
    requires v.start < 0
    ensures ParseInterval(IntervalText(v)).Err?
  {
    var t := IntervalText(v);
    assert t[0] == '-';
    assert t[|t| - 1] != '\n';
    assert Split(t, '-')[0] == "";
    assert |Split(t, '-')| >= 2;
  }

  lemma {:induction false} AllParse(parts: seq<string>, s: Intervals)
    requires |parts| == |s| && forall i :: 0 <= i < |s| ==> ParseInterval(parts[i]) == Ok(s[i])
    ensures ParseIntervals(parts) == Ok(s)
  {
    if s != [] {
      AllParse(parts[1..], s[1..]);
      assert s == [s[0]] + s[1..];
    }
  }

  lemma CanonicalRebuilds(s: Intervals)
    requires Canonical(s)
    ensures AddAll([], s) == Ok(s)
  {
    hide AddAll;
    AddAllIsUnion([], s);
    CanonicalIsUnique(AddAll([], s).value, s);
  }

  lemma TextCharacters(v: Interval)
    ensures IntervalCharacters(IntervalText(v)) && IntervalCharacters(ClosedText(v))
  {
  }

  /** A server id and printed parts are read back as they are. */
  lemma ParseLayout(sid: string, parts: seq<string>)
    requires IsSid(sid) && parts != [] && forall i :: 0 <= i < |parts| ==> IntervalCharacters(parts[i])
    ensures Parse(sid + ":" + Join(parts, ':')) ==
            match ParseIntervals(parts) case Ok(s) => Ok((sid, s)) case Err(e) => Err(e)
  {
    hide IsSid, ParseIntervals;
    var text := sid + ":" + Join(parts, ':');
    var all := [""] + parts;
    assert text[..36] == sid && text[36..] == Join(all, ':') by { SidLength(sid); assert all[1..] == parts; }
    SplitJoin(all, ':');
    JoinEnds(parts);
    assert Chomp(text) == text;
    assert all[1..] == parts;
  }

  lemma SidLength(sid: string)
    requires IsSid(sid)
    ensures |sid| == 36
  {
  }

  lemma {:induction false} JoinEnds(parts: seq<string>)
    requires parts != [] && forall i :: 0 <= i < |parts| ==> IntervalCharacters(parts[i])
    ensures Join(parts, ':') != "" && Join(parts, ':')[|Join(parts, ':')| - 1] != '\n'
    ensures ',' !in Join(parts, ':') && Join(parts, ':')[|Join(parts, ':')| - 1] != ' '
  {
    if |parts| > 1 { JoinEnds(parts[1..]); }
  }

  lemma {:induction false} ParseIntervalsNeedsAll(parts: seq<string>, i: nat)
    requires i < |parts| && ParseInterval(parts[i]).Err?
    ensures ParseIntervals(parts).Err?
  {
    if i > 0 { ParseIntervalsNeedsAll(parts[1..], i - 1); }
  }

  ghost predicate Printable(v: Value)
  {
    IsSid(v.sid) && v.intervals != [] && v.intervals[0].start >= 0
  }

  lemma PrintableParses(v: Value)
    requires Canonical(v.intervals) && Printable(v)
    ensures FromText(GtidString(v)) == Ok(v)
  {
    hide IsSid, IntervalText, IntervalCharacters, Join;
    var s := v.intervals;
    forall i | 0 <= i < |s|
      ensures s[i].start >= 0 && IntervalCharacters(Texts(s)[i]) && ParseInterval(Texts(s)[i]) == Ok(s[i])
    {
      assert Proper(s[i]) && (i > 0 ==> Proper(s[0]) && s[0].stop < s[i].start);
      TextCharacters(s[i]);
      IntervalTextParses(s[i]);
    }
    AllParse(Texts(s), s);
    ParseLayout(v.sid, Texts(s));
    CanonicalRebuilds(s);
  }

  /** Printing and parsing again returns a canonical GTID exactly when its server id is a UUID, it has
      a transaction, and no transaction number is negative. */
  lemma GtidTextRoundTrip(v: Value)
    requires Canonical(v.intervals)
    ensures FromText(GtidString(v)) == Ok(v) <==> Printable(v)
  {
    hide Parse, GtidString, Printable;
    if Printable(v) {
      PrintableParses(v);
    } else if FromText(GtidString(v)) == Ok(v) {
      ParsedSid(GtidString(v));
      UnprintableFails(v);
    }
  }

  lemma ParsedSid(text: string)
    requires Parse(text).Ok?
    ensures IsSid(Parse(text).value.0)
  {
  }

  lemma UnprintableFails(v: Value)
    requires IsSid(v.sid) && !Printable(v)
    ensures Parse(GtidString(v)).Err?
  {
    hide IsSid;
    var s := v.intervals;
    SidLength(v.sid);
    if s == [] {
      var text := v.sid + ":" + "";
      assert Join(Texts(s), ':') == "";
      assert text[..36] == v.sid && text[36..] == ":";
      assert Split(":", ':') == ["", ""];
      assert Chomp(text) == text;
    } else {
      forall i | 0 <= i < |s| ensures IntervalCharacters(Texts(s)[i]) { TextCharacters(s[i]); }
      NegativeStartFails(s[0]);
      ParseIntervalsNeedsAll(Texts(s), 0);
      ParseLayout(v.sid, Texts(s));
    }
  }

  // ----- sets

  predicate Blank(c: char) { c == ' ' || c == '\n' }

  /** str.strip(" \n") */
  function Strip(s: string): string
    decreases |s|
  {
    if s == "" then s
    else if Blank(s[0]) then Strip(s[1..])
    else if Blank(s[|s| - 1]) then Strip(s[..|s| - 1])
    else s
  }

  function SetString(gs: seq<Value>): string { Join(Strings(gs), ',') }

  function Strings(gs: seq<Value>): (r: seq<string>)
    ensures |r| == |gs| && forall i :: 0 <= i < |gs| ==> r[i] == GtidString(gs[i])
  {
    seq(|gs|, i requires 0 <= i < |gs| => GtidString(gs[i]))
  }

  function FromTexts(parts: seq<string>): Result<seq<Value>, TextError>
  {
    if parts == [] then Ok([])
    else
      match FromText(Strip(parts[0]))
      case Err(e) => Err(e)
      case Ok(v) =>
        match FromTexts(parts[1..])
        case Err(e) => Err(e)
        case Ok(rest) => Ok([v] + rest)
  }

  /** GtidSet(text): the empty string is the empty set. */
  function SetFromText(text: string): Result<seq<Value>, TextError>
  {
    if text == "" then Ok([]) else FromTexts(Split(text, ','))
  }

  lemma {:induction false} AllFromText(parts: seq<string>, gs: seq<Value>)
    requires |parts| == |gs| && forall i :: 0 <= i < |gs| ==> FromText(Strip(parts[i])) == Ok(gs[i])
    ensures FromTexts(parts) == Ok(gs)
  {
    if gs != [] {
      hide FromText, Strip;
      AllFromText(parts[1..], gs[1..]);
      assert gs == [gs[0]] + gs[1..];
    }
  }

  lemma GtidStringShape(v: Value)
    requires Printable(v)
    ensures ',' !in GtidString(v) && Strip(GtidString(v)) == GtidString(v)
  {
    var s := v.intervals;
    forall i | 0 <= i < |s| ensures IntervalCharacters(Texts(s)[i]) { TextCharacters(s[i]); }
    hide Join;
    JoinEnds(Texts(s));
    SidCharacters(v.sid);
  }

  lemma SidCharacters(sid: string)
    requires IsSid(sid)
    ensures forall i :: 0 <= i < |sid| ==> sid[i] == '-' || IsHex(sid[i])
    ensures IsHex(sid[0])
  {
    assert sid == sid[..8] + "-" + sid[9..13] + "-" + sid[14..18] + "-" + sid[19..23] + "-" + sid[24..];
    assert sid[0] == sid[..8][0];
  }

  /** A printed set reads back, the empty one included. */
  lemma SetTextRoundTrip(gs: seq<Value>)
    requires forall i :: 0 <= i < |gs| ==> Canonical(gs[i].intervals) && Printable(gs[i])
    ensures SetFromText(SetString(gs)) == Ok(gs)
  {
    hide Printable, GtidString, FromText, Strip;
    var parts := Strings(gs);
    forall i | 0 <= i < |gs|
      ensures ',' !in parts[i] && FromText(Strip(parts[i])) == Ok(gs[i])
    {
      GtidStringShape(gs[i]);
      PrintableParses(gs[i]);
    }
    if gs != [] {
      SplitJoin(parts, ',');
      assert SetString(gs) != "" by {
        assert parts[0] != "" by { GtidStringNonEmpty(gs[0]); }
      }
      AllFromText(parts, gs);
    }
  }

  lemma GtidStringNonEmpty(v: Value)
    ensures GtidString(v) != ""
  {
  }
}
