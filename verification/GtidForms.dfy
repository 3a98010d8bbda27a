/** What the GTID text readers accept beyond what they print, and that a destination's checkpoint, read as
    a GTID set, says exactly which transactions it has. */
module GtidForms {
  import opened Prelude
  import opened Bytes
  import opened Text
  import opened GtidIntervals
  import opened GtidText
  import GtidCodec
  import CheckpointText

  // ----- server ids in any case

  lemma HexInAnyCase(c: char)
    ensures IsHex(c) <==> IsHex(GtidCodec.LowerChar(c))
    ensures c == '-' <==> GtidCodec.LowerChar(c) == '-'
  {
  }

  lemma AllHexInAnyCase(s: string, t: string)
    requires |s| == |t| && forall i :: 0 <= i < |s| ==> t[i] == GtidCodec.LowerChar(s[i])
    ensures AllHex(s) <==> AllHex(t)
  {
    hide IsHex, GtidCodec.LowerChar;
    forall i | 0 <= i < |s| ensures IsHex(s[i]) <==> IsHex(t[i]) { HexInAnyCase(s[i]); }
  }

  lemma SidIsSidInLowerCase(s: string)
    ensures IsSid(s) <==> IsSid(GtidCodec.Lower(s))
  {
    var t := GtidCodec.Lower(s);
    if |s| == 36 {
      hide IsHex, AllHex, GtidCodec.LowerChar;
      HexInAnyCase(s[8]);
      HexInAnyCase(s[13]);
      HexInAnyCase(s[18]);
      HexInAnyCase(s[23]);
      AllHexInAnyCase(s[..8], t[..8]);
      AllHexInAnyCase(s[9..13], t[9..13]);
      AllHexInAnyCase(s[14..18], t[14..18]);
      AllHexInAnyCase(s[19..23], t[19..23]);
      AllHexInAnyCase(s[24..], t[24..]);
    }
  }

  /** Every sixteen bytes spelled in any mixture of cases are accepted as a server id. */
  lemma AnyCaseIsAccepted(b: seq<byte>, s: string)
    requires |b| == 16 && GtidCodec.Lower(s) == GtidCodec.SidText(b)
    ensures IsSid(s)
  {
    hide IsSid, GtidCodec.Lower, GtidCodec.SidText;
    GtidCodec.SidTextIsSid(b);
    SidIsSidInLowerCase(s);
  }

  // ----- single transactions

  /** One transaction is printed as one number, several as a range. */
  lemma SingleHasNoDash(v: Interval)
    requires 0 <= v.start < v.stop
    ensures '-' !in IntervalText(v) <==> v.stop == v.start + 1
  {
    if v.start + 1 != v.stop {
      var a := IntText(v.start);
      assert IntervalText(v)[|a|] == '-';
    }
  }

  // ----- a final line feed

  ghost predicate EndsWith(s: string, x: char) { s != "" && s[|s| - 1] == x }

  lemma {:induction false} LastPartEnds(s: string, c: char, x: char)
    requires x != c && EndsWith(s, x)
    ensures EndsWith(Split(s, c)[|Split(s, c)| - 1], x)
  {
    var rest := Split(s[1..], c);
    if |s| > 1 {
      LastPartEnds(s[1..], c, x);
      assert s[0] != c && |rest| == 1 ==> EndsWith([s[0]] + rest[0], x);
    } else {
      assert rest == [""] && [s[0]] + "" == [x];
    }
  }

  /** One line feed at the end is overlooked, two are not. */
  lemma OneLineFeed(v: Value, text: string)
    requires Canonical(v.intervals) && Printable(v)
    ensures FromText(GtidString(v) + "\n") == Ok(v) && FromText(text + "\n\n").Err?
  {
    PrintableParses(v);
    GtidStringShape(v);
    hide GtidString, Printable, Strip;
    var s := GtidString(v);
    assert Chomp(s + "\n") == s;
    assert Chomp(s) == s by { EndsPlainly(v); }
    assert Parse(s + "\n") == Parse(s) by { ChompedParses(s + "\n", s); }
    TwoLineFeeds(text);
  }

  lemma EndsPlainly(v: Value)
    requires Printable(v)
    ensures Chomp(GtidString(v)) == GtidString(v)
  {
    var s := v.intervals;
    forall i | 0 <= i < |s| ensures IntervalCharacters(Texts(s)[i]) { TextCharacters(s[i]); }
    hide Join;
    JoinEnds(Texts(s));
  }

  lemma ChompedParses(a: string, b: string)
    requires Chomp(a) == Chomp(b)
    ensures Parse(a) == Parse(b)
  {
  }

  lemma TwoLineFeeds(text: string)
    ensures Parse(text + "\n\n").Err?
  {
    var t := text + "\n";
    assert text + "\n\n" == t + "\n";
    assert Chomp(t + "\n") == t;
    if |t| >= 36 && IsSid(t[..36]) {
      if |t| == 36 {
        assert t[..36] == t && t[24..][11] == '\n';
      } else {
        var tail := t[36..];
        assert tail[|tail| - 1] == '\n';
        LastPartEnds(tail, ':', '\n');
        var parts := Split(tail, ':');
        assert !IntervalCharacters(parts[|parts| - 1]);
      }
    }
  }

  // ----- blanks between GTIDs

  ghost predicate AllBlank(s: string) { forall i :: 0 <= i < |s| ==> s[i] == ' ' || s[i] == '\n' }

  lemma {:induction false} StripPadded(pre: string, s: string, post: string)
    requires AllBlank(pre) && AllBlank(post) && s != "" && Strip(s) == s
    ensures Strip(pre + s + post) == s
    decreases |pre| + |post|
  {
    EndsNotBlank(s);
    var all := pre + s + post;
    if pre != "" {
      assert all[1..] == pre[1..] + s + post;
      StripPadded(pre[1..], s, post);
    } else if post != "" {
      assert all[..|all| - 1] == pre + s + post[..|post| - 1];
      StripPadded(pre, s, post[..|post| - 1]);
    } else {
      assert all == s;
    }
  }

  lemma EndsNotBlank(s: string)
    requires s != "" && Strip(s) == s
    ensures !Blank(s[0]) && !Blank(s[|s| - 1])
  {
    if Blank(s[0]) { StripShrinks(s[1..]); } else if Blank(s[|s| - 1]) { StripShrinks(s[..|s| - 1]); }
  }

  lemma {:induction false} StripShrinks(s: string)
    ensures |Strip(s)| <= |s|
    decreases |s|
  {
    if s != "" {
      if Blank(s[0]) { StripShrinks(s[1..]); } else if Blank(s[|s| - 1]) { StripShrinks(s[..|s| - 1]); }
    }
  }

  /** A set reads the same with spaces and line feeds around its members. */
  lemma PaddedSetReads(gs: seq<Value>, parts: seq<string>)
    requires gs != [] && |parts| == |gs| && Free(parts, ',')
    requires forall i :: 0 <= i < |gs| ==> Canonical(gs[i].intervals) && Printable(gs[i])
    requires forall i :: 0 <= i < |gs| ==>
      exists pre, post :: AllBlank(pre) && AllBlank(post) && parts[i] == pre + GtidString(gs[i]) + post
    ensures SetFromText(Join(parts, ',')) == Ok(gs)
  {
    hide GtidString, Printable, FromText, Strip, AllBlank;
    forall i | 0 <= i < |gs| ensures FromText(Strip(parts[i])) == Ok(gs[i]) && parts[i] != ""
    {
      var pre, post :| AllBlank(pre) && AllBlank(post) && parts[i] == pre + GtidString(gs[i]) + post;
      GtidStringShape(gs[i]);
      GtidStringNonEmpty(gs[i]);
      StripPadded(pre, GtidString(gs[i]), post);
      PrintableParses(gs[i]);
    }
    SplitJoin(parts, ',');
    AllFromText(parts, gs);
    JoinNonEmpty(parts);
  }

  // ----- a checkpoint read as a GTID set

  /** The part a destination prints for a server says: transactions 1 to n. */
  lemma PartIsARange(key: string, n: nat)
    requires IsSid(key) && n >= 1
    ensures FromText(CheckpointText.PartOf(key, n)) == Ok(RangeOf(key, n))
  {
    var v := Interval(1, n + 1);
    var parts := [ClosedText(v)];
    PartLayout(key, n);
    TextCharacters(v);
    ClosedTextParses(v);
    hide IsSid, ClosedText, IntervalCharacters, Join, Parse, ParseInterval, CheckpointText.PartOf;
    AllParse(parts, [v]);
    ParseLayout(key, parts);
    CanonicalRebuilds([v]);
  }

  lemma PartLayout(key: string, n: nat)
    ensures CheckpointText.PartOf(key, n) == key + ":" + Join([ClosedText(Interval(1, n + 1))], ':')
  {
    assert Digits(1) == "1";
  }

  ghost predicate HasSids(m: map<string, nat>, keys: seq<string>)
  {
    forall i :: 0 <= i < |keys| ==> keys[i] in m && IsSid(keys[i]) && m[keys[i]] >= 1
  }

  ghost function RangeOf(key: string, n: nat): Value { Value(key, [Interval(1, n + 1)]) }

  /** The whole text of a checkpoint is the set of all transactions up to each server's id. */
  lemma CheckpointIsASet(m: map<string, nat>, keys: seq<string>, gs: seq<Value>)
    requires keys != [] && HasSids(m, keys)
    requires |gs| == |keys| && forall i :: 0 <= i < |keys| ==> gs[i] == RangeOf(keys[i], m[keys[i]])
    ensures SetFromText(Join(CheckpointText.PartsOf(m, keys), ',')) == Ok(gs)
  {
    var parts := CheckpointText.PartsOf(m, keys);
    hide FromText, Strip, IsSid, CheckpointText.PartOf, RangeOf, Join, Split, FromTexts;
    forall i | 0 <= i < |keys| ensures ',' !in parts[i] && FromText(Strip(parts[i])) == Ok(gs[i]) && parts[i] != ""
    {
      PartIsARange(keys[i], m[keys[i]]);
      PartShape(keys[i], m[keys[i]]);
    }
    SplitJoin(parts, ',');
    AllFromText(parts, gs);
    JoinNonEmpty(parts);
  }

  lemma JoinNonEmpty(parts: seq<string>)
    requires parts != [] && parts[0] != ""
    ensures Join(parts, ',') != ""
  {
  }

  lemma PartShape(key: string, n: nat)
    requires IsSid(key)
    ensures var s := CheckpointText.PartOf(key, n); s != "" && ',' !in s && Strip(s) == s
  {
    SidCharacters(key);
    var s, d := CheckpointText.PartOf(key, n), Digits(n);
    assert s[|s| - 1] == d[|d| - 1] && s[0] == key[0];
  }
}
