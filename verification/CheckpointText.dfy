/**
 The text form of the GTID checkpoint map (src/checkpoint.go): it is what a destination writes to
 Consul, reads back at startup and sends to the replication process when it registers.
 */
module CheckpointText {
  import opened Prelude
  import opened Text
  import opened Applier

  datatype ParseError = BadPair | BadRange | BadNumber

  // ----- order of the keys

  /** The order of sort.Strings. */
  predicate Leq(a: string, b: string)
  {
    a == "" || (b != "" && (a[0] < b[0] || (a[0] == b[0] && Leq(a[1..], b[1..]))))
  }

  lemma {:induction false} LeqTotal(a: string, b: string)
    ensures Leq(a, b) || Leq(b, a)
  {
    if a != "" && b != "" { LeqTotal(a[1..], b[1..]); }
  }

  lemma {:induction false} LeqTransitive(a: string, b: string, c: string)
    requires Leq(a, b) && Leq(b, c)
    ensures Leq(a, c)
  {
    if a != "" && a[0] == b[0] && b[0] == c[0] { LeqTransitive(a[1..], b[1..], c[1..]); }
  }

  lemma {:induction false} LeqAntisymmetric(a: string, b: string)
    requires Leq(a, b) && Leq(b, a)
    ensures a == b
  {
    if a != "" {
      LeqAntisymmetric(a[1..], b[1..]);
      assert a == [a[0]] + a[1..] && b == [b[0]] + b[1..];
    }
  }

  /** Byte order: the first difference decides, and a prefix comes first. */
  lemma {:induction false} LeqIsLexicographic(a: string, b: string)
    ensures Leq(a, b) <==> a <= b || exists i :: 0 <= i < |a| && i < |b| && a[..i] == b[..i] && a[i] < b[i]
  {
    if a != "" && b != "" {
      if a[0] == b[0] {
        LeqIsLexicographic(a[1..], b[1..]);
        SharedHead(a, b);
      } else if a[0] < b[0] {
        assert a[..0] == b[..0];
      } else {
        forall i | 0 <= i < |a| && i < |b| && a[..i] == b[..i] ensures a[i] >= b[i]
        {
          if i > 0 { SameHead(a, b, i); }
        }
      }
    }
  }

  lemma SameHead(a: string, b: string, i: nat)
    requires 0 < i <= |a| && i <= |b| && a[..i] == b[..i]
    ensures a[0] == b[0]
  {
    assert a[..i][0] == b[..i][0];
  }

  lemma SharedHead(a: string, b: string)
    requires a != "" && b != "" && a[0] == b[0]
    ensures a <= b <==> a[1..] <= b[1..]
    ensures (exists i :: 0 <= i < |a| && i < |b| && a[..i] == b[..i] && a[i] < b[i])
            <==> exists i :: 0 <= i < |a| - 1 && i < |b| - 1 && a[1..][..i] == b[1..][..i] && a[1..][i] < b[1..][i]
  {
    if a[1..] <= b[1..] {
      assert a == [a[0]] + a[1..] && b == [b[0]] + b[1..];
    }
    if i :| 0 <= i < |a| && i < |b| && a[..i] == b[..i] && a[i] < b[i] {
      assert i > 0;
      assert a[1..][..i - 1] == a[..i][1..] && b[1..][..i - 1] == b[..i][1..];
      assert a[1..][i - 1] < b[1..][i - 1];
    }
    if i :| 0 <= i < |a| - 1 && i < |b| - 1 && a[1..][..i] == b[1..][..i] && a[1..][i] < b[1..][i] {
      assert a[..i + 1] == [a[0]] + a[1..][..i] && b[..i + 1] == [b[0]] + b[1..][..i];
      assert a[i + 1] < b[i + 1];
    }
  }

  /** `keys` lists exactly the members of `s`, each once. */
  ghost predicate Lists(keys: seq<string>, s: set<string>)
  {
    && (forall i, j :: 0 <= i < j < |keys| ==> keys[i] != keys[j])
    && (forall i :: 0 <= i < |keys| ==> keys[i] in s)
    && (forall k :: k in s ==> k in keys)
  }

  ghost predicate Sorted(keys: seq<string>)
  {
    forall i, j :: 0 <= i < j < |keys| ==> Leq(keys[i], keys[j])
  }

  // ----- printing

  function PartOf(key: string, value: nat): string { key + ":1-" + Digits(value) }

  function PartsOf(m: GtidMap, keys: seq<string>): seq<string>
    requires forall i :: 0 <= i < |keys| ==> keys[i] in m
  {
    seq(|keys|, i requires 0 <= i < |keys| => PartOf(keys[i], m[keys[i]]))
  }

  /** Inserts a new key into a sorted list. */
  method InsertKey(keys: seq<string>, key: string, ghost s: set<string>) returns (r: seq<string>)
    requires Sorted(keys) && Lists(keys, s) && key !in s
    ensures Sorted(r) && Lists(r, s + {key})
  {
    var i := 0;
    while i < |keys| && Leq(keys[i], key)
      invariant 0 <= i <= |keys|
      invariant forall j :: 0 <= j < i ==> Leq(keys[j], key)
    {
      i := i + 1;
    }
    r := keys[..i] + [key] + keys[i..];
    InsertedListed(keys, key, s, i);
    forall a, b | 0 <= a < b < |r| ensures Leq(r[a], r[b]) {
      if i < |keys| { LeqTotal(keys[i], key); }
      if a == i && b > i { if b > i + 1 { LeqTransitive(key, keys[i], keys[b - 1]); } }
    }
  }

  lemma InsertedListed(keys: seq<string>, key: string, s: set<string>, i: nat)
    requires Lists(keys, s) && key !in s && i <= |keys|
    ensures Lists(keys[..i] + [key] + keys[i..], s + {key})
  {
    var r := keys[..i] + [key] + keys[i..];
    forall k | k in s + {key} ensures k in r {
      if k in s {
        var j :| 0 <= j < |keys| && keys[j] == k;
        assert r[if j < i then j else j + 1] == k;
      } else {
        assert r[i] == k;
      }
    }
  }

  /** Collecting the keys of a map in any order and sorting them. */
  method SortedKeys(m: GtidMap) returns (keys: seq<string>)
    ensures Lists(keys, m.Keys) && Sorted(keys)
  {
    var todo := m.Keys;
    keys := [];
    while todo != {}
      invariant todo <= m.Keys && Sorted(keys) && Lists(keys, m.Keys - todo)
      decreases todo
    {
      var key :| key in todo;
      assert m.Keys - (todo - {key}) == (m.Keys - todo) + {key};
      keys := InsertKey(keys, key, m.Keys - todo);
      todo := todo - {key};
    }
    assert m.Keys - todo == m.Keys;
  }

  /** The text lists every key once, in sorted order. */
  ghost predicate IsPrinted(m: GtidMap, s: string)
  {
    exists keys :: Lists(keys, m.Keys) && Sorted(keys) && s == Join(PartsOf(m, keys), ',')
  }

  /** GetGtidSetsRangeStrFromGtidSetsMap: the keys in sorted order, each with its range. */
  method Print(m: GtidMap) returns (s: string)
    ensures IsPrinted(m, s)
  {
    var sorted := SortedKeys(m);
    var parts: seq<string> := [];
    var i := 0;
    while i < |sorted|
      invariant 0 <= i <= |sorted|
      invariant parts == PartsOf(m, sorted[..i])
    {
      parts := parts + [PartOf(sorted[i], m[sorted[i]])];
      i := i + 1;
    }
    assert sorted[..|sorted|] == sorted;
    s := Join(parts, ',');
  }

  // ----- parsing

  /** strconv.ParseUint in base 10 with 64 bits. */
  function ParseUint(s: string): Option<nat>
  {
    if s == "" || !AllDigits(s) || Number(s) >= TWO64 then None else Some(Number(s))
  }

  function ParsePart(part: string): Result<(string, nat), ParseError>
  {
    var pair := Split(part, ':');
    if |pair| != 2 then Err(BadPair)
    else
      var range := Split(pair[1], '-');
      if |range| != 2 then Err(BadRange)
      else match ParseUint(range[1])
        case None => Err(BadNumber)
        case Some(end) => Ok((pair[0], end))
  }

  function ParseParts(parts: seq<string>): Result<GtidMap, ParseError>
  {
    if parts == [] then Ok(map[])
    else match ParseParts(parts[..|parts| - 1])
      case Err(e) => Err(e)
      case Ok(m) =>
        match ParsePart(parts[|parts| - 1])
        case Err(e) => Err(e)
        case Ok(kv) => Ok(m[kv.0 := kv.1])
  }

  function ParseText(s: string): Result<GtidMap, ParseError>
  {
    if s == "" then Ok(map[]) else ParseParts(Split(s, ','))
  }

  /** GetGtidSetsMapFromGtidSetsRangeStr */
  method Parse(s: string) returns (r: Result<GtidMap, ParseError>)
    ensures r == ParseText(s)
  {
    if s == "" { return Ok(map[]); }
    var parts := Split(s, ',');
    var result: GtidMap := map[];
    var i := 0;
    while i < |parts|
      invariant 0 <= i <= |parts|
      invariant ParseParts(parts[..i]) == Ok(result)
    {
      assert parts[..i + 1][..i] == parts[..i];
      match ParsePart(parts[i]) {
        case Err(e) =>
          ErrorStays(parts, i + 1);
          return Err(e);
        case Ok(kv) => result := result[kv.0 := kv.1];
      }
      i := i + 1;
    }
    assert parts[..|parts|] == parts;
    r := Ok(result);
  }

  lemma {:induction false} ErrorStays(parts: seq<string>, i: nat)
    requires i <= |parts| && ParseParts(parts[..i]).Err?
    ensures ParseParts(parts) == ParseParts(parts[..i])
  {
    if i == |parts| {
      assert parts[..i] == parts;
    } else {
      assert parts[..|parts| - 1][..i] == parts[..i];
      ErrorStays(parts[..|parts| - 1], i);
    }
  }

  // ----- round trip

  predicate CleanKey(key: string) { ',' !in key && ':' !in key }

  lemma PartRoundTrip(key: string, value: nat)
    requires CleanKey(key) && value < TWO64
    ensures ParsePart(PartOf(key, value)) == Ok((key, value)) && ',' !in PartOf(key, value)
  {
    var d := Digits(value);
    assert forall c :: c in d ==> IsDigit(c);
    assert ":1-" == [':'] + "1-";
    assert PartOf(key, value) == key + [':'] + ("1-" + d);
    SplitTwo(key, "1-" + d, ':');
    assert "1-" + d == "1" + ['-'] + d;
    SplitTwo("1", d, '-');
    NumberOfDigits(value);
  }

  /** The map restricted to a list of its keys. */
  function Restrict(m: GtidMap, keys: seq<string>): GtidMap
  {
    map k | k in m && k in keys :: m[k]
  }

  lemma RestrictStep(m: GtidMap, keys: seq<string>)
    requires keys != [] && keys[|keys| - 1] in m
    ensures var last := keys[|keys| - 1]; Restrict(m, keys[..|keys| - 1])[last := m[last]] == Restrict(m, keys)
  {
    assert keys == keys[..|keys| - 1] + [keys[|keys| - 1]];
  }

  lemma {:induction false} PartsRoundTrip(m: GtidMap, keys: seq<string>)
    requires forall i :: 0 <= i < |keys| ==> keys[i] in m && CleanKey(keys[i]) && m[keys[i]] < TWO64
    ensures ParseParts(PartsOf(m, keys)) == Ok(Restrict(m, keys)) && Free(PartsOf(m, keys), ',')
  {
    if keys == [] {
      assert Restrict(m, keys) == map[];
    } else {
      hide ParsePart, PartOf, CleanKey, Restrict;
      var before, last := keys[..|keys| - 1], keys[|keys| - 1];
      PartsRoundTrip(m, before);
      PartRoundTrip(last, m[last]);
      var parts := PartsOf(m, keys);
      assert parts[..|parts| - 1] == PartsOf(m, before);
      RestrictStep(m, keys);
    }
  }

  /** Printing and parsing a 64-bit map gives it back exactly when no key contains a comma or a
      colon; a map with such a key can never be read back. */
  lemma TextRoundTrip(m: GtidMap, keys: seq<string>)
    requires Lists(keys, m.Keys) && forall k :: k in m ==> m[k] < TWO64
    ensures ParseText(Join(PartsOf(m, keys), ',')) == Ok(m) <==> forall k :: k in m ==> CleanKey(k)
  {
    var s := Join(PartsOf(m, keys), ',');
    if forall k :: k in m ==> CleanKey(k) {
      PartsRoundTrip(m, keys);
      assert Restrict(m, keys) == m;
      if keys != [] {
        SplitJoin(PartsOf(m, keys), ',');
        PrintedIsNotEmpty(m, keys);
      }
    } else if ParseText(s) == Ok(m) {
      ParsedKeysAreClean(s);
    }
  }

  /** So what a restart reads back is what was persisted, and there is only one text to persist. */
  lemma PersistedReadsBack(m: GtidMap, s: string, t: string)
    requires IsPrinted(m, s) && IsPrinted(m, t) && forall k :: k in m ==> m[k] < TWO64
    ensures s == t && (ParseText(s) == Ok(m) <==> forall k :: k in m ==> CleanKey(k))
  {
    hide ParseText, CleanKey, Join;
    var a :| Lists(a, m.Keys) && Sorted(a) && s == Join(PartsOf(m, a), ',');
    var b :| Lists(b, m.Keys) && Sorted(b) && t == Join(PartsOf(m, b), ',');
    SortedListingUnique(a, b, m.Keys);
    TextRoundTrip(m, a);
  }

  lemma PrintedIsNotEmpty(m: GtidMap, keys: seq<string>)
    requires keys != [] && forall i :: 0 <= i < |keys| ==> keys[i] in m
    ensures Join(PartsOf(m, keys), ',') != ""
  {
    assert |PartsOf(m, keys)[0]| >= 3;
  }

  ghost predicate IsPart(part: string, key: string, first: string, last: string)
  {
    && part == key + ":" + first + "-" + last
    && ':' !in key && ':' !in first && ':' !in last && '-' !in first && '-' !in last
  }

  lemma TwoFields(s: string, c: char, a: string, b: string)
    ensures Split(s, c) == [a, b] <==> s == a + [c] + b && c !in a && c !in b
  {
    if Split(s, c) == [a, b] {
      JoinSplit(s, c);
      SplitIsFree(s, c);
      assert [a, b][0] == a && [a, b][1] == b && [a, b][1..] == [b];
    } else if s == a + [c] + b && c !in a && c !in b {
      SplitTwo(a, b, c);
    }
  }

  /** A part is read exactly when it is a key and a range whose end is a 64-bit number; the start of the range
      may be anything. */
  lemma PartAccepted(part: string, key: string, n: nat)
    ensures ParsePart(part) == Ok((key, n)) <==>
            exists first, last :: IsPart(part, key, first, last) && ParseUint(last) == Some(n)
  {
    hide Split, ParseUint;
    if ParsePart(part) == Ok((key, n)) {
      var pair := Split(part, ':');
      var range := Split(pair[1], '-');
      TwoFields(part, ':', pair[0], pair[1]);
      TwoFields(pair[1], '-', range[0], range[1]);
      assert IsPart(part, key, range[0], range[1]);
    } else if first, last :| IsPart(part, key, first, last) && ParseUint(last) == Some(n) {
      var range := first + "-" + last;
      assert part == key + ":" + range;
      TwoFields(part, ':', key, range);
      TwoFields(range, '-', first, last);
      assert false;
    }
  }

  /** No later part has the key of part i. */
  ghost predicate LastOfKey(parts: seq<string>, key: string, n: nat, i: nat)
  {
    i < |parts| && ParsePart(parts[i]) == Ok((key, n)) &&
    forall j :: i < j < |parts| && ParsePart(parts[j]).Ok? ==> ParsePart(parts[j]).value.0 != key
  }

  ghost predicate HasLast(parts: seq<string>, key: string, n: nat) { exists i :: LastOfKey(parts, key, n, i) }

  lemma HasLastNext(parts: seq<string>, key: string, n: nat)
    requires parts != [] && ParsePart(parts[|parts| - 1]).Ok?
    ensures var kv := ParsePart(parts[|parts| - 1]).value;
            HasLast(parts, key, n) <==> kv == (key, n) || (HasLast(parts[..|parts| - 1], key, n) && kv.0 != key)
  {
    hide ParsePart;
    var front, kv := parts[..|parts| - 1], ParsePart(parts[|parts| - 1]).value;
    if kv == (key, n) {
      assert LastOfKey(parts, key, n, |parts| - 1);
    } else if HasLast(parts, key, n) {
      var i :| LastOfKey(parts, key, n, i);
      assert LastOfKey(front, key, n, i);
    }
    if kv.0 != key && HasLast(front, key, n) {
      var i :| LastOfKey(front, key, n, i);
      assert LastOfKey(parts, key, n, i);
    }
  }

  /** A text is read exactly when all its parts are, and a server that is named twice gets its last range. */
  lemma {:induction false} PartsAccepted(parts: seq<string>, key: string, n: nat)
    ensures ParseParts(parts).Ok? <==> forall i :: 0 <= i < |parts| ==> ParsePart(parts[i]).Ok?
    ensures ParseParts(parts).Ok? ==>
              ((key in ParseParts(parts).value && ParseParts(parts).value[key] == n) <==> HasLast(parts, key, n))
  {
    hide ParsePart, HasLast;
    if parts != [] {
      PartsAccepted(parts[..|parts| - 1], key, n);
      if ParsePart(parts[|parts| - 1]).Ok? { HasLastNext(parts, key, n); }
    } else {
      NoLast(key, n);
    }
  }

  lemma NoLast(key: string, n: nat)
    ensures !HasLast([], key, n)
  {
  }

  lemma ParsedKeysAreClean(s: string)
    requires ParseText(s).Ok?
    ensures forall k :: k in ParseText(s).value ==> CleanKey(k)
  {
    if s != "" {
      SplitIsFree(s, ',');
      ParsedPartsAreClean(Split(s, ','));
    }
  }

  lemma {:induction false} ParsedPartsAreClean(parts: seq<string>)
    requires Free(parts, ',') && ParseParts(parts).Ok?
    ensures forall k :: k in ParseParts(parts).value ==> CleanKey(k)
  {
    if parts != [] {
      ParsedPartsAreClean(parts[..|parts| - 1]);
      var part := parts[|parts| - 1];
      SplitIsFree(part, ':');
      SplitPieces(part, ':');
    }
  }

  /** Pieces of a string contain only its characters. */
  lemma {:induction false} SplitPieces(s: string, c: char)
    ensures forall i, x :: 0 <= i < |Split(s, c)| && x in Split(s, c)[i] ==> x in s
  {
    if s != "" {
      SplitPieces(s[1..], c);
      var rest := Split(s[1..], c);
      forall i, x | 0 <= i < |Split(s, c)| && x in Split(s, c)[i] ensures x in s {
        if x != s[0] {
          assert x in rest[if s[0] == c then i - 1 else i];
          assert x in s[1..];
        }
      }
    }
  }

  /** The printed form does not depend on the order in which the keys were visited. */
  lemma {:induction false} SortedListingUnique(a: seq<string>, b: seq<string>, s: set<string>)
    requires Lists(a, s) && Lists(b, s) && Sorted(a) && Sorted(b)
    ensures a == b
    decreases s
  {
    hide Leq;
    if s == {} {
      assert a == [] && b == [];
    } else {
      SameFirst(a, b, s);
      SameFirst(b, a, s);
      LeqAntisymmetric(a[0], b[0]);
      RestListed(a, s);
      RestListed(b, s);
      SortedListingUnique(a[1..], b[1..], s - {a[0]});
      assert a == [a[0]] + a[1..] && b == [b[0]] + b[1..];
    }
  }

  lemma SameFirst(a: seq<string>, b: seq<string>, s: set<string>)
    requires Lists(a, s) && Lists(b, s) && Sorted(b) && s != {}
    ensures a != [] && b != [] && Leq(b[0], a[0])
  {
    var k :| k in s;
    assert k in a && k in b;
    assert a[0] in b;
    var i :| 0 <= i < |b| && b[i] == a[0];
    if i == 0 { LeqTotal(a[0], a[0]); }
  }

  lemma RestListed(a: seq<string>, s: set<string>)
    requires Lists(a, s) && a != [] && Sorted(a)
    ensures Lists(a[1..], s - {a[0]}) && Sorted(a[1..])
  {
    forall k | k in s - {a[0]} ensures k in a[1..] {
      var i :| 0 <= i < |a| && a[i] == k;
      assert a[1..][i - 1] == k;
    }
  }

  /** Whatever is read fits 64 bits. */
  lemma {:induction false} ParsedPartsFit(parts: seq<string>)
    requires ParseParts(parts).Ok?
    ensures forall k :: k in ParseParts(parts).value ==> ParseParts(parts).value[k] < 0x1_0000_0000_0000_0000
  {
    if parts != [] { ParsedPartsFit(parts[..|parts| - 1]); }
  }

  lemma ParsedIdsFit(s: string)
    requires ParseText(s).Ok?
    ensures forall k :: k in ParseText(s).value ==> ParseText(s).value[k] < 0x1_0000_0000_0000_0000
  {
    if s != "" { ParsedPartsFit(Split(s, ',')); }
  }

  // ----- starting up

  /** What Consul answers about the stored text. */
  datatype Stored = Unreachable | Missing | Found(text: string)

  datatype StartError = ConsulError | TextError(error: ParseError)

  /** QueryGtidSetsMapFromConsul: no stored text reads as the empty map. */
  function Query(stored: Stored): Result<GtidMap, StartError>
  {
    match stored
    case Unreachable => Err(ConsulError)
    case Missing => Ok(map[])
    case Found(text) =>
      match ParseText(text)
      case Ok(m) => Ok(m)
      case Err(e) => Err(TextError(e))
  }

  /** The loops that fill the checkpoint's map, entry by entry. */
  method CopyEntries(source: GtidMap) returns (gtids: GtidMap)
    ensures gtids == source
  {
    gtids := map[];
    var todo := source.Keys;
    while todo != {}
      invariant todo <= source.Keys && gtids.Keys == source.Keys - todo
      invariant forall u :: u in gtids ==> gtids[u] == source[u]
      decreases todo
    {
      var u :| u in todo;
      gtids := gtids[u := source[u]];
      todo := todo - {u};
    }
    assert gtids == source;
  }

  /** InitStartupGtidSetsMap on the fresh, empty map: the stored ids, or the configured ones if none are
      stored. */
  method InitStartup(stored: Stored, configured: string) returns (r: Result<GtidMap, StartError>)
    ensures r == match Query(stored)
                 case Err(e) => Err(e)
                 case Ok(m) =>
                   if m != map[] then Ok(m)
                   else match ParseText(configured) case Ok(c) => Ok(c) case Err(e) => Err(TextError(e))
  {
    hide ParseText;
    var found := Query(stored);
    if found.Err? { return found; }
    var source := found.value;
    if |source| == 0 {
      var text := ParseText(configured);
      if text.Err? { return Err(TextError(text.error)); }
      source := text.value;
    }
    var gtids := CopyEntries(source);
    r := Ok(gtids);
  }

  /** A restart goes on from what was persisted, whatever the configured range says, exactly when the
      persisted map is not empty; its keys are clean, as those of server UUIDs are. */
  lemma RestartReadsPersisted(m: GtidMap, text: string)
    requires IsPrinted(m, text) && (forall k :: k in m ==> m[k] < TWO64) && forall k :: k in m ==> CleanKey(k)
    ensures Query(Found(text)) == Ok(m) && (text == "" <==> m == map[])
  {
    hide CleanKey;
    PersistedReadsBack(m, text, text);
    if text == "" { assert ParseText("") == Ok(map[]); }
    if m == map[] {
      var keys :| Lists(keys, m.Keys) && Sorted(keys) && text == Join(PartsOf(m, keys), ',');
      assert keys == [];
    }
  }
}
