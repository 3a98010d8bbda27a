/** The interval algebra of a GTID (pymysqlreplication/gtid.py): lists of right-open intervals that
    stand for sets of transaction numbers, the in-place `__add_interval` and `__sub_interval`, and
    the sets of GTIDs built from them. */
module GtidIntervals {
  import opened Prelude

  /** [start, stop) */
  datatype Interval = Interval(start: int, stop: int)
  type Intervals = seq<Interval>
  datatype Error = Malformed | Overlapping | DifferentSid

  predicate Overlap(a: Interval, b: Interval) { a.start < b.stop && a.stop > b.start }

  predicate Contains(a: Interval, b: Interval) { b.start >= a.start && b.stop <= a.stop }

  // ----- what a list of intervals means

  predicate Has(v: Interval, x: int) { v.start <= x < v.stop }

  ghost predicate Covers(s: Intervals, x: int) { exists i :: 0 <= i < |s| && Has(s[i], x) }

  predicate Proper(v: Interval) { v.start < v.stop }

  /** Sorted, non-empty and separated by gaps. */
  ghost predicate Canonical(s: Intervals)
  {
    && (forall i :: 0 <= i < |s| ==> Proper(s[i]))
    && (forall i, j :: 0 <= i < j < |s| ==> s[i].stop < s[j].start)
  }

  predicate OverlapsAny(s: Intervals, v: Interval) { exists i :: 0 <= i < |s| && Overlap(s[i], v) }

  ghost predicate AllAfter(s: Intervals, b: int) { forall i :: 0 <= i < |s| ==> b < s[i].start }

  ghost predicate Disjoint(s: Intervals, t: Intervals) { forall x | Covers(s, x) :: !Covers(t, x) }

  ghost predicate IsUnion(r: Intervals, s: Intervals, t: Intervals)
  {
    forall x :: Covers(r, x) <==> Covers(s, x) || Covers(t, x)
  }

  ghost predicate IsDifference(r: Intervals, s: Intervals, t: Intervals)
  {
    forall x :: Covers(r, x) <==> Covers(s, x) && !Covers(t, x)
  }

  lemma CoversHead(s: Intervals, x: int)
    requires s != []
    ensures Covers(s, x) <==> Has(s[0], x) || Covers(s[1..], x)
  {
    if Covers(s, x) {
      var i :| 0 <= i < |s| && Has(s[i], x);
      if i > 0 { assert Has(s[1..][i - 1], x); }
    }
    if Covers(s[1..], x) {
      var i :| 0 <= i < |s| - 1 && Has(s[1..][i], x);
      assert Has(s[i + 1], x);
    }
  }

  lemma CoversConcat(s: Intervals, t: Intervals, x: int)
    ensures Covers(s + t, x) <==> Covers(s, x) || Covers(t, x)
  {
    if Covers(s, x) {
      var i :| 0 <= i < |s| && Has(s[i], x);
      assert Has((s + t)[i], x);
    }
    if Covers(t, x) {
      var i :| 0 <= i < |t| && Has(t[i], x);
      assert Has((s + t)[|s| + i], x);
    }
  }

  /** An interval overlaps one of a list of non-empty intervals exactly when it shares a number with it. */
  lemma OverlapIsIntersection(s: Intervals, v: Interval)
    requires Proper(v) && forall i :: 0 <= i < |s| ==> Proper(s[i])
    ensures OverlapsAny(s, v) <==> exists x :: Covers(s, x) && Has(v, x)
  {
    if OverlapsAny(s, v) {
      var i :| 0 <= i < |s| && Overlap(s[i], v);
      var x := if s[i].start < v.start then v.start else s[i].start;
      assert Has(s[i], x) && Covers(s, x) && Has(v, x);
    }
    if x :| Covers(s, x) && Has(v, x) {
      var i :| 0 <= i < |s| && Has(s[i], x);
      assert Overlap(s[i], v);
    }
  }

  // ----- Python's sorted() on pairs

  predicate Before(a: Interval, b: Interval) { a.start < b.start || (a.start == b.start && a.stop <= b.stop) }

  function Insert(s: Intervals, v: Interval): (r: Intervals)
  {
    if s == [] then [v]
    else if Before(s[|s| - 1], v) then s + [v]
    else Insert(s[..|s| - 1], v) + [s[|s| - 1]]
  }

  function Sort(s: Intervals): (r: Intervals)
  {
    if s == [] then [] else Insert(Sort(s[..|s| - 1]), s[|s| - 1])
  }

  ghost predicate Ordered(s: Intervals) { forall i, j :: 0 <= i < j < |s| ==> Before(s[i], s[j]) }

  lemma {:induction false} InsertKeepsMembers(s: Intervals, v: Interval)
    ensures multiset(Insert(s, v)) == multiset(s) + multiset{v}
  {
    if s != [] && !Before(s[|s| - 1], v) {
      InsertKeepsMembers(s[..|s| - 1], v);
      assert s == s[..|s| - 1] + [s[|s| - 1]];
    }
  }

  lemma {:induction false} InsertSorts(s: Intervals, v: Interval)
    requires Ordered(s)
    ensures Ordered(Insert(s, v))
  {
    if s != [] && !Before(s[|s| - 1], v) {
      var front, last := s[..|s| - 1], s[|s| - 1];
      InsertSorts(front, v);
      InsertKeepsMembers(front, v);
      var r := Insert(front, v);
      forall i | 0 <= i < |r|
        ensures Before(r[i], last)
      {
        assert r[i] in multiset(r);
        assert r[i] == v || r[i] in front;
      }
    } else if s != [] {
      assert forall i :: 0 <= i < |s| ==> Before(s[i], v);
    }
  }

  lemma {:induction false} SortKeepsMembers(s: Intervals)
    ensures multiset(Sort(s)) == multiset(s)
  {
    if s != [] {
      hide Insert;
      var front, last := s[..|s| - 1], s[|s| - 1];
      SortKeepsMembers(front);
      InsertKeepsMembers(Sort(front), last);
      assert s == front + [last];
      assert multiset(front + [last]) == multiset(front) + multiset{last};
    }
  }

  /** The specification of sorted(): an ordered rearrangement. */
  lemma {:induction false} SortSorts(s: Intervals)
    ensures multiset(Sort(s)) == multiset(s)
    ensures Ordered(Sort(s))
  {
    SortKeepsMembers(s);
    if s != [] {
      hide Insert, Ordered, Before;
      SortSorts(s[..|s| - 1]);
      InsertSorts(Sort(s[..|s| - 1]), s[|s| - 1]);
    }
  }

  lemma {:induction false} SortOfCanonical(s: Intervals)
    requires Canonical(s)
    ensures Sort(s) == s
  {
    if s != [] {
      var front, last := s[..|s| - 1], s[|s| - 1];
      SortOfCanonical(front);
      if front != [] { assert front[|front| - 1] == s[|s| - 2]; }
      assert Insert(front, last) == front + [last];
      assert s == front + [last];
    }
  }

  // ----- __add_interval

  /** The merge loop: the intervals that stay, and the added one grown by those it touches. */
  function Absorb(s: Intervals, v: Interval): (Intervals, Interval)
  {
    if s == [] then ([], v)
    else if v.start == s[0].stop then Absorb(s[1..], Interval(s[0].start, v.stop))
    else if v.stop == s[0].start then Absorb(s[1..], Interval(v.start, s[0].stop))
    else
      var r := Absorb(s[1..], v);
      ([s[0]] + r.0, r.1)
  }

  function AddInterval(s: Intervals, v: Interval): Result<Intervals, Error>
  {
    if v.start > v.stop then Err(Malformed)
    else if OverlapsAny(s, v) then Err(Overlapping)
    else
      var r := Absorb(Sort(s), v);
      Ok(Sort(r.0 + [r.1]))
  }

  /** Every interval of the list keeps a gap to v. */
  ghost predicate Apart(s: Intervals, v: Interval)
  {
    forall i :: 0 <= i < |s| ==> s[i].stop < v.start || v.stop < s[i].start
  }

  lemma {:induction false} NothingToAbsorb(s: Intervals, v: Interval)
    requires Canonical(s) && v.start <= v.stop && AllAfter(s, v.stop)
    ensures Absorb(s, v) == (s, v)
  {
    if s != [] {
      NothingToAbsorb(s[1..], v);
      assert s == [s[0]] + s[1..];
    }
  }

  /** What absorbing leaves, and where its parts can start. */
  ghost predicate Absorbed(s: Intervals, v: Interval, n: Intervals, w: Interval)
  {
    && Canonical(n) && Proper(w) && Apart(n, w)
    && (forall b :: AllAfter(s, b) ==> AllAfter(n, b))
    && (forall b :: b < v.start && AllAfter(s, b) ==> b < w.start)
  }

  /** The rest of a canonical list lies after its head, and meets v no more than the whole does. */
  lemma TailOfCanonical(s: Intervals, v: Interval)
    requires Canonical(s) && s != [] && !OverlapsAny(s, v)
    ensures Canonical(s[1..]) && AllAfter(s[1..], s[0].stop) && Proper(s[0]) && !Overlap(s[0], v)
    ensures !OverlapsAny(s[1..], v)
    ensures forall b :: AllAfter(s, b) ==> AllAfter(s[1..], b) && b < s[0].start
  {
    forall i | 0 <= i < |s| - 1
      ensures !Overlap(s[1..][i], v) && s[0].stop < s[1..][i].start
    {
      assert s[1..][i] == s[i + 1];
    }
  }

  /** An interval in front of everything absorbed stays in front. */
  lemma AbsorbedBehind(s: Intervals, v: Interval, n: Intervals, w: Interval)
    requires s != [] && Proper(s[0]) && Absorbed(s[1..], v, n, w)
    requires AllAfter(s[1..], s[0].stop) && (forall b :: AllAfter(s, b) ==> AllAfter(s[1..], b) && b < s[0].start)
    requires s[0].stop < v.start || (w == v && v.stop < s[0].start)
    ensures Absorbed(s, v, [s[0]] + n, w)
  {
    assert AllAfter(n, s[0].stop);
  }

  lemma {:induction false} AbsorbShape(s: Intervals, v: Interval)
    requires Canonical(s) && Proper(v) && !OverlapsAny(s, v)
    ensures var (n, w) := Absorb(s, v); Absorbed(s, v, n, w)
  {
    if s != [] {
      var e, rest := s[0], s[1..];
      TailOfCanonical(s, v);
      if v.start == e.stop {
        AbsorbShape(rest, Interval(e.start, v.stop));
      } else if v.stop == e.start {
        NothingToAbsorb(rest, Interval(v.start, e.stop));
      } else {
        AbsorbShape(rest, v);
        if v.stop < e.start { NothingToAbsorb(rest, v); }
        hide Absorbed, Canonical, AllAfter;
        var (n, w) := Absorb(rest, v);
        AbsorbedBehind(s, v, n, w);
      }
    }
  }

  lemma {:induction false} AbsorbCovers(s: Intervals, v: Interval, x: int)
    requires Canonical(s) && Proper(v) && !OverlapsAny(s, v)
    ensures var (n, w) := Absorb(s, v); Covers(n, x) || Has(w, x) <==> Covers(s, x) || Has(v, x)
  {
    if s != [] {
      var e, rest := s[0], s[1..];
      assert !Overlap(s[0], v);
      forall i | 0 <= i < |rest|
        ensures !Overlap(rest[i], v) && e.stop < rest[i].start
      {
        assert rest[i] == s[i + 1];
      }
      CoversHead(s, x);
      if v.start == e.stop {
        AbsorbCovers(rest, Interval(e.start, v.stop), x);
      } else if v.stop == e.start {
        AbsorbCovers(rest, Interval(v.start, e.stop), x);
      } else {
        AbsorbCovers(rest, v, x);
        var (n, w) := Absorb(rest, v);
        CoversHead([e] + n, x);
        assert ([e] + n)[1..] == n;
      }
    }
  }

  lemma {:induction false} InsertKeepsCanonical(s: Intervals, v: Interval)
    requires Canonical(s) && Proper(v) && Apart(s, v)
    ensures Canonical(Insert(s, v))
    ensures forall x :: Covers(Insert(s, v), x) <==> Covers(s, x) || Has(v, x)
  {
    assert forall x :: Covers([v], x) <==> Has([v][0], x);
    if s == [] {
    } else if Before(s[|s| - 1], v) {
      forall x { CoversConcat(s, [v], x); }
    } else {
      var front, last := s[..|s| - 1], s[|s| - 1];
      InsertKeepsCanonical(front, v);
      InsertStaysBelow(front, v, last.start);
      assert s == front + [last];
      forall x ensures Covers(Insert(s, v), x) <==> Covers(s, x) || Has(v, x)
      {
        CoversConcat(front, [last], x);
        CoversConcat(Insert(front, v), [last], x);
      }
    }
  }

  lemma {:induction false} InsertStaysBelow(s: Intervals, v: Interval, b: int)
    requires v.stop < b && forall i :: 0 <= i < |s| ==> s[i].stop < b
    ensures forall i :: 0 <= i < |Insert(s, v)| ==> Insert(s, v)[i].stop < b
  {
    if s != [] && !Before(s[|s| - 1], v) { InsertStaysBelow(s[..|s| - 1], v, b); }
  }

  /** Adding a non-empty interval raises exactly when it meets the set, and otherwise gives the union
      in canonical form. */
  lemma AddIntervalIsUnion(s: Intervals, v: Interval)
    requires Canonical(s) && Proper(v)
    ensures AddInterval(s, v).Err? <==> exists x :: Covers(s, x) && Has(v, x)
    ensures AddInterval(s, v).Ok? ==> Canonical(AddInterval(s, v).value) && IsUnion(AddInterval(s, v).value, s, [v])
  {
    OverlapIsIntersection(s, v);
    if AddInterval(s, v).Ok? {
      hide Absorb, Insert;
      SortOfCanonical(s);
      AbsorbShape(s, v);
      var (n, w) := Absorb(s, v);
      SortLast(n, w);
      InsertKeepsCanonical(n, w);
      forall x ensures Covers(Insert(n, w), x) <==> Covers(s, x) || Covers([v], x)
      {
        AbsorbCovers(s, v, x);
        assert Covers([v], x) <==> Has([v][0], x);
      }
    }
  }

  /** The number a is where interval k begins or ends. */
  predicate BorderAt(s: Intervals, k: int, a: int) { 0 <= k < |s| && (s[k].start == a || s[k].stop == a) }

  ghost predicate AtBorder(s: Intervals, a: int) { exists k :: BorderAt(s, k, a) }

  predicate StrictlyInside(s: Intervals, a: int) { exists i :: 0 <= i < |s| && s[i].start < a < s[i].stop }

  lemma {:induction false} AwayFromBorders(s: Intervals, v: Interval)
    requires v.start == v.stop && forall k :: 0 <= k < |s| ==> !BorderAt(s, k, v.start)
    ensures Absorb(s, v) == (s, v)
  {
    if s != [] {
      forall k | 0 <= k < |s| - 1 ensures !BorderAt(s[1..], k, v.start) { assert !BorderAt(s, k + 1, v.start); }
      AwayFromBorders(s[1..], v);
      assert !BorderAt(s, 0, v.start);
      assert s == [s[0]] + s[1..];
    }
  }

  function Without(s: Intervals, k: nat): Intervals
    requires k < |s|
  {
    s[..k] + s[k + 1..]
  }

  lemma WithoutTail(s: Intervals, k: nat)
    requires 0 < k < |s|
    ensures [s[0]] + Without(s[1..], k - 1) == Without(s, k)
  {
  }

  lemma AbsorbPasses(s: Intervals, v: Interval)
    requires s != [] && v.start != s[0].stop && v.stop != s[0].start
    ensures Absorb(s, v) == ([s[0]] + Absorb(s[1..], v).0, Absorb(s[1..], v).1)
  {
  }

  lemma AbsorbTouches(s: Intervals, v: Interval)
    requires s != []
    ensures v.start == s[0].stop ==> Absorb(s, v) == Absorb(s[1..], Interval(s[0].start, v.stop))
    ensures v.start != s[0].stop && v.stop == s[0].start ==>
              Absorb(s, v) == Absorb(s[1..], Interval(v.start, s[0].stop))
  {
  }

  lemma AbsorbFirst(s: Intervals, a: int)
    requires Canonical(s) && BorderAt(s, 0, a)
    ensures Absorb(s, Interval(a, a)) == (Without(s, 0), s[0])
  {
    var e, rest := s[0], s[1..];
    assert Canonical(rest) && Proper(e) && AllAfter(rest, e.stop);
    assert Without(s, 0) == rest;
    hide Absorb, Canonical, Without, AllAfter;
    assert Interval(e.start, e.stop) == e;
    AbsorbTouches(s, Interval(a, a));
    NothingToAbsorb(rest, e);
  }

  /** At a border the empty interval is absorbed and takes the place of the one it touches. */
  lemma {:induction false} BorderAbsorbed(s: Intervals, a: int, k: nat)
    requires Canonical(s) && BorderAt(s, k, a)
    ensures Absorb(s, Interval(a, a)) == (Without(s, k), s[k])
    decreases k
  {
    if k == 0 {
      AbsorbFirst(s, a);
    } else {
      assert Proper(s[0]) && Proper(s[k]) && s[0].stop < s[k].start;
      assert BorderAt(s[1..], k - 1, a);
      hide Absorb, Without;
      BorderAbsorbed(s[1..], a, k - 1);
      AbsorbPasses(s, Interval(a, a));
      WithoutTail(s, k);
    }
  }

  lemma WithoutIsApart(s: Intervals, k: nat)
    requires Canonical(s) && k < |s|
    ensures Canonical(Without(s, k)) && Apart(Without(s, k), s[k]) && Proper(s[k])
  {
    var n := Without(s, k);
    forall i | 0 <= i < |n| ensures n[i] == s[if i < k then i else i + 1] {
    }
  }

  lemma WithoutCovers(s: Intervals, k: nat, x: int)
    requires k < |s|
    ensures Covers(s, x) <==> Covers(Without(s, k), x) || Has(s[k], x)
  {
    hide Covers;
    assert s == s[..k] + [s[k]] + s[k + 1..];
    CoversConcat(s[..k], s[k + 1..], x);
    CoversConcat(s[..k], [s[k]], x);
    CoversConcat(s[..k] + [s[k]], s[k + 1..], x);
    CoversOne(s[k], x);
  }

  lemma CoversOne(v: Interval, x: int)
    ensures Covers([v], x) <==> Has(v, x)
  {
    assert Covers([v], x) <==> Has([v][0], x);
  }

  /** Sorting one interval into a canonical list is inserting it. */
  lemma SortLast(n: Intervals, w: Interval)
    requires Canonical(n)
    ensures Sort(n + [w]) == Insert(n, w)
  {
    hide Insert, Canonical;
    SortOfCanonical(n);
    assert (n + [w])[..|n|] == n;
  }

  /** Taking one interval out of a canonical list and sorting it back in changes nothing. */
  lemma SortedBack(s: Intervals, k: nat)
    requires Canonical(s) && k < |s|
    ensures Sort(Without(s, k) + [s[k]]) == s
  {
    hide Canonical, Insert, Sort, Without, Covers, Has;
    WithoutIsApart(s, k);
    SortLast(Without(s, k), s[k]);
    InsertKeepsCanonical(Without(s, k), s[k]);
    forall x { WithoutCovers(s, k, x); }
    CanonicalIsUnique(Insert(Without(s, k), s[k]), s);
  }

  lemma EmptySurvives(n: Intervals, w: Interval)
    requires !Proper(w)
    ensures !Canonical(Sort(n + [w])) && w in Sort(n + [w])
  {
    hide Sort;
    SortKeepsMembers(n + [w]);
    var r := Sort(n + [w]);
    assert w in multiset(n + [w]);
    assert w in multiset(r);
    var k :| 0 <= k < |r| && r[k] == w;
    assert !Proper(r[k]);
  }

  /** An empty interval falls outside the promise: it raises exactly strictly inside another interval,
      changes nothing exactly at the border of one, and anywhere else is stored, which breaks the
      canonical form. */
  lemma AddEmptyInterval(s: Intervals, a: int)
    requires Canonical(s)
    ensures var r := AddInterval(s, Interval(a, a));
            && (r.Err? <==> StrictlyInside(s, a))
            && (r.Ok? ==> (Canonical(r.value) <==> AtBorder(s, a)))
            && (r.Ok? ==> if AtBorder(s, a) then r.value == s else Interval(a, a) in r.value)
  {
    var v := Interval(a, a);
    OverlapsEmpty(s, a);
    SortOfCanonical(s);
    if !OverlapsAny(s, v) {
      hide Absorb, Sort, Canonical, Without, OverlapsAny;
      if k :| BorderAt(s, k, a) {
        BorderAbsorbed(s, a, k);
        SortedBack(s, k);
      } else {
        AwayFromBorders(s, v);
        EmptySurvives(s, v);
      }
    }
  }

  lemma OverlapsEmpty(s: Intervals, a: int)
    ensures OverlapsAny(s, Interval(a, a)) <==> StrictlyInside(s, a)
  {
    if i :| 0 <= i < |s| && s[i].start < a < s[i].stop { assert Overlap(s[i], Interval(a, a)); }
  }

  // ----- __sub_interval

  function Carved(e: Interval, v: Interval): Intervals
  {
    if Overlap(e, v) then
      (if e.start < v.start then [Interval(e.start, v.start)] else [])
      + (if e.stop > v.stop then [Interval(v.stop, e.stop)] else [])
    else [e]
  }

  function Carve(s: Intervals, v: Interval): Intervals
  {
    if s == [] then [] else Carve(s[..|s| - 1], v) + Carved(s[|s| - 1], v)
  }

  function SubInterval(s: Intervals, v: Interval): Result<Intervals, Error>
  {
    if v.start > v.stop then Err(Malformed)
    else if !OverlapsAny(s, v) then Ok(s)
    else Ok(Carve(Sort(s), v))
  }

  ghost predicate AllBelow(s: Intervals, b: int) { forall i :: 0 <= i < |s| ==> s[i].stop < b }

  lemma {:induction false} CarveBelow(s: Intervals, v: Interval, b: int)
    requires v.start <= v.stop && AllBelow(s, b)
    ensures AllBelow(Carve(s, v), b)
  {
    if s != [] {
      CarveBelow(s[..|s| - 1], v, b);
      assert AllBelow(Carved(s[|s| - 1], v), b);
    }
  }

  lemma {:induction false} CarveShape(s: Intervals, v: Interval)
    requires Canonical(s) && Proper(v)
    ensures Canonical(Carve(s, v))
  {
    if s != [] {
      var front, last := s[..|s| - 1], s[|s| - 1];
      CarveShape(front, v);
      CarveBelow(front, v, last.start);
      CarvedShape(last, v);
      CanonicalConcat(Carve(front, v), Carved(last, v), last.start);
    }
  }

  lemma CarvedShape(e: Interval, v: Interval)
    requires Proper(e) && Proper(v)
    ensures Canonical(Carved(e, v)) && AllAfter(Carved(e, v), e.start - 1)
  {
  }

  lemma CanonicalConcat(s: Intervals, t: Intervals, b: int)
    requires Canonical(s) && Canonical(t) && AllBelow(s, b) && AllAfter(t, b - 1)
    ensures Canonical(s + t)
  {
  }

  lemma CarvedCovers(e: Interval, v: Interval, x: int)
    requires v.start <= v.stop
    ensures Covers(Carved(e, v), x) <==> Has(e, x) && !Has(v, x)
  {
    var left := if e.start < v.start then [Interval(e.start, v.start)] else [];
    var right := if e.stop > v.stop then [Interval(v.stop, e.stop)] else [];
    CoversConcat(left, right, x);
    assert left != [] ==> (Covers(left, x) <==> Has(left[0], x));
    assert right != [] ==> (Covers(right, x) <==> Has(right[0], x));
    assert Covers([e], x) <==> Has([e][0], x);
  }

  lemma {:induction false} CarveCovers(s: Intervals, v: Interval, x: int)
    requires v.start <= v.stop
    ensures Covers(Carve(s, v), x) <==> Covers(s, x) && !Has(v, x)
  {
    if s != [] {
      var front, last := s[..|s| - 1], s[|s| - 1];
      CarveCovers(front, v, x);
      CarvedCovers(last, v, x);
      assert s == front + [last];
      CoversConcat(front, [last], x);
      CoversConcat(Carve(front, v), Carved(last, v), x);
      assert Covers([last], x) <==> Has([last][0], x);
    }
  }

  /** Subtracting gives the set difference and keeps the canonical form; it never raises. */
  lemma SubIntervalIsDifference(s: Intervals, v: Interval)
    requires Canonical(s) && Proper(v)
    ensures SubInterval(s, v).Ok?
    ensures Canonical(SubInterval(s, v).value) && IsDifference(SubInterval(s, v).value, s, [v])
  {
    SortOfCanonical(s);
    CarveShape(s, v);
    OverlapIsIntersection(s, v);
    forall x ensures Covers(SubInterval(s, v).value, x) <==> Covers(s, x) && !Covers([v], x)
    {
      CarveCovers(s, v, x);
      assert Covers([v], x) <==> Has([v][0], x);
    }
  }

  /** Subtracting an empty interval changes no transaction, but cuts an interval it lies strictly
      inside into two touching ones. */
  lemma SubEmptyInterval(s: Intervals, a: int)
    requires Canonical(s)
    ensures SubInterval(s, Interval(a, a)).Ok? && IsDifference(SubInterval(s, Interval(a, a)).value, s, [])
    ensures Canonical(SubInterval(s, Interval(a, a)).value) <==> !StrictlyInside(s, a)
  {
    var v := Interval(a, a);
    SortOfCanonical(s);
    forall x { CarveCovers(s, v, x); }
    if i :| 0 <= i < |s| && s[i].start < a < s[i].stop {
      assert Overlap(s[i], v);
      var k := CarvePieces(s, v, i);
      assert CutAt(Carve(s, v), k, v);
    } else {
      assert !OverlapsAny(s, v);
    }
  }

  ghost predicate CutAt(s: Intervals, k: int, v: Interval)
  {
    0 <= k < |s| - 1 && s[k].stop == v.start && s[k + 1].start == v.stop
  }

  lemma {:induction false} CarvePieces(s: Intervals, v: Interval, i: nat) returns (k: int)
    requires i < |s| && Overlap(s[i], v) && s[i].start < v.start && v.stop < s[i].stop
    ensures CutAt(Carve(s, v), k, v)
  {
    var front, last := s[..|s| - 1], s[|s| - 1];
    if i < |s| - 1 {
      k := CarvePieces(front, v, i);
    } else {
      k := |Carve(front, v)|;
    }
  }

  // ----- canonical lists are unique

  lemma StartIsCovered(s: Intervals)
    requires Canonical(s) && s != []
    ensures Covers(s, s[0].start)
    ensures forall x :: Covers(s, x) ==> s[0].start <= x
    ensures !Covers(s, s[0].stop)
    ensures forall x :: s[0].start <= x < s[0].stop ==> Covers(s, x)
  {
    assert Has(s[0], s[0].start);
    forall x | s[0].start <= x < s[0].stop ensures Covers(s, x) { assert Has(s[0], x); }
  }

  lemma StopsAgree(s: Intervals, t: Intervals)
    requires Canonical(s) && Canonical(t) && s != [] && t != [] && s[0].start == t[0].start
    requires forall x :: Covers(s, x) ==> Covers(t, x)
    ensures s[0].stop <= t[0].stop
  {
    StartIsCovered(s);
    StartIsCovered(t);
  }

  /** Two canonical lists that cover the same numbers are the same list. */
  lemma {:induction false} CanonicalIsUnique(s: Intervals, t: Intervals)
    requires Canonical(s) && Canonical(t) && forall x :: Covers(s, x) <==> Covers(t, x)
    ensures s == t
    decreases |s|
  {
    if s == [] {
      if t != [] { StartIsCovered(t); }
    } else {
      StartIsCovered(s);
      assert t != [];
      StartIsCovered(t);
      StopsAgree(s, t);
      StopsAgree(t, s);
      forall x ensures Covers(s[1..], x) <==> Covers(t[1..], x)
      {
        CoversHead(s, x);
        CoversHead(t, x);
        if Covers(s[1..], x) { TailIsLater(s, x); }
        if Covers(t[1..], x) { TailIsLater(t, x); }
      }
      CanonicalIsUnique(s[1..], t[1..]);
      assert s == [s[0]] + s[1..] && t == [t[0]] + t[1..];
    }
  }

  lemma TailIsLater(s: Intervals, x: int)
    requires Canonical(s) && s != [] && Covers(s[1..], x)
    ensures s[0].stop < x
  {
    var i :| 0 <= i < |s| - 1 && Has(s[1..][i], x);
    assert s[1..][i] == s[i + 1];
  }

  // ----- __contains__ and __eq__

  /** A GTID: a server id and its transactions. */
  datatype Value = Value(sid: string, intervals: Intervals)

  predicate Includes(me: Value, other: Value)
  {
    other.sid == me.sid
    && forall j :: 0 <= j < |other.intervals| ==>
         exists i :: 0 <= i < |me.intervals| && Contains(me.intervals[i], other.intervals[j])
  }

  predicate Equal(a: Value, b: Value) { a.sid == b.sid && a.intervals == b.intervals }

  lemma OneIntervalContains(s: Intervals, v: Interval)
    requires Canonical(s) && Proper(v) && forall x | Has(v, x) :: Covers(s, x)
    ensures exists i :: 0 <= i < |s| && Contains(s[i], v)
  {
    assert Has(v, v.start);
    var i :| 0 <= i < |s| && Has(s[i], v.start);
    if s[i].stop < v.stop {
      var x := s[i].stop;
      assert Has(v, x);
    } else {
      assert Contains(s[i], v);
    }
  }

  /** The inclusion test decides inclusion of transaction sets. */
  lemma IncludesIsSubset(me: Value, other: Value)
    requires Canonical(me.intervals) && Canonical(other.intervals)
    ensures Includes(me, other)
            <==> me.sid == other.sid && forall x | Covers(other.intervals, x) :: Covers(me.intervals, x)
  {
    var s, t := me.intervals, other.intervals;
    if Includes(me, other) {
      forall x | Covers(t, x) ensures Covers(s, x)
      {
        var j :| 0 <= j < |t| && Has(t[j], x);
        var i :| 0 <= i < |s| && Contains(s[i], t[j]);
        assert Has(s[i], x);
      }
    } else if me.sid == other.sid && forall x | Covers(t, x) :: Covers(s, x) {
      forall j | 0 <= j < |t| ensures exists i :: 0 <= i < |s| && Contains(s[i], t[j])
      {
        forall x | Has(t[j], x) ensures Covers(s, x) { assert Covers(t, x); }
        OneIntervalContains(s, t[j]);
      }
    }
  }

  /** The equality test decides equality of transaction sets. */
  lemma EqualIsSameSet(a: Value, b: Value)
    requires Canonical(a.intervals) && Canonical(b.intervals)
    ensures Equal(a, b) <==> a.sid == b.sid && forall x :: Covers(a.intervals, x) <==> Covers(b.intervals, x)
    ensures Equal(a, b) <==> Includes(a, b) && Includes(b, a)
  {
    IncludesIsSubset(a, b);
    IncludesIsSubset(b, a);
    if a.sid == b.sid && forall x :: Covers(a.intervals, x) <==> Covers(b.intervals, x) {
      CanonicalIsUnique(a.intervals, b.intervals);
    }
  }

  // ----- __add__ and __sub__

  function AddAll(s: Intervals, t: Intervals): Result<Intervals, Error>
  {
    if t == [] then Ok(s)
    else
      match AddAll(s, t[..|t| - 1])
      case Ok(r) => AddInterval(r, t[|t| - 1])
      case Err(e) => Err(e)
  }

  function SubAll(s: Intervals, t: Intervals): Result<Intervals, Error>
  {
    if t == [] then Ok(s)
    else
      match SubAll(s, t[..|t| - 1])
      case Ok(r) => SubInterval(r, t[|t| - 1])
      case Err(e) => Err(e)
  }

  function Plus(a: Value, b: Value): Result<Value, Error>
  {
    if a.sid != b.sid then Err(DifferentSid)
    else
      match AddAll(a.intervals, b.intervals)
      case Ok(r) => Ok(Value(a.sid, r))
      case Err(e) => Err(e)
  }

  function Minus(a: Value, b: Value): Result<Value, Error>
  {
    if a.sid != b.sid then Ok(a)
    else
      match SubAll(a.intervals, b.intervals)
      case Ok(r) => Ok(Value(a.sid, r))
      case Err(e) => Err(e)
  }

  lemma CoversLast(t: Intervals, x: int)
    requires t != []
    ensures Covers(t, x) <==> Covers(t[..|t| - 1], x) || Has(t[|t| - 1], x)
    ensures Covers([t[|t| - 1]], x) <==> Has(t[|t| - 1], x)
  {
    assert t == t[..|t| - 1] + [t[|t| - 1]];
    CoversConcat(t[..|t| - 1], [t[|t| - 1]], x);
    assert Covers([t[|t| - 1]], x) <==> Has([t[|t| - 1]][0], x);
  }

  lemma {:induction false} AddAllIsUnion(s: Intervals, t: Intervals)
    requires Canonical(s) && Canonical(t)
    ensures AddAll(s, t).Ok? <==> Disjoint(s, t)
    ensures AddAll(s, t).Ok? ==> Canonical(AddAll(s, t).value) && IsUnion(AddAll(s, t).value, s, t)
  {
    if t != [] {
      hide AddInterval;
      var front, last := t[..|t| - 1], t[|t| - 1];
      AddAllIsUnion(s, front);
      forall x { CoversLast(t, x); }
      var f := AddAll(s, front);
      if f.Ok? {
        AddIntervalIsUnion(f.value, last);
        LastIsApart(t, front, last);
        if AddInterval(f.value, last).Ok? {
          forall x | Covers(s, x) ensures !Covers(t, x) { assert Covers(f.value, x); }
        }
      } else {
        var x :| Covers(s, x) && Covers(front, x);
        assert Covers(t, x);
      }
    }
  }

  /** The last interval of a canonical list shares nothing with the others. */
  lemma LastIsApart(t: Intervals, front: Intervals, last: Interval)
    requires Canonical(t) && t == front + [last]
    ensures forall x | Covers(front, x) :: !Has(last, x)
  {
    forall x | Covers(front, x) ensures !Has(last, x)
    {
      var i :| 0 <= i < |front| && Has(front[i], x);
      assert front[i] == t[i] && last == t[|t| - 1];
    }
  }

  lemma {:induction false} SubAllIsDifference(s: Intervals, t: Intervals)
    requires Canonical(s) && Canonical(t)
    ensures SubAll(s, t).Ok?
    ensures Canonical(SubAll(s, t).value) && IsDifference(SubAll(s, t).value, s, t)
  {
    if t != [] {
      hide SubInterval;
      var front, last := t[..|t| - 1], t[|t| - 1];
      SubAllIsDifference(s, front);
      forall x { CoversLast(t, x); }
      SubIntervalIsDifference(SubAll(s, front).value, last);
    }
  }

  /** Addition is defined exactly on equal server ids and disjoint sets, and then is the union. */
  lemma PlusIsUnion(a: Value, b: Value)
    requires Canonical(a.intervals) && Canonical(b.intervals)
    ensures Plus(a, b).Ok? <==> a.sid == b.sid && Disjoint(a.intervals, b.intervals)
    ensures Plus(a, b).Ok? ==>
              var r := Plus(a, b).value;
              r.sid == a.sid && Canonical(r.intervals) && IsUnion(r.intervals, a.intervals, b.intervals)
  {
    AddAllIsUnion(a.intervals, b.intervals);
  }

  lemma MinusIsDifference(a: Value, b: Value)
    requires Canonical(a.intervals) && Canonical(b.intervals)
    ensures Minus(a, b).Ok? && Minus(a, b).value.sid == a.sid
    ensures var r := Minus(a, b).value.intervals;
            Canonical(r) && if a.sid == b.sid then IsDifference(r, a.intervals, b.intervals) else r == a.intervals
  {
    SubAllIsDifference(a.intervals, b.intervals);
  }

  lemma PlusCommutes(a: Value, b: Value)
    requires Canonical(a.intervals) && Canonical(b.intervals)
    ensures Plus(a, b).Ok? <==> Plus(b, a).Ok?
    ensures Plus(a, b).Ok? ==> Plus(a, b) == Plus(b, a)
  {
    hide Plus;
    PlusIsUnion(a, b);
    PlusIsUnion(b, a);
    if Plus(a, b).Ok? { CanonicalIsUnique(Plus(a, b).value.intervals, Plus(b, a).value.intervals); }
  }

  function AndThen(r: Result<Value, Error>, f: Value -> Result<Value, Error>): Result<Value, Error>
  {
    match r
    case Ok(v) => f(v)
    case Err(e) => Err(e)
  }

  /** a + (b + c) and (a + b) + c are defined together and equal. */
  lemma PlusAssociates(a: Value, b: Value, c: Value)
    requires Canonical(a.intervals) && Canonical(b.intervals) && Canonical(c.intervals)
    ensures var left := AndThen(Plus(a, b), ab => Plus(ab, c)); var right := AndThen(Plus(b, c), bc => Plus(a, bc));
            (left.Ok? <==> right.Ok?) && (left.Ok? ==> left == right)
  {
    hide Plus;
    PlusIsUnion(a, b);
    PlusIsUnion(b, c);
    if Plus(a, b).Ok? { PlusIsUnion(Plus(a, b).value, c); }
    if Plus(b, c).Ok? { PlusIsUnion(a, Plus(b, c).value); }
    var left, right := AndThen(Plus(a, b), ab => Plus(ab, c)), AndThen(Plus(b, c), bc => Plus(a, bc));
    if left.Ok? && right.Ok? { CanonicalIsUnique(left.value.intervals, right.value.intervals); }
  }

  /** Subtraction undoes addition: (a + b) - b is a. */
  lemma MinusUndoesPlus(a: Value, b: Value)
    requires Canonical(a.intervals) && Canonical(b.intervals) && Plus(a, b).Ok?
    ensures Minus(Plus(a, b).value, b) == Ok(a)
  {
    hide Plus, Minus;
    PlusIsUnion(a, b);
    MinusIsDifference(Plus(a, b).value, b);
    CanonicalIsUnique(Minus(Plus(a, b).value, b).value.intervals, a.intervals);
  }

  /** And addition undoes subtraction of a subset: (a - b) + b is a exactly when b lies in a. */
  lemma PlusUndoesMinus(a: Value, b: Value)
    requires Canonical(a.intervals) && Canonical(b.intervals)
    ensures AndThen(Minus(a, b), d => Plus(d, b)) == Ok(a) <==> Includes(a, b)
  {
    hide Plus, Minus, Includes;
    IncludesIsSubset(a, b);
    MinusIsDifference(a, b);
    var d := Minus(a, b).value;
    PlusIsUnion(d, b);
    if Includes(a, b) {
      CanonicalIsUnique(Plus(d, b).value.intervals, a.intervals);
    }
  }
}
