/** GTIDs and sets of GTIDs as the objects of pymysqlreplication/gtid.py, updated in place, and what
    merging means for the set of (server id, transaction) pairs. */
module GtidSets {
  import opened Prelude
  import opened Algebra = GtidIntervals

  // ----- merge_gtid on values

  predicate Knows(gs: seq<Value>, sid: string) { exists i :: 0 <= i < |gs| && gs[i].sid == sid }

  /** The loop of merge_gtid: every member with the server id of g takes in g. */
  function MergeEach(gs: seq<Value>, g: Value): Result<seq<Value>, Error>
  {
    if gs == [] then Ok([])
    else
      var last := gs[|gs| - 1];
      match MergeEach(gs[..|gs| - 1], g)
      case Err(e) => Err(e)
      case Ok(r) =>
        if last.sid != g.sid then Ok(r + [last])
        else
          match Plus(last, g)
          case Ok(v) => Ok(r + [v])
          case Err(e) => Err(e)
  }

  function Merged(gs: seq<Value>, g: Value): Result<seq<Value>, Error>
  {
    match MergeEach(gs, g)
    case Err(e) => Err(e)
    case Ok(r) => Ok(if Knows(r, g.sid) then r else r + [g])
  }

  function MergeAll(gs: seq<Value>, others: seq<Value>): Result<seq<Value>, Error>
  {
    if others == [] then Ok(gs)
    else
      match MergeAll(gs, others[..|others| - 1])
      case Ok(r) => Merged(r, others[|others| - 1])
      case Err(e) => Err(e)
  }

  /** One canonical GTID per server id. */
  ghost predicate WellFormed(gs: seq<Value>)
  {
    && (forall i :: 0 <= i < |gs| ==> Canonical(gs[i].intervals))
    && (forall i, j :: 0 <= i < j < |gs| ==> gs[i].sid != gs[j].sid)
  }

  ghost predicate Holds(g: Value, sid: string, x: int) { g.sid == sid && Covers(g.intervals, x) }

  /** Transaction x of server sid is in the set. */
  ghost predicate Member(gs: seq<Value>, sid: string, x: int)
  {
    exists i :: 0 <= i < |gs| && Holds(gs[i], sid, x)
  }

  ghost predicate SameSids(r: seq<Value>, gs: seq<Value>)
  {
    |r| == |gs| && forall i :: 0 <= i < |r| ==> r[i].sid == gs[i].sid
  }

  /** Slot by slot, what the loop leaves. */
  ghost predicate Each(r: seq<Value>, gs: seq<Value>, g: Value)
  {
    && SameSids(r, gs)
    && forall i :: 0 <= i < |gs| ==> if gs[i].sid == g.sid then Plus(gs[i], g) == Ok(r[i]) else r[i] == gs[i]
  }

  lemma {:induction false} MergeEachSlots(gs: seq<Value>, g: Value)
    ensures MergeEach(gs, g).Ok? <==> forall i :: 0 <= i < |gs| && gs[i].sid == g.sid ==> Plus(gs[i], g).Ok?
    ensures MergeEach(gs, g).Ok? ==> Each(MergeEach(gs, g).value, gs, g)
  {
    if gs != [] {
      hide Plus;
      var front, last := gs[..|gs| - 1], gs[|gs| - 1];
      assert gs == front + [last];
      MergeEachSlots(front, g);
      PlusKeepsSid(last, g);
      if MergeEach(front, g).Err? {
        var i :| 0 <= i < |front| && front[i].sid == g.sid && Plus(front[i], g).Err?;
        assert gs[i] == front[i];
      } else {
        assert gs == front + [last];
        assert forall i :: 0 <= i < |front| ==> front[i] == gs[i];
      }
    }
  }

  lemma PlusKeepsSid(a: Value, b: Value)
    ensures Plus(a, b).Ok? ==> Plus(a, b).value.sid == a.sid
  {
  }

  lemma MemberAt(gs: seq<Value>, i: nat, sid: string, x: int)
    requires WellFormed(gs) && i < |gs| && gs[i].sid == sid
    ensures Member(gs, sid, x) <==> Covers(gs[i].intervals, x)
  {
    if Covers(gs[i].intervals, x) { assert Holds(gs[i], sid, x); }
  }

  ghost predicate IsMerge(r: seq<Value>, gs: seq<Value>, others: seq<Value>)
  {
    forall sid, x :: Member(r, sid, x) <==> Member(gs, sid, x) || Member(others, sid, x)
  }

  ghost predicate Apart(gs: seq<Value>, others: seq<Value>)
  {
    forall sid, x | Member(gs, sid, x) :: !Member(others, sid, x)
  }

  lemma SingleMember(g: Value, sid: string, x: int)
    ensures Member([g], sid, x) <==> Holds(g, sid, x)
  {
    if Holds(g, sid, x) { assert Holds([g][0], sid, x); }
  }

  lemma MemberConcat(a: seq<Value>, b: seq<Value>, sid: string, x: int)
    ensures Member(a + b, sid, x) <==> Member(a, sid, x) || Member(b, sid, x)
  {
    if Member(a, sid, x) {
      var i :| 0 <= i < |a| && Holds(a[i], sid, x);
      assert Holds((a + b)[i], sid, x);
    }
    if Member(b, sid, x) {
      var i :| 0 <= i < |b| && Holds(b[i], sid, x);
      assert Holds((a + b)[|a| + i], sid, x);
    }
  }

  /** A new server id is appended. */
  lemma MergeNew(gs: seq<Value>, g: Value)
    requires WellFormed(gs) && Canonical(g.intervals) && !Knows(gs, g.sid)
    ensures Merged(gs, g) == Ok(gs + [g])
    ensures WellFormed(gs + [g]) && IsMerge(gs + [g], gs, [g]) && Apart(gs, [g])
  {
    MergeEachSlots(gs, g);
    assert MergeEach(gs, g).value == gs;
    forall sid, x ensures Member(gs + [g], sid, x) <==> Member(gs, sid, x) || Member([g], sid, x)
    {
      MemberConcat(gs, [g], sid, x);
    }
    forall sid, x | Member(gs, sid, x) ensures !Member([g], sid, x)
    {
      SingleMember(g, sid, x);
    }
  }

  /** A known server id takes g into its slot, if nothing is held twice. */
  lemma MergeKnown(gs: seq<Value>, g: Value, k: nat)
    requires WellFormed(gs) && Canonical(g.intervals) && k < |gs| && gs[k].sid == g.sid
    ensures Merged(gs, g).Ok? <==> Plus(gs[k], g).Ok?
    ensures Plus(gs[k], g).Ok? ==> Merged(gs, g) == Ok(gs[k := Plus(gs[k], g).value])
    ensures Plus(gs[k], g).Ok? <==> Apart(gs, [g])
  {
    hide Plus;
    MergeEachSlots(gs, g);
    PlusIsUnion(gs[k], g);
    if Plus(gs[k], g).Ok? {
      PlusKeepsSid(gs[k], g);
      assert MergeEach(gs, g).value == gs[k := Plus(gs[k], g).value];
    }
    ApartAt(gs, g, k);
  }

  lemma ApartAt(gs: seq<Value>, g: Value, k: nat)
    requires WellFormed(gs) && k < |gs| && gs[k].sid == g.sid
    ensures Disjoint(gs[k].intervals, g.intervals) <==> Apart(gs, [g])
  {
    if Apart(gs, [g]) {
      forall x | Covers(gs[k].intervals, x) ensures !Covers(g.intervals, x)
      {
        MemberOf(gs, k, x);
        SingleMember(g, g.sid, x);
      }
    }
    if Disjoint(gs[k].intervals, g.intervals) {
      forall sid, x | Member(gs, sid, x) ensures !Member([g], sid, x)
      {
        SingleMember(g, sid, x);
        MemberOf(gs, k, x);
      }
    }
  }

  lemma MemberOf(gs: seq<Value>, k: nat, x: int)
    requires WellFormed(gs) && k < |gs|
    ensures Member(gs, gs[k].sid, x) <==> Covers(gs[k].intervals, x)
  {
    MemberAt(gs, k, gs[k].sid, x);
  }

  lemma MergeSlot(gs: seq<Value>, g: Value, k: nat)
    requires WellFormed(gs) && Canonical(g.intervals) && k < |gs| && Plus(gs[k], g).Ok?
    ensures WellFormed(gs[k := Plus(gs[k], g).value]) && IsMerge(gs[k := Plus(gs[k], g).value], gs, [g])
  {
    PlusIsUnion(gs[k], g);
    PlusKeepsSid(gs[k], g);
    hide Plus;
    var r := gs[k := Plus(gs[k], g).value];
    forall sid, x ensures Member(r, sid, x) <==> Member(gs, sid, x) || Member([g], sid, x)
    {
      SingleMember(g, sid, x);
      if Member(r, sid, x) {
        var i :| 0 <= i < |r| && Holds(r[i], sid, x);
        if i != k { assert Holds(gs[i], sid, x); } else { MemberOf(gs, k, x); }
      }
      if Member(gs, sid, x) {
        var i :| 0 <= i < |gs| && Holds(gs[i], sid, x);
        assert Holds(r[i], sid, x);
      }
      if Holds(g, sid, x) { assert Holds(r[k], sid, x); }
    }
  }

  /** merge_gtid raises exactly when a transaction would be held twice; otherwise it is the union, and
      still has one canonical GTID per server id. */
  lemma MergedIsUnion(gs: seq<Value>, g: Value)
    requires WellFormed(gs) && Canonical(g.intervals)
    ensures Merged(gs, g).Ok? <==> Apart(gs, [g])
    ensures Merged(gs, g).Ok? ==> WellFormed(Merged(gs, g).value) && IsMerge(Merged(gs, g).value, gs, [g])
  {
    hide Merged;
    if k :| 0 <= k < |gs| && gs[k].sid == g.sid {
      MergeKnown(gs, g, k);
      if Merged(gs, g).Ok? { MergeSlot(gs, g, k); }
    } else {
      MergeNew(gs, g);
    }
  }

  lemma {:induction false} MergeAllIsUnion(gs: seq<Value>, others: seq<Value>)
    requires WellFormed(gs) && WellFormed(others)
    ensures MergeAll(gs, others).Ok? <==> Apart(gs, others)
    ensures MergeAll(gs, others).Ok? ==>
              WellFormed(MergeAll(gs, others).value) && IsMerge(MergeAll(gs, others).value, gs, others)
  {
    if others != [] {
      hide Merged;
      var front, last := others[..|others| - 1], others[|others| - 1];
      MergeAllIsUnion(gs, front);
      assert others == front + [last];
      forall sid, x ensures Member(others, sid, x) <==> Member(front, sid, x) || Member([last], sid, x)
        ensures Member(front, sid, x) ==> !Member([last], sid, x)
      {
        MemberConcat(front, [last], sid, x);
        SingleMember(last, sid, x);
      }
      var f := MergeAll(gs, front);
      if f.Ok? { MergedIsUnion(f.value, last); }
    }
  }

  /** A set contains a GTID when one of its members does. */
  predicate SetIncludes(gs: seq<Value>, other: Value) { exists i :: 0 <= i < |gs| && Includes(gs[i], other) }

  /** So the set test is inclusion too, apart from a GTID without transactions, whose server id must be known. */
  lemma SetIncludesIsSubset(gs: seq<Value>, other: Value)
    requires WellFormed(gs) && Canonical(other.intervals)
    ensures SetIncludes(gs, other)
            <==> Knows(gs, other.sid) && forall x | Covers(other.intervals, x) :: Member(gs, other.sid, x)
  {
    hide Includes;
    if i :| 0 <= i < |gs| && gs[i].sid == other.sid {
      IncludesIsSubset(gs[i], other);
      forall x ensures Member(gs, other.sid, x) <==> Covers(gs[i].intervals, x) { MemberOf(gs, i, x); }
    }
    if i :| 0 <= i < |gs| && Includes(gs[i], other) {
      IncludesIsSubset(gs[i], other);
      forall x ensures Member(gs, other.sid, x) <==> Covers(gs[i].intervals, x) { MemberOf(gs, i, x); }
    }
  }

  // ----- the objects

  class Gtid {
    const sid: string
    var intervals: Intervals

    ghost function Get(): Value reads this { Value(sid, intervals) }

    /** A copy without the constructor's loop, as deepcopy makes it. */
    constructor Copy(v: Value)
      ensures Get() == v
    {
      sid := v.sid;
      intervals := v.intervals;
    }

    method AddInterval(v: Interval) returns (error: Option<Error>)
      modifies this
      ensures match Algebra.AddInterval(old(intervals), v)
              case Ok(r) => error == None && intervals == r
              case Err(e) => error == Some(e) && intervals == old(intervals)
    {
      if v.start > v.stop { return Some(Malformed); }
      if OverlapsAny(intervals, v) { return Some(Overlapping); }
      var sorted := Sort(intervals);
      var kept: Intervals, grown := [], v;
      assert sorted[0..] == sorted;
      assert [] + Absorb(sorted, v).0 == Absorb(sorted, v).0;
      for i := 0 to |sorted|
        invariant Absorb(sorted, v) == (kept + Absorb(sorted[i..], grown).0, Absorb(sorted[i..], grown).1)
      {
        var existing := sorted[i];
        assert sorted[i..][1..] == sorted[i + 1..];
        ghost var rest := Absorb(sorted[i + 1..], grown).0;
        assert (kept + [existing]) + rest == kept + ([existing] + rest);
        if grown.start == existing.stop {
          grown := Interval(existing.start, grown.stop);
        } else if grown.stop == existing.start {
          grown := Interval(grown.start, existing.stop);
        } else {
          kept := kept + [existing];
        }
      }
      assert kept + [] == kept;
      intervals := Sort(kept + [grown]);
      error := None;
    }

    method SubInterval(v: Interval) returns (error: Option<Error>)
      modifies this
      ensures match Algebra.SubInterval(old(intervals), v)
              case Ok(r) => error == None && intervals == r
              case Err(e) => error == Some(e) && intervals == old(intervals)
    {
      if v.start > v.stop { return Some(Malformed); }
      error := None;
      if OverlapsAny(intervals, v) {
        var sorted := Sort(intervals);
        var kept: Intervals := [];
        for i := 0 to |sorted|
          invariant kept == Carve(sorted[..i], v)
        {
          hide Carve;
          var existing := sorted[i];
          CarveStep(sorted, v, i);
          if Overlap(existing, v) {
            if existing.start < v.start { kept := kept + [Interval(existing.start, v.start)]; }
            if existing.stop > v.stop { kept := kept + [Interval(v.stop, existing.stop)]; }
          } else {
            kept := kept + [existing];
          }
        }
        assert sorted[..|sorted|] == sorted;
        intervals := kept;
      }
    }

    method Plus(other: Gtid) returns (r: Result<Gtid, Error>)
      ensures r.Ok? ==> fresh(r.value) && Algebra.Plus(Get(), other.Get()) == Ok(r.value.Get())
      ensures r.Err? ==> Algebra.Plus(Get(), other.Get()) == Err(r.error)
    {
      hide Algebra.AddInterval, AddAll;
      AddAllStart(intervals, other.intervals);
      if sid != other.sid { return Err(DifferentSid); }
      var result := new Gtid.Copy(Value(sid, intervals));
      var i := 0;
      while i < |other.intervals|
        invariant 0 <= i <= |other.intervals| && fresh(result) && result.sid == sid
        invariant AddAll(intervals, other.intervals[..i]) == Ok(result.intervals)
      {
        AddAllStep(intervals, other.intervals, i);
        var error := result.AddInterval(other.intervals[i]);
        if error.Some? {
          AddAllStops(intervals, other.intervals, i + 1);
          return Err(error.value);
        }
        i := i + 1;
      }
      assert other.intervals[..i] == other.intervals;
      r := Ok(result);
    }

    method Minus(other: Gtid) returns (r: Result<Gtid, Error>)
      ensures r.Ok? ==> fresh(r.value) && Algebra.Minus(Get(), other.Get()) == Ok(r.value.Get())
      ensures r.Err? ==> Algebra.Minus(Get(), other.Get()) == Err(r.error)
    {
      hide Algebra.SubInterval, SubAll;
      SubAllStart(intervals, other.intervals);
      var result := new Gtid.Copy(Value(sid, intervals));
      if sid != other.sid { return Ok(result); }
      var i := 0;
      while i < |other.intervals|
        invariant 0 <= i <= |other.intervals| && fresh(result) && result.sid == sid
        invariant SubAll(intervals, other.intervals[..i]) == Ok(result.intervals)
      {
        SubAllStep(intervals, other.intervals, i);
        var error := result.SubInterval(other.intervals[i]);
        if error.Some? {
          SubAllStops(intervals, other.intervals, i + 1);
          return Err(error.value);
        }
        i := i + 1;
      }
      assert other.intervals[..i] == other.intervals;
      r := Ok(result);
    }
  }

  lemma CarveStep(s: Intervals, v: Interval, i: nat)
    requires i < |s|
    ensures Carve(s[..i + 1], v) == Carve(s[..i], v) + Carved(s[i], v)
  {
    assert s[..i + 1][..i] == s[..i];
  }

  lemma AddAllStart(s: Intervals, t: Intervals)
    ensures AddAll(s, t[..0]) == Ok(s)
  {
  }

  lemma AddAllStep(s: Intervals, t: Intervals, i: nat)
    requires i < |t|
    ensures AddAll(s, t[..i + 1]) == match AddAll(s, t[..i]) case Ok(r) => AddInterval(r, t[i]) case Err(e) => Err(e)
  {
    assert t[..i + 1][..i] == t[..i];
  }

  lemma SubAllStart(s: Intervals, t: Intervals)
    ensures SubAll(s, t[..0]) == Ok(s)
  {
  }

  lemma SubAllStep(s: Intervals, t: Intervals, i: nat)
    requires i < |t|
    ensures SubAll(s, t[..i + 1]) == match SubAll(s, t[..i]) case Ok(r) => SubInterval(r, t[i]) case Err(e) => Err(e)
  {
    assert t[..i + 1][..i] == t[..i];
  }

  lemma {:induction false} AddAllStops(s: Intervals, t: Intervals, i: nat)
    requires i <= |t| && AddAll(s, t[..i]).Err?
    ensures AddAll(s, t) == AddAll(s, t[..i])
    decreases |t|
  {
    if i == |t| {
      assert t[..i] == t;
    } else {
      assert t[..|t| - 1][..i] == t[..i];
      AddAllStops(s, t[..|t| - 1], i);
    }
  }

  lemma {:induction false} SubAllStops(s: Intervals, t: Intervals, i: nat)
    requires i <= |t| && SubAll(s, t[..i]).Err?
    ensures SubAll(s, t) == SubAll(s, t[..i])
    decreases |t|
  {
    if i == |t| {
      assert t[..i] == t;
    } else {
      assert t[..|t| - 1][..i] == t[..i];
      SubAllStops(s, t[..|t| - 1], i);
    }
  }

  lemma {:induction false} MergeEachStops(gs: seq<Value>, g: Value, i: nat)
    requires i <= |gs| && MergeEach(gs[..i], g).Err?
    ensures MergeEach(gs, g) == MergeEach(gs[..i], g)
    decreases |gs|
  {
    if i == |gs| {
      assert gs[..i] == gs;
    } else {
      assert gs[..|gs| - 1][..i] == gs[..i];
      MergeEachStops(gs[..|gs| - 1], g, i);
    }
  }

  ghost function Values(gs: seq<Gtid>): (vs: seq<Value>)
    reads gs
    ensures |vs| == |gs| && forall i :: 0 <= i < |gs| ==> vs[i] == gs[i].Get()
  {
    if gs == [] then [] else Values(gs[..|gs| - 1]) + [gs[|gs| - 1].Get()]
  }

  lemma ValuesPush(gs: seq<Gtid>, g: Gtid)
    ensures Values(gs + [g]) == Values(gs) + [g.Get()]
  {
    assert (gs + [g])[..|gs|] == gs;
  }

  lemma KnowsSid(gs: seq<Gtid>, sid: string)
    ensures Knows(Values(gs), sid) == exists k :: 0 <= k < |gs| && gs[k].sid == sid
  {
    hide Values;
    if k :| 0 <= k < |gs| && gs[k].sid == sid { assert Values(gs)[k].sid == sid; }
  }

  lemma MergeEachStart(vs: seq<Value>, v: Value)
    ensures MergeEach(vs[..0], v) == Ok(Values([]))
  {
  }

  lemma MergeEachStep(vs: seq<Value>, v: Value, i: nat, r: seq<Value>)
    requires i < |vs| && MergeEach(vs[..i], v) == Ok(r)
    ensures MergeEach(vs[..i + 1], v) ==
            if vs[i].sid != v.sid then Ok(r + [vs[i]])
            else match Plus(vs[i], v) case Ok(w) => Ok(r + [w]) case Err(e) => Err(e)
  {
    assert vs[..i + 1][..i] == vs[..i];
  }

  class GtidSet {
    var gtids: seq<Gtid>

    constructor (gs: seq<Gtid>)
      ensures gtids == gs
    {
      gtids := gs;
    }

    /** The loop: the members after g has joined those of its server id. */
    method MergeMembers(g: Gtid) returns (r: Result<seq<Gtid>, Error>)
      ensures match MergeEach(Values(gtids), g.Get())
              case Ok(vs) => r.Ok? && Values(r.value) == vs
              case Err(e) => r == Err(e)
    {
      hide Algebra.Plus, Values, MergeEach;
      var merged: seq<Gtid> := [];
      ghost var vs, v := Values(gtids), g.Get();
      MergeEachStart(vs, v);
      var i := 0;
      while i < |gtids|
        invariant 0 <= i <= |gtids|
        invariant MergeEach(vs[..i], v) == Ok(Values(merged))
      {
        MergeEachStep(vs, v, i, Values(merged));
        var next := gtids[i];
        if next.sid == g.sid {
          var sum := next.Plus(g);
          if sum.Err? {
            MergeEachStops(vs, v, i + 1);
            return Err(sum.error);
          }
          next := sum.value;
        }
        ValuesPush(merged, next);
        merged := merged + [next];
        i := i + 1;
      }
      assert vs[..i] == vs;
      r := Ok(merged);
    }

    /** A failed addition raises before the list is replaced. */
    method MergeGtid(g: Gtid) returns (error: Option<Error>)
      modifies this
      ensures match Merged(old(Values(gtids)), g.Get())
              case Ok(r) => error == None && Values(gtids) == r
              case Err(e) => error == Some(e) && gtids == old(gtids)
    {
      hide Values, MergeEach, Knows;
      var merged := MergeMembers(g);
      if merged.Err? { return Some(merged.error); }
      KnowsSid(merged.value, g.sid);
      ValuesPush(merged.value, g);
      var known := exists k :: 0 <= k < |merged.value| && merged.value[k].sid == g.sid;
      gtids := if known then merged.value else merged.value + [g];
      error := None;
    }
  }
}
