/**
 The common starting point of several destinations (MergeGtidSetss in src/checkpoint.go, used by
 src/replication.go): where the source stream must start so that each destination gets what it
 lacks, and when that works.
 */
module CommonStart {
  import opened Operations
  import opened Applier

  // ----- the merge

  ghost predicate HasEmpty(maps: seq<GtidMap>) { exists i :: 0 <= i < |maps| && maps[i] == map[] }

  /** `m` has every key of every map, with the least value it has anywhere. */
  ghost predicate PointwiseMin(maps: seq<GtidMap>, m: GtidMap)
  {
    && (forall i, u :: 0 <= i < |maps| && u in maps[i] ==> u in m && m[u] <= maps[i][u])
    && (forall u :: u in m ==> exists i :: 0 <= i < |maps| && u in maps[i] && m[u] == maps[i][u])
  }

  /** The inner loop: one more map is folded into the minimum. */
  method MergeOne(ghost maps: seq<GtidMap>, acc: GtidMap, g: GtidMap) returns (out: GtidMap)
    requires PointwiseMin(maps, acc)
    ensures PointwiseMin(maps + [g], out)
  {
    out := acc;
    var todo := g.Keys;
    while todo != {}
      invariant todo <= g.Keys
      invariant forall u :: u in acc ==> u in out && out[u] <= acc[u]
      invariant forall u :: u in g && u !in todo ==> u in out && out[u] <= g[u]
      invariant forall u :: u in out ==> (u in acc && out[u] == acc[u]) || (u in g && out[u] == g[u])
      decreases todo
    {
      var u :| u in todo;
      if u in out {
        if g[u] < out[u] { out := out[u := g[u]]; }
      } else {
        out := out[u := g[u]];
      }
      todo := todo - {u};
    }
    FoldedMin(maps, acc, g, out);
  }

  lemma FoldedMin(maps: seq<GtidMap>, acc: GtidMap, g: GtidMap, out: GtidMap)
    requires PointwiseMin(maps, acc)
    requires forall u :: u in acc ==> u in out && out[u] <= acc[u]
    requires forall u :: u in g ==> u in out && out[u] <= g[u]
    requires forall u :: u in out ==> (u in acc && out[u] == acc[u]) || (u in g && out[u] == g[u])
    ensures PointwiseMin(maps + [g], out)
  {
    var all := maps + [g];
    forall u | u in out ensures exists i :: 0 <= i < |all| && u in all[i] && out[u] == all[i][u] {
      if u in acc && out[u] == acc[u] {
        var i :| 0 <= i < |maps| && u in maps[i] && acc[u] == maps[i][u];
        assert all[i] == maps[i];
      } else {
        assert all[|maps|] == g;
      }
    }
  }

  /** MergeGtidSetss: the empty map as soon as one input is empty, otherwise the pointwise minimum. */
  method Merge(maps: seq<GtidMap>) returns (out: GtidMap)
    ensures if HasEmpty(maps) then out == map[] else PointwiseMin(maps, out)
  {
    out := map[];
    var i := 0;
    while i < |maps|
      invariant 0 <= i <= |maps|
      invariant PointwiseMin(maps[..i], out) && !HasEmpty(maps[..i])
    {
      if |maps[i]| == 0 {
        assert maps[i] == map[];
        return map[];
      }
      assert maps[..i + 1] == maps[..i] + [maps[i]];
      out := MergeOne(maps[..i], out, maps[i]);
      i := i + 1;
    }
    assert maps[..|maps|] == maps;
  }

  /** The result depends on which maps were reported, not on their order. */
  lemma MergeOrderIrrelevant(a: seq<GtidMap>, b: seq<GtidMap>, m: GtidMap, n: GtidMap)
    requires multiset(a) == multiset(b) && PointwiseMin(a, m) && PointwiseMin(b, n)
    ensures m == n && (HasEmpty(a) <==> HasEmpty(b))
  {
    SameMembers(a, b);
    SameMembers(b, a);
    forall u | u in m ensures u in n && n[u] <= m[u] {
      var i :| 0 <= i < |a| && u in a[i] && m[u] == a[i][u];
      var j :| 0 <= j < |b| && b[j] == a[i];
    }
    forall u | u in n ensures u in m && m[u] <= n[u] {
      var i :| 0 <= i < |b| && u in b[i] && n[u] == b[i][u];
      var j :| 0 <= j < |a| && a[j] == b[i];
    }
  }

  lemma SameMembers(a: seq<GtidMap>, b: seq<GtidMap>)
    requires multiset(a) == multiset(b)
    ensures forall i :: 0 <= i < |a| ==> a[i] in b
  {
    forall i | 0 <= i < |a| ensures a[i] in b {
      assert a[i] in multiset(a);
      assert a[i] in multiset(b);
    }
  }

  // ----- streaming from the merged point

  const TWO63: nat := 0x8000_0000_0000_0000

  function Known(m: GtidMap, uuid: string): nat { if uuid in m then m[uuid] else 0 }

  /** How far the source has got per server after `ops`, starting behind `from`. */
  function SourceMap(from: GtidMap, ops: seq<Operation>): GtidMap
  {
    if ops == [] then from
    else
      var m := SourceMap(from, ops[..|ops| - 1]);
      var op := ops[|ops| - 1];
      if op.Gtid? then m[op.uuid := TrxOf(op)] else m
  }

  /** The source sends, per server, every id after the one in `from`, in order. */
  ghost predicate GapFree(from: GtidMap, ops: seq<Operation>)
  {
    forall i :: 0 <= i < |ops| && ops[i].Gtid? ==>
      0 < ops[i].trxId < TWO63 && ops[i].trxId == Known(SourceMap(from, ops[..i]), ops[i].uuid) + 1
  }

  /** Every server the stream starts behind is known to the destination at least as far. */
  predicate SafeStart(dest: GtidMap, from: GtidMap)
  {
    forall u :: u in from ==> if u in dest then from[u] <= dest[u] else from[u] == 0
  }

  /** What the destination's map says while it follows the stream. */
  ghost predicate Follows(dest: GtidMap, source: GtidMap, now: GtidMap)
  {
    && (forall u :: u in dest ==> u in now && now[u] == if Known(source, u) > dest[u] then source[u] else dest[u])
    && (forall u :: u !in dest ==> Known(now, u) == Known(source, u))
  }

  lemma FollowStep(dest: GtidMap, source: GtidMap, now: GtidMap, op: Operation)
    requires op.Gtid? && 0 < op.trxId < TWO63 && op.trxId == Known(source, op.uuid) + 1
    requires Follows(dest, source, now)
    ensures !Missed(now, op)
    ensures Skipped(now, op) <==> op.uuid in dest && op.trxId <= dest[op.uuid]
    ensures Follows(dest, source[op.uuid := TrxOf(op)], if Skipped(now, op) then now else now[op.uuid := TrxOf(op)])
    ensures op.uuid !in now ==> op.trxId == 1 || op.uuid in source
  {
  }

  /** The destination's own view of the stream. */
  function ViewOf(cfg: Config, dest: GtidMap, ops: seq<Operation>): GtidMap
  {
    RefRun(cfg, RefInitial(dest), ops).gtids
  }

  lemma {:induction false} FollowRun(cfg: Config, dest: GtidMap, from: GtidMap, ops: seq<Operation>)
    requires SafeStart(dest, from) && GapFree(from, ops)
    ensures Follows(dest, SourceMap(from, ops), ViewOf(cfg, dest, ops))
  {
    hide StmtDue;
    if ops != [] {
      var before := ops[..|ops| - 1];
      forall i | 0 <= i < |before| && before[i].Gtid?
        ensures 0 < before[i].trxId < TWO63
        ensures before[i].trxId == Known(SourceMap(from, before[..i]), before[i].uuid) + 1
      {
        assert before[..i] == ops[..i];
      }
      FollowRun(cfg, dest, from, before);
      var op := ops[|ops| - 1];
      if op.Gtid? { FollowStep(dest, SourceMap(from, before), ViewOf(cfg, dest, before), op); }
    }
  }

  /** Streaming a gap-free source from a safe start never runs into "gtid miss", and the destination
      takes exactly the transactions it did not have. */
  lemma SafeStartDeliversWhatIsLacking(cfg: Config, dest: GtidMap, from: GtidMap, ops: seq<Operation>, i: nat)
    requires SafeStart(dest, from) && GapFree(from, ops) && i < |ops| && ops[i].Gtid?
    ensures var now := ViewOf(cfg, dest, ops[..i]);
            && !Missed(now, ops[i])
            && (Skipped(now, ops[i]) <==> ops[i].uuid in dest && ops[i].trxId <= dest[ops[i].uuid])
  {
    hide StmtDue, RefRun, Skipped, Missed;
    var before := ops[..i];
    forall j | 0 <= j < |before| && before[j].Gtid?
      ensures 0 < before[j].trxId < TWO63 && before[j].trxId == Known(SourceMap(from, before[..j]), before[j].uuid) + 1
    {
      assert before[..j] == ops[..j];
    }
    FollowRun(cfg, dest, from, before);
    FollowStep(dest, SourceMap(from, before), ViewOf(cfg, dest, before), ops[i]);
  }

  /** No transaction of an unknown server is missing in front of the first one taken. */
  ghost predicate NothingMissing(cfg: Config, dest: GtidMap, from: GtidMap)
  {
    forall ops: seq<Operation>, i: nat ::
      GapFree(from, ops) && i < |ops| && ops[i].Gtid? && ops[i].uuid !in ViewOf(cfg, dest, ops[..i])
      ==> ops[i].trxId == 1
  }

  /** The stream leaves no hole in an unknown server's history exactly when the start is safe. */
  lemma SafeStartIsExact(cfg: Config, dest: GtidMap, from: GtidMap)
    requires forall u :: u in from ==> from[u] + 1 < TWO63
    requires forall u :: u in from && u in dest ==> from[u] <= dest[u]
    ensures NothingMissing(cfg, dest, from) <==> SafeStart(dest, from)
  {
    if SafeStart(dest, from) {
      forall ops: seq<Operation>, i: nat
        | GapFree(from, ops) && i < |ops| && ops[i].Gtid? && ops[i].uuid !in ViewOf(cfg, dest, ops[..i])
        ensures ops[i].trxId == 1
      {
        FirstFromUnknown(cfg, dest, from, ops, i);
      }
    } else {
      var u :| u in from && u !in dest && from[u] != 0;
      var ops := [Gtid(0, u, from[u] + 1, 0)];
      assert ops[..0] == [];
      assert GapFree(from, ops);
      assert ViewOf(cfg, dest, ops[..0]) == dest;
      assert ops[0].trxId != 1;
    }
  }

  lemma FirstFromUnknown(cfg: Config, dest: GtidMap, from: GtidMap, ops: seq<Operation>, i: nat)
    requires SafeStart(dest, from) && GapFree(from, ops) && i < |ops| && ops[i].Gtid?
    requires ops[i].uuid !in ViewOf(cfg, dest, ops[..i])
    ensures ops[i].trxId == 1
  {
    hide StmtDue, RefRun, Skipped, Missed;
    var before := ops[..i];
    forall j | 0 <= j < |before| && before[j].Gtid?
      ensures 0 < before[j].trxId < TWO63 && before[j].trxId == Known(SourceMap(from, before[..j]), before[j].uuid) + 1
    {
      assert before[..j] == ops[..j];
    }
    FollowRun(cfg, dest, from, before);
  }

  /** The merged point is a safe start for every destination when all of them know the same servers,
      or when one of them knows nothing. */
  lemma MergedStartIsSafe(maps: seq<GtidMap>, from: GtidMap, i: nat)
    requires i < |maps|
    requires if HasEmpty(maps) then from == map[] else PointwiseMin(maps, from)
    requires HasEmpty(maps) || forall j :: 0 <= j < |maps| ==> maps[j].Keys == maps[i].Keys
    ensures SafeStart(maps[i], from)
  {
  }

  lemma MinOfTwo(a: GtidMap, b: GtidMap, m: GtidMap)
    requires a.Keys !! b.Keys && m == a + b
    ensures PointwiseMin([a, b], m)
  {
    var maps := [a, b];
    assert maps[0] == a && maps[1] == b;
  }

  /** Otherwise it need not be: two destinations that know different servers. */
  lemma DifferentServersAreUnsafe(cfg: Config, a: GtidMap, b: GtidMap, from: GtidMap)
    requires a == map["a" := 5] && b == map["b" := 3] && from == map["a" := 5, "b" := 3]
    ensures PointwiseMin([a, b], from) && !HasEmpty([a, b]) && !NothingMissing(cfg, a, from)
  {
    assert "a" in a && "b" in b && "b" !in a && "b" in from && from["b"] == 3;
    assert from == a + b;
    MinOfTwo(a, b, from);
    hide PointwiseMin, NothingMissing;
    SafeStartIsExact(cfg, a, from);
  }
}
