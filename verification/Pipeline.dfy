/** The parts together: what a destination commits is what a prefix of the server's stream is due to
    do, and from the merged starting point no destination meets a gap. */
module Pipeline {
  import opened Operations
  import opened Applier
  import opened ApplierTheorems
  import opened ApplierRecovery
  import CommonStart
  import FanOut

  /** The applier of client n is fed from the front of what its connection has delivered. */
  ghost predicate FedBy(trace: seq<Event>, s: FanOut.System, n: FanOut.Name)
  {
    n in s.peers && StreamOf(trace) <= s.peers[n].cli.delivered
  }

  lemma FedFromStream(init: FanOut.System, actions: seq<FanOut.Action>, n: FanOut.Name, trace: seq<Event>)
    requires FanOut.Initial(init) && FanOut.After(init, actions).Some?
    requires FedBy(trace, FanOut.After(init, actions).value, n)
    ensures StreamOf(trace) <= FanOut.Stream(FanOut.After(init, actions).value.batches)
  {
    FanOut.DeliveredIsPrefix(init, actions, n);
  }

  /** In every interleaving of the fan-out and under every answer of SQL and Consul, a destination has
      committed a prefix of what the first k operations of the server's stream are due to do; while it
      runs, its commits and its open transaction are exactly that, for all the operations it was fed. */
  lemma DestinationAppliesAPrefix(cfg: Config, start: GtidMap, init: FanOut.System, actions: seq<FanOut.Action>,
                                  n: FanOut.Name, trace: seq<Event>) returns (k: nat)
    requires FanOut.Initial(init) && FanOut.After(init, actions).Some?
    requires FedBy(trace, FanOut.After(init, actions).value, n)
    ensures var stream := FanOut.Stream(FanOut.After(init, actions).value.batches); var s := Run(cfg, start, trace);
            && k <= |StreamOf(trace)| <= |stream|
            && var r := RefRun(cfg, RefInitial(start), stream[..k]);
               && Flat(s.committed) <= r.due
               && (s.halt.Running? ==> k == |StreamOf(trace)| && Flat(s.committed) + s.Open() == r.due)
  {
    hide FanOut.After, FanOut.Stream, RefRun, Run, Consumed, Flat, StreamOf;
    FedFromStream(init, actions, n, trace);
    RunningConsumedAll(cfg, start, trace);
    Conservation(cfg, start, trace);
    k := |Consumed(cfg, start, trace)|;
    assert FanOut.Stream(FanOut.After(init, actions).value.batches)[..k] == Consumed(cfg, start, trace);
  }

  lemma SafeStartNoMiss(cfg: Config, dest: GtidMap, from: GtidMap, ops: seq<Operation>)
    requires CommonStart.SafeStart(dest, from) && CommonStart.GapFree(from, ops)
    ensures NoMiss(cfg, RefInitial(dest), ops)
  {
    hide RefRun, Missed;
    forall k | 0 <= k < |ops| && ops[k].Gtid? ensures !Missed(RefRun(cfg, RefInitial(dest), ops[..k]).gtids, ops[k])
    {
      CommonStart.SafeStartDeliversWhatIsLacking(cfg, dest, from, ops, k);
    }
  }

  /** If the server streams a gap-free source from the merged point of destinations that know the same
      servers, or one of which knows none, no destination ever stops with "gtid miss", and each skips
      exactly the transactions it already had. */
  lemma EveryDestinationGetsWhatItLacks(cfg: Config, maps: seq<GtidMap>, from: GtidMap, d: nat, init: FanOut.System,
                                        actions: seq<FanOut.Action>, n: FanOut.Name, trace: seq<Event>)
    requires d < |maps| && if CommonStart.HasEmpty(maps) then from == map[] else CommonStart.PointwiseMin(maps, from)
    requires CommonStart.HasEmpty(maps) || forall j :: 0 <= j < |maps| ==> maps[j].Keys == maps[d].Keys
    requires FanOut.Initial(init) && FanOut.After(init, actions).Some?
    requires FedBy(trace, FanOut.After(init, actions).value, n)
    requires CommonStart.GapFree(from, FanOut.Stream(FanOut.After(init, actions).value.batches))
    ensures !Run(cfg, maps[d], trace).halt.GtidMiss?
    ensures var ops := StreamOf(trace);
            forall i :: 0 <= i < |ops| && ops[i].Gtid? ==>
              (Skipped(RefRun(cfg, RefInitial(maps[d]), ops[..i]).gtids, ops[i])
               <==> ops[i].uuid in maps[d] && ops[i].trxId <= maps[d][ops[i].uuid])
  {
    hide FanOut.After, FanOut.Stream, RefRun, Run, StreamOf, Skipped, NoMiss, CommonStart.GapFree,
         CommonStart.SafeStart;
    var stream := FanOut.Stream(FanOut.After(init, actions).value.batches);
    var ops := StreamOf(trace);
    FedFromStream(init, actions, n, trace);
    CommonStart.MergedStartIsSafe(maps, from, d);
    SafeStartNoMiss(cfg, maps[d], from, stream);
    assert stream[..|ops|] == ops;
    NoMissPrefix(cfg, RefInitial(maps[d]), stream, |ops|);
    GapFreeNeverMisses(cfg, maps[d], trace);
    forall i | 0 <= i < |ops| && ops[i].Gtid?
      ensures Skipped(RefRun(cfg, RefInitial(maps[d]), ops[..i]).gtids, ops[i])
              <==> ops[i].uuid in maps[d] && ops[i].trxId <= maps[d][ops[i].uuid]
    {
      assert stream[..i] == ops[..i] && stream[i] == ops[i];
      CommonStart.SafeStartDeliversWhatIsLacking(cfg, maps[d], from, stream, i);
    }
  }
}
