/** Checkpoints from below: when a checkpoint is due, one is written that covers all that was accepted,
    and no later checkpoint covers less. */
module ApplierCheckpoints {
  import opened Prelude
  import opened Operations
  import opened Applier
  import opened ApplierInvariants
  import opened ApplierSteps
  import opened ApplierTheorems
  import opened ApplierRecovery

  /** The last operation that is not a binlog position. */
  function LastEffective(ops: seq<Operation>): Option<Operation>
  {
    if ops == [] then None
    else if ops[|ops| - 1].BinLogPos? then LastEffective(ops[..|ops| - 1])
    else Some(ops[|ops| - 1])
  }

  // ----- what a run keeps

  lemma RunningIsInvariant(cfg: Config, start: GtidMap, trace: seq<Event>)
    requires Run(cfg, start, trace).halt.Running?
    ensures var r := RefRun(cfg, RefInitial(start), StreamOf(trace)); Inv(cfg, start, Run(cfg, start, trace), r)
  {
    hide Run, RefRun, Consumed, Inv;
    EveryRunKeeps(cfg, start, trace);
    RunningConsumedAll(cfg, start, trace);
  }

  lemma PositionChangesNothing(cfg: Config, s: Applier, op: Operation, due: DueStmt, env: Env)
    requires op.BinLogPos?
    ensures ProcessDue(cfg, s, op, due, env) == s
  {
  }

  lemma NonDmlEnters(cfg: Config, s: Applier, op: Operation, due: DueStmt, env: Env)
    requires s.halt.Running? && !s.gtidSkip && op.IsNonDml() && ProcessDue(cfg, s, op, due, env).halt.Running?
    ensures NonDmlState(ProcessDue(cfg, s, op, due, env).state)
  {
    hide MergeCommit, ExecuteOnNonDml;
  }

  /** After an unskipped DDL or DCL operation the applier is in the state that makes it write a checkpoint. */
  lemma {:induction false} NonDmlStateReached(cfg: Config, start: GtidMap, trace: seq<Event>)
    requires Run(cfg, start, trace).halt.Running? && !RefRun(cfg, RefInitial(start), StreamOf(trace)).skip
    requires LastEffective(StreamOf(trace)).Some? && LastEffective(StreamOf(trace)).value.IsNonDml()
    ensures NonDmlState(Run(cfg, start, trace).state)
  {
    hide StmtDue, ProcessDue, Inv;
    var before, last := trace[..|trace| - 1], trace[|trace| - 1];
    var s := Run(cfg, start, before);
    assert last.Consume? && s.halt.Running?;
    assert StreamOf(trace)[..|StreamOf(before)|] == StreamOf(before);
    RunningIsInvariant(cfg, start, before);
    SkipFlags(cfg, start, s, RefRun(cfg, RefInitial(start), StreamOf(before)));
    if last.op.BinLogPos? {
      PositionChangesNothing(cfg, s, last.op, StmtDue(cfg, last.op), last.env);
      NonDmlStateReached(cfg, start, before);
    } else {
      NonDmlEnters(cfg, s, last.op, StmtDue(cfg, last.op), last.env);
    }
  }

  lemma SkipFlags(cfg: Config, start: GtidMap, s: Applier, r: Ref)
    requires Inv(cfg, start, s, r)
    ensures s.gtidSkip == r.skip && s.gtids == r.gtids && s.accepted == r.accepted
    ensures NonDmlState(s.state) ==> s.pending == 0
  {
  }

  // ----- one checkpoint

  lemma HeartbeatCheckpoints(cfg: Config, s: Applier, op: Operation, due: DueStmt, env: Env)
    requires s.halt.Running? && !s.gtidSkip && NonDmlState(s.state) && op.Heartbeat? && env.consulOk
    ensures ProcessDue(cfg, s, op, due, env).persisted == Some(Persisted(s.gtids, |s.accepted|))
  {
  }

  lemma GtidCheckpoints(cfg: Config, s: Applier, op: Operation, due: DueStmt, env: Env)
    requires s.halt.Running? && !s.gtidSkip && NonDmlState(s.state) && s.pending == 0 && op.Gtid? && env.consulOk
    ensures ProcessDue(cfg, s, op, due, env).persisted == Some(Persisted(s.gtids, |s.accepted|))
  {
  }

  /** A GTID or a heartbeat after an unskipped DDL or DCL operation writes the map of all that was accepted,
      so a restart skips every transaction seen so far. */
  lemma NonDmlIsCheckpointed(cfg: Config, start: GtidMap, trace: seq<Event>, op: Operation, env: Env)
    requires Run(cfg, start, trace).halt.Running? && !RefRun(cfg, RefInitial(start), StreamOf(trace)).skip
    requires LastEffective(StreamOf(trace)).Some? && LastEffective(StreamOf(trace)).value.IsNonDml()
    requires (op.Gtid? || op.Heartbeat?) && env.consulOk
    ensures var r := RefRun(cfg, RefInitial(start), StreamOf(trace));
            var t := Run(cfg, start, trace + [Consume(op, env)]);
            && t.persisted == Some(Persisted(r.gtids, |r.accepted|))
            && forall g :: g in StreamOf(trace) && g.Gtid? ==> Skipped(t.persisted.value.gtids, g)
  {
    hide StmtDue, ProcessDue, Inv, RefRun, Skipped;
    var s, ops := Run(cfg, start, trace), StreamOf(trace);
    var r := RefRun(cfg, RefInitial(start), ops);
    NonDmlStateReached(cfg, start, trace);
    RunningIsInvariant(cfg, start, trace);
    SkipFlags(cfg, start, s, r);
    assert (trace + [Consume(op, env)])[..|trace|] == trace;
    if op.Gtid? {
      GtidCheckpoints(cfg, s, op, StmtDue(cfg, op), env);
    } else {
      HeartbeatCheckpoints(cfg, s, op, StmtDue(cfg, op), env);
    }
    forall g | g in ops && g.Gtid? ensures Skipped(r.gtids, g)
    {
      var k :| 0 <= k < |ops| && ops[k] == g;
      SeenIsCovered(cfg, RefInitial(start), ops, k);
    }
  }

  // ----- every merged commit

  lemma HeartbeatMergePersists(cfg: Config, s: Applier, op: Operation, due: DueStmt, env: Env)
    requires s.halt.Running? && Lifecycle(cfg, s) && op.Heartbeat? && !s.gtidSkip && env.consulOk
    requires var t := ProcessDue(cfg, s, op, due, env); t.halt.Running? && |t.committed| > |s.committed|
    ensures ProcessDue(cfg, s, op, due, env).persisted == Some(Persisted(s.gtids, |s.accepted|))
  {
    hide MergeCommit;
    if s.state.XID? { MergeEffect(s.(lastCheckpointTs := s.lastAppliedTs), env); }
  }

  lemma OnGtidMergePersists(s: Applier, op: Operation, env: Env)
    requires s.halt.Running? && (s.tx.Some? <==> s.pending >= 1) && op.Gtid? && OnGtid(s, op, env).halt.Running?
    requires env.consulOk
    ensures var t := OnGtid(s, op, env);
            && s.committed <= t.committed
            && (|t.committed| > |s.committed| ==> t.persisted == Some(Persisted(s.gtids, |s.accepted|)))
            && (|t.committed| == |s.committed| ==> t.persisted == s.persisted)
            && (s.pending == 0 ==> t.committed == s.committed)
  {
    hide MergeCommit, Skipped, Missed;
    MergeEffect(s.(gtidSkip := false), env);
  }

  lemma GtidMergePersists(cfg: Config, s: Applier, op: Operation, due: DueStmt, env: Env)
    requires s.halt.Running? && Lifecycle(cfg, s) && op.Gtid? && env.consulOk
    requires var t := ProcessDue(cfg, s, op, due, env); t.halt.Running? && |t.committed| > |s.committed|
    ensures ProcessDue(cfg, s, op, due, env).persisted == Some(Persisted(s.gtids, |s.accepted|))
  {
    hide MergeCommit, OnGtid, ForceMergeCommit;
    var s0 := if s.gtidSkip then s.(state := NULL) else s;
    var s1 := s0.(lastCheckpointTs := s0.lastAppliedTs);
    if !InTransaction(s.state) {
      MergeEffect(s1, env);
      var r := match s1.state
        case DDL => Checkpoint(s1, env)
        case DCL => Checkpoint(s1, env)
        case XID => if ForceMergeCommit(cfg, s1) then MergeCommit(s1, env) else s1
        case _ => s1;
      if r.halt.Running? && OnGtid(r, op, env).halt.Running? { OnGtidMergePersists(r, op, env); }
    }
  }

  lemma NonDmlMergePersists(cfg: Config, s: Applier, op: Operation, due: DueStmt, env: Env)
    requires s.halt.Running? && Lifecycle(cfg, s) && op.IsNonDml() && !s.gtidSkip && env.consulOk
    requires var t := ProcessDue(cfg, s, op, due, env);
             t.halt.Running? && |t.committed| > |s.committed| && t.committed[|s.committed|].merged
    ensures ProcessDue(cfg, s, op, due, env).persisted == Some(Persisted(s.gtids, |s.accepted|))
  {
    hide MergeCommit, ExecuteOnNonDml;
    MergeEffect(s, env);
    var m := MergeCommit(s, env);
    if due.Due? && m.halt.Running? { ExecuteOnNonDmlEffect(m, SchemaOf(op), due.stmt, env); }
  }

  lemma OthersCommitNothing(cfg: Config, s: Applier, op: Operation, due: DueStmt, env: Env)
    requires s.halt.Running? && !(op.Gtid? || ((op.Heartbeat? || op.IsNonDml()) && !s.gtidSkip))
    ensures ProcessDue(cfg, s, op, due, env).committed == s.committed
  {
  }

  /** Whenever a merged commit goes through and Consul answers, the map of all that was accepted before the
      operation is written. */
  lemma MergedIsCheckpointed(cfg: Config, start: GtidMap, trace: seq<Event>, op: Operation, env: Env)
    requires Run(cfg, start, trace).halt.Running? && env.consulOk
    requires var s := Run(cfg, start, trace); var t := Run(cfg, start, trace + [Consume(op, env)]);
             t.halt.Running? && |t.committed| > |s.committed| && t.committed[|s.committed|].merged
    ensures var s := Run(cfg, start, trace); var t := Run(cfg, start, trace + [Consume(op, env)]);
            t.persisted == Some(Persisted(s.gtids, |s.accepted|))
  {
    hide StmtDue, ProcessDue, RefRun, Inv;
    var s := Run(cfg, start, trace);
    assert (trace + [Consume(op, env)])[..|trace|] == trace;
    RunningIsInvariant(cfg, start, trace);
    assert Lifecycle(cfg, s) by { InvLifecycle(cfg, start, s, RefRun(cfg, RefInitial(start), StreamOf(trace))); }
    hide Lifecycle;
    var due := StmtDue(cfg, op);
    if op.Gtid? {
      GtidMergePersists(cfg, s, op, due, env);
    } else if op.Heartbeat? && !s.gtidSkip {
      HeartbeatMergePersists(cfg, s, op, due, env);
    } else if op.IsNonDml() && !s.gtidSkip {
      NonDmlMergePersists(cfg, s, op, due, env);
    } else {
      OthersCommitNothing(cfg, s, op, due, env);
    }
  }

  lemma InvLifecycle(cfg: Config, start: GtidMap, s: Applier, r: Ref)
    requires Inv(cfg, start, s, r)
    ensures Lifecycle(cfg, s) && GroupOk(s)
  {
  }

  // ----- checkpoints only grow

  lemma AcceptedStep(cfg: Config, s: Applier, ev: Event)
    ensures s.accepted <= Step(cfg, s, ev).accepted
  {
    hide StmtDue;
    if s.halt.Running? && ev.Consume? {
      var due := StmtDue(cfg, ev.op);
      hide OnHeartbeat, OnGtidOperation, OnNonDml, OnDml, OnBegin, OnXid;
      var s0 := if s.gtidSkip then s.(state := NULL) else s;
      AcceptedHandlers(cfg, s0, ev.op, due, ev.env);
      if ev.op.Gtid? { AcceptedGtid(cfg, s0, ev.op, ev.env); }
    }
  }

  lemma AcceptedHandlers(cfg: Config, s: Applier, op: Operation, due: DueStmt, env: Env)
    ensures op.IsNonDml() ==> OnNonDml(s, op, due, env).accepted == s.accepted
    ensures OnHeartbeat(s, env).accepted == s.accepted && OnDml(s, due, env).accepted == s.accepted
    ensures OnBegin(s, env).accepted == s.accepted && OnXid(s).accepted == s.accepted
  {
    hide MergeCommit, ExecuteOnNonDml;
    MergePersists(s, env);
    MergePersists(s.(lastCheckpointTs := s.lastAppliedTs), env);
    if op.IsNonDml() && due.Due? { NonDmlKeepsAccepted(MergeCommit(s, env), SchemaOf(op), due.stmt, env); }
  }

  lemma NonDmlKeepsAccepted(s: Applier, schemaContext: string, stmt: Stmt, env: Env)
    ensures ExecuteOnNonDml(s, schemaContext, stmt, env).accepted == s.accepted
  {
  }

  lemma AcceptedGtid(cfg: Config, s: Applier, op: Operation, env: Env)
    requires op.Gtid?
    ensures s.accepted <= OnGtidOperation(cfg, s, op, env).accepted
  {
    hide MergeCommit, ForceMergeCommit, OnGtid;
    var s1 := s.(lastCheckpointTs := s.lastAppliedTs);
    MergePersists(s1, env);
    AcceptedOnGtid(s1, op, env);
    AcceptedOnGtid(Checkpoint(s1, env), op, env);
    AcceptedOnGtid(MergeCommit(s1, env), op, env);
  }

  lemma AcceptedOnGtid(s: Applier, op: Operation, env: Env)
    requires op.Gtid?
    ensures s.accepted <= OnGtid(s, op, env).accepted
  {
    hide MergeCommit, Skipped, Missed;
    MergePersists(s.(gtidSkip := false), env);
  }

  /** What is persisted after a step covers at least what was persisted before it. */
  lemma PersistedStep(cfg: Config, start: GtidMap, trace: seq<Event>)
    requires trace != []
    ensures var s, t := Run(cfg, start, trace[..|trace| - 1]), Run(cfg, start, trace);
            s.persisted.Some? ==> t.persisted.Some? && s.persisted.value.at <= t.persisted.value.at
  {
    var before, last := trace[..|trace| - 1], trace[|trace| - 1];
    var s := Run(cfg, start, before);
    hide StmtDue, ProcessDue, Inv, RefRun, Consumed;
    CheckpointSafety(cfg, start, before);
    if s.halt.Running? && last.Consume? {
      RunningIsInvariant(cfg, start, before);
      InvLifecycle(cfg, start, s, RefRun(cfg, RefInitial(start), StreamOf(before)));
      WhenPersisted(cfg, s, last.op, StmtDue(cfg, last.op), last.env);
    }
  }

  lemma {:induction false} CheckpointsGrow(cfg: Config, start: GtidMap, trace: seq<Event>, i: nat)
    requires i <= |trace|
    ensures var s, t := Run(cfg, start, trace[..i]), Run(cfg, start, trace);
            && s.accepted <= t.accepted
            && (s.persisted.Some? ==> t.persisted.Some? && s.persisted.value.at <= t.persisted.value.at)
  {
    if i == |trace| {
      assert trace[..i] == trace;
    } else {
      var before := trace[..|trace| - 1];
      assert before[..i] == trace[..i];
      CheckpointsGrow(cfg, start, before, i);
      AcceptedStep(cfg, Run(cfg, start, before), trace[|trace| - 1]);
      hide Step;
      PersistedStep(cfg, start, trace);
    }
  }

  /** The map never loses or lowers an id as more transactions are accepted. */
  lemma {:induction false} MapGrows(start: GtidMap, accepted: seq<Accepted>, m: nat, n: nat, uuid: string)
    requires Consecutive(start, accepted) && m <= n <= |accepted| && uuid in MapAfter(start, accepted[..m])
    ensures uuid in MapAfter(start, accepted[..n])
    ensures MapAfter(start, accepted[..m])[uuid] <= MapAfter(start, accepted[..n])[uuid]
  {
    if m < n {
      hide MapAfter;
      MapGrows(start, accepted, m, n - 1, uuid);
      assert accepted[..n] == accepted[..n - 1] + [accepted[n - 1]];
      MapAfterOne(start, accepted[..n - 1], accepted[n - 1]);
      assert NextAfter(MapAfter(start, accepted[..n - 1]), accepted[n - 1]);
    }
  }

  /** The lower bound over whole runs: whatever follows, what is persisted covers every transaction that
      was accepted before a GTID or heartbeat that came after an unskipped DDL or DCL operation while Consul
      answered, so none of them is ever run again after a restart. */
  lemma CheckpointLowerBound(cfg: Config, start: GtidMap, trace: seq<Event>, i: nat)
    requires i < |trace| && trace[i].Consume? && (trace[i].op.Gtid? || trace[i].op.Heartbeat?) && trace[i].env.consulOk
    requires Run(cfg, start, trace[..i]).halt.Running? && !RefRun(cfg, RefInitial(start), StreamOf(trace[..i])).skip
    requires LastEffective(StreamOf(trace[..i])).Some? && LastEffective(StreamOf(trace[..i])).value.IsNonDml()
    ensures var p := Run(cfg, start, trace).persisted;
            && p.Some? && p.value.at >= |RefRun(cfg, RefInitial(start), StreamOf(trace[..i])).accepted|
            && forall g :: g in StreamOf(trace[..i]) && g.Gtid? ==> Skipped(p.value.gtids, g)
  {
    hide Run, RefRun, StreamOf, Skipped, LastEffective;
    var before := trace[..i];
    assert trace[..i + 1] == before + [Consume(trace[i].op, trace[i].env)];
    NonDmlIsCheckpointed(cfg, start, before, trace[i].op, trace[i].env);
    CheckpointsGrow(cfg, start, trace, i + 1);
    CoverageGrows(cfg, start, trace, i + 1);
    var s, t := Run(cfg, start, trace[..i + 1]), Run(cfg, start, trace);
    forall g | g in StreamOf(before) && g.Gtid? ensures Skipped(t.persisted.value.gtids, g)
    {
      SkippedGrows(s.persisted.value.gtids, t.persisted.value.gtids, g);
    }
  }

  lemma SkippedGrows(m: GtidMap, n: GtidMap, g: Operation)
    requires g.Gtid? && Skipped(m, g) && forall u :: u in m ==> u in n && m[u] <= n[u]
    ensures Skipped(n, g)
  {
  }

  /** A later persisted map covers at least as much. */
  lemma CoverageGrows(cfg: Config, start: GtidMap, trace: seq<Event>, i: nat)
    requires i <= |trace| && Run(cfg, start, trace[..i]).persisted.Some?
    ensures var p, q := Run(cfg, start, trace[..i]).persisted, Run(cfg, start, trace).persisted;
            q.Some? && forall u :: u in p.value.gtids ==> u in q.value.gtids && p.value.gtids[u] <= q.value.gtids[u]
  {
    hide Run, RefRun, MapAfter;
    CheckpointsGrow(cfg, start, trace, i);
    CheckpointSafety(cfg, start, trace[..i]);
    CheckpointSafety(cfg, start, trace);
    RunConsecutive(cfg, start, trace);
    var s, t := Run(cfg, start, trace[..i]), Run(cfg, start, trace);
    var m, n := s.persisted.value.at, t.persisted.value.at;
    assert s.accepted[..m] == t.accepted[..m];
    forall u | u in s.persisted.value.gtids
      ensures u in t.persisted.value.gtids && s.persisted.value.gtids[u] <= t.persisted.value.gtids[u]
    {
      MapGrows(start, t.accepted, m, n, u);
    }
  }

  /** And the same from every merged commit on. */
  lemma MergedLowerBound(cfg: Config, start: GtidMap, trace: seq<Event>, i: nat)
    requires i < |trace| && trace[i].Consume? && trace[i].env.consulOk && Run(cfg, start, trace[..i]).halt.Running?
    requires var s, t := Run(cfg, start, trace[..i]), Run(cfg, start, trace[..i + 1]);
             t.halt.Running? && |t.committed| > |s.committed| && t.committed[|s.committed|].merged
    ensures var p := Run(cfg, start, trace).persisted; p.Some? && p.value.at >= |Run(cfg, start, trace[..i]).accepted|
  {
    hide Run;
    assert trace[..i + 1] == trace[..i] + [Consume(trace[i].op, trace[i].env)];
    MergedIsCheckpointed(cfg, start, trace[..i], trace[i].op, trace[i].env);
    CheckpointsGrow(cfg, start, trace, i + 1);
  }
}
