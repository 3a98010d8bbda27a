/**
 Restarting the applier. A restart reads a GTID map and is fed the source stream again from
 some transaction boundary. What the two runs apply together is compared with what one
 uninterrupted reference run is due to do.
 */
module ApplierRecovery {
  import opened Prelude
  import opened Operations
  import opened Applier
  import opened ApplierInvariants
  import opened ApplierSteps
  import opened ApplierTheorems

  /** Entries without the index of their transaction, which differs between runs. */
  function Strip(entries: seq<Entry>): seq<Entry>
  {
    seq(|entries|, i requires 0 <= i < |entries| => entries[i].(trx := 0))
  }

  /** A stream that starts at a transaction boundary. */
  predicate Aligned(ops: seq<Operation>) { ops == [] || ops[0].Gtid? }

  lemma {:induction false} RefRunConcat(cfg: Config, r: Ref, a: seq<Operation>, b: seq<Operation>)
    ensures RefRun(cfg, r, a + b) == RefRun(cfg, RefRun(cfg, r, a), b)
  {
    hide RefStep;
    if b == [] {
      assert a + b == a;
    } else {
      assert (a + b)[..|a + b| - 1] == a + b[..|b| - 1];
      RefRunConcat(cfg, r, a, b[..|b| - 1]);
    }
  }

  // ----- the reference over one stream

  /** Histories only grow, and the map never forgets or lowers an id. */
  lemma {:induction false} RefGrows(cfg: Config, r: Ref, ops: seq<Operation>)
    ensures var t := RefRun(cfg, r, ops);
            && r.due <= t.due && r.accepted <= t.accepted
            && (forall u :: u in r.gtids ==> u in t.gtids && r.gtids[u] <= t.gtids[u])
  {
    hide StmtDue;
    if ops != [] { RefGrows(cfg, r, ops[..|ops| - 1]); }
  }

  lemma RefRunLast(cfg: Config, r: Ref, ops: seq<Operation>)
    requires ops != []
    ensures RefRun(cfg, r, ops) == RefStep(cfg, RefRun(cfg, r, ops[..|ops| - 1]), ops[|ops| - 1])
  {
  }

  lemma MapAfterOne(start: GtidMap, accepted: seq<Accepted>, a: Accepted)
    ensures MapAfter(start, accepted + [a]) == MapAfter(start, accepted)[a.uuid := a.trx]
  {
    assert (accepted + [a])[..|accepted|] == accepted;
  }

  /** A step either accepts nothing and keeps the map, or accepts one transaction and records it. */
  lemma RefStepMap(cfg: Config, r: Ref, op: Operation, start: GtidMap)
    requires r.gtids == MapAfter(start, r.accepted)
    ensures var t := RefStep(cfg, r, op); t.gtids == MapAfter(start, t.accepted)
  {
    hide StmtDue, MapAfter, Skipped;
    if op.Gtid? { MapAfterOne(start, r.accepted, Accepted(op.uuid, TrxOf(op), op.lastCommitted)); }
  }

  lemma {:induction false} RefMap(cfg: Config, start: GtidMap, ops: seq<Operation>)
    ensures var t := RefRun(cfg, RefInitial(start), ops); t.gtids == MapAfter(start, t.accepted)
  {
    if ops != [] {
      hide RefRun, RefStep, MapAfter;
      RefMap(cfg, start, ops[..|ops| - 1]);
      RefRunLast(cfg, RefInitial(start), ops);
      RefStepMap(cfg, RefRun(cfg, RefInitial(start), ops[..|ops| - 1]), ops[|ops| - 1], start);
    }
  }

  /** Every GTID the stream contained is covered by the resulting map. */
  lemma {:induction false} SeenIsCovered(cfg: Config, r: Ref, ops: seq<Operation>, i: nat)
    requires i < |ops| && ops[i].Gtid?
    ensures Skipped(RefRun(cfg, r, ops).gtids, ops[i])
  {
    hide StmtDue;
    assert ops == ops[..i + 1] + ops[i + 1..];
    RefRunConcat(cfg, r, ops[..i + 1], ops[i + 1..]);
    assert ops[..i + 1][..i] == ops[..i];
    RefGrows(cfg, RefRun(cfg, r, ops[..i + 1]), ops[i + 1..]);
  }

  /** A replay whose GTIDs are all covered does nothing. */
  lemma {:induction false} CoveredReplay(cfg: Config, r: Ref, replay: seq<Operation>)
    requires Aligned(replay)
    requires forall op :: op in replay && op.Gtid? ==> Skipped(r.gtids, op)
    ensures var t := RefRun(cfg, r, replay);
            && t.gtids == r.gtids && t.due == r.due && t.accepted == r.accepted
            && (replay != [] ==> t.skip && !t.open)
  {
    hide StmtDue;
    if replay != [] {
      var before := replay[..|replay| - 1];
      assert forall op :: op in before ==> op in replay;
      CoveredReplay(cfg, r, before);
      assert replay[|replay| - 1] in replay;
    }
  }

  /** Two reference runs that know the same map do the same from a transaction boundary on. */
  lemma {:induction false} Lockstep(cfg: Config, a: Ref, b: Ref, ops: seq<Operation>)
    requires a.gtids == b.gtids && Aligned(ops)
    ensures var a' := RefRun(cfg, a, ops); var b' := RefRun(cfg, b, ops);
            && a'.gtids == b'.gtids && (ops != [] ==> a'.skip == b'.skip && a'.open == b'.open)
            && a.due <= a'.due && b.due <= b'.due
            && Strip(a'.due[|a.due|..]) == Strip(b'.due[|b.due|..])
  {
    hide StmtDue, RefStep;
    if ops != [] {
      var before := ops[..|ops| - 1];
      var op := ops[|ops| - 1];
      Lockstep(cfg, a, b, before);
      var a1, b1 := RefRun(cfg, a, before), RefRun(cfg, b, before);
      var a2, b2 := RefRun(cfg, a, ops), RefRun(cfg, b, ops);
      hide RefRun;
      LockstepOne(cfg, a1, b1, op);
      if a2.due != a1.due {
        StripAppend(a1.due[|a.due|..], a2.due[|a1.due|]);
        StripAppend(b1.due[|b.due|..], b2.due[|b1.due|]);
        assert a2.due[|a.due|..] == a1.due[|a.due|..] + [a2.due[|a1.due|]];
        assert b2.due[|b.due|..] == b1.due[|b.due|..] + [b2.due[|b1.due|]];
      }
    }
  }

  lemma LockstepOne(cfg: Config, a: Ref, b: Ref, op: Operation)
    requires a.gtids == b.gtids && (op.Gtid? || (a.skip == b.skip && a.open == b.open))
    ensures var a' := RefStep(cfg, a, op); var b' := RefStep(cfg, b, op);
            && a'.gtids == b'.gtids && a'.skip == b'.skip && a'.open == b'.open
            && (if a'.due == a.due then b'.due == b.due
                else |a'.due| == |a.due| + 1 && |b'.due| == |b.due| + 1 && a.due <= a'.due && b.due <= b'.due
                     && a'.due[|a.due|].(trx := 0) == b'.due[|b.due|].(trx := 0))
  {
    hide StmtDue;
    assert forall e: Entry :: a.due + [e] != a.due by {
      forall e: Entry ensures a.due + [e] != a.due { assert |a.due + [e]| == |a.due| + 1; }
    }
  }

  lemma StripAppend(entries: seq<Entry>, e: Entry)
    ensures Strip(entries + [e]) == Strip(entries) + [e.(trx := 0)]
  {
  }

  lemma StripConcat(a: seq<Entry>, b: seq<Entry>)
    ensures Strip(a + b) == Strip(a) + Strip(b)
  {
  }

  // ----- exactly once

  /** The reference restarted from the map it ended with, fed any aligned replay of operations it
      has already seen and then a new aligned stream, does exactly what it would have done had it
      gone straight on to the new stream. */
  lemma ReplayIsHarmless(cfg: Config, start: GtidMap, past: seq<Operation>, replay: seq<Operation>,
                         more: seq<Operation>)
    requires Aligned(replay) && Aligned(more)
    requires forall op :: op in replay && op.Gtid? ==> op in past
    ensures var first := RefRun(cfg, RefInitial(start), past);
            var second := RefRun(cfg, RefInitial(first.gtids), replay + more);
            var whole := RefRun(cfg, RefInitial(start), past + more);
            && Strip(first.due) + Strip(second.due) == Strip(whole.due)
            && second.gtids == whole.gtids
  {
    hide StmtDue, RefStep;
    var first := RefRun(cfg, RefInitial(start), past);
    var again := RefInitial(first.gtids);
    forall op | op in replay && op.Gtid? ensures Skipped(first.gtids, op) {
      var i :| 0 <= i < |past| && past[i] == op;
      SeenIsCovered(cfg, RefInitial(start), past, i);
    }
    CoveredReplay(cfg, again, replay);
    var replayed := RefRun(cfg, again, replay);
    RefRunConcat(cfg, again, replay, more);
    RefRunConcat(cfg, RefInitial(start), past, more);
    Lockstep(cfg, first, replayed, more);
    var whole := RefRun(cfg, RefInitial(start), past + more);
    var second := RefRun(cfg, again, replay + more);
    assert whole.due == first.due + whole.due[|first.due|..];
    StripConcat(first.due, whole.due[|first.due|..]);
    assert second.due[0..] == second.due;
  }

  /** Nothing pending and the last transaction finished or already committed. */
  predicate Quiescent(s: Applier) { s.halt.Running? && s.tx.None? && !JustAccepted(s) }

  /** Two applier runs, the second restarted from the map the first held at a quiescent point and
      fed a replay of already consumed operations before new ones, commit together exactly what
      the uninterrupted stream is due to do. */
  lemma ExactlyOnce(cfg: Config, start: GtidMap, trace1: seq<Event>, trace2: seq<Event>,
                    replay: seq<Operation>, more: seq<Operation>)
    requires Quiescent(Run(cfg, start, trace1))
    requires var s1 := Run(cfg, start, trace1);
             Quiescent(Run(cfg, s1.gtids, trace2)) && Consumed(cfg, s1.gtids, trace2) == replay + more
    requires Aligned(replay) && Aligned(more)
    requires forall op :: op in replay && op.Gtid? ==> op in Consumed(cfg, start, trace1)
    ensures var s1 := Run(cfg, start, trace1); var s2 := Run(cfg, s1.gtids, trace2);
            Strip(Flat(s1.committed)) + Strip(Flat(s2.committed))
              == Strip(RefRun(cfg, RefInitial(start), Consumed(cfg, start, trace1) + more).due)
  {
    hide Run, RefRun, Consumed, Flat;
    var s1 := Run(cfg, start, trace1);
    var s2 := Run(cfg, s1.gtids, trace2);
    Conservation(cfg, start, trace1);
    Conservation(cfg, s1.gtids, trace2);
    assert Flat(s1.committed) + s1.Open() == Flat(s1.committed);
    assert Flat(s2.committed) + s2.Open() == Flat(s2.committed);
    ReplayIsHarmless(cfg, start, Consumed(cfg, start, trace1), replay, more);
  }

  // ----- at least once after a crash

  /** Statements arrive only inside an accepted transaction. */
  ghost predicate StatementsInside(cfg: Config, start: GtidMap, ops: seq<Operation>)
  {
    forall i :: 0 <= i < |ops| && (ops[i].IsDml() || ops[i].IsNonDml() || ops[i].Xid?) ==>
      var r := RefRun(cfg, RefInitial(start), ops[..i]); r.skip || r.open
  }

  /** Length of the longest prefix in which at most `n` transactions are accepted. */
  function Upto(cfg: Config, start: GtidMap, ops: seq<Operation>, n: nat): (j: nat)
    ensures j <= |ops|
  {
    if ops == [] || |RefRun(cfg, RefInitial(start), ops).accepted| <= n then |ops|
    else Upto(cfg, start, ops[..|ops| - 1], n)
  }

  lemma {:induction false} UptoProperty(cfg: Config, start: GtidMap, ops: seq<Operation>, n: nat)
    requires n <= |RefRun(cfg, RefInitial(start), ops).accepted|
    ensures var j := Upto(cfg, start, ops, n);
            && |RefRun(cfg, RefInitial(start), ops[..j]).accepted| == n
            && (j < |ops| ==> ops[j].Gtid?)
  {
    hide StmtDue;
    var j := Upto(cfg, start, ops, n);
    if j == |ops| {
      assert ops[..j] == ops;
    } else {
      var before := ops[..|ops| - 1];
      UptoProperty(cfg, start, before, n);
      assert before[..j] == ops[..j];
      if j == |ops| - 1 { assert ops[..j] == before; }
    }
  }

  /** Entries due before the boundary belong to earlier transactions. */
  lemma {:induction false} DueIsTagged(cfg: Config, start: GtidMap, ops: seq<Operation>)
    requires StatementsInside(cfg, start, ops)
    ensures var r := RefRun(cfg, RefInitial(start), ops);
            (forall e :: e in r.due ==> e.trx < |r.accepted|) && (r.open ==> r.accepted != [])
  {
    hide StmtDue;
    if ops != [] {
      var before := ops[..|ops| - 1];
      InsidePrefix(cfg, start, ops, |ops| - 1);
      DueIsTagged(cfg, start, before);
      assert ops[..|ops| - 1] == before;
    }
  }

  lemma InsidePrefix(cfg: Config, start: GtidMap, ops: seq<Operation>, j: nat)
    requires StatementsInside(cfg, start, ops) && j <= |ops|
    ensures StatementsInside(cfg, start, ops[..j])
  {
    hide RefRun;
    forall i | 0 <= i < j && (ops[i].IsDml() || ops[i].IsNonDml() || ops[i].Xid?)
      ensures var r := RefRun(cfg, RefInitial(start), ops[..j][..i]); r.skip || r.open
    {
      assert ops[..j][..i] == ops[..i];
    }
  }

  /** After a finished transaction nothing is due until the next one is accepted. */
  lemma {:induction false} NothingUntilNextAccept(cfg: Config, start: GtidMap, ops: seq<Operation>, k: nat)
    requires StatementsInside(cfg, start, ops) && k <= |ops|
    requires var r := RefRun(cfg, RefInitial(start), ops[..k]);
             !r.open && |RefRun(cfg, RefInitial(start), ops).accepted| == |r.accepted|
    ensures var r := RefRun(cfg, RefInitial(start), ops[..k]); var t := RefRun(cfg, RefInitial(start), ops);
            t.due == r.due && !t.open
  {
    hide RefStep, RefRun;
    if k == |ops| {
      assert ops[..k] == ops;
    } else {
      var before := ops[..|ops| - 1];
      assert before[..k] == ops[..k];
      RefRunLast(cfg, RefInitial(start), ops);
      QuietStep(cfg, RefRun(cfg, RefInitial(start), before), ops[|ops| - 1]);
      hide StatementsInside;
      InsidePrefix(cfg, start, ops, |ops| - 1);
      RefRunConcat(cfg, RefInitial(start), ops[..k], ops[k..|ops| - 1]);
      assert before == ops[..k] + ops[k..|ops| - 1];
      RefGrows(cfg, RefRun(cfg, RefInitial(start), ops[..k]), ops[k..|ops| - 1]);
      NothingUntilNextAccept(cfg, start, before, k);
    }
  }

  lemma QuietStep(cfg: Config, r: Ref, op: Operation)
    requires op.IsDml() || op.IsNonDml() || op.Xid? ==> r.skip || r.open
    ensures r.accepted <= RefStep(cfg, r, op).accepted
    ensures !r.open && |RefStep(cfg, r, op).accepted| == |r.accepted| ==>
              RefStep(cfg, r, op).due == r.due && !RefStep(cfg, r, op).open
  {
    hide StmtDue;
  }

  lemma ReplayIsCovered(cfg: Config, init: Ref, ops: seq<Operation>, i: nat, j: nat)
    requires i <= j <= |ops|
    ensures forall op :: op in ops[i..j] && op.Gtid? ==> Skipped(RefRun(cfg, init, ops[..j]).gtids, op)
  {
    hide RefRun, Skipped;
    forall op | op in ops[i..j] && op.Gtid? ensures Skipped(RefRun(cfg, init, ops[..j]).gtids, op)
    {
      var k :| 0 <= k < |ops[i..j]| && ops[i..j][k] == op;
      assert ops[..j][i + k] == op;
      SeenIsCovered(cfg, init, ops[..j], i + k);
    }
  }

  /** Restarting the reference from the map after the first `n` transactions, at any transaction
      boundary not later than the next one, does again exactly what follows them. */
  lemma RestartFromMap(cfg: Config, start: GtidMap, ops: seq<Operation>, n: nat, i: nat)
    requires n <= |RefRun(cfg, RefInitial(start), ops).accepted|
    requires i <= Upto(cfg, start, ops, n) && Aligned(ops[i..])
    ensures var whole := RefRun(cfg, RefInitial(start), ops);
            var done := RefRun(cfg, RefInitial(start), ops[..Upto(cfg, start, ops, n)]);
            var again := RefRun(cfg, RefInitial(MapAfter(start, whole.accepted[..n])), ops[i..]);
            && done.due <= whole.due
            && Strip(whole.due) == Strip(done.due) + Strip(again.due)
  {
    hide RefRun, Upto, Strip, MapAfter, Skipped;
    var j := Upto(cfg, start, ops, n);
    UptoProperty(cfg, start, ops, n);
    var init := RefInitial(start);
    var done := RefRun(cfg, init, ops[..j]);
    var whole := RefRun(cfg, init, ops);
    assert ops == ops[..j] + ops[j..];
    RefRunConcat(cfg, init, ops[..j], ops[j..]);
    RefGrows(cfg, done, ops[j..]);
    RefMap(cfg, start, ops[..j]);
    assert whole.accepted[..n] == done.accepted;
    var again := RefInitial(done.gtids);
    var replay := ops[i..j];
    assert ops[i..] == replay + ops[j..];
    ReplayIsCovered(cfg, init, ops, i, j);
    CoveredReplay(cfg, again, replay);
    RefRunConcat(cfg, again, replay, ops[j..]);
    var replayed := RefRun(cfg, again, replay);
    Lockstep(cfg, done, replayed, ops[j..]);
    assert whole.due == done.due + whole.due[|done.due|..];
    StripConcat(done.due, whole.due[|done.due|..]);
    var second := RefRun(cfg, again, ops[i..]);
    assert second.due[0..] == second.due;
  }

  /** Whatever the whole stream is due to do is either already committed at the moment of the crash, or
      is due again after a restart from the persisted map. */
  lemma CrashLeavesTheRest(cfg: Config, start: GtidMap, trace: seq<Event>, rest: seq<Operation>, i: nat)
    requires var s := Run(cfg, start, trace); s.persisted.Some? && NotAhead(s, DueOf(cfg, start, trace))
    requires StatementsInside(cfg, start, Consumed(cfg, start, trace) + rest)
    requires var ops := Consumed(cfg, start, trace) + rest;
             i <= Upto(cfg, start, ops, Run(cfg, start, trace).persisted.value.at) && i <= |ops| && Aligned(ops[i..])
    ensures var s := Run(cfg, start, trace);
            var ops := Consumed(cfg, start, trace) + rest;
            var done := RefRun(cfg, RefInitial(start), ops[..Upto(cfg, start, ops, s.persisted.value.at)]);
            var again := RefRun(cfg, RefInitial(s.persisted.value.gtids), ops[i..]);
            && (forall e :: e in done.due ==> e in Flat(s.committed))
            && Strip(RefRun(cfg, RefInitial(start), ops).due) == Strip(done.due) + Strip(again.due)
  {
    hide Run, RefStep, StmtDue, Flat, Consumed;
    var s := Run(cfg, start, trace);
    var r := DueOf(cfg, start, trace);
    var used := Consumed(cfg, start, trace);
    var ops := used + rest;
    var n := s.persisted.value.at;
    CheckpointSafety(cfg, start, trace);
    AcceptedPrefix(cfg, start, trace);
    RefRunConcat(cfg, RefInitial(start), used, rest);
    RefGrows(cfg, r, rest);
    var whole := RefRun(cfg, RefInitial(start), ops);
    assert whole.accepted[..n] == s.accepted[..n];
    RestartFromMap(cfg, start, ops, n, i);
    DoneIsSettled(cfg, start, used, rest, n);
    assert ops[..|used|] == used;
    InsidePrefix(cfg, start, ops, Upto(cfg, start, ops, n));
    DueIsTagged(cfg, start, ops[..Upto(cfg, start, ops, n)]);
    UptoProperty(cfg, start, ops, n);
  }

  /** A crash at any moment loses nothing: once a second applier, restarted from the persisted map, has
      consumed the stream again from a boundary not later than that map, the two have committed all the
      stream is due to do. */
  lemma CrashLosesNothing(cfg: Config, start: GtidMap, trace: seq<Event>, rest: seq<Operation>, i: nat,
                          trace2: seq<Event>)
    requires var s := Run(cfg, start, trace); s.persisted.Some? && NotAhead(s, DueOf(cfg, start, trace))
    requires StatementsInside(cfg, start, Consumed(cfg, start, trace) + rest)
    requires var ops := Consumed(cfg, start, trace) + rest; var p := Run(cfg, start, trace).persisted.value;
             && i <= Upto(cfg, start, ops, p.at) && i <= |ops| && Aligned(ops[i..])
             && Quiescent(Run(cfg, p.gtids, trace2)) && Consumed(cfg, p.gtids, trace2) == ops[i..]
    ensures var s := Run(cfg, start, trace); var s2 := Run(cfg, s.persisted.value.gtids, trace2);
            var ops := Consumed(cfg, start, trace) + rest;
            var done := RefRun(cfg, RefInitial(start), ops[..Upto(cfg, start, ops, s.persisted.value.at)]);
            && (forall e :: e in done.due ==> e in Flat(s.committed))
            && Strip(RefRun(cfg, RefInitial(start), ops).due) == Strip(done.due) + Strip(Flat(s2.committed))
  {
    hide Run, RefRun, Consumed, Flat, Upto, StatementsInside;
    CrashLeavesTheRest(cfg, start, trace, rest, i);
    var m := Run(cfg, start, trace).persisted.value.gtids;
    Conservation(cfg, m, trace2);
    var s2 := Run(cfg, m, trace2);
    assert Flat(s2.committed) + s2.Open() == Flat(s2.committed);
  }

  // ----- no gap is met after a restart

  /** No GTID of the stream leaves a gap behind what the reference then knows. */
  ghost predicate NoMiss(cfg: Config, r: Ref, ops: seq<Operation>)
  {
    forall k :: 0 <= k < |ops| && ops[k].Gtid? ==> !Missed(RefRun(cfg, r, ops[..k]).gtids, ops[k])
  }

  lemma NoMissPrefix(cfg: Config, r: Ref, ops: seq<Operation>, n: nat)
    requires NoMiss(cfg, r, ops) && n <= |ops|
    ensures NoMiss(cfg, r, ops[..n])
  {
    hide RefRun, Missed;
    forall k | 0 <= k < n && ops[k].Gtid? ensures !Missed(RefRun(cfg, r, ops[..n][..k]).gtids, ops[k])
    {
      assert ops[..n][..k] == ops[..k];
    }
  }

  lemma MergeKeepsMap(s: Applier, env: Env)
    ensures MergeCommit(s, env).gtids == s.gtids && (s.halt.Running? ==> !MergeCommit(s, env).halt.GtidMiss?)
  {
  }

  lemma OnGtidMisses(s: Applier, op: Operation, env: Env)
    requires s.halt.Running? && op.Gtid? && OnGtid(s, op, env).halt.GtidMiss?
    ensures Missed(s.gtids, op)
  {
    hide MergeCommit;
    MergeKeepsMap(s.(gtidSkip := false), env);
  }

  lemma GtidOperationMisses(cfg: Config, s: Applier, op: Operation, env: Env)
    requires s.halt.Running? && op.Gtid? && OnGtidOperation(cfg, s, op, env).halt.GtidMiss?
    ensures Missed(s.gtids, op)
  {
    hide MergeCommit, OnGtid, ForceMergeCommit, Missed;
    var s1 := s.(lastCheckpointTs := s.lastAppliedTs);
    MergeKeepsMap(s1, env);
    var r := match s.state
      case DDL => Checkpoint(s1, env)
      case DCL => Checkpoint(s1, env)
      case XID => if ForceMergeCommit(cfg, s1) then MergeCommit(s1, env) else s1
      case _ => s1;
    if r.halt.Running? && OnGtid(r, op, env).halt.GtidMiss? { OnGtidMisses(r, op, env); }
  }

  /** Only a GTID that leaves a gap stops the applier with "gtid miss". */
  lemma StepMisses(cfg: Config, s: Applier, ev: Event)
    requires s.halt.Running? && Step(cfg, s, ev).halt.GtidMiss?
    ensures ev.Consume? && ev.op.Gtid? && Missed(s.gtids, ev.op)
  {
    hide OnGtidOperation, MergeCommit, ExecuteOnNonDml, StmtDue, Missed;
    if ev.Consume? {
      MergeKeepsMap(s, ev.env);
      MergeKeepsMap(s.(lastCheckpointTs := s.lastAppliedTs), ev.env);
      if ev.op.Gtid? { GtidOperationMisses(cfg, if s.gtidSkip then s.(state := NULL) else s, ev.op, ev.env); }
      else if ev.op.IsNonDml() && StmtDue(cfg, ev.op).Due? {
        NonDmlMissesNothing(MergeCommit(s, ev.env), SchemaOf(ev.op), StmtDue(cfg, ev.op).stmt, ev.env);
      }
    }
  }

  lemma NonDmlMissesNothing(s: Applier, schemaContext: string, stmt: Stmt, env: Env)
    ensures s.halt.Running? ==> !ExecuteOnNonDml(s, schemaContext, stmt, env).halt.GtidMiss?
  {
  }

  /** A running applier has consumed every operation it was given. */
  lemma {:induction false} RunningConsumedAll(cfg: Config, start: GtidMap, trace: seq<Event>)
    ensures Run(cfg, start, trace).halt.Running? ==> Consumed(cfg, start, trace) == StreamOf(trace)
    ensures Consumed(cfg, start, trace) <= StreamOf(trace)
  {
    hide StmtDue, ProcessDue;
    if trace != [] { RunningConsumedAll(cfg, start, trace[..|trace| - 1]); }
  }

  /** On a stream without gaps the applier never stops with "gtid miss". */
  lemma {:induction false} GapFreeNeverMisses(cfg: Config, start: GtidMap, trace: seq<Event>)
    requires NoMiss(cfg, RefInitial(start), StreamOf(trace))
    ensures !Run(cfg, start, trace).halt.GtidMiss?
  {
    if trace != [] {
      hide Step, RefRun, Missed, NoMiss;
      var before, last := trace[..|trace| - 1], trace[|trace| - 1];
      var n := |StreamOf(before)|;
      assert StreamOf(trace)[..n] == StreamOf(before);
      NoMissPrefix(cfg, RefInitial(start), StreamOf(trace), n);
      GapFreeNeverMisses(cfg, start, before);
      var s := Run(cfg, start, before);
      if s.halt.Running? {
        Conservation(cfg, start, before);
        RunningConsumedAll(cfg, start, before);
        if last.Consume? && last.op.Gtid? { NoMissAt(cfg, RefInitial(start), StreamOf(trace), n); }
        if Step(cfg, s, last).halt.GtidMiss? { StepMisses(cfg, s, last); }
      }
    }
  }

  lemma NoMissAt(cfg: Config, r: Ref, ops: seq<Operation>, k: nat)
    requires NoMiss(cfg, r, ops) && k < |ops| && ops[k].Gtid?
    ensures !Missed(RefRun(cfg, r, ops[..k]).gtids, ops[k])
  {
  }

  /** If the stream had no gap for the first run, it has none for a run restarted from the map after any
      number of its transactions, at any boundary not later than the next one. */
  lemma RestartNoMiss(cfg: Config, start: GtidMap, ops: seq<Operation>, n: nat, i: nat)
    requires NoMiss(cfg, RefInitial(start), ops) && n <= |RefRun(cfg, RefInitial(start), ops).accepted|
    requires i <= Upto(cfg, start, ops, n) && Aligned(ops[i..])
    ensures NoMiss(cfg, RefInitial(MapAfter(start, RefRun(cfg, RefInitial(start), ops).accepted[..n])), ops[i..])
  {
    hide RefRun, Upto, MapAfter, Missed, Skipped, NoMiss;
    var j := Upto(cfg, start, ops, n);
    UptoProperty(cfg, start, ops, n);
    UptoMap(cfg, start, ops, n);
    var init := RefInitial(start);
    var again := RefInitial(RefRun(cfg, init, ops[..j]).gtids);
    forall k | 0 <= k < |ops| - i && ops[i..][k].Gtid?
      ensures !Missed(RefRun(cfg, again, ops[i..][..k]).gtids, ops[i..][k])
    {
      assert ops[i..][..k] == ops[i..i + k];
      NoMissAt(cfg, init, ops, i + k);
      if i + k < j {
        ReplayedMissesNothing(cfg, init, ops, i, j, k);
      } else {
        SameMapLater(cfg, init, ops, i, j, k);
      }
    }
    NoMissFrom(cfg, again, ops[i..]);
  }

  lemma NoMissFrom(cfg: Config, r: Ref, ops: seq<Operation>)
    requires forall k :: 0 <= k < |ops| && ops[k].Gtid? ==> !Missed(RefRun(cfg, r, ops[..k]).gtids, ops[k])
    ensures NoMiss(cfg, r, ops)
  {
  }

  /** The map at the boundary is the map after the first n transactions. */
  lemma UptoMap(cfg: Config, start: GtidMap, ops: seq<Operation>, n: nat)
    requires n <= |RefRun(cfg, RefInitial(start), ops).accepted|
    ensures var j := Upto(cfg, start, ops, n);
            RefRun(cfg, RefInitial(start), ops[..j]).gtids
              == MapAfter(start, RefRun(cfg, RefInitial(start), ops).accepted[..n])
  {
    hide RefRun, Upto, MapAfter;
    var j := Upto(cfg, start, ops, n);
    UptoProperty(cfg, start, ops, n);
    var done := RefRun(cfg, RefInitial(start), ops[..j]);
    assert ops == ops[..j] + ops[j..];
    RefRunConcat(cfg, RefInitial(start), ops[..j], ops[j..]);
    RefGrows(cfg, done, ops[j..]);
    RefMap(cfg, start, ops[..j]);
    assert RefRun(cfg, RefInitial(start), ops).accepted[..n] == done.accepted;
  }

  /** Before the boundary every GTID is skipped. */
  lemma ReplayedMissesNothing(cfg: Config, init: Ref, ops: seq<Operation>, i: nat, j: nat, k: nat)
    requires i + k < j <= |ops| && Aligned(ops[i..]) && ops[i + k].Gtid?
    ensures var again := RefInitial(RefRun(cfg, init, ops[..j]).gtids);
            !Missed(RefRun(cfg, again, ops[i..i + k]).gtids, ops[i + k])
  {
    hide RefRun;
    var m := RefRun(cfg, init, ops[..j]).gtids;
    ReplayIsCovered(cfg, init, ops, i, j);
    forall op | op in ops[i..i + k] && op.Gtid? ensures Skipped(m, op)
    {
      var x :| 0 <= x < k && ops[i..i + k][x] == op;
      assert ops[i..j][x] == op;
    }
    CoveredReplay(cfg, RefInitial(m), ops[i..i + k]);
    assert ops[i..j][k] == ops[i + k];
  }

  /** From the boundary on both runs know the same map. */
  lemma SameMapLater(cfg: Config, init: Ref, ops: seq<Operation>, i: nat, j: nat, k: nat)
    requires i <= j <= i + k <= |ops| && Aligned(ops[i..]) && Aligned(ops[j..])
    ensures var again := RefInitial(RefRun(cfg, init, ops[..j]).gtids);
            RefRun(cfg, again, ops[i..i + k]).gtids == RefRun(cfg, init, ops[..i + k]).gtids
  {
    hide RefRun, Skipped;
    var done := RefRun(cfg, init, ops[..j]);
    var again := RefInitial(done.gtids);
    ReplayIsCovered(cfg, init, ops, i, j);
    CoveredReplay(cfg, again, ops[i..j]);
    assert ops[i..i + k] == ops[i..j] + ops[j..i + k];
    assert ops[..i + k] == ops[..j] + ops[j..i + k];
    RefRunConcat(cfg, again, ops[i..j], ops[j..i + k]);
    RefRunConcat(cfg, init, ops[..j], ops[j..i + k]);
    Lockstep(cfg, done, RefRun(cfg, again, ops[i..j]), ops[j..i + k]);
  }

  /** A second applier, restarted from whatever map was persisted and fed the stream again from a
      boundary not later than that map, meets no gap that the stream did not have before. */
  lemma RestartMeetsNoMiss(cfg: Config, start: GtidMap, trace: seq<Event>, rest: seq<Operation>, i: nat,
                           trace2: seq<Event>)
    requires Run(cfg, start, trace).persisted.Some?
    requires var ops := Consumed(cfg, start, trace) + rest; var p := Run(cfg, start, trace).persisted.value;
             && NoMiss(cfg, RefInitial(start), ops)
             && i <= Upto(cfg, start, ops, p.at) && i <= |ops| && Aligned(ops[i..]) && StreamOf(trace2) <= ops[i..]
    ensures !Run(cfg, Run(cfg, start, trace).persisted.value.gtids, trace2).halt.GtidMiss?
  {
    hide Run, RefRun, Consumed, Upto, NoMiss, StreamOf;
    var ops := Consumed(cfg, start, trace) + rest;
    var p := Run(cfg, start, trace).persisted.value;
    CheckpointSafety(cfg, start, trace);
    AcceptedPrefix(cfg, start, trace);
    RefRunConcat(cfg, RefInitial(start), Consumed(cfg, start, trace), rest);
    RefGrows(cfg, DueOf(cfg, start, trace), rest);
    assert RefRun(cfg, RefInitial(start), ops).accepted[..p.at] == Run(cfg, start, trace).accepted[..p.at];
    RestartNoMiss(cfg, start, ops, p.at, i);
    assert ops[i..][..|StreamOf(trace2)|] == StreamOf(trace2);
    NoMissPrefix(cfg, RefInitial(p.gtids), ops[i..], |StreamOf(trace2)|);
    GapFreeNeverMisses(cfg, p.gtids, trace2);
  }

  lemma AcceptedPrefix(cfg: Config, start: GtidMap, trace: seq<Event>)
    ensures Run(cfg, start, trace).accepted <= DueOf(cfg, start, trace).accepted
  {
    EveryRunKeeps(cfg, start, trace);
  }

  /** What is due up to the boundary was already due when the first run stopped. */
  lemma DoneIsSettled(cfg: Config, start: GtidMap, used: seq<Operation>, rest: seq<Operation>, n: nat)
    requires StatementsInside(cfg, start, used + rest)
    requires n <= RefRun(cfg, RefInitial(start), used).Finished()
    ensures var done := RefRun(cfg, RefInitial(start), (used + rest)[..Upto(cfg, start, used + rest, n)]);
            done.due <= RefRun(cfg, RefInitial(start), used).due
  {
    hide StmtDue, RefStep;
    var ops := used + rest;
    var init := RefInitial(start);
    var r := RefRun(cfg, init, used);
    RefRunConcat(cfg, init, used, rest);
    RefGrows(cfg, r, rest);
    UptoProperty(cfg, start, ops, n);
    var j := Upto(cfg, start, ops, n);
    var done := RefRun(cfg, init, ops[..j]);
    assert ops[..|used|] == used;
    if j <= |used| {
      assert used == ops[..j] + used[j..];
      RefRunConcat(cfg, init, ops[..j], used[j..]);
      RefGrows(cfg, done, used[j..]);
    } else {
      assert ops[..j] == used + ops[|used|..j];
      RefRunConcat(cfg, init, used, ops[|used|..j]);
      RefGrows(cfg, r, ops[|used|..j]);
      InsidePrefix(cfg, start, ops, j);
      assert ops[..j][..|used|] == used;
      InsidePrefix(cfg, start, ops, |used|);
      DueIsTagged(cfg, start, used);
      NothingUntilNextAccept(cfg, start, ops[..j], |used|);
    }
  }

  // ----- the checkpoint that runs ahead

  lemma RunSnoc(cfg: Config, start: GtidMap, trace: seq<Event>, ev: Event)
    ensures Run(cfg, start, trace + [ev]) == Step(cfg, Run(cfg, start, trace), ev)
  {
    assert (trace + [ev])[..|trace|] == trace;
  }

  const ALL_OK: Env := Env(BeginOk, true, ExecOk, CommitOk, CommitOk, true, true)

  /** Where the exception of CheckpointSafety is real: a DDL statement whose transaction shares the
      group of a pending one is covered by the persisted map before it runs. If the statement then
      fails, a run restarted from that map skips it for good. */
  lemma EarlyCheckpointLosesDdl(cfg: Config, ddl: Operation)
    requires ddl.DdlTable? && StmtDue(cfg, ddl).Due? && cfg.maxCount != 1
    ensures var second := Gtid(0, "u", 2, 0);
            var trace := [Consume(Gtid(0, "u", 1, 0), ALL_OK), Consume(Begin(0), ALL_OK), Consume(Xid(0), ALL_OK),
                          Consume(second, ALL_OK), Consume(ddl, ALL_OK.(exec := ExecFails))];
            var s := Run(cfg, map[], trace);
            && s.halt.SqlError? && Flat(s.committed) == [End(0)]
            && s.persisted.Some? && s.persisted.value.gtids == map["u" := 2]
            && RefRun(cfg, RefInitial(s.persisted.value.gtids), [second, ddl]).due == []
  {
    hide StmtDue, Step, Run, RefRun;
    var e1, e2, e3 := Consume(Gtid(0, "u", 1, 0), ALL_OK), Consume(Begin(0), ALL_OK), Consume(Xid(0), ALL_OK);
    var second := Gtid(0, "u", 2, 0);
    var e4, e5 := Consume(second, ALL_OK), Consume(ddl, ALL_OK.(exec := ExecFails));
    var a1, a2 := Accepted("u", 1, 0), Accepted("u", 2, 0);
    var s1 := Initial(map[]).(state := GTID, gtids := map["u" := 1], accepted := [a1]);
    FirstGtid(cfg, e1, s1);
    var s2 := s1.(state := BEGIN, tx := Some([]));
    BeginAndXid(cfg, e2, e3, s1);
    var s3 := s2.(state := XID, pending := 1, tx := Some([End(0)]));
    var s4 := s3.(state := GTID, gtids := map["u" := 2], accepted := [a1, a2]);
    SecondGtid(cfg, e4, s3, s4);
    DdlFails(cfg, e5, s4);
    RunOfFive(cfg, e1, e2, e3, e4, e5);
    hide Flat;
    CoveredReplay(cfg, RefInitial(map["u" := 2]), [second, ddl]);
  }

  lemma DdlRuns(cfg: Config, s: Applier, ev: Event)
    requires ev.Consume? && ev.op.DdlTable? && ev.env == ALL_OK
    requires s.halt.Running? && s.state.GTID? && s.pending == 0 && s.tx.None? && !s.gtidSkip
    ensures var t := Step(cfg, s, ev);
            t.halt.Running? && t.state.DDL? && !t.gtidSkip && t.gtids == s.gtids && t.accepted == s.accepted
  {
    hide StmtDue;
  }

  lemma HeartbeatCloses(cfg: Config, s: Applier, ev: Event)
    requires ev.Consume? && ev.op.Heartbeat? && ev.env == ALL_OK
    requires s.halt.Running? && s.state.DDL? && !s.gtidSkip
    ensures var t := Step(cfg, s, ev);
            && t.halt.Running? && t.state.NULL? && !t.gtidSkip
            && t.persisted == Some(Persisted(s.gtids, |s.accepted|))
  {
    hide StmtDue;
  }

  lemma DdlRefused(cfg: Config, s: Applier, ev: Event)
    requires ev.Consume? && ev.op.DdlTable? && s.halt.Running? && s.state.NULL? && !s.gtidSkip
    ensures Step(cfg, s, ev) == s.Fail(StateError)
  {
    hide StmtDue;
  }

  lemma SixAccepted(cfg: Config, ev: Event)
    requires ev == Consume(Gtid(0, "u", 6, 0), ALL_OK)
    ensures var t := Step(cfg, Initial(map["u" := 5]), ev);
            && t.halt.Running? && t.state.GTID? && t.pending == 0 && t.tx.None? && !t.gtidSkip
            && t.gtids == map["u" := 6] && |t.accepted| == 1
  {
    assert map["u" := 5]["u" := 6] == map["u" := 6];
  }

  /** That checkpoints are not ahead presumes the operation grammar: a heartbeat between the statements
      of a DDL transaction persists its GTID, the statement after it is refused, and a restart from that
      map skips it. No transaction shares a commit group here. */
  lemma HeartbeatInsideDdl(cfg: Config, d1: Operation, d2: Operation)
    requires d1.DdlTable? && d2.DdlTable?
    ensures var ops := [Gtid(0, "u", 6, 0), d1, Heartbeat(0), d2];
            var trace := [Consume(ops[0], ALL_OK), Consume(d1, ALL_OK), Consume(ops[2], ALL_OK), Consume(d2, ALL_OK)];
            var s := Run(cfg, map["u" := 5], trace);
            && s.halt.StateError? && s.persisted.Some? && s.persisted.value.gtids == map["u" := 6]
            && RefRun(cfg, RefInitial(s.persisted.value.gtids), ops).due == []
  {
    hide Step, Run, RefRun, StmtDue;
    var ops := [Gtid(0, "u", 6, 0), d1, Heartbeat(0), d2];
    var e1, e2 := Consume(ops[0], ALL_OK), Consume(d1, ALL_OK);
    var e3, e4 := Consume(ops[2], ALL_OK), Consume(d2, ALL_OK);
    var start := map["u" := 5];
    SixAccepted(cfg, e1);
    var s1 := Step(cfg, Initial(start), e1);
    DdlRuns(cfg, s1, e2);
    var s2 := Step(cfg, s1, e2);
    HeartbeatCloses(cfg, s2, e3);
    DdlRefused(cfg, Step(cfg, s2, e3), e4);
    EmptyRun(cfg, start);
    RunSnoc(cfg, start, [], e1);
    RunSnoc(cfg, start, [e1], e2);
    RunSnoc(cfg, start, [e1, e2], e3);
    RunSnoc(cfg, start, [e1, e2, e3], e4);
    assert [] + [e1] == [e1] && [e1] + [e2] == [e1, e2] && [e1, e2] + [e3] == [e1, e2, e3];
    assert [e1, e2, e3] + [e4] == [e1, e2, e3, e4];
    CoveredReplay(cfg, RefInitial(map["u" := 6]), ops);
  }

  lemma RunOfFive(cfg: Config, e1: Event, e2: Event, e3: Event, e4: Event, e5: Event)
    ensures var s3 := Step(cfg, Step(cfg, Step(cfg, Initial(map[]), e1), e2), e3);
            Run(cfg, map[], [e1, e2, e3, e4, e5]) == Step(cfg, Step(cfg, s3, e4), e5)
  {
    hide Run, Step;
    EmptyRun(cfg, map[]);
    RunSnoc(cfg, map[], [], e1);
    RunSnoc(cfg, map[], [e1], e2);
    RunSnoc(cfg, map[], [e1, e2], e3);
    RunSnoc(cfg, map[], [e1, e2, e3], e4);
    RunSnoc(cfg, map[], [e1, e2, e3, e4], e5);
    assert [] + [e1] == [e1] && [e1] + [e2] == [e1, e2] && [e1, e2] + [e3] == [e1, e2, e3];
    assert [e1, e2, e3] + [e4] == [e1, e2, e3, e4] && [e1, e2, e3, e4] + [e5] == [e1, e2, e3, e4, e5];
  }

  lemma EmptyRun(cfg: Config, start: GtidMap)
    ensures Run(cfg, start, []) == Initial(start)
  {
  }

  lemma BeginAndXid(cfg: Config, e2: Event, e3: Event, s: Applier)
    requires e2 == Consume(Begin(0), ALL_OK) && e3 == Consume(Xid(0), ALL_OK)
    requires s.halt.Running? && s.state.GTID? && s.pending == 0 && !s.gtidSkip && s.tx.None? && |s.accepted| == 1
    requires s.lastAppliedTs == 0
    ensures Step(cfg, s, e2) == s.(state := BEGIN, tx := Some([]))
    ensures Step(cfg, s.(state := BEGIN, tx := Some([])), e3) == s.(state := XID, pending := 1, tx := Some([End(0)]))
  {
    assert [] + [End(0)] == [End(0)];
  }

  lemma FirstGtid(cfg: Config, ev: Event, t: Applier)
    requires ev == Consume(Gtid(0, "u", 1, 0), ALL_OK)
    requires t == Initial(map[]).(state := GTID, gtids := map["u" := 1], accepted := [Accepted("u", 1, 0)])
    ensures Step(cfg, Initial(map[]), ev) == t
  {
    assert map[]["u" := 1] == map["u" := 1];
  }

  lemma SecondGtid(cfg: Config, ev: Event, s: Applier, t: Applier)
    requires ev == Consume(Gtid(0, "u", 2, 0), ALL_OK) && cfg.maxCount != 1
    requires s.halt.Running? && s.state.XID? && s.pending == 1 && !s.gtidSkip && s.lastCommitted == 0
    requires s.lastAppliedTs == 0 && s.lastCheckpointTs == 0 && s.gtids == map["u" := 1]
    requires s.accepted == [Accepted("u", 1, 0)]
    requires t == s.(state := GTID, gtids := map["u" := 2], accepted := [Accepted("u", 1, 0), Accepted("u", 2, 0)])
    ensures Step(cfg, s, ev) == t
  {
    hide MergeCommit;
    assert map["u" := 1]["u" := 2] == map["u" := 2];
    assert [Accepted("u", 1, 0)] + [Accepted("u", 2, 0)] == [Accepted("u", 1, 0), Accepted("u", 2, 0)];
    DelayNeverTriggers(cfg, s);
  }

  lemma DdlFails(cfg: Config, ev: Event, s: Applier)
    requires ev.Consume? && ev.env == ALL_OK.(exec := ExecFails) && ev.op.DdlTable? && StmtDue(cfg, ev.op).Due?
    requires s.halt.Running? && s.state.GTID? && s.pending == 1 && !s.gtidSkip && s.tx == Some([End(0)])
    requires s.committed == []
    ensures var t := Step(cfg, s, ev);
            t.halt.SqlError? && Flat(t.committed) == [End(0)] && t.persisted == Some(Persisted(s.gtids, |s.accepted|))
  {
    hide StmtDue;
    FlatAppend([], DestCommit(true, s.lastCommitted, [End(0)]));
  }
}
