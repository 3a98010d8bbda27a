/** The applier's promises, for every run under every answer of SQL and Consul. */
module ApplierTheorems {
  import opened Prelude
  import opened Operations
  import opened Applier
  import opened ApplierInvariants
  import opened ApplierSteps

  /** What the operations consumed so far are due to do. */
  function DueOf(cfg: Config, start: GtidMap, trace: seq<Event>): Ref
  {
    RefRun(cfg, RefInitial(start), Consumed(cfg, start, trace))
  }

  // ----- conservation and atomicity

  ghost predicate SharesTrx(a: seq<Entry>, b: seq<Entry>)
  {
    exists e, f :: e in a && f in b && e.trx == f.trx
  }

  /** While running nothing is lost, duplicated or reordered; after a halt the commits are a
      prefix of what was due. */
  lemma Conservation(cfg: Config, start: GtidMap, trace: seq<Event>)
    ensures var s := Run(cfg, start, trace); var r := DueOf(cfg, start, trace);
            && Flat(s.committed) <= r.due
            && (s.halt.Running? ==> Flat(s.committed) + s.Open() == r.due && s.gtids == r.gtids)
  {
    EveryRunKeeps(cfg, start, trace);
  }

  /** A source DML transaction is in one destination commit, complete, or in none. */
  lemma Atomicity(cfg: Config, start: GtidMap, trace: seq<Event>, i: nat)
    requires i < |Run(cfg, start, trace).committed| && Run(cfg, start, trace).committed[i].merged
    ensures var s := Run(cfg, start, trace); var c := s.committed[i];
            && (forall e :: e in c.entries ==> End(e.trx) in c.entries)
            && (forall j :: 0 <= j < |s.committed| && j != i ==> !SharesTrx(c.entries, s.committed[j].entries))
            && (s.halt.Running? ==> !SharesTrx(c.entries, s.Open()))
  {
    EveryRunKeeps(cfg, start, trace);
    var s := Run(cfg, start, trace);
    hide Run;
    assert CommitsOk(s.accepted, s.committed);
    assert CommitFine(s.accepted, s.committed[i]);
  }

  // ----- lifecycle

  /** The client's own transaction errors never happen, and a SQL transaction is open exactly
      inside a source transaction or while commits are pending. */
  lemma TransactionLifecycle(cfg: Config, start: GtidMap, trace: seq<Event>)
    ensures var s := Run(cfg, start, trace);
            && !s.halt.TxExists? && !s.halt.TxMissing?
            && (s.halt.Running? ==> (s.tx.Some? <==> InTransaction(s.state) || s.pending >= 1))
  {
    EveryRunKeeps(cfg, start, trace);
  }

  // ----- merge groups

  /** A merged commit holds source transactions of one LastCommitted value only, and never more
      of them are pending than the configured maximum. */
  lemma MergeGroups(cfg: Config, start: GtidMap, trace: seq<Event>)
    ensures var s := Run(cfg, start, trace);
            && (forall i, e :: 0 <= i < |s.committed| && s.committed[i].merged && e in s.committed[i].entries ==>
                  e.trx < |s.accepted| && s.accepted[e.trx].lastCommitted == s.committed[i].group)
            && (s.halt.Running? ==> s.pending == CountEnds(s.Open()))
            && (s.halt.Running? && cfg.maxCount >= 1 ==> s.pending <= cfg.maxCount)
  {
    EveryRunKeeps(cfg, start, trace);
    var s := Run(cfg, start, trace);
    hide Run;
    forall i, e | 0 <= i < |s.committed| && s.committed[i].merged && e in s.committed[i].entries
      ensures e.trx < |s.accepted| && s.accepted[e.trx].lastCommitted == s.committed[i].group
    {
      assert CommitFine(s.accepted, s.committed[i]);
    }
  }

  /** The delay threshold never triggers a commit: when a GTID arrives, the two timestamps have
      just been made equal, so only the count decides. */
  lemma DelayNeverTriggers(cfg: Config, s: Applier)
    ensures ForceMergeCommit(cfg, s.(lastCheckpointTs := s.lastAppliedTs))
            <==> cfg.maxCount >= 1 && s.pending >= cfg.maxCount
  {
    assert (s.lastAppliedTs - s.lastAppliedTs) % TWO32 == 0;
  }

  lemma GtidIgnoresDelay(cfg: Config, d: nat, s: Applier, op: Operation, env: Env)
    requires op.Gtid?
    ensures OnGtidOperation(cfg, s, op, env) == OnGtidOperation(cfg.(maxDelay := d), s, op, env)
  {
    hide ForceMergeCommit, MergeCommit, OnGtid;
    DelayNeverTriggers(cfg, s);
    DelayNeverTriggers(cfg.(maxDelay := d), s);
  }

  lemma StepIgnoresDelay(cfg: Config, d: nat, s: Applier, ev: Event)
    ensures Step(cfg, s, ev) == Step(cfg.(maxDelay := d), s, ev)
  {
    hide OnGtidOperation, OnNonDml, OnDml, OnBegin, OnXid, OnHeartbeat;
    if ev.Consume? {
      var at := if s.gtidSkip then s.(state := NULL) else s;
      if ev.op.Gtid? { GtidIgnoresDelay(cfg, d, at, ev.op, ev.env); }
      assert StmtDue(cfg, ev.op) == StmtDue(cfg.(maxDelay := d), ev.op);
    }
  }

  /** The configured delay has no effect on any run. */
  lemma {:induction false} DelayHasNoEffect(cfg: Config, d: nat, start: GtidMap, trace: seq<Event>)
    ensures Run(cfg, start, trace) == Run(cfg.(maxDelay := d), start, trace)
  {
    if trace != [] {
      hide Step;
      var before := trace[..|trace| - 1];
      DelayHasNoEffect(cfg, d, start, before);
      StepIgnoresDelay(cfg, d, Run(cfg, start, before), trace[|trace| - 1]);
    }
  }

  // ----- accepted ids

  /** A transaction of a known server that the map covers was accepted. */
  lemma {:induction false} CoveredWasAccepted(start: GtidMap, accepted: seq<Accepted>, uuid: string, id: nat)
    returns (k: nat)
    requires Consecutive(start, accepted) && uuid in start
    requires uuid in MapAfter(start, accepted) && start[uuid] < id <= MapAfter(start, accepted)[uuid]
    ensures k < |accepted| && accepted[k].uuid == uuid && accepted[k].trx == id
  {
    var n := |accepted| - 1;
    var a := accepted[n];
    assert NextAfter(MapAfter(start, accepted[..n]), a);
    if a.uuid == uuid && a.trx == id {
      k := n;
    } else {
      forall j | 0 <= j < n
        ensures NextAfter(MapAfter(start, accepted[..n][..j]), accepted[..n][j])
      {
        assert accepted[..n][..j] == accepted[..j];
      }
      KnownStays(start, accepted[..n], uuid);
      k := CoveredWasAccepted(start, accepted[..n], uuid, id);
    }
  }

  lemma {:induction false} KnownStays(start: GtidMap, accepted: seq<Accepted>, uuid: string)
    requires uuid in start
    ensures uuid in MapAfter(start, accepted)
  {
    if accepted != [] { KnownStays(start, accepted[..|accepted| - 1], uuid); }
  }

  /** Ids accepted from one server grow by one at a time, so none is accepted twice. */
  lemma {:induction false} AcceptedInOrder(start: GtidMap, accepted: seq<Accepted>, i: nat, j: nat)
    requires Consecutive(start, accepted) && i < j < |accepted| && accepted[i].uuid == accepted[j].uuid
    ensures accepted[i].trx < accepted[j].trx
  {
    LastKnown(start, accepted, i, j);
    assert NextAfter(MapAfter(start, accepted[..j]), accepted[j]);
  }

  /** From acceptance on, the map's entry for that server is at least the accepted id. */
  lemma {:induction false} LastKnown(start: GtidMap, accepted: seq<Accepted>, i: nat, j: nat)
    requires Consecutive(start, accepted) && i < j <= |accepted|
    ensures var m := MapAfter(start, accepted[..j]);
            accepted[i].uuid in m && m[accepted[i].uuid] >= accepted[i].trx
  {
    var last := accepted[j - 1];
    assert accepted[..j][..j - 1] == accepted[..j - 1];
    if i < j - 1 {
      LastKnown(start, accepted, i, j - 1);
      assert NextAfter(MapAfter(start, accepted[..j - 1]), last);
    }
  }

  lemma ExactlyOneAcceptance(cfg: Config, start: GtidMap, trace: seq<Event>, i: nat, j: nat)
    requires var a := Run(cfg, start, trace).accepted;
             i < |a| && j < |a| && a[i].uuid == a[j].uuid && a[i].trx == a[j].trx
    ensures i == j
  {
    EveryRunKeeps(cfg, start, trace);
    var a := Run(cfg, start, trace).accepted;
    if i < j { AcceptedInOrder(start, a, i, j); } else if j < i { AcceptedInOrder(start, a, j, i); }
  }

  // ----- checkpoints

  /** No DDL or DCL transaction joins the commit group of the transaction before it. */
  ghost predicate NonDmlChangesGroup(cfg: Config, start: GtidMap, ops: seq<Operation>)
  {
    forall i :: 0 <= i < |ops| && ops[i].IsNonDml() ==>
      var r := RefRun(cfg, RefInitial(start), ops[..i]);
      r.skip || !SameGroupAsPrevious(r.accepted)
  }

  /** The persisted map is the map after some number of accepted transactions. It never covers a
      transaction that is not settled, except possibly one DDL/DCL transaction that shares its
      commit group with the transaction before it. */
  lemma CheckpointSafety(cfg: Config, start: GtidMap, trace: seq<Event>)
    ensures var s := Run(cfg, start, trace); var r := DueOf(cfg, start, trace);
            s.persisted.Some? ==>
              var n := s.persisted.value.at;
              && n <= |s.accepted| && s.persisted.value.gtids == MapAfter(start, s.accepted[..n])
              && (if n <= r.Finished() then Settled(s.committed, r.due, n)
                  else Hazard(s) && Settled(s.committed, r.due, n - 1))
  {
    EveryRunKeeps(cfg, start, trace);
    var s := Run(cfg, start, trace);
    var r := DueOf(cfg, start, trace);
    hide Run, RefRun, Consumed;
    if s.halt.Running? && s.persisted.Some? { SettledNow(s, r); }
  }

  lemma RunConsecutive(cfg: Config, start: GtidMap, trace: seq<Event>)
    ensures Consecutive(start, Run(cfg, start, trace).accepted)
  {
    EveryRunKeeps(cfg, start, trace);
  }

  /** Every transaction of an initially known server that the persisted map covers was accepted, and
      everything due for it is committed, unless it is the last one covered and still unfinished. */
  lemma CoveredIsCommitted(cfg: Config, start: GtidMap, trace: seq<Event>, uuid: string, id: nat) returns (k: nat)
    requires var s := Run(cfg, start, trace);
             && s.persisted.Some? && uuid in start && uuid in s.persisted.value.gtids
             && start[uuid] < id <= s.persisted.value.gtids[uuid]
    ensures var s := Run(cfg, start, trace); var r := DueOf(cfg, start, trace);
            && k < s.persisted.value.at <= |s.accepted| && s.accepted[k].uuid == uuid && s.accepted[k].trx == id
            && (s.persisted.value.at <= r.Finished() || k < s.persisted.value.at - 1 ==>
                  forall e :: e in r.due && e.trx == k ==> e in Flat(s.committed))
  {
    hide Run, RefRun, Consumed;
    CheckpointSafety(cfg, start, trace);
    RunConsecutive(cfg, start, trace);
    var s := Run(cfg, start, trace);
    var n := s.persisted.value.at;
    forall j | 0 <= j < n ensures NextAfter(MapAfter(start, s.accepted[..n][..j]), s.accepted[..n][j]) {
      assert s.accepted[..n][..j] == s.accepted[..j];
    }
    k := CoveredWasAccepted(start, s.accepted[..n], uuid, id);
  }

  /** A merged commit may persist the map as it is then; the DDL statement itself does not. */
  lemma MergePersists(s: Applier, env: Env)
    ensures var c := MergeCommit(s, env);
            c.persisted == s.persisted || (s.pending >= 1 && c.persisted == Some(Persisted(s.gtids, |s.accepted|)))
    ensures var c := MergeCommit(s, env);
            c.gtids == s.gtids && c.accepted == s.accepted && (s.halt.Running? ==> !Refused(c.halt))
  {
    SqlCommitKeeps(s, env.mergeCommit);
    hide SqlCommit;
  }

  lemma SqlCommitKeeps(s: Applier, answer: CommitAnswer)
    ensures var c := SqlCommit(s, answer, true);
            && c.persisted == s.persisted && c.gtids == s.gtids && c.accepted == s.accepted
            && (s.halt.Running? ==> !Refused(c.halt))
  {
  }

  lemma NonDmlKeepsPersisted(s: Applier, schemaContext: string, stmt: Stmt, env: Env)
    ensures var e := ExecuteOnNonDml(s, schemaContext, stmt, env);
            e.persisted == s.persisted && (s.halt.Running? ==> !Refused(e.halt))
  {
  }

  lemma GtidPersists(s: Applier, op: Operation, env: Env)
    requires op.Gtid?
    ensures var t := OnGtid(s, op, env);
            && (t.persisted == s.persisted || t.persisted == Some(Persisted(s.gtids, |s.accepted|)))
            && (s.halt.Running? ==> !Refused(t.halt))
  {
    hide MergeCommit, Skipped, Missed;
    MergePersists(s.(gtidSkip := false), env);
  }

  lemma GtidOperationPersists(cfg: Config, s: Applier, op: Operation, env: Env)
    requires op.Gtid? && s.halt.Running?
    ensures var t := OnGtidOperation(cfg, s, op, env);
            t.persisted == s.persisted || (!Refused(t.halt) && t.persisted == Some(Persisted(s.gtids, |s.accepted|)))
  {
    hide MergeCommit, OnGtid, ForceMergeCommit;
    var s1 := s.(lastCheckpointTs := s.lastAppliedTs);
    MergePersists(s1, env);
    GtidPersists(s1, op, env);
    GtidPersists(Checkpoint(s1, env), op, env);
    GtidPersists(MergeCommit(s1, env), op, env);
  }

  lemma NonDmlPersists(s: Applier, op: Operation, due: DueStmt, env: Env)
    requires op.IsNonDml() && s.halt.Running? && GroupOk(s) && !s.gtidSkip && (NonDmlState(s.state) ==> s.pending == 0)
    ensures var t := OnNonDml(s, op, due, env);
            || t.persisted == s.persisted
            || (&& !Refused(t.halt) && t.persisted == Some(Persisted(s.gtids, |s.accepted|))
                && SameGroupAsPrevious(s.accepted))
  {
    hide MergeCommit, ExecuteOnNonDml;
    MergePersists(s, env);
    if due.Due? { NonDmlKeepsPersisted(MergeCommit(s, env), SchemaOf(op), due.stmt, env); }
  }

  /** A map is persisted only as it is before the operation, and only by a GTID, by a heartbeat,
      or by a DDL/DCL operation whose transaction shares the group of the one before it. */
  lemma WhenPersisted(cfg: Config, s: Applier, op: Operation, due: DueStmt, env: Env)
    requires s.halt.Running? && Lifecycle(cfg, s) && GroupOk(s)
    ensures var t := ProcessDue(cfg, s, op, due, env);
            || t.persisted == s.persisted
            || (&& !Refused(t.halt) && t.persisted == Some(Persisted(s.gtids, |s.accepted|))
                && (|| op.Gtid?
                    || (op.Heartbeat? && !s.gtidSkip)
                    || (op.IsNonDml() && !s.gtidSkip && SameGroupAsPrevious(s.accepted))))
  {
    hide OnGtidOperation, OnNonDml, MergeCommit;
    if op.Gtid? { GtidOperationPersists(cfg, if s.gtidSkip then s.(state := NULL) else s, op, env); }
    else if op.IsNonDml() { if !s.gtidSkip { NonDmlPersists(s, op, due, env); } }
    else if op.Heartbeat? { MergePersists(s.(lastCheckpointTs := s.lastAppliedTs), env); }
  }

  /** The persisted map covers finished transactions only. */
  predicate NotAhead(s: Applier, r: Ref) { s.persisted.Some? ==> s.persisted.value.at <= r.Finished() }

  lemma NotAheadStep(cfg: Config, start: GtidMap, s: Applier, r: Ref, op: Operation, due: DueStmt, env: Env)
    requires Inv(cfg, start, s, r) && s.halt.Running? && NotAhead(s, r)
    requires op.IsNonDml() ==> r.skip || !SameGroupAsPrevious(r.accepted)
    ensures var t := ProcessDue(cfg, s, op, due, env); NotAhead(t, RefNext(r, op, due, t))
  {
    WhenPersisted(cfg, s, op, due, env);
    hide CommitsOk, Flat, OpenOk, StructureOk, CheckpointOk, MapsOk, PersistedOk, ProcessDue;
  }

  /** If every DDL/DCL transaction changes LastCommitted, a checkpoint never runs ahead: all it
      covers is finished and committed. */
  lemma {:induction false} CheckpointNeverAhead(cfg: Config, start: GtidMap, trace: seq<Event>)
    requires NonDmlChangesGroup(cfg, start, Consumed(cfg, start, trace))
    ensures var s := Run(cfg, start, trace); var r := DueOf(cfg, start, trace);
            s.persisted.Some? ==>
              s.persisted.value.at <= r.Finished() && Settled(s.committed, r.due, s.persisted.value.at)
  {
    CheckpointSafety(cfg, start, trace);
    NotAheadRun(cfg, start, trace);
  }

  lemma {:induction false} NotAheadRun(cfg: Config, start: GtidMap, trace: seq<Event>)
    requires NonDmlChangesGroup(cfg, start, Consumed(cfg, start, trace))
    ensures NotAhead(Run(cfg, start, trace), DueOf(cfg, start, trace))
  {
    hide StmtDue, ProcessDue, Inv;
    if trace != [] {
      var before := trace[..|trace| - 1];
      var last := trace[|trace| - 1];
      var ops := Consumed(cfg, start, trace);
      var ops0 := Consumed(cfg, start, before);
      var s := Run(cfg, start, before);
      assert ops0 <= ops;
      forall i | 0 <= i < |ops0| && ops0[i].IsNonDml()
        ensures var r := RefRun(cfg, RefInitial(start), ops0[..i]); r.skip || !SameGroupAsPrevious(r.accepted)
      {
        assert ops[..i] == ops0[..i];
      }
      NotAheadRun(cfg, start, before);
      if s.halt.Running? && last.Consume? {
        EveryRunKeeps(cfg, start, before);
        var r := DueOf(cfg, start, before);
        if !Refused(Run(cfg, start, trace).halt) {
          assert ops[..|ops0|] == ops0 && ops[|ops0|] == last.op;
          NotAheadStep(cfg, start, s, r, last.op, StmtDue(cfg, last.op), last.env);
        } else {
          RefusedKeepsPersisted(cfg, start, s, r, last);
        }
      }
    }
  }

  lemma RefusedKeepsPersisted(cfg: Config, start: GtidMap, s: Applier, r: Ref, ev: Event)
    requires Inv(cfg, start, s, r) && s.halt.Running? && ev.Consume? && Refused(Step(cfg, s, ev).halt)
    ensures Step(cfg, s, ev).persisted == s.persisted
  {
    hide StmtDue, ProcessDue;
    WhenPersisted(cfg, s, ev.op, StmtDue(cfg, ev.op), ev.env);
  }

  /** A DDL/DCL operation that arrives while commits are pending is checkpointed before it runs. */
  lemma EarlyCheckpoint(cfg: Config, start: GtidMap, trace: seq<Event>, op: Operation, env: Env)
    requires var s := Run(cfg, start, trace);
             && s.halt.Running? && !s.gtidSkip && op.IsNonDml() && NonDmlAllowed(s.state, op)
             && NotAhead(s, DueOf(cfg, start, trace))
    requires env.mergeCommit.CommitOk?
    ensures var s := Run(cfg, start, trace); var m := MergeCommit(s, env);
            (m.persisted.Some? && m.persisted.value.at == |m.accepted|) <==> (s.pending >= 1 && env.consulOk)
  {
    hide Run, RefRun, Consumed;
    EveryRunKeeps(cfg, start, trace);
  }
}
