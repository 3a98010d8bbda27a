/** Every step of the applier keeps the invariant of ApplierInvariants. */
module ApplierSteps {
  import opened Prelude
  import opened Operations
  import opened Applier
  import opened ApplierInvariants

  /** `r'` is `r` after at most one more operation; a new entry belongs to the current transaction. */
  ghost predicate Follows(r: Ref, r': Ref)
  {
    && r.accepted <= r'.accepted && r.Finished() <= r'.Finished() && r.due <= r'.due
    && (forall e :: e in r'.due[|r.due|..] ==> e.trx >= r.Finished())
    && (r'.due == r.due || r'.Finished() == r.Finished())
  }

  // ----- halting

  /** Whatever is due and persisted as done is in a destination commit. */
  lemma SettledNow(s: Applier, r: Ref)
    requires CheckpointOk(s, r) && Conserved(s, r) && s.persisted.Some?
    ensures Settled(s.committed, r.due, s.persisted.value.at)
  {
    var n := s.persisted.value.at;
    assert forall e :: e in s.Open() ==> n <= e.trx;
  }

  /** Stopping without having changed the histories, or right after the open entries were
      committed; `r'` may already count the failing operation. */
  lemma HaltKeeps(start: GtidMap, s: Applier, t: Applier, r: Ref, r': Ref)
    requires Core(start, s, r) && Follows(r, r')
    requires !t.halt.Running? && !t.halt.TxExists? && !t.halt.TxMissing?
    requires t.accepted == s.accepted && t.gtids == s.gtids && t.persisted == s.persisted
    requires t.state == s.state && t.gtidSkip == s.gtidSkip
    requires CommitsOk(t.accepted, t.committed)
    requires Flat(t.committed) == Flat(s.committed) || Flat(t.committed) == r.due
    ensures HaltedOk(start, t, r')
  {
    hide CommitsOk, MapsOk, PersistedOk, Flat;
    if s.persisted.Some? { SettledNow(s, r); }
  }

  // ----- merged commits

  /** The state after a merged commit that did not fail. */
  ghost predicate Merged(start: GtidMap, s: Applier, c: Applier, env: Env, r: Ref)
  {
    && c == s.(pending := 0, tx := None, committed := c.committed, persisted := c.persisted)
    && c.persisted == (if s.pending >= 1 && env.consulOk then Some(Persisted(s.gtids, |s.accepted|)) else s.persisted)
    && c.committed == s.committed + (if s.pending >= 1 then [DestCommit(true, s.lastCommitted, s.Open())] else [])
    && CommitsOk(c.accepted, c.committed) && Flat(c.committed) == r.due
    && PersistedOk(start, c.accepted, c.persisted)
  }

  lemma CommitOpenGroup(start: GtidMap, s: Applier, r: Ref)
    requires Between(start, s, r)
    ensures var commits := s.committed + [DestCommit(true, s.lastCommitted, s.Open())];
            CommitsOk(s.accepted, commits) && Flat(commits) == r.due
    ensures PersistedOk(start, s.accepted, Some(Persisted(s.gtids, |s.accepted|)))
  {
    hide CommitsOk, Whole, AllBelow, Flat, Consecutive, CheckpointOk;
    assert s.accepted[..|s.accepted|] == s.accepted;
    FlatAppend(s.committed, DestCommit(true, s.lastCommitted, s.Open()));
    AppendMerged(s.accepted, s.committed, s.Open(), s.lastCommitted);
  }

  /** What a merged commit does to the state, whatever the state means. */
  lemma MergeEffect(s: Applier, env: Env)
    requires s.halt.Running? && (s.tx.Some? <==> s.pending >= 1)
    ensures var c := MergeCommit(s, env);
            var all := s.committed + [DestCommit(true, s.lastCommitted, s.Open())];
            if s.pending == 0 then c == s
            else if c.halt.Running? then
              c == s.(pending := 0, tx := None, committed := all,
                      persisted := if env.consulOk then Some(Persisted(s.gtids, |s.accepted|)) else s.persisted)
            else
              c == s.(committed := c.committed, halt := SqlError) && (c.committed == s.committed || c.committed == all)
  {
  }

  lemma MergeHalts(start: GtidMap, s: Applier, c: Applier, r: Ref, r': Ref)
    requires Between(start, s, r) && Follows(r, r')
    requires c == s.(committed := c.committed, halt := SqlError)
    requires c.committed == s.committed || c.committed == s.committed + [DestCommit(true, s.lastCommitted, s.Open())]
    ensures HaltedOk(start, c, r')
  {
    CommitOpenGroup(start, s, r);
    assert Core(start, s, r) && CommitsOk(s.accepted, s.committed);
    hide *;
    HaltKeeps(start, s, c, r, r');
  }

  lemma MergeRuns(start: GtidMap, s: Applier, c: Applier, env: Env, r: Ref)
    requires Between(start, s, r) && s.pending >= 1
    requires c == s.(pending := 0, tx := None,
                     committed := s.committed + [DestCommit(true, s.lastCommitted, s.Open())],
                     persisted := if env.consulOk then Some(Persisted(s.gtids, |s.accepted|)) else s.persisted)
    ensures Merged(start, s, c, env, r)
  {
    CommitOpenGroup(start, s, r);
    assert PersistedOk(start, s.accepted, s.persisted);
    hide CommitsOk, Flat, PersistedOk, Between;
  }

  lemma NothingToMerge(start: GtidMap, s: Applier, env: Env, r: Ref)
    requires Between(start, s, r) && s.pending == 0
    ensures Merged(start, s, s, env, r)
  {
    hide CommitsOk, OpenOk, Whole, AllBelow, Flat, MapsOk, PersistedOk, CheckpointOk;
    assert s.committed + [] == s.committed;
    assert Flat(s.committed) + s.Open() == Flat(s.committed);
  }

  /** MergeCommit outside a source transaction commits the whole open group, or halts safely. */
  lemma MergeCommitKeeps(start: GtidMap, s: Applier, env: Env, r: Ref, r': Ref)
    requires Between(start, s, r) && Follows(r, r')
    ensures var c := MergeCommit(s, env);
            if !c.halt.Running? then c.halt.SqlError? && HaltedOk(start, c, r') else Merged(start, s, c, env, r)
  {
    assert s.halt.Running? && (s.tx.Some? <==> s.pending >= 1);
    hide Between, Follows, HaltedOk, Merged, MergeCommit;
    MergeEffect(s, env);
    if s.pending == 0 {
      NothingToMerge(start, s, env, r);
    } else if MergeCommit(s, env).halt.Running? {
      MergeRuns(start, s, MergeCommit(s, env), env, r);
    } else {
      MergeHalts(start, s, MergeCommit(s, env), r, r');
    }
  }

  // ----- the operations

  /** The reference state after `op`, which does not count when the applier refused it. */
  function RefNext(r: Ref, op: Operation, due: DueStmt, after: Applier): Ref
  {
    if Refused(after.halt) then r else RefDue(r, op, due)
  }

  lemma XidKeeps(cfg: Config, start: GtidMap, s: Applier, r: Ref, op: Operation, due: DueStmt)
    requires Inv(cfg, start, s, r) && s.halt.Running? && !s.gtidSkip && op.Xid?
    ensures Kept(cfg, start, OnXid(s), RefNext(r, op, due, OnXid(s)))
  {
    hide CommitsOk, OpenOk, Whole, AllBelow, CommitsBelowTrx, MergedBelowTrx, MapsOk, PersistedOk, HaltedOk, Flat;
    var t := OnXid(s);
    if !t.halt.Running? {
      HaltKeeps(start, s, t, r, r);
    } else {
      AddEntry(s.accepted, s.committed, s.Open(), s.lastCommitted, s.pending, End(s.Current()));
      assert Flat(s.committed) + (s.Open() + [End(s.Current())]) == r.due + [End(s.Current())];
    }
  }

  lemma DmlHalts(cfg: Config, start: GtidMap, s: Applier, r: Ref, op: Operation, due: DueStmt, env: Env)
    requires Inv(cfg, start, s, r) && s.halt.Running? && !s.gtidSkip && op.IsDml() && !OnDml(s, due, env).halt.Running?
    ensures var t := OnDml(s, due, env); HaltedOk(start, t, RefNext(r, op, due, t))
  {
    hide CommitsOk, OpenOk, Whole, AllBelow, CommitsBelowTrx, MergedBelowTrx, MapsOk, PersistedOk, HaltedOk, Flat;
    hide GroupOk, CheckpointOk;
    var t := OnDml(s, due, env);
    HaltKeeps(start, s, t, r, RefNext(r, op, due, t));
  }

  lemma DmlIgnored(cfg: Config, start: GtidMap, s: Applier, r: Ref)
    requires Inv(cfg, start, s, r) && s.halt.Running? && InTransaction(s.state)
    ensures Inv(cfg, start, s.(state := DML), r)
  {
    hide CommitsOk, OpenOk, Whole, AllBelow, CommitsBelowTrx, MergedBelowTrx, MapsOk, PersistedOk, Flat, FromTrx;
  }

  lemma DmlEntered(cfg: Config, start: GtidMap, s: Applier, r: Ref, e: Entry)
    requires Inv(cfg, start, s, r) && s.halt.Running? && InTransaction(s.state) && e.Exec? && e.trx == s.Current()
    ensures Inv(cfg, start, s.(state := DML, tx := Some(s.Open() + [e])), r.(due := r.due + [e]))
  {
    hide CommitsOk, OpenOk, Whole, AllBelow, CommitsBelowTrx, MergedBelowTrx, MapsOk, PersistedOk, Flat;
    AddEntry(s.accepted, s.committed, s.Open(), s.lastCommitted, s.pending, e);
    assert Flat(s.committed) + (s.Open() + [e]) == r.due + [e];
  }

  lemma DmlExecuted(cfg: Config, start: GtidMap, s: Applier, r: Ref, op: Operation, due: DueStmt, env: Env)
    requires Inv(cfg, start, s, r) && s.halt.Running? && !s.gtidSkip && op.IsDml() && OnDml(s, due, env).halt.Running?
    ensures Inv(cfg, start, OnDml(s, due, env), RefDue(r, op, due))
  {
    assert r.skip == s.gtidSkip && r.Current() == s.Current() && (InTransaction(s.state) ==> s.tx.Some?);
    hide Inv;
    if due.Due? {
      DmlEntered(cfg, start, s, r, Exec(s.Current(), due.stmt));
    } else {
      DmlIgnored(cfg, start, s, r);
    }
  }

  lemma DmlKeeps(cfg: Config, start: GtidMap, s: Applier, r: Ref, op: Operation, due: DueStmt, env: Env)
    requires Inv(cfg, start, s, r) && s.halt.Running? && !s.gtidSkip && op.IsDml()
    ensures var t := OnDml(s, due, env); Kept(cfg, start, t, RefNext(r, op, due, t))
  {
    hide Inv, HaltedOk, OnDml, RefDue;
    if OnDml(s, due, env).halt.Running? {
      DmlExecuted(cfg, start, s, r, op, due, env);
    } else {
      DmlHalts(cfg, start, s, r, op, due, env);
    }
  }

  lemma WholeWeaken(entries: seq<Entry>, current: nat)
    requires Whole(entries, -1)
    ensures Whole(entries, current)
  {
  }

  lemma BeginKeeps(cfg: Config, start: GtidMap, s: Applier, r: Ref, op: Operation, due: DueStmt, env: Env)
    requires Inv(cfg, start, s, r) && s.halt.Running? && !s.gtidSkip && op.Begin?
    ensures var t := OnBegin(s, env); Kept(cfg, start, t, RefNext(r, op, due, t))
  {
    hide CommitsOk, OpenOk, Whole, AllBelow, CommitsBelowTrx, MergedBelowTrx, MapsOk, PersistedOk, HaltedOk, FromTrx,
         Flat;
    var t := OnBegin(s, env);
    if !t.halt.Running? { HaltKeeps(start, s, t, r, r); }
    else { WholeWeaken(s.Open(), s.Current()); }
  }

  lemma EmptyOpen(accepted: seq<Accepted>, commits: seq<DestCommit>, group: int)
    ensures OpenOk(accepted, [], group, 0) && AllBelow(commits, []) && Whole([], -1)
    ensures forall n: nat :: FromTrx([], n) && BelowTrx([], n)
    ensures Flat(commits) + [] == Flat(commits)
  {
  }

  // ----- heartbeats

  /** Nothing pending, nothing open: the heartbeat leaves the applier at rest. */
  lemma RestKeeps(cfg: Config, start: GtidMap, t: Applier, r: Ref)
    requires t.halt.Running? && t.state.NULL? && t.pending == 0 && t.tx.None? && !t.gtidSkip && !r.open && !r.skip
    requires CommitsOk(t.accepted, t.committed) && t.gtids == r.gtids && t.accepted == r.accepted
    requires Flat(t.committed) == r.due
    requires MapsOk(start, t.gtids, t.accepted) && PersistedOk(start, t.accepted, t.persisted)
    requires t.accepted != [] ==> t.lastCommitted == t.accepted[|t.accepted| - 1].lastCommitted
    ensures Inv(cfg, start, t, r)
  {
    hide CommitsOk, MapsOk, Flat, OpenOk, Whole, AllBelow, CommitsBelowTrx, MergedBelowTrx, FromTrx;
    EmptyOpen(t.accepted, t.committed, t.lastCommitted);
  }

  lemma HeartbeatMerges(cfg: Config, start: GtidMap, s: Applier, r: Ref, env: Env)
    requires Inv(cfg, start, s, r) && s.halt.Running? && !s.gtidSkip && s.state.XID?
    ensures Kept(cfg, start, OnHeartbeat(s, env), r.(open := false))
  {
    hide CommitsOk, OpenOk, Whole, AllBelow, CommitsBelowTrx, MergedBelowTrx, Consecutive, HaltedOk, FromTrx, Flat;
    hide MergeCommit, Inv;
    assert Between(start, s, r) && !r.open && !r.skip by { XidIsBetween(cfg, start, s, r); }
    var s1 := s.(lastCheckpointTs := s.lastAppliedTs);
    MergeCommitKeeps(start, s1, env, r, r.(open := false));
    if OnHeartbeat(s, env).halt.Running? { RestKeeps(cfg, start, OnHeartbeat(s, env), r.(open := false)); }
  }

  lemma XidIsBetween(cfg: Config, start: GtidMap, s: Applier, r: Ref)
    requires Inv(cfg, start, s, r) && s.halt.Running? && !s.gtidSkip && s.state.XID?
    ensures Between(start, s, r) && !r.open && !r.skip
  {
    hide CommitsOk, OpenOk, Whole, AllBelow, MapsOk, PersistedOk, Flat, FromTrx;
  }

  lemma HeartbeatRests(cfg: Config, start: GtidMap, s: Applier, r: Ref, env: Env)
    requires Inv(cfg, start, s, r) && s.halt.Running? && !s.gtidSkip && (s.state.NULL? || NonDmlState(s.state))
    ensures Kept(cfg, start, OnHeartbeat(s, env), r.(open := false))
  {
    hide CommitsOk, OpenOk, Whole, AllBelow, CommitsBelowTrx, MergedBelowTrx, Consecutive, HaltedOk, FromTrx, Flat;
    assert s.accepted[..|s.accepted|] == s.accepted;
    EmptyOpen(s.accepted, s.committed, s.lastCommitted);
    RestKeeps(cfg, start, OnHeartbeat(s, env), r.(open := false));
  }

  lemma HeartbeatRefused(cfg: Config, start: GtidMap, s: Applier, r: Ref, env: Env)
    requires Inv(cfg, start, s, r) && s.halt.Running? && OnHeartbeat(s, env).halt.StateError?
    requires !s.state.XID? && !s.state.NULL? && !NonDmlState(s.state)
    ensures HaltedOk(start, OnHeartbeat(s, env), r)
  {
    hide CommitsOk, OpenOk, Whole, AllBelow, CommitsBelowTrx, MergedBelowTrx, MapsOk, PersistedOk, HaltedOk, Flat;
    hide GroupOk, CheckpointOk;
    HaltKeeps(start, s, OnHeartbeat(s, env), r, r);
  }

  lemma HeartbeatKeeps(cfg: Config, start: GtidMap, s: Applier, r: Ref, op: Operation, due: DueStmt, env: Env)
    requires Inv(cfg, start, s, r) && s.halt.Running? && !s.gtidSkip && op.Heartbeat?
    ensures var t := OnHeartbeat(s, env); Kept(cfg, start, t, RefNext(r, op, due, t))
  {
    HeartbeatRefusesOnly(s, env);
    assert r.skip == s.gtidSkip;
    hide Inv, HaltedOk, OnHeartbeat;
    if s.state.XID? {
      HeartbeatMerges(cfg, start, s, r, env);
    } else if s.state.NULL? || NonDmlState(s.state) {
      HeartbeatRests(cfg, start, s, r, env);
    } else {
      HeartbeatRefused(cfg, start, s, r, env);
    }
  }

  lemma HeartbeatRefusesOnly(s: Applier, env: Env)
    requires s.halt.Running?
    ensures var t := OnHeartbeat(s, env);
            Refused(t.halt) <==> !(s.state.XID? || s.state.NULL? || NonDmlState(s.state))
    ensures var t := OnHeartbeat(s, env); Refused(t.halt) ==> t.halt.StateError?
  {
  }

  // ----- DDL and DCL

  /** State after the merged commit that precedes a DDL or DCL statement. */
  ghost predicate AfterMerge(cfg: Config, start: GtidMap, s: Applier, m: Applier, r: Ref)
  {
    && Inv(cfg, start, s, r) && s.halt.Running? && (JustAccepted(s) || NonDmlState(s.state))
    && m == s.(pending := 0, tx := None, committed := m.committed, persisted := m.persisted)
    && (m.persisted == s.persisted || (s.pending >= 1 && m.persisted == Some(Persisted(s.gtids, |s.accepted|))))
    && CommitsOk(m.accepted, m.committed) && Flat(m.committed) == r.due
    && PersistedOk(start, m.accepted, m.persisted)
    && MergedBelowTrx(m.committed, s.Current())
  }

  lemma NonDmlMerged(cfg: Config, start: GtidMap, s: Applier, m: Applier, env: Env, r: Ref)
    requires Inv(cfg, start, s, r) && s.halt.Running? && (JustAccepted(s) || NonDmlState(s.state))
    requires Merged(start, s, m, env, r)
    ensures AfterMerge(cfg, start, s, m, r)
  {
    hide CommitsOk, OpenOk, Whole, AllBelow, MapsOk, PersistedOk, Flat;
    if s.pending >= 1 {
      AppendBelow(s.committed, DestCommit(true, s.lastCommitted, s.Open()), s.Current());
    } else {
      assert s.committed + [] == s.committed;
    }
  }

  lemma NonDmlFiltered(cfg: Config, start: GtidMap, s: Applier, m: Applier, r: Ref, op: Operation)
    requires AfterMerge(cfg, start, s, m, r) && op.IsNonDml()
    ensures Inv(cfg, start, m.(state := if op.DclUser? then DCL else DDL), r)
  {
    hide CommitsOk, OpenOk, Whole, AllBelow, CommitsBelowTrx, MergedBelowTrx, MapsOk, PersistedOk, FromTrx, Flat;
    EmptyOpen(s.accepted, m.committed, s.lastCommitted);
  }

  /** A DDL or DCL statement runs as a destination commit of its own, or the run halts. */
  lemma ExecuteOnNonDmlEffect(m: Applier, schemaContext: string, stmt: Stmt, env: Env)
    requires m.halt.Running? && m.tx.None?
    ensures var e := ExecuteOnNonDml(m, schemaContext, stmt, env);
            var one := m.committed + [DestCommit(false, m.lastCommitted, [Exec(m.Current(), stmt)])];
            if e.halt.Running? then e == m.(committed := one)
            else
              && e == m.(tx := e.tx, committed := e.committed, halt := SqlError)
              && (e.committed == m.committed || e.committed == one)
  {
  }

  lemma NonDmlHalts(cfg: Config, start: GtidMap, s: Applier, m: Applier, r: Ref, stmt: Stmt, e: Applier)
    requires AfterMerge(cfg, start, s, m, r) && !s.gtidSkip
    requires var one := [DestCommit(false, m.lastCommitted, [Exec(m.Current(), stmt)])];
             && e == m.(tx := e.tx, committed := e.committed, halt := SqlError)
             && (e.committed == m.committed || e.committed == m.committed + one)
             && CommitsOk(m.accepted, m.committed + one) && Flat(m.committed + one) == r.due + [Exec(m.Current(), stmt)]
    ensures HaltedOk(start, e, r.(due := r.due + [Exec(m.Current(), stmt)]))
  {
    hide CommitsOk, OpenOk, Whole, AllBelow, CommitsBelowTrx, MergedBelowTrx, MapsOk, PersistedOk, Flat;
    var due := r.due + [Exec(m.Current(), stmt)];
    assert Flat(e.committed) <= due;
    assert forall x :: x in due && x.trx < s.Current() ==> x in Flat(e.committed);
  }

  lemma NonDmlDone(cfg: Config, start: GtidMap, s: Applier, m: Applier, r: Ref, op: Operation, d: DestCommit)
    requires AfterMerge(cfg, start, s, m, r) && op.IsNonDml() && !s.gtidSkip
    requires CommitsOk(m.accepted, m.committed + [d]) && MergedBelowTrx(m.committed + [d], s.Current())
    requires Flat(m.committed + [d]) == r.due + d.entries
    ensures var t := m.(committed := m.committed + [d], state := if op.DclUser? then DCL else DDL);
            Inv(cfg, start, t, r.(due := r.due + d.entries))
  {
    hide CommitsOk, OpenOk, Whole, AllBelow, CommitsBelowTrx, MergedBelowTrx, MapsOk, PersistedOk, FromTrx, Flat;
    EmptyOpen(s.accepted, m.committed + [d], s.lastCommitted);
  }

  lemma AfterMergeFacts(cfg: Config, start: GtidMap, s: Applier, m: Applier, r: Ref)
    requires AfterMerge(cfg, start, s, m, r) && !s.gtidSkip
    ensures m.accepted != [] && m.Current() == s.Current() == |m.accepted| - 1 && m.halt.Running? && m.tx.None?
    ensures !r.skip
    ensures r.Current() == m.Current()
    ensures CommitsOk(m.accepted, m.committed) && Flat(m.committed) == r.due && MergedBelowTrx(m.committed, s.Current())
  {
    hide CommitsOk, OpenOk, Whole, AllBelow, CommitsBelowTrx, MergedBelowTrx, MapsOk, PersistedOk, Flat;
  }

  lemma NonDmlExecuted(cfg: Config, start: GtidMap, s: Applier, m: Applier, r: Ref, op: Operation, due: DueStmt,
                       env: Env)
    requires AfterMerge(cfg, start, s, m, r) && op.IsNonDml() && due.Due? && !s.gtidSkip
    ensures var e := ExecuteOnNonDml(m, SchemaOf(op), due.stmt, env);
            var t := if e.halt.Running? then e.(state := if op.DclUser? then DCL else DDL) else e;
            Kept(cfg, start, t, RefDue(r, op, due)) && !Refused(e.halt)
  {
    hide CommitsOk, MergedBelowTrx, Flat, ExecuteOnNonDml, AfterMerge, Inv, HaltedOk;
    AfterMergeFacts(cfg, start, s, m, r);
    var d := DestCommit(false, m.lastCommitted, [Exec(m.Current(), due.stmt)]);
    ExecuteOnNonDmlEffect(m, SchemaOf(op), due.stmt, env);
    FlatAppend(m.committed, d);
    AppendSingle(m.accepted, m.committed, m.lastCommitted, due.stmt);
    var e := ExecuteOnNonDml(m, SchemaOf(op), due.stmt, env);
    if e.halt.Running? {
      NonDmlDone(cfg, start, s, m, r, op, d);
    } else {
      NonDmlHalts(cfg, start, s, m, r, due.stmt, e);
    }
  }

  lemma NonDmlRefused(cfg: Config, start: GtidMap, s: Applier, r: Ref)
    requires Inv(cfg, start, s, r) && s.halt.Running?
    ensures HaltedOk(start, s.Fail(StateError), r)
  {
    hide CommitsOk, OpenOk, Whole, AllBelow, MapsOk, PersistedOk, HaltedOk, Flat, StructureOk, GroupOk, Lifecycle;
    HaltKeeps(start, s, s.Fail(StateError), r, r);
  }

  lemma NonDmlMayMerge(cfg: Config, start: GtidMap, s: Applier, r: Ref, op: Operation, due: DueStmt)
    requires Inv(cfg, start, s, r) && s.halt.Running? && !s.gtidSkip && op.IsNonDml() && NonDmlAllowed(s.state, op)
    ensures Between(start, s, r) && Follows(r, RefDue(r, op, due)) && (JustAccepted(s) || NonDmlState(s.state))
    ensures !r.skip
  {
    hide CommitsOk, OpenOk, Whole, AllBelow, MapsOk, PersistedOk, Flat, FromTrx, CommitsBelowTrx, MergedBelowTrx;
  }

  lemma NonDmlKeeps(cfg: Config, start: GtidMap, s: Applier, r: Ref, op: Operation, due: DueStmt, env: Env)
    requires Inv(cfg, start, s, r) && s.halt.Running? && !s.gtidSkip && op.IsNonDml()
    ensures var t := OnNonDml(s, op, due, env); Kept(cfg, start, t, RefNext(r, op, due, t))
  {
    hide Inv, HaltedOk, MergeCommit, ExecuteOnNonDml, Between, Follows, Merged, AfterMerge;
    if !NonDmlAllowed(s.state, op) {
      NonDmlRefused(cfg, start, s, r);
    } else {
      NonDmlMayMerge(cfg, start, s, r, op, due);
      MergeCommitKeeps(start, s, env, r, RefDue(r, op, due));
      var m := MergeCommit(s, env);
      if m.halt.Running? {
        NonDmlMerged(cfg, start, s, m, env, r);
        if due.Due? { NonDmlExecuted(cfg, start, s, m, r, op, due, env); }
        else { NonDmlFiltered(cfg, start, s, m, r, op); }
      }
    }
  }

  // ----- GTIDs

  lemma AcceptedIsNext(gtids: GtidMap, op: Operation)
    requires op.Gtid? && !Skipped(gtids, op) && !Missed(gtids, op)
    ensures NextAfter(gtids, Accepted(op.uuid, TrxOf(op), op.lastCommitted))
  {
  }

  lemma AcceptOpen(accepted: seq<Accepted>, a: Accepted, open: seq<Entry>, group: int, pending: nat)
    requires OpenOk(accepted, open, group, pending)
    ensures OpenOk(accepted + [a], open, group, pending) && BelowTrx(open, |accepted|)
  {
  }

  /** Once merged, the applier is between transactions with nothing pending. */
  lemma MergedIsBetween(start: GtidMap, s: Applier, env: Env, r: Ref)
    requires Between(start, s, r) && !r.open && MergeCommit(s, env).halt.Running?
    ensures Between(start, MergeCommit(s, env), r) && MergeCommit(s, env).pending == 0
  {
    hide CommitsOk, Whole, AllBelow, Flat, MapsOk, OpenOk, FromTrx, MergeCommit;
    MergeCommitKeeps(start, s, env, r, r);
    var m := MergeCommit(s, env);
    EmptyOpen(m.accepted, m.committed, m.lastCommitted);
  }

  lemma AcceptKeeps(cfg: Config, start: GtidMap, m: Applier, r: Ref, op: Operation, due: DueStmt)
    requires Between(start, m, r) && op.Gtid? && !m.gtidSkip && !r.open
    requires cfg.maxCount >= 1 ==> m.pending < cfg.maxCount
    requires m.pending >= 1 ==> m.lastCommitted == op.lastCommitted
    requires !Skipped(m.gtids, op) && !Missed(m.gtids, op)
    ensures var g := m.(lastCommitted := op.lastCommitted, gtids := m.gtids[op.uuid := TrxOf(op)], state := GTID,
                        accepted := m.accepted + [Accepted(op.uuid, TrxOf(op), op.lastCommitted)]);
            Inv(cfg, start, g, RefDue(r, op, due))
  {
    hide CommitsOk, Whole, AllBelow, Flat, MapsOk, OpenOk, FromTrx, CommitsBelowTrx, BelowTrx, PersistedOk, Missed;
    var a := Accepted(op.uuid, TrxOf(op), op.lastCommitted);
    AcceptedIsNext(m.gtids, op);
    AcceptMore(m.accepted, a, m.committed);
    AcceptOpen(m.accepted, a, m.Open(), m.lastCommitted, m.pending);
    AddAccepted(start, m.gtids, m.accepted, a);
    PersistedPrefix(start, m.accepted, m.persisted, a);
    EmptyOpen(m.accepted + [a], m.committed, op.lastCommitted);
    assert m.accepted == (m.accepted + [a])[..|m.accepted|];
  }

  lemma SkipKeeps(cfg: Config, start: GtidMap, s: Applier, r: Ref, op: Operation, due: DueStmt)
    requires Between(start, s, r) && op.Gtid? && !r.open
    requires cfg.maxCount >= 1 ==> s.pending < cfg.maxCount
    requires Skipped(s.gtids, op)
    ensures Inv(cfg, start, s.(gtidSkip := true, state := GTID), RefDue(r, op, due))
  {
    hide CommitsOk, Whole, AllBelow, Flat, MapsOk, OpenOk, FromTrx, PersistedOk;
  }

  /** OnGTID between transactions: skip, stop on a gap, or accept (committing first when the group changes). */
  lemma OnGtidKeeps(cfg: Config, start: GtidMap, s: Applier, r: Ref, op: Operation, due: DueStmt, env: Env)
    requires Between(start, s, r) && op.Gtid? && !r.open
    requires cfg.maxCount >= 1 ==> s.pending < cfg.maxCount
    ensures var g := OnGtid(s, op, env);
            Kept(cfg, start, if g.halt.Running? then g.(state := GTID) else g, RefDue(r, op, due)) && !Refused(g.halt)
  {
    hide CommitsOk, Whole, AllBelow, Flat, MapsOk, OpenOk, FromTrx, PersistedOk, MergeCommit, Missed, Inv, HaltedOk;
    var g := OnGtid(s, op, env);
    var r' := RefDue(r, op, due);
    if Skipped(s.gtids, op) {
      SkipKeeps(cfg, start, s, r, op, due);
    } else if Missed(s.gtids, op) {
      HaltKeeps(start, s.(gtidSkip := false), g, r, r');
    } else {
      var s0 := s.(gtidSkip := false);
      assert Between(start, s0, r);
      if s0.lastCommitted != op.lastCommitted {
        MergeCommitKeeps(start, s0, env, r, r');
        if MergeCommit(s0, env).halt.Running? {
          MergedIsBetween(start, s0, env, r);
          AcceptKeeps(cfg, start, MergeCommit(s0, env), r, op, due);
        }
      } else {
        AcceptKeeps(cfg, start, s0, r, op, due);
      }
    }
  }

  lemma BetweenOf(cfg: Config, start: GtidMap, s: Applier, r: Ref, t: Applier)
    requires Inv(cfg, start, s, r) && s.halt.Running? && !InTransaction(s.state) && !JustAccepted(s)
    requires t == s.(state := t.state, lastCheckpointTs := t.lastCheckpointTs)
    requires t.state == s.state || s.gtidSkip
    ensures Between(start, t, r.(open := false))
  {
    hide CommitsOk, Whole, AllBelow, Flat, MapsOk, OpenOk, FromTrx, PersistedOk;
  }

  /** A checkpoint between transactions may persist the whole current map. */
  lemma CheckpointIsBetween(start: GtidMap, s: Applier, env: Env, r: Ref)
    requires Between(start, s, r) && !r.open && s.tx.None?
    ensures Between(start, Checkpoint(s, env), r)
  {
    hide CommitsOk, Whole, AllBelow, Flat, OpenOk, FromTrx, Consecutive;
    assert s.accepted[..|s.accepted|] == s.accepted;
    EmptyOpen(s.accepted, s.committed, s.lastCommitted);
  }

  lemma GtidKeeps(cfg: Config, start: GtidMap, s: Applier, r: Ref, op: Operation, due: DueStmt, env: Env)
    requires Inv(cfg, start, s, r) && s.halt.Running? && op.Gtid?
    ensures var t := OnGtidOperation(cfg, if s.gtidSkip then s.(state := NULL) else s, op, env);
            Kept(cfg, start, t, RefNext(r, op, due, t))
  {
    hide CommitsOk, Whole, AllBelow, Flat, MapsOk, OpenOk, FromTrx, PersistedOk, MergeCommit, OnGtid, HaltedOk,
         StructureOk, GroupOk, CheckpointOk, Conserved;
    var s0 := if s.gtidSkip then s.(state := NULL) else s;
    var s1 := s0.(lastCheckpointTs := s0.lastAppliedTs);
    var r0 := r.(open := false);
    if InTransaction(s0.state) || s0.state.GTID? {
      HaltKeeps(start, s0, OnGtidOperation(cfg, s0, op, env), r, r);
    } else {
      BetweenOf(cfg, start, s, r, s1);
      if NonDmlState(s0.state) {
        CheckpointIsBetween(start, s1, env, r0);
        OnGtidKeeps(cfg, start, Checkpoint(s1, env), r0, op, due, env);
      } else if s0.state.XID? && ForceMergeCommit(cfg, s1) {
        MergeCommitKeeps(start, s1, env, r0, RefDue(r, op, due));
        if MergeCommit(s1, env).halt.Running? {
          MergedIsBetween(start, s1, env, r0);
          OnGtidKeeps(cfg, start, MergeCommit(s1, env), r0, op, due, env);
        }
      } else {
        OnGtidKeeps(cfg, start, s1, r0, op, due, env);
      }
    }
  }

  // ----- whole runs

  lemma StampKeeps(cfg: Config, start: GtidMap, t: Applier, r: Ref, ts: nat)
    requires Kept(cfg, start, t, r)
    ensures Kept(cfg, start, t.(lastAppliedTs := ts), r)
  {
    hide CommitsOk, Whole, AllBelow, Flat, MapsOk, OpenOk, FromTrx, PersistedOk, Settled, CommitsBelowTrx,
         MergedBelowTrx, BelowTrx;
  }

  lemma ProcessKeeps(cfg: Config, start: GtidMap, s: Applier, r: Ref, op: Operation, due: DueStmt, env: Env)
    requires Inv(cfg, start, s, r) && s.halt.Running?
    ensures var t := ProcessDue(cfg, s, op, due, env); Kept(cfg, start, t, RefNext(r, op, due, t))
  {
    hide Core, StructureOk, GroupOk, OnGtidOperation, OnXid, OnDml, OnBegin, OnHeartbeat, OnNonDml, HaltedOk;
    if s.gtidSkip && !op.Gtid? {
    } else {
      var s0 := if s.gtidSkip then s.(state := NULL) else s;
      var t := Dispatch(cfg, s0, op, due, env);
      if op.Gtid? { GtidKeeps(cfg, start, s, r, op, due, env); }
      else if op.Heartbeat? { HeartbeatKeeps(cfg, start, s, r, op, due, env); }
      else if op.IsNonDml() { NonDmlKeeps(cfg, start, s, r, op, due, env); }
      else if op.Begin? { BeginKeeps(cfg, start, s, r, op, due, env); }
      else if op.IsDml() { DmlKeeps(cfg, start, s, r, op, due, env); }
      else if op.Xid? { XidKeeps(cfg, start, s, r, op, due); }
      else if op.Unknown? { RefusedKeeps(cfg, start, s, t, r); }
      if t.halt.Running? { StampKeeps(cfg, start, t, RefNext(r, op, due, t), op.ts); }
    }
  }

  lemma RefusedKeeps(cfg: Config, start: GtidMap, s: Applier, t: Applier, r: Ref)
    requires Inv(cfg, start, s, r) && (t.halt.UnknownOperation? || t.halt.Cancelled?)
    requires t == s.(halt := t.halt, tx := t.tx)
    ensures HaltedOk(start, t, r)
  {
    HaltKeeps(start, s, t, r, r);
  }

  /** Every state of every run satisfies the invariant, relative to the operations consumed. */
  lemma {:induction false} EveryRunKeeps(cfg: Config, start: GtidMap, trace: seq<Event>)
    ensures Kept(cfg, start, Run(cfg, start, trace), RefRun(cfg, RefInitial(start), Consumed(cfg, start, trace)))
  {
    hide StmtDue, ProcessDue;
    var ops := Consumed(cfg, start, trace);
    if trace != [] {
      var before := trace[..|trace| - 1];
      var last := trace[|trace| - 1];
      EveryRunKeeps(cfg, start, before);
      hide Inv, HaltedOk;
      var s := Run(cfg, start, before);
      var r := RefRun(cfg, RefInitial(start), Consumed(cfg, start, before));
      if s.halt.Running? {
        if last.Consume? {
          ProcessKeeps(cfg, start, s, r, last.op, StmtDue(cfg, last.op), last.env);
          if !Refused(Run(cfg, start, trace).halt) { assert ops[..|ops| - 1] == Consumed(cfg, start, before); }
        } else {
          RefusedKeeps(cfg, start, s, Run(cfg, start, trace), r);
        }
      }
    } else {
      assert Inv(cfg, start, Initial(start), RefInitial(start));
    }
  }
}
