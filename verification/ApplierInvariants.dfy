/**
 What every reachable state of the applier satisfies: conservation and atomicity of the
 source transactions, the SQL transaction lifecycle, the merge-group bounds and the
 relation between persisted checkpoints and destination commits.
 */
module ApplierInvariants {
  import opened Prelude
  import opened Operations
  import opened Applier

  // ----- states

  predicate InTransaction(state: State) { state.BEGIN? || state.DML? }

  predicate NonDmlState(state: State) { state.DDL? || state.DCL? }

  predicate JustAccepted(s: Applier) { s.state.GTID? && !s.gtidSkip }

  /** A transaction was accepted and may still receive statements. */
  predicate Unfinished(s: Applier) { JustAccepted(s) || InTransaction(s.state) || NonDmlState(s.state) }

  /** A SQL transaction is open exactly inside a source transaction or while commits are pending;
      the pending counter respects the configured bound. */
  predicate Lifecycle(cfg: Config, s: Applier)
  {
    && (s.tx.Some? <==> InTransaction(s.state) || s.pending >= 1)
    && (s.state.XID? ==> s.pending >= 1)
    && (s.state.NULL? || NonDmlState(s.state) ==> s.pending == 0)
    && (s.gtidSkip ==> s.state.GTID?)
    && (cfg.maxCount >= 1 ==> s.pending <= cfg.maxCount)
    && (cfg.maxCount >= 1 && !s.state.XID? ==> s.pending < cfg.maxCount)
  }

  // ----- destination commits

  ghost predicate Tagged(accepted: seq<Accepted>, entries: seq<Entry>)
  {
    forall e :: e in entries ==> e.trx < |accepted|
  }

  /** All source transactions that appear carry the same LastCommitted value. */
  ghost predicate OneGroup(accepted: seq<Accepted>, entries: seq<Entry>, group: int)
  {
    forall e :: e in entries && e.trx < |accepted| ==> accepted[e.trx].lastCommitted == group
  }

  /** Every source transaction that appears is complete, except possibly `current`. */
  ghost predicate Whole(entries: seq<Entry>, current: int)
  {
    forall e :: e in entries ==> End(e.trx) in entries || e.trx == current
  }

  ghost predicate BelowTrx(entries: seq<Entry>, trx: nat)
  {
    forall e :: e in entries ==> e.trx < trx
  }

  ghost predicate FromTrx(entries: seq<Entry>, trx: nat)
  {
    forall e :: e in entries ==> trx <= e.trx
  }

  /** Every tag of `first` lies strictly below every tag of `second`. */
  ghost predicate Below(first: seq<Entry>, second: seq<Entry>)
  {
    forall e, f :: e in first && f in second ==> e.trx < f.trx
  }

  ghost predicate AtMost(first: seq<Entry>, second: seq<Entry>)
  {
    forall e, f :: e in first && f in second ==> e.trx <= f.trx
  }

  ghost predicate CommitFine(accepted: seq<Accepted>, c: DestCommit)
  {
    && Tagged(accepted, c.entries)
    && (c.merged ==> Whole(c.entries, -1) && OneGroup(accepted, c.entries, c.group))
    && (!c.merged ==> |c.entries| == 1 && c.entries[0].Exec?)
  }

  /** Commits follow the order of the source; a merged commit shares no source transaction
      with any other commit. */
  ghost predicate Ordered(commits: seq<DestCommit>)
  {
    forall i, j :: 0 <= i < j < |commits| ==>
      && AtMost(commits[i].entries, commits[j].entries)
      && (commits[i].merged || commits[j].merged ==> Below(commits[i].entries, commits[j].entries))
  }

  ghost predicate CommitsOk(accepted: seq<Accepted>, commits: seq<DestCommit>)
  {
    && (forall i :: 0 <= i < |commits| ==> CommitFine(accepted, commits[i]))
    && Ordered(commits)
  }

  ghost predicate AllBelow(commits: seq<DestCommit>, entries: seq<Entry>)
  {
    forall i :: 0 <= i < |commits| ==> Below(commits[i].entries, entries)
  }

  ghost predicate CommitsBelowTrx(commits: seq<DestCommit>, trx: nat)
  {
    forall i :: 0 <= i < |commits| ==> BelowTrx(commits[i].entries, trx)
  }

  ghost predicate MergedBelowTrx(commits: seq<DestCommit>, trx: nat)
  {
    forall i :: 0 <= i < |commits| && commits[i].merged ==> BelowTrx(commits[i].entries, trx)
  }

  function CountEnds(entries: seq<Entry>): nat
  {
    if entries == [] then 0
    else CountEnds(entries[..|entries| - 1]) + (if entries[|entries| - 1].End? then 1 else 0)
  }

  ghost predicate OpenOk(accepted: seq<Accepted>, open: seq<Entry>, group: int, pending: nat)
  {
    Tagged(accepted, open) && OneGroup(accepted, open, group) && pending == CountEnds(open)
  }

  ghost predicate StructureOk(s: Applier)
  {
    && OpenOk(s.accepted, s.Open(), s.lastCommitted, s.pending)
    && Whole(s.Open(), if InTransaction(s.state) then s.Current() else -1)
    && AllBelow(s.committed, s.Open())
    && (Unfinished(s) ==> s.accepted != [])
    && (JustAccepted(s) || InTransaction(s.state) ==> CommitsBelowTrx(s.committed, s.Current()))
    && (JustAccepted(s) ==> BelowTrx(s.Open(), s.Current()))
    && (NonDmlState(s.state) ==> MergedBelowTrx(s.committed, s.Current()))
  }

  // ----- GTID maps and checkpoints

  /** Where the map knew the server UUID, the accepted id is the successor of the known one. */
  ghost predicate Consecutive(start: GtidMap, accepted: seq<Accepted>)
  {
    forall k :: 0 <= k < |accepted| ==> NextAfter(MapAfter(start, accepted[..k]), accepted[k])
  }

  predicate NextAfter(m: GtidMap, a: Accepted)
  {
    a.uuid in m ==> a.trx == m[a.uuid] + 1
  }

  ghost predicate MapsOk(start: GtidMap, gtids: GtidMap, accepted: seq<Accepted>)
  {
    gtids == MapAfter(start, accepted) && Consecutive(start, accepted)
  }

  ghost predicate PersistedOk(start: GtidMap, accepted: seq<Accepted>, p: Option<Persisted>)
  {
    p.Some? ==> p.value.at <= |accepted| && p.value.gtids == MapAfter(start, accepted[..p.value.at])
  }

  predicate SameGroupAsPrevious(accepted: seq<Accepted>)
  {
    && |accepted| >= 2
    && accepted[|accepted| - 1].lastCommitted == accepted[|accepted| - 2].lastCommitted
  }

  /** The persisted map already covers the DDL/DCL transaction that is being processed. */
  predicate Hazard(s: Applier)
  {
    && s.persisted.Some? && s.persisted.value.at == |s.accepted|
    && (NonDmlState(s.state) || JustAccepted(s))
    && SameGroupAsPrevious(s.accepted)
  }

  predicate GroupOk(s: Applier)
  {
    && (s.accepted != [] ==> s.lastCommitted == s.accepted[|s.accepted| - 1].lastCommitted)
    && (s.pending >= 1 ==> s.accepted != [])
    && (JustAccepted(s) && s.pending >= 1 ==> SameGroupAsPrevious(s.accepted))
  }

  ghost predicate CheckpointOk(s: Applier, r: Ref)
  {
    s.persisted.Some? ==>
      && FromTrx(s.Open(), s.persisted.value.at)
      && (s.persisted.value.at <= r.Finished() || (Hazard(s) && NonDmlState(s.state)))
  }

  // ----- conservation

  /** Committed entries followed by the open ones are what the consumed operations are due to do. */
  ghost predicate Conserved(s: Applier, r: Ref)
  {
    s.gtids == r.gtids && s.accepted == r.accepted && Flat(s.committed) + s.Open() == r.due
  }

  ghost predicate Core(start: GtidMap, s: Applier, r: Ref)
  {
    && CommitsOk(s.accepted, s.committed) && Conserved(s, r)
    && MapsOk(start, s.gtids, s.accepted) && PersistedOk(start, s.accepted, s.persisted)
    && CheckpointOk(s, r)
  }

  ghost predicate Inv(cfg: Config, start: GtidMap, s: Applier, r: Ref)
  {
    && Lifecycle(cfg, s) && StructureOk(s) && GroupOk(s) && Core(start, s, r)
    && s.gtidSkip == r.skip && Unfinished(s) == r.open
  }

  /** The part of the invariant that holds outside source transactions, whatever the state field says. */
  ghost predicate Between(start: GtidMap, s: Applier, r: Ref)
  {
    && s.halt.Running? && Core(start, s, r)
    && (s.tx.Some? <==> s.pending >= 1)
    && OpenOk(s.accepted, s.Open(), s.lastCommitted, s.pending)
    && Whole(s.Open(), -1) && AllBelow(s.committed, s.Open())
    && (s.accepted != [] ==> s.lastCommitted == s.accepted[|s.accepted| - 1].lastCommitted)
    && (s.pending >= 1 ==> s.accepted != [])
  }

  // ----- what also holds of a halted applier

  /** Everything due for the first `n` accepted transactions is in a destination commit. */
  ghost predicate Settled(commits: seq<DestCommit>, due: seq<Entry>, n: int)
  {
    forall e :: e in due && e.trx < n ==> e in Flat(commits)
  }

  ghost predicate Safe(s: Applier, r: Ref)
  {
    s.persisted.Some? ==>
      var n := s.persisted.value.at;
      if n <= r.Finished() then Settled(s.committed, r.due, n)
      else Hazard(s) && Settled(s.committed, r.due, n - 1)
  }

  ghost predicate HaltedOk(start: GtidMap, s: Applier, r: Ref)
  {
    && !s.halt.TxExists? && !s.halt.TxMissing?
    && CommitsOk(s.accepted, s.committed)
    && MapsOk(start, s.gtids, s.accepted) && PersistedOk(start, s.accepted, s.persisted)
    && s.accepted <= r.accepted && Flat(s.committed) <= r.due && Safe(s, r)
  }

  ghost predicate Kept(cfg: Config, start: GtidMap, s: Applier, r: Ref)
  {
    if s.halt.Running? then Inv(cfg, start, s, r) else HaltedOk(start, s, r)
  }

  // ----- lemmas about the components

  lemma FlatAppend(commits: seq<DestCommit>, c: DestCommit)
    ensures Flat(commits + [c]) == Flat(commits) + c.entries
  {
    assert (commits + [c])[..|commits|] == commits;
  }

  /** Committing the open group as one destination commit. */
  lemma AppendMerged(accepted: seq<Accepted>, commits: seq<DestCommit>, open: seq<Entry>, group: int)
    requires CommitsOk(accepted, commits) && AllBelow(commits, open)
    requires Tagged(accepted, open) && OneGroup(accepted, open, group) && Whole(open, -1)
    ensures CommitsOk(accepted, commits + [DestCommit(true, group, open)])
  {
    assert CommitFine(accepted, DestCommit(true, group, open));
  }

  lemma AppendBelow(commits: seq<DestCommit>, c: DestCommit, trx: nat)
    requires CommitsBelowTrx(commits, trx) && BelowTrx(c.entries, trx)
    ensures CommitsBelowTrx(commits + [c], trx)
  {
  }

  /** Committing one DDL or DCL statement of the current transaction. */
  lemma AppendSingle(accepted: seq<Accepted>, commits: seq<DestCommit>, group: int, stmt: Stmt)
    requires accepted != [] && CommitsOk(accepted, commits) && MergedBelowTrx(commits, |accepted| - 1)
    ensures var c := DestCommit(false, group, [Exec(|accepted| - 1, stmt)]);
            CommitsOk(accepted, commits + [c]) && MergedBelowTrx(commits + [c], |accepted| - 1)
  {
    var c := DestCommit(false, group, [Exec(|accepted| - 1, stmt)]);
    assert CommitFine(accepted, c);
    forall i | 0 <= i < |commits|
      ensures AtMost(commits[i].entries, c.entries)
    {
      assert CommitFine(accepted, commits[i]);
    }
  }

  lemma AcceptMore(accepted: seq<Accepted>, a: Accepted, commits: seq<DestCommit>)
    requires CommitsOk(accepted, commits)
    ensures CommitsOk(accepted + [a], commits) && CommitsBelowTrx(commits, |accepted|)
  {
    forall i | 0 <= i < |commits|
      ensures CommitFine(accepted + [a], commits[i]) && BelowTrx(commits[i].entries, |accepted|)
    {
      assert CommitFine(accepted, commits[i]);
    }
  }

  lemma AddEntry(accepted: seq<Accepted>, commits: seq<DestCommit>, open: seq<Entry>, group: int, pending: nat,
                 e: Entry)
    requires OpenOk(accepted, open, group, pending) && AllBelow(commits, open)
    requires e.trx < |accepted| && accepted[e.trx].lastCommitted == group
    requires CommitsBelowTrx(commits, e.trx) && Whole(open, e.trx)
    ensures OpenOk(accepted, open + [e], group, pending + if e.End? then 1 else 0)
    ensures AllBelow(commits, open + [e])
    ensures Whole(open + [e], if e.End? then -1 else e.trx)
  {
    assert (open + [e])[..|open|] == open;
    forall i | 0 <= i < |commits| ensures Below(commits[i].entries, open + [e]) {
      assert Below(commits[i].entries, open) && BelowTrx(commits[i].entries, e.trx);
    }
    forall f | f in open + [e]
      ensures End(f.trx) in open + [e] || f.trx == if e.End? then -1 else e.trx
    {
      if f in open { assert End(f.trx) in open || f.trx == e.trx; }
      assert e in open + [e];
    }
  }

  lemma AddAccepted(start: GtidMap, gtids: GtidMap, accepted: seq<Accepted>, a: Accepted)
    requires MapsOk(start, gtids, accepted) && NextAfter(gtids, a)
    ensures MapsOk(start, gtids[a.uuid := a.trx], accepted + [a])
  {
    var all := accepted + [a];
    assert all[..|accepted|] == accepted;
    forall k | 0 <= k < |all| ensures NextAfter(MapAfter(start, all[..k]), all[k]) {
      if k < |accepted| { assert all[..k] == accepted[..k]; }
    }
  }

  lemma PersistedPrefix(start: GtidMap, accepted: seq<Accepted>, p: Option<Persisted>, a: Accepted)
    requires PersistedOk(start, accepted, p)
    ensures PersistedOk(start, accepted + [a], p)
  {
    if p.Some? {
      assert (accepted + [a])[..p.value.at] == accepted[..p.value.at];
    }
  }
}
