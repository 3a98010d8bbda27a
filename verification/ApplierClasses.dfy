/**
 The applier in the form of its source: three objects whose methods change their fields in
 place (MysqlClient, Checkpoint, MysqlApplier). Every method is proved to do what the
 transition system of module Applier says, so every theorem about `Run` is one about `Start`.
 */
module ApplierClasses {
  import opened Prelude
  import opened Operations
  import A = Applier
  import S = Statements

  type Halt = A.Halt

  class MysqlClient {
    var hasTx: bool                           // the tx handle is not nil
    ghost var issued: seq<A.Entry>            // what was issued in the open transaction
    ghost var committed: seq<A.DestCommit>    // what the server has durably applied

    constructor ()
      ensures Tx() == None && committed == []
    {
      hasTx, issued, committed := false, [], [];
    }

    ghost function Tx(): Option<seq<A.Entry>>
      reads this
    {
      if hasTx then Some(issued) else None
    }

    method Begin(env: A.Env) returns (h: Halt)
      modifies this`hasTx, this`issued
      ensures old(Tx()).Some? ==> h.TxExists? && Tx() == old(Tx())
      ensures old(Tx()).None? ==>
                && (env.begin.BeginOk? ==> h.Running? && Tx() == Some([]))
                && (env.begin.BeginFails? ==> h.SqlError? && Tx() == None)
                && (env.begin.SessionFails? ==> h.SqlError? && Tx() == Some([]))
    {
      if hasTx { return A.TxExists; }
      if env.begin.BeginFails? { return A.SqlError; }
      hasTx, issued := true, [];
      if env.begin.SessionFails? { return A.SqlError; }
      h := A.Running;
    }

    method Rollback(env: A.Env) returns (ok: bool)
      modifies this`hasTx
      ensures Tx() == if old(Tx()).Some? && env.rollbackOk then None else old(Tx())
      ensures ok <==> old(Tx()).None? || env.rollbackOk
    {
      if !hasTx { return true; }
      if !env.rollbackOk { return false; }
      hasTx := false;
      ok := true;
    }

    method Commit(answer: A.CommitAnswer, ghost merged: bool, ghost group: int) returns (h: Halt)
      modifies this`hasTx, this`committed
      ensures old(Tx()).None? ==> h.TxMissing? && Tx() == None && committed == old(committed)
      ensures old(Tx()).Some? ==>
                && h == (if answer.CommitOk? then A.Running else A.SqlError)
                && Tx() == (if answer.CommitOk? then None else old(Tx()))
                && committed == old(committed)
                     + (if answer.CommitFails? then [] else [A.DestCommit(merged, group, old(Tx()).value)])
    {
      if !hasTx { return A.TxMissing; }
      if !answer.CommitFails? { committed := committed + [A.DestCommit(merged, group, issued)]; }
      if !answer.CommitOk? { return A.SqlError; }
      hasTx := false;
      h := A.Running;
    }

    method ExecuteOnDml(ghost entry: A.Entry, env: A.Env) returns (h: Halt)
      modifies this`hasTx, this`issued
      ensures old(Tx()).None? ==> h.TxMissing? && Tx() == None
      ensures old(Tx()).Some? && !env.exec.ExecFails? ==> h.Running? && Tx() == Some(old(Tx()).value + [entry])
      ensures old(Tx()).Some? && env.exec.ExecFails? ==>
                h.SqlError? && Tx() == if env.rollbackOk then None else old(Tx())
    {
      if !hasTx { return A.TxMissing; }
      if env.exec.ExecFails? {
        var _ := Rollback(env);
        return A.SqlError;
      }
      issued := issued + [entry];
      h := A.Running;
    }

    method ExecuteOnNonDml(schemaContext: string, stmt: Stmt, env: A.Env, ghost s: A.Applier) returns (h: Halt)
      requires s.halt.Running? && s.tx == Tx() && s.committed == committed
      modifies this
      ensures A.ExecuteOnNonDml(s, schemaContext, stmt, env) == s.(tx := Tx(), committed := committed, halt := h)
    {
      h := Begin(env);
      if !h.Running? { return; }
      if schemaContext != "" && !env.useOk {
        var _ := Rollback(env);
        return A.SqlError;
      }
      if env.exec.ExecFails? {
        var _ := Rollback(env);
        return A.SqlError;
      }
      issued := [A.Exec(s.Current(), stmt)];
      h := Commit(env.nonDmlCommit, false, s.lastCommitted);
    }

    /** Model only: the point where a source transaction ends inside the open one. */
    ghost method MarkEnd(trx: nat)
      modifies this`issued
      ensures Tx() == if old(Tx()).Some? then Some(old(Tx()).value + [A.End(trx)]) else None
    {
      issued := issued + [A.End(trx)];
    }
  }

  class Checkpoint {
    var gtids: A.GtidMap                       // GtidSetsMap
    var persisted: Option<A.GtidMap>           // the value held by Consul
    ghost var at: nat                          // transactions accepted when it was written

    constructor (start: A.GtidMap)
      ensures gtids == start && persisted == None
    {
      gtids, persisted, at := start, None, 0;
    }

    ghost function Persisted(): Option<A.Persisted>
      reads this
    {
      if persisted.Some? then Some(A.Persisted(persisted.value, at)) else None
    }

    method Persist(consulOk: bool, ghost accepted: nat)
      modifies this`persisted, this`at
      ensures Persisted() == if consulOk then Some(A.Persisted(gtids, accepted)) else old(Persisted())
    {
      if consulOk { persisted, at := Some(gtids), accepted; }
    }

    method SetTrxId(uuid: string, trx: nat)
      modifies this`gtids
      ensures gtids == old(gtids)[uuid := trx]
    {
      gtids := gtids[uuid := trx];
    }
  }

  class MysqlApplier {
    const cfg: Config
    const client: MysqlClient
    const ckpt: Checkpoint
    var state: A.State
    var pending: nat
    var gtidSkip: bool
    var lastCommitted: int
    var lastCheckpointTs: nat
    var lastAppliedTs: nat
    ghost var accepted: seq<A.Accepted>

    constructor (cfg: Config, client: MysqlClient, ckpt: Checkpoint)
      requires client.Tx() == None && client.committed == [] && ckpt.persisted == None
      ensures this.cfg == cfg && this.client == client && this.ckpt == ckpt
      ensures View(A.Running) == A.Initial(ckpt.gtids)
    {
      this.cfg, this.client, this.ckpt := cfg, client, ckpt;
      state, pending, gtidSkip, lastCommitted := A.NULL, 0, false, 0;
      lastCheckpointTs, lastAppliedTs, accepted := 0, 0, [];
    }

    /** The abstract state; `h` says whether and why the loop has ended. */
    ghost function View(h: Halt): A.Applier
      reads this, client, ckpt
    {
      A.Applier.Applier(state, pending, gtidSkip, lastCommitted, lastCheckpointTs, lastAppliedTs,
                ckpt.gtids, client.Tx(), client.committed, accepted, ckpt.Persisted(), h)
    }

    method MakeCheckpoint(env: A.Env)
      modifies ckpt`persisted, ckpt`at
      ensures View(A.Running) == A.Checkpoint(old(View(A.Running)), env)
    {
      ckpt.Persist(env.consulOk, |accepted|);
    }

    method MergeCommit(env: A.Env) returns (h: Halt)
      modifies this`pending, client, ckpt`persisted, ckpt`at
      ensures View(h) == A.MergeCommit(old(View(A.Running)), env)
    {
      h := A.Running;
      if pending >= 1 {
        h := client.Commit(env.mergeCommit, true, lastCommitted);
        if !h.Running? { return; }
        pending := 0;
        MakeCheckpoint(env);
      }
    }

    method EvaluateForceMergeCommit() returns (force: bool)
      ensures force == A.ForceMergeCommit(cfg, View(A.Running))
    {
      var lag := (lastAppliedTs - lastCheckpointTs) % A.TWO32;
      if cfg.maxCount >= 1 && pending >= cfg.maxCount { return true; }
      if cfg.maxDelay >= 1 && lag >= cfg.maxDelay { return true; }
      force := false;
    }

    method OnGtid(op: Operation, env: A.Env) returns (h: Halt)
      requires op.Gtid?
      modifies this`gtidSkip, this`pending, this`lastCommitted, this`accepted, client, ckpt
      ensures View(h) == A.OnGtid(old(View(A.Running)), op, env)
    {
      var trx := A.TrxOf(op);
      gtidSkip := false;
      if op.uuid in ckpt.gtids {
        var last := ckpt.gtids[op.uuid];
        if last >= trx {
          gtidSkip := true;
          return A.Running;
        }
        if trx >= (last + 2) % A.TWO64 { return A.GtidMiss; }
      }
      if lastCommitted != op.lastCommitted {
        h := MergeCommit(env);
        if !h.Running? { return; }
        lastCommitted := op.lastCommitted;
      }
      ckpt.SetTrxId(op.uuid, trx);
      accepted := accepted + [A.Accepted(op.uuid, trx, op.lastCommitted)];
      h := A.Running;
    }

    method OnHeartbeat(env: A.Env) returns (h: Halt)
      modifies this`lastCheckpointTs, this`state, this`pending, client, ckpt`persisted, ckpt`at
      ensures View(h) == A.OnHeartbeat(old(View(A.Running)), env)
    {
      lastCheckpointTs := lastAppliedTs;
      h := A.Running;
      if state.DDL? || state.DCL? {
        MakeCheckpoint(env);
      } else if state.XID? {
        h := MergeCommit(env);
        if !h.Running? { return; }
      } else if !state.NULL? {
        return A.StateError;
      }
      state := A.NULL;
    }

    method OnGtidOperation(op: Operation, env: A.Env) returns (h: Halt)
      requires op.Gtid?
      modifies this, client, ckpt
      ensures View(h) == A.OnGtidOperation(cfg, old(View(A.Running)), op, env)
    {
      hide A.MergeCommit, A.OnGtid, A.ForceMergeCommit;
      lastCheckpointTs := lastAppliedTs;
      if state.DDL? || state.DCL? {
        MakeCheckpoint(env);
      } else if state.XID? {
        var force := EvaluateForceMergeCommit();
        if force {
          h := MergeCommit(env);
          if !h.Running? { return; }
        }
      } else if !state.NULL? {
        return A.StateError;
      }
      h := OnGtid(op, env);
      if !h.Running? { return; }
      state := A.GTID;
    }

    method OnNonDml(op: Operation, env: A.Env) returns (h: Halt)
      requires op.IsNonDml()
      modifies this`state, this`pending, client, ckpt`persisted, ckpt`at
      ensures View(h) == A.OnNonDml(old(View(A.Running)), op, StmtDue(cfg, op), env)
    {
      hide A.MergeCommit, A.ExecuteOnNonDml, StmtDue;
      if !A.NonDmlAllowed(state, op) { return A.StateError; }
      h := MergeCommit(env);
      if !h.Running? { return; }
      var due := S.StatementFor(cfg, op);
      if due.Due? {
        h := client.ExecuteOnNonDml(A.SchemaOf(op), due.stmt, env, View(A.Running));
        if !h.Running? { return; }
      }
      state := if op.DclUser? then A.DCL else A.DDL;
    }

    method OnBegin(env: A.Env) returns (h: Halt)
      modifies this`state, client
      ensures View(h) == A.OnBegin(old(View(A.Running)), env)
    {
      if !state.GTID? { return A.StateError; }
      h := A.Running;
      if pending == 0 {
        h := client.Begin(env);
        if !h.Running? { return; }
      }
      state := A.BEGIN;
    }

    method OnDml(op: Operation, env: A.Env) returns (h: Halt)
      requires op.IsDml()
      modifies this`state, client
      ensures View(h) == A.OnDml(old(View(A.Running)), StmtDue(cfg, op), env)
    {
      hide StmtDue;
      if !(state.BEGIN? || state.DML?) { return A.StateError; }
      h := A.Running;
      var due := S.StatementFor(cfg, op);
      match due {
        case Broken => return A.RepairError;
        case Nothing =>
        case Due(stmt) =>
          h := client.ExecuteOnDml(A.Exec(View(h).Current(), stmt), env);
          if !h.Running? { return; }
      }
      state := A.DML;
    }

    method OnXid() returns (h: Halt)
      modifies this`state, this`pending, client`issued
      ensures View(h) == A.OnXid(old(View(A.Running)))
    {
      if !(state.BEGIN? || state.DML?) { return A.StateError; }
      pending := pending + 1;
      state := A.XID;
      client.MarkEnd(View(A.Running).Current());
      h := A.Running;
    }

    /** One turn of the loop. */
    method Process(op: Operation, env: A.Env) returns (h: Halt)
      modifies this, client, ckpt
      ensures View(h) == A.ProcessDue(cfg, old(View(A.Running)), op, StmtDue(cfg, op), env)
    {
      hide A.OnGtidOperation, A.OnNonDml, A.OnDml, A.OnXid, A.OnBegin, A.OnHeartbeat, StmtDue;
      h := A.Running;
      if gtidSkip {
        if !op.Gtid? { return; }
        state := A.NULL;
      }
      if op.BinLogPos? { return; }
      else if op.Heartbeat? { h := OnHeartbeat(env); }
      else if op.Gtid? { h := OnGtidOperation(op, env); }
      else if op.IsNonDml() { h := OnNonDml(op, env); }
      else if op.Begin? { h := OnBegin(env); }
      else if op.IsDml() { h := OnDml(op, env); }
      else if op.Xid? { h := OnXid(); }
      else { return A.UnknownOperation; }
      if h.Running? { lastAppliedTs := op.ts; }
    }

    /** The loop of Start: it consumes events until it halts, and ends in the state that the
        transition system reaches on the same trace. */
    method Start(ghost start: A.GtidMap, trace: seq<A.Event>) returns (h: Halt)
      requires View(A.Running) == A.Initial(start)
      modifies this, client, ckpt
      ensures View(h) == A.Run(cfg, start, trace)
    {
      hide A.ProcessDue, StmtDue, View;
      h := A.Running;
      var i := 0;
      while i < |trace| && h.Running?
        invariant 0 <= i <= |trace|
        invariant View(h) == A.Run(cfg, start, trace[..i])
      {
        assert trace[..i + 1][..i] == trace[..i];
        assert View(h).halt == h by { HaltOfView(h); }
        match trace[i] {
          case Consume(op, env) => h := Process(op, env);
          case Cancel(env) => h := Stop(env);
        }
        i := i + 1;
      }
      assert View(h).halt == h by { HaltOfView(h); }
      if !h.Running? { StaysHalted(cfg, start, trace, i); }
      assert trace[..|trace|] == trace;
    }

    lemma HaltOfView(h: Halt)
      ensures View(h).halt == h
    {
    }

    /** Cancellation rolls the open transaction back. */
    method Stop(env: A.Env) returns (h: Halt)
      modifies client
      ensures h.Cancelled? && View(h) == A.SqlRollback(old(View(A.Running)), env).Fail(A.Cancelled)
    {
      var _ := client.Rollback(env);
      h := A.Cancelled;
    }
  }

  /** A halted run ignores the rest of its trace. */
  lemma {:induction false} StaysHalted(cfg: Config, start: A.GtidMap, trace: seq<A.Event>, i: nat)
    requires i <= |trace| && !A.Run(cfg, start, trace[..i]).halt.Running?
    ensures A.Run(cfg, start, trace) == A.Run(cfg, start, trace[..i])
  {
    hide A.ProcessDue, StmtDue;
    if i == |trace| {
      assert trace[..i] == trace;
    } else {
      var before := trace[..|trace| - 1];
      assert before[..i] == trace[..i];
      StaysHalted(cfg, start, before, i);
    }
  }
}
