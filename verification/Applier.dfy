/**
 The destination applier (src/applier.go, src/mysql.go, src/checkpoint.go) as a
 transition system. `Step` consumes one operation; the answers of the SQL server and
 of Consul are part of the event. Three histories are recorded beside the real fields:
 the destination commits, the accepted GTIDs and the last persisted GTID map.
 */
module Applier {
  import opened Prelude
  import opened Operations

  const TWO64: nat := 0x1_0000_0000_0000_0000
  const TWO32: nat := 0x1_0000_0000

  type GtidMap = map<string, nat>

  datatype State = NULL | DML | DDL | DCL | BEGIN | XID | GTID

  datatype Halt =
    | Running
    | StateError            // "last state is ..."
    | UnknownOperation
    | GtidMiss
    | RepairError
    | SqlError
    | TxExists              // the client's "tx already exists"
    | TxMissing             // the client's "tx does not exist"
    | Cancelled

  /** One thing done inside a destination transaction, tagged with the source transaction
      it belongs to. `End` marks the point where that source transaction's XID arrived. */
  datatype Entry = Exec(trx: nat, stmt: Stmt) | End(trx: nat)

  /** `merged` distinguishes merged DML commits; `group` is the applier's LastCommitted then. */
  datatype DestCommit = DestCommit(merged: bool, group: int, entries: seq<Entry>)

  datatype Accepted = Accepted(uuid: string, trx: nat, lastCommitted: int)

  datatype BeginAnswer = BeginOk | BeginFails | SessionFails
  datatype ExecAnswer = ExecOk | ExecSkippedError | ExecFails
  /** A failed commit may or may not have taken effect on the server. */
  datatype CommitAnswer = CommitOk | CommitFails | CommitFailsButLands

  /** What SQL and Consul answer while one operation is processed. */
  datatype Env = Env(begin: BeginAnswer, useOk: bool, exec: ExecAnswer, mergeCommit: CommitAnswer,
                     nonDmlCommit: CommitAnswer, rollbackOk: bool, consulOk: bool)

  datatype Event = Consume(op: Operation, env: Env) | Cancel(env: Env)

  /** A successful Consul write: the map, and how many transactions had been accepted by then. */
  datatype Persisted = Persisted(gtids: GtidMap, at: nat)

  datatype Applier = Applier(
    state: State, pending: nat, gtidSkip: bool, lastCommitted: int,
    lastCheckpointTs: nat, lastAppliedTs: nat,
    gtids: GtidMap, tx: Option<seq<Entry>>,
    committed: seq<DestCommit>, accepted: seq<Accepted>, persisted: Option<Persisted>,
    halt: Halt)
  {
    function Fail(h: Halt): Applier { this.(halt := h) }

    /** Index of the source transaction being processed. */
    function Current(): nat { if accepted == [] then 0 else |accepted| - 1 }

    function Open(): seq<Entry> { if tx.Some? then tx.value else [] }
  }

  function Initial(start: GtidMap): Applier
  {
    Applier(NULL, 0, false, 0, 0, 0, start, None, [], [], None, Running)
  }

  // ----- the SQL client

  function SqlBegin(s: Applier, env: Env): Applier
  {
    if s.tx.Some? then s.Fail(TxExists)
    else match env.begin
      case BeginFails => s.Fail(SqlError)
      case SessionFails => s.(tx := Some([])).Fail(SqlError)
      case BeginOk => s.(tx := Some([]))
  }

  function SqlRollback(s: Applier, env: Env): Applier
  {
    if s.tx.Some? && env.rollbackOk then s.(tx := None) else s
  }

  function SqlCommit(s: Applier, answer: CommitAnswer, merged: bool): Applier
  {
    if s.tx.None? then s.Fail(TxMissing)
    else
      var landed := s.(committed := s.committed + [DestCommit(merged, s.lastCommitted, s.tx.value)]);
      match answer
      case CommitOk => landed.(tx := None)
      case CommitFails => s.Fail(SqlError)
      case CommitFailsButLands => landed.Fail(SqlError)
  }

  function ExecuteOnDml(s: Applier, stmt: Stmt, env: Env): Applier
  {
    if s.tx.None? then s.Fail(TxMissing)
    else if env.exec.ExecFails? then SqlRollback(s, env).Fail(SqlError)
    else s.(tx := Some(s.tx.value + [Exec(s.Current(), stmt)]))
  }

  function ExecuteOnNonDml(s: Applier, schemaContext: string, stmt: Stmt, env: Env): Applier
  {
    var b := SqlBegin(s, env);
    if !b.halt.Running? then b
    else if schemaContext != "" && !env.useOk then SqlRollback(b, env).Fail(SqlError)
    else if env.exec.ExecFails? then SqlRollback(b, env).Fail(SqlError)
    else SqlCommit(b.(tx := Some([Exec(b.Current(), stmt)])), env.nonDmlCommit, false)
  }

  // ----- checkpoints and merged commits

  /** A failed Consul write is logged and otherwise ignored. */
  function Checkpoint(s: Applier, env: Env): Applier
  {
    if env.consulOk then s.(persisted := Some(Persisted(s.gtids, |s.accepted|))) else s
  }

  function MergeCommit(s: Applier, env: Env): Applier
  {
    if s.pending >= 1 then
      var c := SqlCommit(s, env.mergeCommit, true);
      if c.halt.Running? then Checkpoint(c.(pending := 0), env) else c
    else s
  }

  predicate ForceMergeCommit(cfg: Config, s: Applier)
  {
    || (cfg.maxCount >= 1 && s.pending >= cfg.maxCount)
    || (cfg.maxDelay >= 1 && (s.lastAppliedTs - s.lastCheckpointTs) % TWO32 >= cfg.maxDelay)
  }

  /** uint(op.TrxID) of a signed 64-bit id. */
  function TrxOf(op: Operation): nat
    requires op.Gtid?
  {
    op.trxId % TWO64
  }

  predicate Skipped(gtids: GtidMap, op: Operation)
    requires op.Gtid?
  {
    op.uuid in gtids && gtids[op.uuid] >= TrxOf(op)
  }

  predicate Missed(gtids: GtidMap, op: Operation)
    requires op.Gtid?
  {
    op.uuid in gtids && gtids[op.uuid] < TrxOf(op) && TrxOf(op) >= (gtids[op.uuid] + 2) % TWO64
  }

  function OnGtid(s: Applier, op: Operation, env: Env): Applier
    requires op.Gtid?
  {
    if Skipped(s.gtids, op) then s.(gtidSkip := true)
    else if Missed(s.gtids, op) then s.(gtidSkip := false).Fail(GtidMiss)
    else
      var s0 := s.(gtidSkip := false);
      var m := if s0.lastCommitted != op.lastCommitted then MergeCommit(s0, env) else s0;
      if !m.halt.Running? then m
      else m.(lastCommitted := op.lastCommitted,
              gtids := m.gtids[op.uuid := TrxOf(op)],
              accepted := m.accepted + [Accepted(op.uuid, TrxOf(op), op.lastCommitted)])
  }

  // ----- one operation

  function OnHeartbeat(s0: Applier, env: Env): Applier
  {
    var s := s0.(lastCheckpointTs := s0.lastAppliedTs);
    var r := match s.state
      case DDL => Checkpoint(s, env)
      case DCL => Checkpoint(s, env)
      case XID => MergeCommit(s, env)
      case NULL => s
      case _ => s.Fail(StateError);
    if r.halt.Running? then r.(state := NULL) else r
  }

  function OnGtidOperation(cfg: Config, s0: Applier, op: Operation, env: Env): Applier
    requires op.Gtid?
  {
    var s := s0.(lastCheckpointTs := s0.lastAppliedTs);
    var r := match s.state
      case DDL => Checkpoint(s, env)
      case DCL => Checkpoint(s, env)
      case XID => if ForceMergeCommit(cfg, s) then MergeCommit(s, env) else s
      case NULL => s
      case _ => s.Fail(StateError);
    if !r.halt.Running? then r
    else
      var g := OnGtid(r, op, env);
      if g.halt.Running? then g.(state := GTID) else g
  }

  predicate NonDmlAllowed(state: State, op: Operation)
    requires op.IsNonDml()
  {
    || state.GTID?
    || (op.DdlTable? && state.DDL?)
    || (op.DclUser? && state.DCL?)
  }

  function SchemaOf(op: Operation): string
    requires op.IsNonDml()
  {
    if op.DdlDatabase? then "" else op.schemaContext
  }

  function OnNonDml(s: Applier, op: Operation, due: DueStmt, env: Env): Applier
    requires op.IsNonDml()
  {
    if !NonDmlAllowed(s.state, op) then s.Fail(StateError)
    else
      var m := MergeCommit(s, env);
      if !m.halt.Running? then m
      else
        var e := if due.Due? then ExecuteOnNonDml(m, SchemaOf(op), due.stmt, env) else m;
        if e.halt.Running? then e.(state := if op.DclUser? then DCL else DDL) else e
  }

  function OnBegin(s: Applier, env: Env): Applier
  {
    if !s.state.GTID? then s.Fail(StateError)
    else
      var b := if s.pending == 0 then SqlBegin(s, env) else s;
      if b.halt.Running? then b.(state := BEGIN) else b
  }

  function OnDml(s: Applier, due: DueStmt, env: Env): Applier
  {
    if !(s.state.BEGIN? || s.state.DML?) then s.Fail(StateError)
    else match due
      case Broken => s.Fail(RepairError)
      case Nothing => s.(state := DML)
      case Due(stmt) =>
        var e := ExecuteOnDml(s, stmt, env);
        if e.halt.Running? then e.(state := DML) else e
  }

  /** The XID only counts the transaction; `End` is recorded in the open destination transaction. */
  function OnXid(s: Applier): Applier
  {
    if !(s.state.BEGIN? || s.state.DML?) then s.Fail(StateError)
    else s.(pending := s.pending + 1, state := XID,
            tx := if s.tx.Some? then Some(s.tx.value + [End(s.Current())]) else None)
  }

  function Dispatch(cfg: Config, s: Applier, op: Operation, due: DueStmt, env: Env): Applier
  {
    if op.BinLogPos? then s
    else if op.Heartbeat? then OnHeartbeat(s, env)
    else if op.Gtid? then OnGtidOperation(cfg, s, op, env)
    else if op.IsNonDml() then OnNonDml(s, op, due, env)
    else if op.Begin? then OnBegin(s, env)
    else if op.IsDml() then OnDml(s, due, env)
    else if op.Xid? then OnXid(s)
    else s.Fail(UnknownOperation)
  }

  /** One turn of the applier's loop, given the statement the operation is due to run. */
  function ProcessDue(cfg: Config, s: Applier, op: Operation, due: DueStmt, env: Env): Applier
  {
    if s.gtidSkip && !op.Gtid? then s
    else
      var r := Dispatch(cfg, if s.gtidSkip then s.(state := NULL) else s, op, due, env);
      if r.halt.Running? && !op.BinLogPos? then r.(lastAppliedTs := op.ts) else r
  }

  function Step(cfg: Config, s: Applier, ev: Event): Applier
  {
    if !s.halt.Running? then s
    else match ev
      case Consume(op, env) => ProcessDue(cfg, s, op, StmtDue(cfg, op), env)
      case Cancel(env) => SqlRollback(s, env).Fail(Cancelled)
  }

  function Run(cfg: Config, start: GtidMap, trace: seq<Event>): Applier
  {
    if trace == [] then Initial(start)
    else Step(cfg, Run(cfg, start, trace[..|trace| - 1]), trace[|trace| - 1])
  }

  // ----- the reference: what a stream is due to do, without merging, states or failures

  /** `open` says that the last accepted transaction may still receive statements. */
  datatype Ref = Ref(gtids: GtidMap, skip: bool, open: bool, accepted: seq<Accepted>, due: seq<Entry>)
  {
    function Current(): nat { if accepted == [] then 0 else |accepted| - 1 }

    /** Number of accepted transactions that can receive no further statement. */
    function Finished(): nat { if open then Current() else |accepted| }
  }

  function RefInitial(start: GtidMap): Ref { Ref(start, false, false, [], []) }

  function RefDue(r: Ref, op: Operation, due: DueStmt): Ref
  {
    if op.Gtid? then
      if Skipped(r.gtids, op) then r.(skip := true, open := false)
      else r.(skip := false, open := true, gtids := r.gtids[op.uuid := TrxOf(op)],
              accepted := r.accepted + [Accepted(op.uuid, TrxOf(op), op.lastCommitted)])
    else if r.skip then r
    else if op.Heartbeat? then r.(open := false)
    else if op.Xid? then r.(open := false, due := r.due + [End(r.Current())])
    else if (op.IsDml() || op.IsNonDml()) && due.Due? then r.(due := r.due + [Exec(r.Current(), due.stmt)])
    else r
  }

  function RefStep(cfg: Config, r: Ref, op: Operation): Ref { RefDue(r, op, StmtDue(cfg, op)) }

  function RefRun(cfg: Config, r: Ref, ops: seq<Operation>): Ref
  {
    if ops == [] then r
    else RefStep(cfg, RefRun(cfg, r, ops[..|ops| - 1]), ops[|ops| - 1])
  }

  /** The operation was turned away before it had any effect. */
  predicate Refused(h: Halt) { h.StateError? || h.UnknownOperation? }

  /** The operations consumed by a trace: up to and including the one that halts the run,
      unless that one was refused. */
  function Consumed(cfg: Config, start: GtidMap, trace: seq<Event>): seq<Operation>
  {
    if trace == [] then []
    else
      var before := trace[..|trace| - 1];
      var last := trace[|trace| - 1];
      if Run(cfg, start, before).halt.Running? && last.Consume? && !Refused(Run(cfg, start, trace).halt)
      then Consumed(cfg, start, before) + [last.op]
      else Consumed(cfg, start, before)
  }

  /** The operations of a trace, consumed or not. */
  function StreamOf(trace: seq<Event>): seq<Operation>
  {
    if trace == [] then []
    else
      var before := StreamOf(trace[..|trace| - 1]);
      if trace[|trace| - 1].Consume? then before + [trace[|trace| - 1].op] else before
  }

  function Flat(commits: seq<DestCommit>): seq<Entry>
  {
    if commits == [] then [] else Flat(commits[..|commits| - 1]) + commits[|commits| - 1].entries
  }

  /** The GTID map after accepting the given transactions on top of `start`. */
  function MapAfter(start: GtidMap, accepted: seq<Accepted>): GtidMap
  {
    if accepted == [] then start
    else
      var a := accepted[|accepted| - 1];
      MapAfter(start, accepted[..|accepted| - 1])[a.uuid := a.trx]
  }
}
