/** The point of it all: the destination's tables are the source's. What a DDL or DCL query does is a
    parameter, the same on both sides. */
module Replica {
  import opened Prelude
  import opened Operations
  import opened Applier
  import opened ApplierTheorems
  import opened ApplierRecovery
  import opened Statements

  datatype TableName = TableName(database: string, table: string)

  /** Tables by name, and the columns of each primary key. */
  datatype Database = Database(tables: map<TableName, Table>, keys: map<TableName, seq<string>>)
  {
    function Rows(n: TableName): Table { if n in tables then tables[n] else {} }

    function Key(n: TableName): seq<string> { if n in keys then keys[n] else [] }

    function With(n: TableName, t: Table): Database { this.(tables := tables[n := t]) }
  }

  /** What a query in a schema makes of a database. */
  type Query = (string, string, Database) -> Database

  // ----- the destination: statements one after another

  ghost function Execute(stmt: Stmt, db: Database, query: Query): Database
  {
    if stmt.NonDmlStmt? then query(stmt.schemaContext, stmt.query, db)
    else
      var n := TableName(stmt.database, stmt.table);
      db.With(n, Effect(stmt, db.Rows(n), db.Key(n)))
  }

  ghost function ExecuteAll(entries: seq<Entry>, db: Database, query: Query): Database
  {
    if entries == [] then db
    else
      var before := ExecuteAll(entries[..|entries| - 1], db, query);
      var e := entries[|entries| - 1];
      if e.Exec? then Execute(e.stmt, before, query) else before
  }

  // ----- the source: the changes the operations report

  ghost function Change(cfg: Config, op: Operation, db: Database, query: Query): Database
  {
    if Rejected(cfg, op) then db
    else if op.IsDml() then
      var n := TableName(op.database, op.table);
      db.With(n, SourceEffect(op, db.Rows(n)))
    else if op.IsNonDml() then query(if op.DdlDatabase? then "" else op.schemaContext, op.query, db)
    else db
  }

  function WireAll(src: seq<Operation>): (r: seq<Operation>)
    ensures |r| == |src| && forall i :: 0 <= i < |src| ==> r[i] == Wire(src[i])
  {
    seq(|src|, i requires 0 <= i < |src| => Wire(src[i]))
  }

  /** The source's changes from the transactions the destination did not have, as far as the filter lets
      them through. */
  ghost function Changes(cfg: Config, start: GtidMap, src: seq<Operation>, db: Database, query: Query): Database
  {
    if src == [] then db
    else
      var before := src[..|src| - 1];
      var now := Changes(cfg, start, before, db, query);
      if RefRun(cfg, RefInitial(start), WireAll(before)).skip then now
      else Change(cfg, src[|src| - 1], now, query)
  }

  /** A row change as a source with primary keys reports it: whole rows that are there, found by a key that
      no other row has; and, where updates are sent as REPLACE, a key that does not change. */
  ghost predicate Reported(cfg: Config, op: Operation, t: Table, names: seq<string>)
  {
    match op
    case DmlInsert(_, _, _, cols, _) =>
      Restorable(cols) && forall r :: r in t ==> !SameKey(r, RowOf(cols), names)
    case DmlDelete(_, _, _, cols, key) =>
      Restorable(cols) && KeyOk(cols, key, names) && Keyed(t, names) && RowOf(cols) in t
    case DmlUpdate(_, _, _, after, before, key) =>
      && Restorable(after) && Restorable(before) && KeyOk(before, key, names) && Keyed(t, names)
      && RowOf(before) in t && RowOf(before).Keys <= RowOf(after).Keys
      && (cfg.updateReplace ==> SameKey(RowOf(before), RowOf(after), names))
    case _ => true
  }

  /** Operation i is a row change that is neither filtered nor skipped. */
  ghost predicate Applies(cfg: Config, start: GtidMap, src: seq<Operation>, i: nat)
    requires i < |src|
  {
    src[i].IsDml() && !Rejected(cfg, src[i]) && !RefRun(cfg, RefInitial(start), WireAll(src[..i])).skip
  }

  /** Every row change that is to be applied is reported so. */
  ghost predicate WellReported(cfg: Config, start: GtidMap, src: seq<Operation>, db: Database, query: Query)
  {
    forall i :: 0 <= i < |src| && Applies(cfg, start, src, i) ==>
      var now := Changes(cfg, start, src[..i], db, query);
      var n := TableName(src[i].database, src[i].table);
      Reported(cfg, src[i], now.Rows(n), now.Key(n))
  }

  // ----- the two are the same

  lemma StatementDoesTheChange(cfg: Config, op: Operation, db: Database, query: Query)
    requires op.IsDml() && !Rejected(cfg, op)
    requires var n := TableName(op.database, op.table); Reported(cfg, op, db.Rows(n), db.Key(n))
    ensures var due := StmtDue(cfg, Wire(op)); due.Due? && Execute(due.stmt, db, query) == Change(cfg, op, db, query)
  {
    hide StmtDue, Effect, SourceEffect, Restorable, RowOf, KeyOk, Keyed, SameKey;
    var n := TableName(op.database, op.table);
    var t, names := db.Rows(n), db.Key(n);
    match op {
      case DmlInsert(_, _, _, _, _) => InsertAddsItsRow(cfg, op, t, names);
      case DmlDelete(_, _, _, _, _) => DeleteRemovesItsRow(cfg, op, t, names);
      case DmlUpdate(_, _, _, _, _, _) => UpdateReplacesItsRow(cfg, op, t, names);
    }
    DmlStaysDml(cfg, Wire(op));
  }

  lemma DmlStaysDml(cfg: Config, op: Operation)
    ensures op.IsDml() && StmtDue(cfg, op).Due? ==> !StmtDue(cfg, op).stmt.NonDmlStmt?
  {
    hide Repair;
  }

  /** What the reference adds for one operation does what the operation did. */
  lemma DueDoesTheChange(cfg: Config, r: Ref, op: Operation, db: Database, query: Query)
    requires !r.skip
    requires op.IsDml() && !Rejected(cfg, op) ==>
               var n := TableName(op.database, op.table); Reported(cfg, op, db.Rows(n), db.Key(n))
    ensures var t := RefStep(cfg, r, Wire(op));
            || (t.due == r.due && Change(cfg, op, db, query) == db)
            || (t.due == r.due + [End(r.Current())] && Change(cfg, op, db, query) == db)
            || (exists stmt :: t.due == r.due + [Exec(r.Current(), stmt)]
                               && Execute(stmt, db, query) == Change(cfg, op, db, query))
  {
    hide StmtDue, Effect, SourceEffect, Reported, Execute, Skipped;
    var w := Wire(op);
    if Rejected(cfg, op) {
      assert Rejected(cfg, w) && !w.Gtid? && !w.Xid? && !w.Heartbeat?;
      RejectedIsNotSent(cfg, w);
    } else if op.IsDml() {
      StatementDoesTheChange(cfg, op, db, query);
      assert RefStep(cfg, r, w).due == r.due + [Exec(r.Current(), StmtDue(cfg, w).stmt)];
    } else if op.IsNonDml() {
      NonDmlDoesTheChange(cfg, op, db, query);
      assert RefStep(cfg, r, w).due == r.due + [Exec(r.Current(), StmtDue(cfg, w).stmt)];
    }
  }

  lemma NonDmlDoesTheChange(cfg: Config, op: Operation, db: Database, query: Query)
    requires op.IsNonDml() && !Rejected(cfg, op)
    ensures Wire(op) == op && StmtDue(cfg, op).Due?
    ensures Execute(StmtDue(cfg, op).stmt, db, query) == Change(cfg, op, db, query)
  {
    hide StmtDue;
    NonDmlIsItsOwn(cfg, op);
  }

  lemma ExecuteNext(entries: seq<Entry>, e: Entry, db: Database, query: Query)
    ensures var before := ExecuteAll(entries, db, query);
            ExecuteAll(entries + [e], db, query) == if e.Exec? then Execute(e.stmt, before, query) else before
  {
    assert (entries + [e])[..|entries|] == entries;
  }

  lemma SkippedStepDoesNothing(cfg: Config, r: Ref, op: Operation)
    requires r.skip
    ensures RefStep(cfg, r, op).due == r.due
  {
    hide StmtDue;
  }

  /** Executing what the reference is due to do makes the source's changes. */
  lemma {:induction false} DueMakesTheChanges(cfg: Config, start: GtidMap, src: seq<Operation>, db: Database,
                                              query: Query)
    requires WellReported(cfg, start, src, db, query)
    ensures ExecuteAll(RefRun(cfg, RefInitial(start), WireAll(src)).due, db, query)
            == Changes(cfg, start, src, db, query)
  {
    hide RefStep, Change, Reported, Execute, RefRun, Rejected;
    if src == [] {
      NothingRun(cfg, start);
    } else {
      var before, op := src[..|src| - 1], src[|src| - 1];
      ReportedPrefix(cfg, start, src, db, query);
      DueMakesTheChanges(cfg, start, before, db, query);
      var r := RefRun(cfg, RefInitial(start), WireAll(before));
      assert WireAll(src)[..|src| - 1] == WireAll(before);
      RefRunLast(cfg, RefInitial(start), WireAll(src));
      var t := RefStep(cfg, r, Wire(op));
      if r.skip {
        SkippedStepDoesNothing(cfg, r, Wire(op));
      } else {
        var now := Changes(cfg, start, before, db, query);
        DueDoesTheChange(cfg, r, op, now, query);
        ExecuteNext(r.due, End(r.Current()), db, query);
        if stmt :| t.due == r.due + [Exec(r.Current(), stmt)]
                   && Execute(stmt, now, query) == Change(cfg, op, now, query) {
          ExecuteNext(r.due, Exec(r.Current(), stmt), db, query);
        }
      }
    }
  }

  lemma NothingRun(cfg: Config, start: GtidMap)
    ensures RefRun(cfg, RefInitial(start), WireAll([])).due == []
  {
    assert WireAll([]) == [];
  }

  lemma ReportedPrefix(cfg: Config, start: GtidMap, src: seq<Operation>, db: Database, query: Query)
    requires src != [] && WellReported(cfg, start, src, db, query)
    ensures WellReported(cfg, start, src[..|src| - 1], db, query)
    ensures var now := Changes(cfg, start, src[..|src| - 1], db, query); var op := src[|src| - 1];
            op.IsDml() && !Rejected(cfg, op) && !RefRun(cfg, RefInitial(start), WireAll(src[..|src| - 1])).skip ==>
              var n := TableName(op.database, op.table); Reported(cfg, op, now.Rows(n), now.Key(n))
  {
    hide Changes, Reported, RefRun, Rejected;
    var before := src[..|src| - 1];
    forall i | 0 <= i < |before| && Applies(cfg, start, before, i)
      ensures var now := Changes(cfg, start, before[..i], db, query);
              var n := TableName(before[i].database, before[i].table);
              Reported(cfg, before[i], now.Rows(n), now.Key(n))
    {
      assert before[..i] == src[..i];
      assert Applies(cfg, start, src, i);
    }
    var last := |src| - 1;
    if Applies(cfg, start, src, last) { assert src[..last] == before; }
  }

  /** While an applier runs, the commits and the open transaction of the destination, executed on what it
      started with, give the source's changes; at a quiescent point its commits alone do. */
  lemma DestinationIsTheSource(cfg: Config, start: GtidMap, trace: seq<Event>, src: seq<Operation>, db: Database,
                               query: Query)
    requires StreamOf(trace) == WireAll(src) && WellReported(cfg, start, src, db, query)
    requires Run(cfg, start, trace).halt.Running?
    ensures var s := Run(cfg, start, trace);
            && ExecuteAll(Flat(s.committed) + s.Open(), db, query) == Changes(cfg, start, src, db, query)
            && (s.tx.None? ==> ExecuteAll(Flat(s.committed), db, query) == Changes(cfg, start, src, db, query))
  {
    hide Run, RefRun, Flat, ExecuteAll, Changes, WellReported, StreamOf, Consumed;
    var s := Run(cfg, start, trace);
    Conservation(cfg, start, trace);
    RunningConsumedAll(cfg, start, trace);
    DueMakesTheChanges(cfg, start, src, db, query);
    if s.tx.None? { assert Flat(s.committed) + s.Open() == Flat(s.committed); }
  }

  /** An operation the filter rejects leaves no entry behind, committed or open. */
  lemma RejectedLeavesNoEntry(cfg: Config, start: GtidMap, trace: seq<Event>, op: Operation, env: Env)
    requires Rejected(cfg, op) && Run(cfg, start, trace + [Consume(op, env)]).halt.Running?
    ensures var s, t := Run(cfg, start, trace), Run(cfg, start, trace + [Consume(op, env)]);
            Flat(t.committed) + t.Open() == Flat(s.committed) + s.Open()
  {
    hide Step, RefRun, Flat, Consumed;
    var more := trace + [Consume(op, env)];
    assert more[..|trace|] == trace;
    assert Run(cfg, start, trace).halt.Running? by { HaltedStays(cfg, Run(cfg, start, trace), Consume(op, env)); }
    Conservation(cfg, start, trace);
    Conservation(cfg, start, more);
    RunningConsumedAll(cfg, start, trace);
    RunningConsumedAll(cfg, start, more);
    assert StreamOf(more)[..|StreamOf(trace)|] == StreamOf(trace);
    RefRunLast(cfg, RefInitial(start), StreamOf(more));
    RejectedIsNotDue(cfg, RefRun(cfg, RefInitial(start), StreamOf(trace)), op);
  }

  lemma HaltedStays(cfg: Config, s: Applier, ev: Event)
    ensures !s.halt.Running? ==> Step(cfg, s, ev) == s
  {
  }

  lemma RejectedIsNotDue(cfg: Config, r: Ref, op: Operation)
    requires Rejected(cfg, op)
    ensures RefStep(cfg, r, op).due == r.due
  {
    hide StmtDue;
    RejectedIsNotSent(cfg, op);
  }

  /** A damaged row change that is neither skipped nor filtered stops the applier, and nothing is committed
      or checkpointed with it. */
  lemma DamagedStops(cfg: Config, start: GtidMap, trace: seq<Event>, op: Operation, env: Env)
    requires Damaged(op) && !Rejected(cfg, op)
    requires Run(cfg, start, trace).halt.Running? && !Run(cfg, start, trace).gtidSkip
    ensures var s, t := Run(cfg, start, trace), Run(cfg, start, trace + [Consume(op, env)]);
            && t == s.Fail(if s.state.BEGIN? || s.state.DML? then RepairError else StateError)
            && !t.halt.Running?
  {
    hide StmtDue;
    assert (trace + [Consume(op, env)])[..|trace|] == trace;
    BrokenIff(cfg, op);
  }

  /** The client switches to the schema that the statement belongs to. */
  lemma SchemaIsTheStatements(cfg: Config, op: Operation)
    requires op.IsNonDml() && StmtDue(cfg, op).Due?
    ensures StmtDue(cfg, op).stmt.NonDmlStmt? && StmtDue(cfg, op).stmt.schemaContext == SchemaOf(op)
  {
  }
}
