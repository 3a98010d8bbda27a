/** What the statements sent to a destination do to its tables, and that each does what its operation did
    at the source (the statement builders of src/applier.go, src/patch.go, src/replicate.go). */
module Statements {
  import opened Prelude
  import opened Operations

  // ----- tables

  datatype Cell = Null | Val(v: Value)

  /** A row by column name; a table with a primary key holds no row twice. */
  type Row = map<string, Cell>
  type Table = set<Row>

  function CellOf(c: Column): Cell { if c.isNil then Null else Val(c.value) }

  function RowOf(cols: seq<Column>): Row
  {
    if cols == [] then map[] else RowOf(cols[..|cols| - 1])[cols[|cols| - 1].name := CellOf(cols[|cols| - 1])]
  }

  ghost predicate DistinctNames(cols: seq<Column>)
  {
    forall i, j :: 0 <= i < j < |cols| ==> cols[i].name != cols[j].name
  }

  lemma {:induction false} RowHolds(cols: seq<Column>)
    requires DistinctNames(cols)
    ensures forall i :: 0 <= i < |cols| ==> cols[i].name in RowOf(cols) && RowOf(cols)[cols[i].name] == CellOf(cols[i])
  {
    if cols != [] {
      RowHolds(cols[..|cols| - 1]);
      assert forall i :: 0 <= i < |cols| - 1 ==> cols[..|cols| - 1][i] == cols[i];
    }
  }

  // ----- what SQL makes of a statement

  /** WHERE a = ? AND b = ? over the key columns; a comparison with NULL selects nothing. */
  ghost predicate Selects(row: Row, cols: seq<Column>, key: seq<nat>)
  {
    forall i :: 0 <= i < |key| && key[i] < |cols| ==>
      var c := cols[key[i]]; !c.isNil && c.name in row && row[c.name] == CellOf(c)
  }

  /** Two rows that a primary key over these columns does not tell apart. */
  ghost predicate SameKey(a: Row, b: Row, names: seq<string>)
  {
    forall n :: n in names ==> n in a && n in b && a[n] == b[n]
  }

  /** INSERT, REPLACE, DELETE and UPDATE on a table whose primary key is over the named columns. */
  ghost function Effect(stmt: Stmt, t: Table, names: seq<string>): Table
  {
    match stmt
    case InsertStmt(_, _, cols) => t + {RowOf(cols)}
    case ReplaceStmt(_, _, cols) => (set r | r in t && !SameKey(r, RowOf(cols), names)) + {RowOf(cols)}
    case DeleteStmt(_, _, cols, key) => set r | r in t && !Selects(r, cols, key)
    case UpdateStmt(_, _, after, before, key) =>
      set r | r in t :: if Selects(r, before, key) then r + RowOf(after) else r
    case NonDmlStmt(_, _) => t
  }

  // ----- what an operation did at the source

  ghost function SourceEffect(op: Operation, t: Table): Table
  {
    match op
    case DmlInsert(_, _, _, cols, _) => t + {RowOf(cols)}
    case DmlDelete(_, _, _, cols, _) => t - {RowOf(cols)}
    case DmlUpdate(_, _, _, after, before, _) => t - {RowOf(before)} + {RowOf(after)}
    case _ => t
  }

  // ----- transport

  /** gob delivers an empty byte slice as a nil one. */
  function WireColumn(c: Column): Column { if c.value == Bytes([]) then c.(value := NilBytes) else c }

  function WireColumns(cols: seq<Column>): (r: seq<Column>)
    ensures |r| == |cols| && forall i :: 0 <= i < |cols| ==> r[i] == WireColumn(cols[i])
  {
    seq(|cols|, i requires 0 <= i < |cols| => WireColumn(cols[i]))
  }

  function Wire(op: Operation): Operation
  {
    match op
    case DmlInsert(ts, db, tab, cols, key) => DmlInsert(ts, db, tab, WireColumns(cols), key)
    case DmlDelete(ts, db, tab, cols, key) => DmlDelete(ts, db, tab, WireColumns(cols), key)
    case DmlUpdate(ts, db, tab, after, before, key) =>
      DmlUpdate(ts, db, tab, WireColumns(after), WireColumns(before), key)
    case _ => op
  }

  /** Type 252 covers the blob and text types. A non-NULL column of them is a byte slice, and no other column
      is an empty one. */
  predicate RestorableColumn(c: Column)
  {
    if c.ctype == 252 && !c.isNil then c.value.Bytes? else c.value != Bytes([])
  }

  predicate Restorable(cols: seq<Column>) { forall i :: 0 <= i < |cols| ==> RestorableColumn(cols[i]) }

  /** The repair after transport gives back exactly these columns. */
  lemma {:induction false} RepairUndoesWire(cols: seq<Column>)
    ensures Repair(WireColumns(cols)) == Some(cols) <==> Restorable(cols)
  {
    if cols != [] {
      var w := WireColumns(cols);
      assert w[1..] == WireColumns(cols[1..]);
      RepairUndoesWire(cols[1..]);
      assert cols == [cols[0]] + cols[1..];
      assert Restorable(cols) <==> RestorableColumn(cols[0]) && Restorable(cols[1..]) by {
        RestorableHead(cols);
      }
    }
  }

  lemma RestorableHead(cols: seq<Column>)
    requires cols != []
    ensures Restorable(cols) <==> RestorableColumn(cols[0]) && Restorable(cols[1..])
  {
    if RestorableColumn(cols[0]) && Restorable(cols[1..]) {
      forall i | 0 <= i < |cols| ensures RestorableColumn(cols[i])
      {
        if i > 0 { assert cols[i] == cols[1..][i - 1]; }
      }
    }
  }

  // ----- the statement does what the operation did

  /** The key columns of a row image: there is one, they exist, none is NULL. */
  ghost predicate KeyOk(cols: seq<Column>, key: seq<nat>, names: seq<string>)
  {
    && key != [] && |names| == |key| && DistinctNames(cols)
    && forall i :: 0 <= i < |key| ==> key[i] < |cols| && !cols[key[i]].isNil && cols[key[i]].name == names[i]
  }

  /** Every row has the key columns and no two rows share their values. */
  ghost predicate Keyed(t: Table, names: seq<string>)
  {
    forall a, b :: a in t && b in t && SameKey(a, b, names) ==> a == b
  }

  lemma SelectsItsKey(row: Row, cols: seq<Column>, key: seq<nat>, names: seq<string>)
    requires KeyOk(cols, key, names)
    ensures Selects(row, cols, key) <==> SameKey(row, RowOf(cols), names)
  {
    RowHolds(cols);
    if Selects(row, cols, key) {
      forall n | n in names ensures n in row && n in RowOf(cols) && row[n] == RowOf(cols)[n]
      {
        var i :| 0 <= i < |names| && names[i] == n;
        assert cols[key[i]].name == n;
      }
    }
    if SameKey(row, RowOf(cols), names) {
      forall i | 0 <= i < |key| && key[i] < |cols|
        ensures var c := cols[key[i]]; !c.isNil && c.name in row && row[c.name] == CellOf(c)
      {
        assert names[i] in names;
      }
    }
  }

  /** An insert adds its row; REPLACE does the same as long as no row has its key. */
  lemma InsertAddsItsRow(cfg: Config, op: Operation, t: Table, names: seq<string>)
    requires op.DmlInsert? && cfg.replicate.Passes(op.database, op.table) && Restorable(op.columns)
    requires forall r :: r in t ==> !SameKey(r, RowOf(op.columns), names)
    ensures var due := StmtDue(cfg, Wire(op));
            && due.Due? && due.stmt.database == op.database && due.stmt.table == op.table
            && Effect(due.stmt, t, names) == SourceEffect(op, t)
  {
    hide Repair, SameKey, RowOf;
    RepairUndoesWire(op.columns);
  }

  /** A delete removes the row with its key. */
  lemma DeleteRemovesItsRow(cfg: Config, op: Operation, t: Table, names: seq<string>)
    requires op.DmlDelete? && cfg.replicate.Passes(op.database, op.table) && Restorable(op.columns)
    requires KeyOk(op.columns, op.primaryKey, names) && Keyed(t, names) && RowOf(op.columns) in t
    ensures var due := StmtDue(cfg, Wire(op));
            && due.Due? && due.stmt.database == op.database && due.stmt.table == op.table
            && Effect(due.stmt, t, names) == SourceEffect(op, t)
  {
    hide Repair, RowOf, Selects;
    RepairUndoesWire(op.columns);
    forall r | r in t ensures Selects(r, op.columns, op.primaryKey) <==> r == RowOf(op.columns)
    {
      SelectsItsKey(r, op.columns, op.primaryKey, names);
      OwnKey(op.columns, op.primaryKey, names);
    }
  }

  lemma OwnKey(cols: seq<Column>, key: seq<nat>, names: seq<string>)
    requires KeyOk(cols, key, names)
    ensures SameKey(RowOf(cols), RowOf(cols), names)
  {
    RowHolds(cols);
    forall n | n in names ensures n in RowOf(cols)
    {
      var i :| 0 <= i < |names| && names[i] == n;
      assert cols[key[i]].name == n;
    }
  }

  /** Writing the whole after image over a row that has no other columns leaves the after image. */
  lemma Overwritten(before: Row, after: Row)
    requires before.Keys <= after.Keys
    ensures before + after == after
  {
  }

  lemma UpdateInPlace(after: seq<Column>, before: seq<Column>, key: seq<nat>, t: Table, names: seq<string>)
    requires KeyOk(before, key, names) && Keyed(t, names) && RowOf(before) in t
    requires RowOf(before).Keys <= RowOf(after).Keys
    ensures (set r | r in t :: if Selects(r, before, key) then r + RowOf(after) else r)
            == t - {RowOf(before)} + {RowOf(after)}
  {
    hide RowOf, Selects;
    forall r | r in t ensures Selects(r, before, key) <==> r == RowOf(before)
    {
      SelectsItsKey(r, before, key, names);
      OwnKey(before, key, names);
    }
    Overwritten(RowOf(before), RowOf(after));
    var out := set r | r in t :: if Selects(r, before, key) then r + RowOf(after) else r;
    forall r | r in t - {RowOf(before)} ensures r in out { assert r in t && !Selects(r, before, key); }
    assert RowOf(after) in out by { assert RowOf(before) in t; }
  }

  lemma UpdateByReplace(after: Row, before: Row, t: Table, names: seq<string>)
    requires Keyed(t, names) && before in t && SameKey(before, before, names)
    ensures (set r | r in t && !SameKey(r, after, names)) + {after} == t - {before} + {after}
            <==> SameKey(before, after, names)
  {
    if SameKey(before, after, names) {
      forall r | r in t ensures SameKey(r, after, names) <==> r == before
      {
        if SameKey(r, after, names) { assert SameKey(r, before, names); }
      }
    } else {
      assert before != after;
      assert before in (set r | r in t && !SameKey(r, after, names)) + {after};
      assert before !in t - {before} + {after};
    }
  }

  /** An update turns the before row into the after row, in replace mode exactly when the key is unchanged:
      REPLACE with a new key leaves the old row behind. */
  lemma UpdateReplacesItsRow(cfg: Config, op: Operation, t: Table, names: seq<string>)
    requires op.DmlUpdate? && cfg.replicate.Passes(op.database, op.table) && Restorable(op.before)
    requires Restorable(op.after)
    requires KeyOk(op.before, op.primaryKey, names) && Keyed(t, names) && RowOf(op.before) in t
    requires RowOf(op.before).Keys <= RowOf(op.after).Keys
    ensures var due := StmtDue(cfg, Wire(op));
            && due.Due? && due.stmt.database == op.database && due.stmt.table == op.table
            && (Effect(due.stmt, t, names) == SourceEffect(op, t)
                <==> !cfg.updateReplace || SameKey(RowOf(op.before), RowOf(op.after), names))
  {
    hide Repair, RowOf, Selects, SameKey, Keyed;
    RepairUndoesWire(op.before);
    RepairUndoesWire(op.after);
    OwnKey(op.before, op.primaryKey, names);
    UpdateInPlace(op.after, op.before, op.primaryKey, t, names);
    UpdateByReplace(RowOf(op.after), RowOf(op.before), t, names);
  }

  /** A row change without a key is not sent unless it is an insert. */
  lemma KeylessIsSkipped(cfg: Config, op: Operation)
    requires (op.DmlDelete? && op.primaryKey == []) || (op.DmlUpdate? && op.primaryKey == [])
    ensures !StmtDue(cfg, op).Due?
  {
  }

  ghost predicate Rejected(cfg: Config, op: Operation)
  {
    match op
    case DmlInsert(_, db, tab, _, _) => !cfg.replicate.Passes(db, tab)
    case DmlDelete(_, db, tab, _, _) => !cfg.replicate.Passes(db, tab)
    case DmlUpdate(_, db, tab, _, _, _) => !cfg.replicate.Passes(db, tab)
    case DdlDatabase(_, db, _) => !cfg.replicate.Passes(db, "")
    case DdlTable(_, schema, db, tab, _) => !cfg.replicate.Passes(schema, "") || !cfg.replicate.Passes(db, tab)
    case DclUser(_, schema, _) => !cfg.replicate.Passes(schema, "")
    case _ => false
  }

  /** Nothing is sent for an operation the filter rejects. */
  lemma RejectedIsNotSent(cfg: Config, op: Operation)
    requires Rejected(cfg, op)
    ensures StmtDue(cfg, op) == Nothing
  {
  }

  /** A DDL or DCL statement is the operation's own query, in the operation's own schema. */
  lemma NonDmlIsItsOwn(cfg: Config, op: Operation)
    requires op.IsNonDml() && !Rejected(cfg, op)
    ensures var schema := if op.DdlDatabase? then "" else op.schemaContext;
            StmtDue(cfg, op) == Due(NonDmlStmt(schema, op.query))
  {
  }

  // ----- the loops behind them

  /** contains() of src/helper.go; the lists are trimmed when they are read. */
  method Listed(value: string, list: seq<string>) returns (found: bool)
    ensures found <==> value in list
  {
    for i := 0 to |list|
      invariant value !in list[..i]
    {
      if list[i] == value { return true; }
    }
    found := false;
  }

  method Filter(rf: Replicate, db: string, tab: string) returns (pass: bool)
    ensures pass == rf.Passes(db, tab)
  {
    var name := db + "." + tab;
    if |rf.ignoreTabs| > 0 {
      var listed := Listed(name, rf.ignoreTabs);
      if listed { return false; }
    }
    if |rf.ignoreDbs| > 0 {
      var listed := Listed(db, rf.ignoreDbs);
      if listed { return false; }
    }
    if |rf.doDbs| > 0 {
      var listed := Listed(db, rf.doDbs);
      if !listed { return false; }
    }
    if |rf.doTabs| > 0 {
      var listed := Listed(name, rf.doTabs);
      if !listed { return false; }
    }
    pass := true;
  }

  lemma {:induction false} RepairConcat(a: seq<Column>, b: seq<Column>)
    ensures Repair(a + b)
            == if Repair(a).Some? && Repair(b).Some? then Some(Repair(a).value + Repair(b).value) else None
  {
    hide RepairColumn;
    if a == [] {
      assert a + b == b;
      if Repair(b).Some? { assert [] + Repair(b).value == Repair(b).value; }
    } else {
      assert (a + b)[1..] == a[1..] + b;
      RepairConcat(a[1..], b);
      if RepairColumn(a[0]).Some? && Repair(a[1..]).Some? && Repair(b).Some? {
        var c, front, back := RepairColumn(a[0]).value, Repair(a[1..]).value, Repair(b).value;
        assert [c] + front + back == [c] + (front + back);
      }
    }
  }

  lemma RepairOne(c: Column)
    ensures Repair([c]) == match RepairColumn(c) case Some(x) => Some([x]) case None => None
  {
    hide RepairColumn;
    assert [c][1..] == [];
    assert Repair([]) == Some([]);
    if RepairColumn(c).Some? { assert [RepairColumn(c).value] + [] == [RepairColumn(c).value]; }
  }

  /** A non-NULL blob column that is no byte slice. */
  predicate Unrepairable(cols: seq<Column>)
  {
    exists i :: 0 <= i < |cols| && cols[i].ctype == 252 && !cols[i].isNil && cols[i].value.Other?
  }

  lemma {:induction false} RepairFailsIff(cols: seq<Column>)
    ensures Repair(cols).None? <==> Unrepairable(cols)
  {
    if cols != [] {
      RepairFailsIff(cols[1..]);
      assert cols == [cols[0]] + cols[1..];
    }
  }

  ghost predicate Damaged(op: Operation)
  {
    match op
    case DmlInsert(_, _, _, cols, _) => Unrepairable(cols)
    case DmlDelete(_, _, _, cols, _) => Unrepairable(cols)
    case DmlUpdate(_, _, _, after, before, _) => Unrepairable(after) || Unrepairable(before)
    case _ => false
  }

  /** The handlers report an error exactly for an allowed row change with such a column. */
  lemma BrokenIff(cfg: Config, op: Operation)
    ensures StmtDue(cfg, op) == Broken <==> Damaged(op) && !Rejected(cfg, op)
  {
    hide Repair, Unrepairable;
    match op
    case DmlInsert(_, _, _, cols, _) => RepairFailsIff(cols);
    case DmlDelete(_, _, _, cols, _) => RepairFailsIff(cols);
    case DmlUpdate(_, _, _, after, before, _) => RepairFailsIff(after); RepairFailsIff(before);
    case _ =>
  }

  /** GobUint8NilRepair: the columns are repaired in place, up to the first that cannot be. */
  method RepairColumns(columns: seq<Column>) returns (r: Option<seq<Column>>)
    ensures r == Repair(columns)
  {
    hide Repair;
    var cols := columns;
    RepairNone();
    assert columns[..0] == [] && cols[..0] == [];
    for i := 0 to |columns|
      invariant |cols| == |columns| && cols[i..] == columns[i..]
      invariant Repair(columns[..i]) == Some(cols[..i])
    {
      var col := cols[i];
      assert col == cols[i..][0] && col == columns[i..][0];
      assert columns[..i + 1] == columns[..i] + [col];
      RepairConcat(columns[..i], [col]);
      RepairOne(col);
      ghost var kept := cols[..i];
      if col.ctype == 252 && !col.isNil {
        if col.value.NilBytes? {
          cols := cols[i := col.(value := Bytes([]))];
        } else if col.value.Other? {
          assert columns == columns[..i + 1] + columns[i + 1..];
          RepairConcat(columns[..i + 1], columns[i + 1..]);
          return None;
        }
      }
      assert cols[..i + 1] == kept + [cols[i]];
      assert cols[i + 1..] == columns[i..][1..];
    }
    assert columns[..|columns|] == columns && cols[..|columns|] == cols;
    r := Some(cols);
  }

  lemma RepairNone()
    ensures Repair([]) == Some([])
  {
  }

  /** What the handlers of src/applier.go build for an operation, branch by branch. */
  method StatementFor(cfg: Config, op: Operation) returns (due: DueStmt)
    ensures due == StmtDue(cfg, op)
  {
    hide Repair;
    match op {
      case DmlInsert(_, db, tab, columns, _) =>
        var pass := Filter(cfg.replicate, db, tab);
        if !pass { return Nothing; }
        var repaired := RepairColumns(columns);
        if repaired.None? { return Broken; }
        if cfg.insertReplace { return Due(ReplaceStmt(db, tab, repaired.value)); }
        due := Due(InsertStmt(db, tab, repaired.value));
      case DmlDelete(_, db, tab, columns, key) =>
        var pass := Filter(cfg.replicate, db, tab);
        if !pass { return Nothing; }
        var repaired := RepairColumns(columns);
        if repaired.None? { return Broken; }
        if |key| == 0 { return Nothing; }
        due := Due(DeleteStmt(db, tab, repaired.value, key));
      case DmlUpdate(_, db, tab, afterColumns, beforeColumns, key) =>
        var pass := Filter(cfg.replicate, db, tab);
        if !pass { return Nothing; }
        var after := RepairColumns(afterColumns);
        if after.None? { return Broken; }
        var before := RepairColumns(beforeColumns);
        if before.None? { return Broken; }
        if |key| == 0 { return Nothing; }
        if cfg.updateReplace { return Due(ReplaceStmt(db, tab, after.value)); }
        due := Due(UpdateStmt(db, tab, after.value, before.value, key));
      case DdlDatabase(_, db, query) =>
        var pass := Filter(cfg.replicate, db, "");
        due := if pass then Due(NonDmlStmt("", query)) else Nothing;
      case DdlTable(_, schema, db, tab, query) =>
        var schemaPasses := Filter(cfg.replicate, schema, "");
        if !schemaPasses { return Nothing; }
        var pass := Filter(cfg.replicate, db, tab);
        due := if pass then Due(NonDmlStmt(schema, query)) else Nothing;
      case DclUser(_, schema, query) =>
        var pass := Filter(cfg.replicate, schema, "");
        due := if pass then Due(NonDmlStmt(schema, query)) else Nothing;
      case _ => due := Nothing;
    }
  }
}
