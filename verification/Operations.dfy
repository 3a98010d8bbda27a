/**
 The operations a destination receives (src/operation.go), the replicate filter
 (src/replicate.go) and the statement each operation asks the destination to run.
 */
module Operations {
  import opened Prelude

  /** A column value as gob delivers it: an empty byte slice arrives as a nil one. */
  datatype Value = NilBytes | Bytes(bytes: seq<bv8>) | Other(text: string)

  datatype Column = Column(name: string, ctype: nat, value: Value, isNil: bool)

  datatype Operation =
    | BinLogPos(ts: nat, file: string, pos: nat)
    | Heartbeat(ts: nat)
    | Gtid(ts: nat, uuid: string, trxId: int, lastCommitted: int)
    | DdlDatabase(ts: nat, database: string, query: string)
    | DdlTable(ts: nat, schemaContext: string, database: string, table: string, query: string)
    | DclUser(ts: nat, schemaContext: string, query: string)
    | Begin(ts: nat)
    | DmlInsert(ts: nat, database: string, table: string, columns: seq<Column>, primaryKey: seq<nat>)
    | DmlDelete(ts: nat, database: string, table: string, columns: seq<Column>, primaryKey: seq<nat>)
    | DmlUpdate(ts: nat, database: string, table: string,
                after: seq<Column>, before: seq<Column>, primaryKey: seq<nat>)
    | Xid(ts: nat)
    | Unknown(ts: nat)
  {
    predicate IsDml() { DmlInsert? || DmlDelete? || DmlUpdate? }
    predicate IsNonDml() { DdlDatabase? || DdlTable? || DclUser? }
  }

  /** What is sent to the destination server. The SQL text itself is not modelled. */
  datatype Stmt =
    | InsertStmt(database: string, table: string, columns: seq<Column>)
    | ReplaceStmt(database: string, table: string, columns: seq<Column>)
    | DeleteStmt(database: string, table: string, columns: seq<Column>, key: seq<nat>)
    | UpdateStmt(database: string, table: string, after: seq<Column>, before: seq<Column>, key: seq<nat>)
    | NonDmlStmt(schemaContext: string, query: string)

  /** The replicate filter; `ignoreDbs` already contains "mysql" and all lists are trimmed. */
  datatype Replicate = Replicate(doDbs: seq<string>, ignoreDbs: seq<string>,
                                 doTabs: seq<string>, ignoreTabs: seq<string>)
  {
    predicate Passes(db: string, tab: string) {
      && db + "." + tab !in ignoreTabs
      && db !in ignoreDbs
      && (doDbs == [] || db in doDbs)
      && (doTabs == [] || db + "." + tab in doTabs)
    }
  }

  datatype Config = Config(replicate: Replicate, insertReplace: bool, updateReplace: bool,
                           maxCount: nat, maxDelay: nat)

  const BLOB_TYPE: nat := 252

  /** One column: an empty byte slice is restored, a blob without bytes is an error. */
  function RepairColumn(c: Column): Option<Column>
  {
    if c.ctype != BLOB_TYPE || c.isNil then Some(c)
    else match c.value
      case Other(_) => None
      case NilBytes => Some(c.(value := Bytes([])))
      case Bytes(_) => Some(c)
  }

  /** GobUint8NilRepair: restores empty byte slices, fails on a blob column without bytes. */
  function Repair(columns: seq<Column>): Option<seq<Column>>
  {
    if columns == [] then Some([])
    else
      match (RepairColumn(columns[0]), Repair(columns[1..]))
      case (Some(c), Some(rest)) => Some([c] + rest)
      case _ => None
  }

  datatype DueStmt = Nothing | Broken | Due(stmt: Stmt)

  /** The statement an operation is due to run on the destination, if any. */
  function StmtDue(cfg: Config, op: Operation): DueStmt
  {
    match op
    case DmlInsert(_, db, tab, cols, _) =>
      if !cfg.replicate.Passes(db, tab) then Nothing
      else (match Repair(cols)
            case None => Broken
            case Some(cs) => Due(if cfg.insertReplace then ReplaceStmt(db, tab, cs) else InsertStmt(db, tab, cs)))
    case DmlDelete(_, db, tab, cols, key) =>
      if !cfg.replicate.Passes(db, tab) then Nothing
      else (match Repair(cols)
            case None => Broken
            case Some(cs) => if key == [] then Nothing else Due(DeleteStmt(db, tab, cs, key)))
    case DmlUpdate(_, db, tab, after, before, key) =>
      if !cfg.replicate.Passes(db, tab) then Nothing
      else if Repair(after).None? || Repair(before).None? then Broken
      else if key == [] then Nothing
      else if cfg.updateReplace then Due(ReplaceStmt(db, tab, Repair(after).value))
      else Due(UpdateStmt(db, tab, Repair(after).value, Repair(before).value, key))
    case DdlDatabase(_, db, query) =>
      if cfg.replicate.Passes(db, "") then Due(NonDmlStmt("", query)) else Nothing
    case DdlTable(_, schema, db, tab, query) =>
      if cfg.replicate.Passes(schema, "") && cfg.replicate.Passes(db, tab)
      then Due(NonDmlStmt(schema, query)) else Nothing
    case DclUser(_, schema, query) =>
      if cfg.replicate.Passes(schema, "") then Due(NonDmlStmt(schema, query)) else Nothing
    case _ => Nothing
  }
}
