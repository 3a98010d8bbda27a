/**
 The operation streams the applier accepts. A stream is read as a word of tokens: binlog
 positions and the operations inside a skipped region disappear, a skipped GTID stays as a
 token of its own. A run stops with a state error exactly when its word leaves the language
   ( heartbeat | skipped GTID | GTID ( BEGIN DML* XID | DDLDatabase DDLTable* | DDLTable+ | DCL+ ) )*
 */
module ApplierLanguage {
  import opened Prelude
  import opened Operations
  import opened Applier
  import opened ApplierSteps

  datatype Token = TBeat | TSkip | TGtid | TBegin | TDml | TXid | TDatabase | TTable | TDcl

  function TokenOf(r: Ref, op: Operation): Option<Token>
  {
    if op.Gtid? then Some(if Skipped(r.gtids, op) then TSkip else TGtid)
    else if r.skip then None
    else if op.Heartbeat? then Some(TBeat)
    else if op.Begin? then Some(TBegin)
    else if op.IsDml() then Some(TDml)
    else if op.Xid? then Some(TXid)
    else if op.DdlDatabase? then Some(TDatabase)
    else if op.DdlTable? then Some(TTable)
    else if op.DclUser? then Some(TDcl)
    else None
  }

  function Tokens(cfg: Config, start: GtidMap, ops: seq<Operation>): seq<Token>
  {
    if ops == [] then []
    else
      var before := ops[..|ops| - 1];
      var t := TokenOf(RefRun(cfg, RefInitial(start), before), ops[|ops| - 1]);
      if t.Some? then Tokens(cfg, start, before) + [t.value] else Tokens(cfg, start, before)
  }

  // ----- the language

  datatype Block = Beat | Skip | DmlTrx(n: nat) | DatabaseTrx(n: nat) | TableTrx(n: nat) | DclTrx(n: nat)

  function Repeat(t: Token, n: nat): seq<Token> { if n == 0 then [] else Repeat(t, n - 1) + [t] }

  function Word(b: Block): seq<Token>
  {
    match b
    case Beat => [TBeat]
    case Skip => [TSkip]
    case DmlTrx(n) => [TGtid, TBegin] + Repeat(TDml, n) + [TXid]
    case DatabaseTrx(n) => [TGtid, TDatabase] + Repeat(TTable, n)
    case TableTrx(n) => [TGtid, TTable] + Repeat(TTable, n)
    case DclTrx(n) => [TGtid, TDcl] + Repeat(TDcl, n)
  }

  function Unparse(blocks: seq<Block>): seq<Token>
  {
    if blocks == [] then [] else Unparse(blocks[..|blocks| - 1]) + Word(blocks[|blocks| - 1])
  }

  ghost predicate InLanguage(tokens: seq<Token>)
  {
    exists blocks :: tokens <= Unparse(blocks)
  }

  // ----- the automaton the applier implements

  predicate AtRest(q: State) { q.NULL? || q.XID? || q.DDL? || q.DCL? }

  function Next(q: State, t: Token): Option<State>
  {
    match t
    case TBeat => if AtRest(q) then Some(NULL) else None
    case TSkip => if AtRest(q) then Some(NULL) else None
    case TGtid => if AtRest(q) then Some(GTID) else None
    case TBegin => if q.GTID? then Some(BEGIN) else None
    case TDml => if q.BEGIN? || q.DML? then Some(DML) else None
    case TXid => if q.BEGIN? || q.DML? then Some(XID) else None
    case TDatabase => if q.GTID? then Some(DDL) else None
    case TTable => if q.GTID? || q.DDL? then Some(DDL) else None
    case TDcl => if q.GTID? || q.DCL? then Some(DCL) else None
  }

  function Reads(q: State, tokens: seq<Token>): Option<State>
  {
    if tokens == [] then Some(q)
    else
      var p := Reads(q, tokens[..|tokens| - 1]);
      if p.Some? then Next(p.value, tokens[|tokens| - 1]) else None
  }

  lemma {:induction false} ReadsConcat(q: State, a: seq<Token>, b: seq<Token>)
    ensures Reads(q, a + b) == if Reads(q, a).Some? then Reads(Reads(q, a).value, b) else None
  {
    if b == [] {
      assert a + b == a;
    } else {
      assert (a + b)[..|a + b| - 1] == a + b[..|b| - 1];
      ReadsConcat(q, a, b[..|b| - 1]);
    }
  }

  lemma {:induction false} ReadsRepeat(q: State, t: Token, n: nat)
    requires (t == TDml && (q.BEGIN? || q.DML?)) || (t == TTable && q.DDL?) || (t == TDcl && q.DCL?)
    ensures var p := Reads(q, Repeat(t, n));
            p.Some? && (p.value == q || (t == TDml && p.value.DML?))
  {
    if n > 0 {
      ReadsRepeat(q, t, n - 1);
      assert Repeat(t, n)[..|Repeat(t, n)| - 1] == Repeat(t, n - 1);
    }
  }

  lemma ReadsTwo(q: State, a: Token, b: Token)
    ensures Reads(q, [a, b]) == if Next(q, a).Some? then Next(Next(q, a).value, b) else None
  {
    assert [a, b][..1] == [a] && [a][..0] == [];
    assert Reads(q, [a]) == Next(q, a);
  }

  /** A transaction up to and including its repeated part. */
  lemma ReadsTransaction(q: State, first: Token, t: Token, n: nat)
    requires AtRest(q)
    requires || (first.TBegin? && t.TDml?)
             || ((first.TDatabase? || first.TTable?) && t.TTable?)
             || (first.TDcl? && t.TDcl?)
    ensures var p := Reads(q, [TGtid, first] + Repeat(t, n));
            p.Some? && (if first.TBegin? then p.value.BEGIN? || p.value.DML? else AtRest(p.value))
  {
    ReadsTwo(q, TGtid, first);
    ReadsConcat(q, [TGtid, first], Repeat(t, n));
    hide Reads, Repeat;
    ReadsRepeat(Next(GTID, first).value, t, n);
  }

  lemma ReadsWord(q: State, b: Block)
    requires AtRest(q)
    ensures Reads(q, Word(b)).Some? && AtRest(Reads(q, Word(b)).value)
  {
    match b {
      case Beat =>
      case Skip =>
      case DmlTrx(n) =>
        ReadsTransaction(q, TBegin, TDml, n);
        var w := [TGtid, TBegin] + Repeat(TDml, n);
        assert (w + [TXid])[..|w + [TXid]| - 1] == w;
      case DatabaseTrx(n) => ReadsTransaction(q, TDatabase, TTable, n);
      case TableTrx(n) => ReadsTransaction(q, TTable, TTable, n);
      case DclTrx(n) => ReadsTransaction(q, TDcl, TDcl, n);
    }
  }

  lemma {:induction false} ReadsUnparse(blocks: seq<Block>)
    ensures Reads(NULL, Unparse(blocks)).Some? && AtRest(Reads(NULL, Unparse(blocks)).value)
  {
    hide Word;
    if blocks != [] {
      var before := blocks[..|blocks| - 1];
      ReadsUnparse(before);
      ReadsConcat(NULL, Unparse(before), Word(blocks[|blocks| - 1]));
      ReadsWord(Reads(NULL, Unparse(before)).value, blocks[|blocks| - 1]);
    }
  }

  /** Where inside an unfinished transaction a read word ends. */
  datatype Partial = Whole | AfterGtid | InDml(n: nat) | InDatabase(n: nat) | InTable(n: nat) | InDcl(n: nat)

  function PartialWord(p: Partial): seq<Token>
  {
    match p
    case Whole => []
    case AfterGtid => [TGtid]
    case InDml(n) => [TGtid, TBegin] + Repeat(TDml, n)
    case InDatabase(n) => [TGtid, TDatabase] + Repeat(TTable, n)
    case InTable(n) => [TGtid, TTable] + Repeat(TTable, n)
    case InDcl(n) => [TGtid, TDcl] + Repeat(TDcl, n)
  }

  predicate Fits(q: State, p: Partial)
  {
    match q
    case NULL => p.Whole?
    case XID => p.Whole?
    case GTID => p.AfterGtid?
    case BEGIN => p == InDml(0)
    case DML => p.InDml?
    case DDL => p.InDatabase? || p.InTable?
    case DCL => p.InDcl?
  }

  /** A partial transaction completes to a block; at rest it already is one. */
  lemma Complete(blocks: seq<Block>, p: Partial) returns (more: seq<Block>)
    ensures Unparse(blocks) + PartialWord(p) <= Unparse(more)
    ensures !p.AfterGtid? && !p.InDml? ==> Unparse(blocks) + PartialWord(p) == Unparse(more)
  {
    if p.Whole? {
      more := blocks;
      assert Unparse(blocks) + [] == Unparse(blocks);
    } else {
      var b := if p.InDatabase? then DatabaseTrx(p.n)
               else if p.InTable? then TableTrx(p.n)
               else if p.InDcl? then DclTrx(p.n)
               else if p.InDml? then DmlTrx(p.n)
               else DmlTrx(0);
      more := blocks + [b];
      assert more[..|more| - 1] == blocks;
      assert PartialWord(p) <= Word(b) by {
        if p.AfterGtid? { assert Word(b)[..1] == [TGtid]; }
      }
    }
  }

  lemma UnparseAppend(blocks: seq<Block>, b: Block)
    ensures Unparse(blocks + [b]) == Unparse(blocks) + Word(b)
  {
    assert (blocks + [b])[..|blocks|] == blocks;
  }

  /** A token that continues the transaction. */
  lemma GrowPartial(p: Partial, q: State, t: Token) returns (p': Partial)
    requires Fits(q, p) && Next(q, t).Some? && !t.TXid? && !t.TBeat? && !t.TSkip? && !t.TGtid?
    ensures Fits(Next(q, t).value, p') && PartialWord(p') == PartialWord(p) + [t]
  {
    if q.GTID? {
      p' := if t.TBegin? then InDml(0)
            else if t.TDatabase? then InDatabase(0)
            else if t.TDcl? then InDcl(0)
            else InTable(0);
      assert Repeat(TDml, 0) == [];
      assert [TGtid, t] + [] == [TGtid] + [t];
    } else {
      p' := p.(n := p.n + 1);
      assert Repeat(t, p.n + 1) == Repeat(t, p.n) + [t];
    }
  }

  lemma ExtendPartial(blocks: seq<Block>, p: Partial, q: State, t: Token) returns (bs: seq<Block>, p': Partial)
    requires Fits(q, p) && Next(q, t).Some?
    ensures Fits(Next(q, t).value, p')
    ensures Unparse(bs) + PartialWord(p') == Unparse(blocks) + PartialWord(p) + [t]
  {
    hide Unparse, Repeat;
    var left := Unparse(blocks) + PartialWord(p);
    if t.TBeat? || t.TSkip? || t.TGtid? {
      bs := Complete(blocks, p);
      if t.TGtid? {
        p' := AfterGtid;
      } else {
        var b := if t.TBeat? then Beat else Skip;
        UnparseAppend(bs, b);
        bs, p' := bs + [b], Whole;
        assert Unparse(bs) + [] == Unparse(bs);
      }
    } else if t.TXid? {
      UnparseAppend(blocks, DmlTrx(p.n));
      bs, p' := blocks + [DmlTrx(p.n)], Whole;
      assert Unparse(bs) + [] == left + [t];
    } else {
      p' := GrowPartial(p, q, t);
      bs := blocks;
    }
  }

  lemma {:induction false} ParseTokens(tokens: seq<Token>) returns (blocks: seq<Block>, p: Partial)
    requires Reads(NULL, tokens).Some?
    ensures tokens == Unparse(blocks) + PartialWord(p) && Fits(Reads(NULL, tokens).value, p)
  {
    if tokens == [] {
      blocks, p := [], Whole;
    } else {
      hide Unparse, PartialWord, Fits, Next;
      var before := tokens[..|tokens| - 1];
      var bs, p0 := ParseTokens(before);
      blocks, p := ExtendPartial(bs, p0, Reads(NULL, before).value, tokens[|tokens| - 1]);
      assert tokens == before + [tokens[|tokens| - 1]];
    }
  }

  /** The automaton reads exactly the prefixes of words of the language. */
  lemma ReadsIsLanguage(tokens: seq<Token>)
    ensures Reads(NULL, tokens).Some? <==> InLanguage(tokens)
  {
    hide Reads, Unparse, PartialWord, Fits, AtRest;
    if Reads(NULL, tokens).Some? {
      var blocks, p := ParseTokens(tokens);
      var more := Complete(blocks, p);
      assert tokens <= Unparse(more);
    }
    if InLanguage(tokens) {
      var blocks :| tokens <= Unparse(blocks);
      ReadsUnparse(blocks);
      var rest := Unparse(blocks)[|tokens|..];
      assert Unparse(blocks) == tokens + rest;
      ReadsConcat(NULL, tokens, rest);
    }
  }

  // ----- the applier follows the automaton

  function Visible(s: Applier): State { if s.gtidSkip then NULL else s.state }

  lemma MergeKeepsControl(s: Applier, env: Env)
    requires s.halt.Running?
    ensures var c := MergeCommit(s, env);
            c.state == s.state && c.gtidSkip == s.gtidSkip && c.gtids == s.gtids && !Refused(c.halt)
  {
  }

  lemma NonDmlKeepsControl(s: Applier, schemaContext: string, stmt: Stmt, env: Env)
    requires s.halt.Running?
    ensures var e := ExecuteOnNonDml(s, schemaContext, stmt, env);
            e.state == s.state && e.gtidSkip == s.gtidSkip && !Refused(e.halt)
  {
  }

  lemma GtidReads(s: Applier, op: Operation, env: Env)
    requires s.halt.Running? && op.Gtid?
    ensures var g := OnGtid(s, op, env); g.gtidSkip == Skipped(s.gtids, op) && !Refused(g.halt)
  {
    hide MergeCommit;
    MergeKeepsControl(s.(gtidSkip := false), env);
  }

  ghost predicate FollowsToken(s: Applier, t: Applier, tok: Option<Token>)
  {
    && (t.halt.Running? ==>
          if tok.Some? then Next(Visible(s), tok.value) == Some(Visible(t)) else Visible(t) == Visible(s))
    && (t.halt.StateError? ==> tok.Some? && Next(Visible(s), tok.value).None?)
  }

  lemma GtidOperationReads(cfg: Config, s: Applier, r: Ref, op: Operation, due: DueStmt, env: Env)
    requires s.halt.Running? && s.gtids == r.gtids && s.gtidSkip == r.skip && op.Gtid?
    ensures FollowsToken(s, ProcessDue(cfg, s, op, due, env), TokenOf(r, op))
  {
    hide MergeCommit, OnGtid, ForceMergeCommit, Skipped;
    var s0 := if s.gtidSkip then s.(state := NULL) else s;
    var s1 := s0.(lastCheckpointTs := s0.lastAppliedTs);
    MergeKeepsControl(s1, env);
    GtidReads(s1, op, env);
    GtidReads(Checkpoint(s1, env), op, env);
    if MergeCommit(s1, env).halt.Running? { GtidReads(MergeCommit(s1, env), op, env); }
  }

  lemma NonDmlReads(cfg: Config, s: Applier, r: Ref, op: Operation, due: DueStmt, env: Env)
    requires s.halt.Running? && s.gtidSkip == r.skip && op.IsNonDml()
    ensures FollowsToken(s, ProcessDue(cfg, s, op, due, env), TokenOf(r, op))
  {
    hide MergeCommit, ExecuteOnNonDml;
    MergeKeepsControl(s, env);
    if due.Due? && MergeCommit(s, env).halt.Running? {
      NonDmlKeepsControl(MergeCommit(s, env), SchemaOf(op), due.stmt, env);
    }
  }

  lemma DmlReads(cfg: Config, s: Applier, r: Ref, op: Operation, due: DueStmt, env: Env)
    requires s.halt.Running? && s.gtidSkip == r.skip && (op.IsDml() || op.Begin? || op.Xid?)
    ensures FollowsToken(s, ProcessDue(cfg, s, op, due, env), TokenOf(r, op))
  {
    hide SqlBegin, ExecuteOnDml;
    SqlKeepsControl(s, due, env);
  }

  lemma StepReads(cfg: Config, s: Applier, r: Ref, op: Operation, due: DueStmt, env: Env)
    requires s.halt.Running? && s.gtids == r.gtids && s.gtidSkip == r.skip
    ensures FollowsToken(s, ProcessDue(cfg, s, op, due, env), TokenOf(r, op))
  {
    if op.Gtid? {
      GtidOperationReads(cfg, s, r, op, due, env);
    } else if op.IsNonDml() {
      NonDmlReads(cfg, s, r, op, due, env);
    } else if op.IsDml() || op.Begin? || op.Xid? {
      DmlReads(cfg, s, r, op, due, env);
    } else {
      hide MergeCommit;
      MergeKeepsControl(s.(lastCheckpointTs := s.lastAppliedTs), env);
    }
  }

  lemma SqlKeepsControl(s: Applier, due: DueStmt, env: Env)
    requires s.halt.Running?
    ensures var b := SqlBegin(s, env); b.gtidSkip == s.gtidSkip && !Refused(b.halt)
    ensures due.Due? ==> var e := ExecuteOnDml(s, due.stmt, env); e.gtidSkip == s.gtidSkip && !Refused(e.halt)
  {
  }

  /** While the run goes on, its visible state is what the automaton reads; once it has stopped
      with a state error, the automaton has rejected the word. */
  lemma {:induction false} RunReads(cfg: Config, start: GtidMap, trace: seq<Event>)
    requires forall i :: 0 <= i < |trace| ==> trace[i].Consume?
    ensures var s := Run(cfg, start, trace); var q := Reads(NULL, Tokens(cfg, start, StreamOf(trace)));
            && (s.halt.Running? ==> q == Some(Visible(s)) && Consumed(cfg, start, trace) == StreamOf(trace))
            && (s.halt.StateError? ==> q.None?)
  {
    hide StmtDue, ProcessDue, RefRun, TokenOf, Next, Visible;
    if trace == [] {
      assert Visible(Initial(start)) == NULL by { InitialIsNull(start); }
    } else {
      var before := trace[..|trace| - 1];
      var last := trace[|trace| - 1];
      RunReads(cfg, start, before);
      var s, t := Run(cfg, start, before), Run(cfg, start, trace);
      var ops, ops0 := StreamOf(trace), StreamOf(before);
      var r := RefRun(cfg, RefInitial(start), ops0);
      assert ops == ops0 + [last.op] && ops[..|ops| - 1] == ops0;
      var tok := TokenOf(r, last.op);
      var w0, w := Tokens(cfg, start, ops0), Tokens(cfg, start, ops);
      assert w == if tok.Some? then w0 + [tok.value] else w0;
      if tok.Some? { assert w[..|w| - 1] == w0; }
      if s.halt.Running? {
        RunningMatches(cfg, start, before);
        StepReads(cfg, s, r, last.op, StmtDue(cfg, last.op), last.env);
      }
    }
  }

  lemma InitialIsNull(start: GtidMap)
    ensures Visible(Initial(start)) == NULL
  {
  }

  lemma RunningMatches(cfg: Config, start: GtidMap, trace: seq<Event>)
    requires Run(cfg, start, trace).halt.Running?
    ensures var s := Run(cfg, start, trace); var r := RefRun(cfg, RefInitial(start), Consumed(cfg, start, trace));
            s.gtids == r.gtids && s.gtidSkip == r.skip
  {
    EveryRunKeeps(cfg, start, trace);
  }

  /** A run that is not stopped for another reason goes on exactly while its word stays a prefix
      of a word of the language. */
  lemma AcceptedLanguage(cfg: Config, start: GtidMap, trace: seq<Event>)
    requires forall i :: 0 <= i < |trace| ==> trace[i].Consume?
    requires var h := Run(cfg, start, trace).halt; h.Running? || h.StateError?
    ensures Run(cfg, start, trace).halt.Running? <==> InLanguage(Tokens(cfg, start, StreamOf(trace)))
  {
    hide Run, Tokens, Consumed;
    RunReads(cfg, start, trace);
    ReadsIsLanguage(Tokens(cfg, start, StreamOf(trace)));
  }

  lemma GtidNeedsRest(cfg: Config, s: Applier, op: Operation, env: Env)
    requires s.halt.Running? && !s.gtidSkip && (s.state.BEGIN? || s.state.DML?) && op.Gtid?
    ensures Step(cfg, s, Consume(op, env)).halt.StateError?
  {
  }

  lemma SkippedWord()
    ensures !InLanguage([TGtid, TBegin, TSkip]) && InLanguage([TGtid, TBegin])
  {
    ReadsTwo(NULL, TGtid, TBegin);
    assert [TGtid, TBegin, TSkip][..2] == [TGtid, TBegin];
    ReadsIsLanguage([TGtid, TBegin, TSkip]);
    ReadsIsLanguage([TGtid, TBegin]);
  }

  /** The state after transaction 6 of server u has begun on a destination that holds 5. */
  lemma TransactionBegun(cfg: Config, env: Env)
    requires env.begin.BeginOk? && env.mergeCommit.CommitOk?
    ensures var s := Run(cfg, map["u" := 5], [Consume(Gtid(0, "u", 6, 0), env), Consume(Begin(0), env)]);
            s.halt.Running? && s.state.BEGIN? && !s.gtidSkip && s.gtids == map["u" := 6]
  {
    var e1, e2 := Consume(Gtid(0, "u", 6, 0), env), Consume(Begin(0), env);
    var s0 := Initial(map["u" := 5]);
    assert map["u" := 5]["u" := 6] == map["u" := 6];
    var s1 := s0.(state := GTID, gtids := map["u" := 6], accepted := [Accepted("u", 6, 0)]);
    assert [] + [Accepted("u", 6, 0)] == [Accepted("u", 6, 0)];
    assert Step(cfg, s0, e1) == s1;
    assert [e1, e2][..1] == [e1] && [e1][..0] == [];
    assert Run(cfg, map["u" := 5], []) == s0;
    assert Run(cfg, map["u" := 5], [e1]) == s1;
  }

  /** Dropping a skipped region altogether would describe too much: a skipped GTID that arrives
      inside a transaction is a state error, although the stream without it is fine. */
  lemma SkippedGtidInsideTransaction(cfg: Config, env: Env)
    requires env.begin.BeginOk? && env.mergeCommit.CommitOk?
    ensures var begun := [Consume(Gtid(0, "u", 6, 0), env), Consume(Begin(0), env)];
            var known := Gtid(0, "u", 5, 0);
            && Run(cfg, map["u" := 5], begun).halt.Running?
            && Skipped(Run(cfg, map["u" := 5], begun).gtids, known)
            && Run(cfg, map["u" := 5], begun + [Consume(known, env)]).halt.StateError?
    ensures !InLanguage([TGtid, TBegin, TSkip]) && InLanguage([TGtid, TBegin])
  {
    TransactionBegun(cfg, env);
    hide Step;
    SkippedWord();
    var begun := [Consume(Gtid(0, "u", 6, 0), env), Consume(Begin(0), env)];
    var last := Consume(Gtid(0, "u", 5, 0), env);
    GtidNeedsRest(cfg, Run(cfg, map["u" := 5], begun), last.op, env);
    assert (begun + [last])[..2] == begun;
    assert Run(cfg, map["u" := 5], begun + [last]) == Step(cfg, Run(cfg, map["u" := 5], begun), last);
  }
}
