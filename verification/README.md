# Verified model of a MySQL replication pipeline

The system copies a MySQL source to several destinations. A Go process cuts the binlog into
operations, fans them out in numbered batches over TCP, and each destination applies them, merging
source transactions into larger commits and writing GTID checkpoints to Consul. Beside it lives a
Python binlog reader with GTID interval sets and decoders for MySQL's binary formats.

Four parts are modelled in Dafny.

**The destination applier** (`Applier*.dfy`, `Operations.dfy`, `Statements.dfy`, `Replica.dfy`).
`Applier` is the transition system of `MysqlApplier.Start`: one step for each operation and for each
answer SQL and Consul may give, including a commit that reports failure but took effect. Beside it
stands a reference (`Ref`, `RefRun`) that knows nothing of merging, transactions or failures and
only says what the operations are due to do. `ApplierInvariants` and `ApplierSteps` prove one
invariant for all runs, `ApplierTheorems` and `ApplierRecovery` draw the promises from it,
`ApplierLanguage` characterises the operation streams the applier accepts, `ApplierCheckpoints`
bounds checkpoints from below, and `ApplierClasses` is the program in the source's own form, with
fields changed in place, proved to follow the transition system. `Statements` says what a statement
does to a table, apart from how it is built, and `Replica` that the destination's tables become the
source's. `CheckpointText` and `CommonStart` are the printed checkpoint and the common starting
point of several destinations. `Pipeline` joins these parts with the fan-out.

**The batch fan-out** (`FanOut.dfy`, `FanOutProgress.dfy`, `FanOutClasses.dfy`,
`AdaptiveFetch.dfy`). The server, its connections and the clients as interleaved steps over FIFO
channels, with failing sends, resends and dead clients, proved both safe and able to go on; the two
ends of a connection as objects; the batch-size controller.

**GTID interval sets** (`GtidIntervals.dfy`, `GtidSets.dfy`, `GtidText.dfy`, `GtidForms.dfy`,
`GtidCodec.dfy`). Lists of right-open intervals against plain sets of integers, their text form and
their binary form.

**Binary decoders** (`JsonOpaque.dfy`, `JsonBinary.dfy`, `JsonEncoding.dfy`, `JsonMalformed.dfy`,
`JsonTermination.dfy`, `Packets.dfy`, `Decimals.dfy`, `DecimalDecoders.dfy`, `Bitmaps.dfy`,
`RowImages.dfy`, `RowTermination.dfy`, `RowReaders.dfy`). Each is proved to invert a reference
encoder that is written from the storage format.

`Prelude`, `Text` and `Bytes` hold what the parts share.

## Where the code does not keep a promise

Each of these is proved, with a concrete input and the exact condition under which the promise holds.

- A DDL or DCL statement that arrives while commits are pending is covered by a persisted checkpoint
  before it runs. If it then fails, a restart from that checkpoint never runs it
  (`EarlyCheckpointLosesDdl`). It happens exactly when commits are pending and Consul answers
  (`EarlyCheckpoint`), which needs a DDL transaction with the `LastCommitted` of the transaction
  before it; without such a transaction no checkpoint runs ahead of the consumed operations
  (`CheckpointNeverAhead`). That claim presumes the operation grammar: a heartbeat between the
  statements of one DDL transaction persists its GTID, and the statement after it is refused and
  skipped after a restart (`HeartbeatInsideDdl`).
- `MergeCommitMaxDelay` has no effect on any run (`DelayHasNoEffect`): the two timestamps it compares
  have just been made equal.
- With updates sent as REPLACE, an update that changes the primary key leaves the old row behind
  (`UpdateReplacesItsRow`); a delete or an update of a table without primary key is not sent at all
  (`KeylessIsSkipped`).
- A skipped GTID in the middle of a transaction is a state error, so a skipped region cannot simply
  be dropped from the stream (`SkippedGtidInsideTransaction`).
- Destinations that know different servers can be given a starting point that leaves a hole in a
  history (`DifferentServersAreUnsafe`, `SafeStartIsExact`).
- Between sending an acknowledgement and recording its batch a client may be two batches behind
  (`TwoBehind`); while it waits or forwards it is at most one behind (`BatchIdsStayClose`).
- A resend after a send that was reported as failed but did arrive stops the client (`SecondCopyStops`).
- A GTID without transactions prints and encodes to something that does not read back
  (`GtidTextRoundTrip`, `GtidBinaryRoundTrip`), and an empty interval breaks the canonical form exactly
  away from every border when added, and strictly inside an interval when subtracted
  (`AddEmptyInterval`, `SubEmptyInterval`).
- A JSON container at offset zero of itself is parsed for ever (`ZeroOffsetDiverges`,
  `ParseIsTheLimit`), and a row event without present columns is fetched for ever
  (`FetchNeverReturnsIff`, `FetchIsTheLimit`).
- A negative time inside JSON loses its sign, and one of a day or more raises (`TimeRoundTrip`).
- The two decimal decoders differ on bytes whose leftover fractional digits carry the wrong sign
  (`DecodersDisagree`, `DecodersAgree`).
- The eight-byte big-endian reader unpacks with a four-byte format and always fails
  (`Packets.Packet.ReadIntBe`).

## Model

| member | source | states |
|---|---|---|
| `ApplierSteps.EveryRunKeeps` | src/applier.go:73-383 | after every trace, under every answer of SQL and Consul, the state is related by one invariant to the reference's account of the consumed operations |
| `ApplierTheorems.Conservation` | src/applier.go:96-383 | commits are always a prefix of the statements due; while running, commits followed by the open transaction are exactly the statements due, in order |
| `ApplierTheorems.Atomicity` | src/applier.go:528-543 | a source DML transaction in a merged commit is complete there and appears in no other commit and not in the open transaction |
| `ApplierTheorems.TransactionLifecycle` | src/mysql.go:80-177 | the client errors "tx exists" and "tx does not exist" never happen; a SQL transaction is open exactly inside begin/dml or while commits are pending |
| `ApplierTheorems.MergeGroups` | src/applier.go:474-543 | a merged commit holds transactions of one LastCommitted value; the pending counter counts the open finished transactions and never exceeds a configured maximum |
| `ApplierTheorems.DelayNeverTriggers` | src/applier.go:508-526 | with equal timestamps a merged commit is forced exactly by the count |
| `ApplierTheorems.DelayHasNoEffect` | src/applier.go:129-143 | every run is the same under every MergeCommitMaxDelay |
| `ApplierTheorems.CoveredWasAccepted` | src/applier.go:474-506 | for a server known at the start, every id up to the map's entry was accepted |
| `ApplierTheorems.AcceptedInOrder` | src/applier.go:474-506 | ids accepted from one server strictly grow |
| `ApplierTheorems.ExactlyOneAcceptance` | src/applier.go:474-506 | over a whole run no transaction is accepted twice |
| `ApplierTheorems.CheckpointSafety` | src/applier.go:545-555 | a persisted map is the map after some number of accepted transactions, and covers only settled ones except at most one DDL/DCL transaction sharing its commit group |
| `ApplierTheorems.CoveredIsCommitted` | src/applier.go:528-543 | a transaction of an initially known server covered by a persisted map was accepted, and everything due for it is committed unless it is the last one covered and unfinished |
| `ApplierTheorems.WhenPersisted` | src/applier.go:110-237 | a map is persisted only as it was before the operation, and only by a GTID, a heartbeat or a DDL/DCL operation of the same commit group |
| `ApplierTheorems.CheckpointNeverAhead` | src/applier.go:154-237 | if every DDL/DCL transaction changes LastCommitted, every persisted map covers finished and committed transactions only |
| `ApplierTheorems.EarlyCheckpoint` | src/applier.go:154-181 | before an allowed DDL/DCL statement the map covering it is persisted exactly when commits are pending and Consul answers |
| `ApplierCheckpoints.NonDmlIsCheckpointed` | src/applier.go:110-153 | a GTID or heartbeat after an unskipped DDL or DCL operation, with Consul answering, persists the map of every transaction accepted before it, so a restart skips all GTIDs seen so far |
| `ApplierCheckpoints.MergedIsCheckpointed` | src/applier.go:528-543 | every merged commit, with Consul answering, persists the map of every transaction accepted before the operation |
| `ApplierCheckpoints.CheckpointsGrow` | src/applier.go:545-555 | over every run what is persisted never covers fewer transactions than before |
| `ApplierCheckpoints.CheckpointLowerBound` | src/applier.go:129-153 | whatever follows, what is persisted covers every transaction accepted before a GTID or heartbeat that came after an unskipped DDL or DCL operation while Consul answered |
| `ApplierCheckpoints.MergedLowerBound` | src/applier.go:528-543 | whatever follows, what is persisted covers every transaction accepted before a merged commit made while Consul answered |
| `ApplierRecovery.CoveredReplay` | src/applier.go:96-101 | a transaction-aligned replay whose GTIDs are covered changes nothing |
| `ApplierRecovery.ReplayIsHarmless` | src/applier.go:474-491 | restarting from the reached map with any replay of the past and then new operations does what going straight on would have done |
| `ApplierRecovery.ExactlyOnce` | src/applier.go:96-101 | two applier runs, the second restarted from the first one's map at a quiescent point with a replay, together commit exactly what the whole stream is due to do |
| `ApplierRecovery.RestartFromMap` | src/applier.go:474-506 | restarting from the map after n transactions at any boundary not later than the next one does again exactly what follows them |
| `ApplierRecovery.CrashLosesNothing` | src/applier.go:545-555 | after a crash at any moment, a second applier restarted from the persisted map, if that is not ahead, completes all the stream is due to do |
| `ApplierRecovery.GapFreeNeverMisses` | src/applier.go:474-491 | on a stream without gaps the applier never stops with "gtid miss" |
| `ApplierRecovery.RestartMeetsNoMiss` | src/applier.go:477-491 | an applier restarted from any persisted map at a boundary not later than it meets no gap the stream did not have |
| `ApplierRecovery.HeartbeatInsideDdl` | src/applier.go:110-128 | a heartbeat inside a DDL transaction persists its GTID, and the statement after it is refused and skipped after restart |
| `ApplierRecovery.EarlyCheckpointLosesDdl` | src/applier.go:182-209 | a concrete run in which a failed DDL statement is covered by the persisted map and skipped after restart |
| `ApplierLanguage.ReadsIsLanguage` | src/applier.go:104-375 | the state machine reads exactly the prefixes of words over heartbeats, skips, DML transactions and DDL/DCL transactions |
| `ApplierLanguage.AcceptedLanguage` | src/applier.go:96-375 | a run without another error goes on exactly while its operations form a prefix of a word of the language |
| `ApplierLanguage.SkippedGtidInsideTransaction` | src/applier.go:96-153 | an operation trace in which a skipped GTID inside a transaction is a state error although the stream without it goes on |
| `ApplierClasses.MysqlClient.Begin` | src/mysql.go:80-104 | refuses a second transaction, opens one, and keeps it open if the session statement fails |
| `ApplierClasses.MysqlClient.ExecuteOnDml` | src/mysql.go:106-127 | appends the statement to the open transaction, or rolls it back on failure |
| `ApplierClasses.MysqlClient.ExecuteOnNonDml` | src/mysql.go:129-160 | begins, selects the schema, executes and commits one statement on its own, as the transition system says |
| `ApplierClasses.MysqlClient.Commit` | src/mysql.go:162-177 | commits the open entries; a failed commit may or may not have taken effect and leaves the handle |
| `ApplierClasses.MysqlClient.Rollback` | src/mysql.go:179-193 | clears the transaction if the server agrees |
| `ApplierClasses.Checkpoint.Persist` | src/checkpoint.go:91-97 | writes the current map if Consul answers, and otherwise keeps the earlier one |
| `ApplierClasses.Checkpoint.SetTrxId` | src/checkpoint.go:112-114 | sets one server's id and no other |
| `ApplierClasses.MysqlApplier.MergeCommit` | src/applier.go:528-543 | follows the transition system: commit, reset the counter, checkpoint |
| `ApplierClasses.MysqlApplier.EvaluateForceMergeCommit` | src/applier.go:508-526 | decides the forced commit, with 32-bit subtraction of the timestamps |
| `ApplierClasses.MysqlApplier.OnGtid` | src/applier.go:474-506 | skips known ids, reports a gap, commits on a new group, records the id |
| `ApplierClasses.MysqlApplier.OnHeartbeat` | src/applier.go:110-128 | follows the transition system from every state |
| `ApplierClasses.MysqlApplier.OnGtidOperation` | src/applier.go:129-153 | follows the transition system from every state |
| `ApplierClasses.MysqlApplier.OnNonDml` | src/applier.go:154-237 | follows the transition system for DDL and DCL |
| `ApplierClasses.MysqlApplier.OnBegin` | src/applier.go:238-255 | opens a SQL transaction only if none is pending |
| `ApplierClasses.MysqlApplier.OnDml` | src/applier.go:256-358 | filters, repairs and executes one row change |
| `ApplierClasses.MysqlApplier.OnXid` | src/applier.go:359-371 | counts a finished transaction as pending |
| `ApplierClasses.MysqlApplier.Process` | src/applier.go:93-381 | one turn of the loop is one step of the transition system |
| `ApplierClasses.MysqlApplier.Start` | src/applier.go:73-383 | the loop ends in the state the transition system reaches on the same trace |
| `ApplierClasses.StaysHalted` | src/applier.go:73-383 | a halted applier ignores the rest of its trace |
| `Statements.RepairUndoesWire` | src/patch.go:8-20 | the repair gives back the columns as they were before transport exactly when every non-NULL blob column holds bytes and no other column an empty byte string |
| `Statements.BrokenIff` | src/patch.go:8-20 | the handlers report a repair error exactly for an allowed row change with a non-NULL blob column that is no byte slice |
| `Statements.InsertAddsItsRow` | src/applier.go:385-405 | the statement sent for an insert, after transport and repair, adds exactly its row to its table |
| `Statements.DeleteRemovesItsRow` | src/applier.go:407-419 | the statement sent for a delete removes exactly the row it reports |
| `Statements.UpdateReplacesItsRow` | src/applier.go:421-453 | the statement sent for an update turns the before row into the after row, in replace mode exactly when the key is unchanged |
| `Statements.KeylessIsSkipped` | src/applier.go:410-414 | nothing is sent for a delete or an update without a primary key |
| `Statements.RejectedIsNotSent` | src/applier.go:154-358 | nothing is sent for an operation the filter rejects |
| `Statements.NonDmlIsItsOwn` | src/applier.go:455-464 | an allowed DDL or DCL operation sends its own query in its own schema, a database statement in none |
| `Statements.Filter` | src/replicate.go:22-42 | the loops over the four lists compute the filter |
| `Statements.RepairColumns` | src/patch.go:8-20 | the repairing loop computes the repair, first failure included |
| `Statements.StatementFor` | src/applier.go:256-464 | the handlers, branch by branch, build the statement due |
| `Replica.DueMakesTheChanges` | src/applier.go:256-358 | executing what a stream of transported operations is due to do makes the changes its source reported |
| `Replica.DestinationIsTheSource` | src/applier.go:73-383 | under every answer of SQL and Consul, while the applier runs, commits and open transaction turn the destination into the source as far as it was replicated; between transactions the commits alone do |
| `Replica.RejectedLeavesNoEntry` | src/applier.go:154-358 | an operation the filter rejects leaves no entry in any run, committed or open |
| `Replica.DamagedStops` | src/applier.go:256-358 | a row change that cannot be repaired stops every run and commits and checkpoints nothing |
| `Replica.SchemaIsTheStatements` | src/mysql.go:129-160 | the schema selected before a DDL or DCL statement is the statement's own |
| `CheckpointText.Print` | src/checkpoint.go:121-137 | prints every key once, in sorted order, with its range |
| `CheckpointText.PersistedReadsBack` | src/checkpoint.go:91-97 | a map has one printed text, and it reads back exactly when no key contains a comma or a colon |
| `CheckpointText.Parse` | src/checkpoint.go:139-163 | the parsing loop computes the parsing function, first error included |
| `CheckpointText.TextRoundTrip` | src/checkpoint.go:121-163 | printing and parsing a 64-bit map returns it exactly when no key contains a comma or a colon |
| `CheckpointText.SortedListingUnique` | src/checkpoint.go:121-137 | the sorted listing of the keys, and so the printed text, is unique |
| `CheckpointText.ParsedKeysAreClean` | src/checkpoint.go:139-163 | no parsed key contains a comma or a colon |
| `CheckpointText.PartAccepted` | src/checkpoint.go:147-161 | a part is read exactly when it is a key, a colon and a range whose end is a 64-bit number; the start of the range may be anything |
| `CheckpointText.PartsAccepted` | src/checkpoint.go:139-163 | a text is read exactly when all its parts are, and a server named twice gets its last range |
| `CheckpointText.ParsedIdsFit` | src/checkpoint.go:139-163 | every parsed id fits 64 bits |
| `CheckpointText.LeqIsLexicographic` | src/checkpoint.go:121-137 | keys are sorted by the first difference, a prefix first |
| `GtidForms.PartIsARange` | src/checkpoint.go:121-137 | the part printed for a server reads as the GTID of the transactions 1 to its id |
| `GtidForms.CheckpointIsASet` | src/checkpoint.go:121-137 | a printed checkpoint reads as the GTID set of all transactions up to each server's id |
| `CheckpointText.InitStartup` | src/checkpoint.go:49-89 | the stored ids, or the configured ones exactly when none are stored; errors of Consul and of either text are returned |
| `CheckpointText.RestartReadsPersisted` | src/checkpoint.go:72-89 | what was persisted is what a restart reads, and only the empty map prints as nothing |
| `CommonStart.Merge` | src/checkpoint.go:165-182 | the pointwise minimum over the union of keys, or the empty map if an input is empty |
| `CommonStart.MergeOrderIrrelevant` | src/checkpoint.go:165-182 | the result does not depend on the order of the inputs |
| `CommonStart.SafeStartDeliversWhatIsLacking` | src/applier.go:477-491 | streaming a gap-free source from a safe start never reports a gap, and exactly the lacking transactions are taken |
| `CommonStart.SafeStartIsExact` | src/replication.go:69-98 | no hole is left in a history the destination does not know exactly when the start is safe |
| `CommonStart.MergedStartIsSafe` | src/replication.go:69-98 | the merged point is safe for every destination if all know the same servers or one knows none |
| `CommonStart.DifferentServersAreUnsafe` | src/replication.go:69-98 | two destinations that know different servers get an unsafe start |
| `FanOut.RunKeeps` | src/tcpserver.go:126-216 | every interleaving keeps the invariant tying batches, messages in flight, acknowledgements and delivered operations |
| `FanOut.DeliveredIsPrefix` | src/tcpclient.go:80-112 | in every interleaving each client has delivered a duplicate-free, gap-free prefix of the server's stream that lacks at most the last batch |
| `FanOut.BatchIdsStayClose` | src/tcpserverclient.go:108-180 | a waiting or forwarding client is at the server's batch or one behind |
| `FanOut.TwoBehind` | src/tcpclient.go:95-106 | for any two batches a reachable state in which a client that has delivered the first is two batches behind |
| `FanOutProgress.FailedSendIsRepeatable` | src/tcpserver.go:126-141 | while a send error is recorded for a live client the distributor can push to it again |
| `FanOutProgress.LostIsSentAgain` | src/tcpserver.go:132-135 | from every reachable state a batch whose send failed without arriving can be put on the wire again |
| `FanOutProgress.EveryBatchGetsThrough` | src/tcpserver.go:126-216 | from every reachable checking state with live clients that are free or somewhere on the way of the current batch, failed sends included, all can deliver the whole stream and any next batch can be cut |
| `FanOutProgress.SecondCopyStops` | src/tcpclient.go:80-112 | a second copy of a batch that did arrive stops the client after it has taken the batch once |
| `FanOutClasses.ClientsReady` | src/tcpserver.go:126-141 | goes up to the first client that is not ready; pushes to it again exactly when it is alive, busy and its send failed, and touches no other client |
| `FanOutClasses.PeerRunIsSystemRun` | src/tcpserver.go:196-208 | what one connection does is a run of the whole system |
| `FanOutClasses.ClientRunsAlone` | src/tcpclient.go:80-112 | what a client does does not depend on what the server has cut meanwhile |
| `FanOutClasses.TcpServerClient.SetPush` | src/tcpserverclient.go:160-163 | loads the batch to be sent |
| `FanOutClasses.TcpServerClient.ClientPush` | src/tcpserverclient.go:165-180 | marks the client busy, sends the loaded batch, records exactly a failed send |
| `FanOutClasses.TcpServerClient.Push` | src/tcpserver.go:196-208 | pushing a new batch is the arm, send and record steps of the protocol |
| `FanOutClasses.TcpServerClient.ReceivedSignal` | src/tcpserverclient.go:124-133 | only the acknowledgement of the sent batch frees the client |
| `FanOutClasses.TcpClient.ReceiveOperations` | src/tcpclient.go:80-112 | the receive loop is a run of client steps that ends with all messages consumed, at an unexpected message or at a failed acknowledgement |
| `AdaptiveFetch.AdaptiveFetchCount.EvaluateFetchCount` | src/tcpserver.go:284-321 | the fields change as the controller function says |
| `AdaptiveFetch.EveryCall` | src/tcpserver.go:284-321 | after every sequence of calls the batch size is a positive multiple of ten, at most max(filled, 10); a late batch strictly lowers a positive base line, which never goes below zero |
| `AdaptiveFetch.EveryCallMoves` | src/tcpserver.go:284-321 | a batch in time raises the base line to at least ninety above the last batch if the rate did not worsen, and otherwise lets it fall by at most ten; the batch size is the base line or the queue, rounded down to tens |
| `AdaptiveFetch.FirstCall` | src/tcpserver.go:284-321 | the first call takes a hundredth of the queue, rounded down to tens |
| `AdaptiveFetch.WaitIsSatisfiable` | src/tcpserver.go:171-187 | the distributor never waits for more operations than the queue can hold |
| `Pipeline.DestinationAppliesAPrefix` | src/tcpclient.go:80-112 | in every interleaving and under every answer, what a destination commits is a prefix of what the first k operations of the stream are due to do; while it runs, commits and open transaction are exactly that |
| `Pipeline.EveryDestinationGetsWhatItLacks` | src/replication.go:69-98 | streaming a gap-free source from the merged point, no destination that shares the servers meets a gap, and each skips exactly what it had |
| `GtidIntervals.SortSorts` | pymysqlreplication/gtid.py:108-119 | sorting gives an ordered rearrangement |
| `GtidIntervals.AddIntervalIsUnion` | pymysqlreplication/gtid.py:91-119 | adding a non-empty interval raises exactly when it meets the set, and otherwise gives the union in canonical form |
| `GtidIntervals.AddEmptyInterval` | pymysqlreplication/gtid.py:91-119 | an empty interval raises exactly strictly inside another; otherwise the result is canonical exactly at a border, where nothing changes, and elsewhere the empty interval is stored |
| `GtidIntervals.SubIntervalIsDifference` | pymysqlreplication/gtid.py:121-144 | subtracting gives the set difference in canonical form |
| `GtidIntervals.SubEmptyInterval` | pymysqlreplication/gtid.py:121-144 | subtracting an empty interval removes nothing, and keeps the canonical form exactly unless it lies strictly inside an interval |
| `GtidIntervals.CanonicalIsUnique` | pymysqlreplication/gtid.py:296-299 | canonical lists that cover the same numbers are equal |
| `GtidIntervals.IncludesIsSubset` | pymysqlreplication/gtid.py:146-158 | containment holds exactly for equal server ids and a subset |
| `GtidIntervals.EqualIsSameSet` | pymysqlreplication/gtid.py:296-299 | equality holds exactly for equal server ids and equal sets, and exactly when each contains the other |
| `GtidIntervals.PlusIsUnion` | pymysqlreplication/gtid.py:171-184 | addition succeeds exactly on equal server ids and disjoint sets, and then is the union |
| `GtidIntervals.MinusIsDifference` | pymysqlreplication/gtid.py:186-196 | subtraction never raises and is the difference, or nothing for another server |
| `GtidIntervals.PlusCommutes` | pymysqlreplication/gtid.py:171-184 | a + b and b + a are defined together and equal |
| `GtidIntervals.PlusAssociates` | pymysqlreplication/gtid.py:171-184 | both groupings of a sum are defined together and equal |
| `GtidIntervals.MinusUndoesPlus` | pymysqlreplication/gtid.py:171-196 | (a + b) - b is a |
| `GtidIntervals.PlusUndoesMinus` | pymysqlreplication/gtid.py:171-196 | (a - b) + b is a exactly when a contains b |
| `GtidSets.MergedIsUnion` | pymysqlreplication/gtid.py:353-363 | merging raises exactly when a transaction would be held twice, otherwise is the union with one canonical GTID per server |
| `GtidSets.MergeAllIsUnion` | pymysqlreplication/gtid.py:379-398 | adding sets of GTIDs is the union, defined exactly on disjoint sets |
| `GtidSets.SetIncludesIsSubset` | pymysqlreplication/gtid.py:365-377 | a set contains a GTID exactly when its server is known and its transactions are all in the set |
| `GtidSets.Gtid.AddInterval` | pymysqlreplication/gtid.py:91-119 | the in-place loop computes the algebra's addition, and leaves the list alone when it raises |
| `GtidSets.Gtid.SubInterval` | pymysqlreplication/gtid.py:121-144 | the in-place loop computes the algebra's subtraction |
| `GtidSets.Gtid.Plus` | pymysqlreplication/gtid.py:171-184 | a fresh sum, the operands unchanged |
| `GtidSets.Gtid.Minus` | pymysqlreplication/gtid.py:186-196 | a fresh difference, the operands unchanged |
| `GtidSets.GtidSet.MergeGtid` | pymysqlreplication/gtid.py:353-363 | replaces the members as merging says, and keeps them all when it raises |
| `GtidText.GtidTextRoundTrip` | pymysqlreplication/gtid.py:53-89 | parsing undoes printing exactly for UUID server ids, at least one transaction and no negative number |
| `GtidText.SetTextRoundTrip` | pymysqlreplication/gtid.py:400-404 | a printed set reads back, the empty one included |
| `GtidText.ParseLayout` | pymysqlreplication/gtid.py:76-89 | a server id and colon-separated parts are recognised as such |
| `GtidForms.AnyCaseIsAccepted` | pymysqlreplication/gtid.py:76-80 | every sixteen bytes spelled in any mixture of upper and lower case are accepted as a server id |
| `GtidForms.SingleHasNoDash` | pymysqlreplication/gtid.py:198-208 | one transaction is printed as one number, several as a range |
| `GtidForms.OneLineFeed` | pymysqlreplication/gtid.py:69-89 | one line feed at the end is overlooked, two are refused |
| `GtidForms.PaddedSetReads` | pymysqlreplication/gtid.py:341-351 | a set reads the same with spaces and line feeds around its members |
| `GtidCodec.EncodeGtid` | pymysqlreplication/gtid.py:223-261 | the buffer loop computes the encoding and raises exactly on bad digits or bounds outside 64 bits |
| `GtidCodec.EncodedLengthIsLength` | pymysqlreplication/gtid.py:213-221 | the announced length is the length exactly for server ids of 32 digits |
| `GtidCodec.SidRoundTrip` | pymysqlreplication/gtid.py:270-279 | sixteen bytes give back the server id in lower case |
| `GtidCodec.DecodeOfEncode` | pymysqlreplication/gtid.py:263-294 | decoding consumes exactly the encoding and returns the GTID with its letters in lower case |
| `GtidCodec.GtidBinaryRoundTrip` | pymysqlreplication/gtid.py:223-294 | decoding undoes encoding exactly for lower-case server ids, at least one interval and 64-bit bounds |
| `GtidCodec.SetBinaryRoundTrip` | pymysqlreplication/gtid.py:409-446 | a set decodes to itself from the front of any payload, and its announced length is its length |
| `GtidCodec.DecodeGtid` | pymysqlreplication/gtid.py:263-294 | the reader on a payload cursor computes the decoding and stops right behind it |
| `GtidCodec.DecodeGtidSet` | pymysqlreplication/gtid.py:437-446 | the reader consumes as many GTIDs as the count says |
| `JsonBinary.DecodeVariableLength` | pymysqlreplication/util/bytes.py:49-64 | the shifting loop computes the base-128 number of at most five bytes, or zeros |
| `JsonBinary.ParseJson` | pymysqlreplication/json_binary.py:40-72 | the dispatch computes the parsing function, opaque decimals, times and dates included |
| `JsonBinary.ParseObjectOrArray` | pymysqlreplication/json_binary.py:75-127 | the container loops compute the parsing function, with every error and the early None |
| `JsonEncoding.VariableLengthRoundTrip` | pymysqlreplication/util/bytes.py:49-64 | a variable-length number is read back exactly below 2^35, and as zeros otherwise |
| `JsonEncoding.SlotLocated` | pymysqlreplication/json_binary.py:107-121 | the reader finds every value of an assembled container inline or at the positive offset where it stands |
| `JsonEncoding.KeyReads` | pymysqlreplication/json_binary.py:98-105 | the reader finds every key of an assembled object |
| `JsonEncoding.JsonRoundTrip` | pymysqlreplication/json_binary.py:32-158 | every tree of objects, arrays, strings, integers, literals, raw doubles and opaque decimals, times, dates and texts, each container small or large, is read back from its encoding, whatever follows |
| `JsonEncoding.DistinctKeysKeepAll` | pymysqlreplication/json_binary.py:124-127 | with distinct keys an object keeps every member in order |
| `JsonMalformed.LastValueWins` | pymysqlreplication/json_binary.py:124-127 | with repeated keys an object holds each key once, with its last value |
| `JsonMalformed.ContainerRefused` | pymysqlreplication/json_binary.py:75-96 | a container is refused for cut-off counters, a size beyond the data, and entries beyond the size, in that order |
| `JsonMalformed.PlaceOf` | pymysqlreplication/json_binary.py:107-121 | where a value is looked for, in terms of the bytes: in its entry exactly for literals and numbers that fit it, otherwise at its offset or beyond the data |
| `JsonMalformed.BeyondIsNull` | pymysqlreplication/json_binary.py:107-121 | the first value beyond the data makes the whole container null |
| `JsonMalformed.ScalarRefused` | pymysqlreplication/json_binary.py:40-72 | exactly the unknown type codes, the cut-off numbers and the bad literals are refused, each with its own error |
| `JsonOpaque.TimeRoundTrip` | pymysqlreplication/util/bytes.py:120-133 | a packed time is read back exactly when it is below 24 hours, without its sign |
| `JsonOpaque.DateRoundTrip` | pymysqlreplication/util/bytes.py:136-167 | every packed date and time of the calendar is read back |
| `JsonTermination.ParseIsTheLimit` | pymysqlreplication/json_binary.py:40-127 | the reader returns a result at some depth exactly when the model returns it, and never returns exactly when the model says it diverges |
| `JsonTermination.PositiveOffsetsTerminate` | pymysqlreplication/json_binary.py:107-121 | with positive offsets the reader returns, nested no deeper than the document is long |
| `JsonTermination.ZeroOffsetDiverges` | pymysqlreplication/json_binary.py:118-121 | an array containing itself at offset zero is parsed for ever |
| `Packets.Packet.Read` | pymysqlreplication/packet.py:134-144 | the next bytes, pushed-back ones first, counted |
| `Packets.Packet.Unread` | pymysqlreplication/packet.py:146-151 | push-back comes next again if nothing was waiting, and is uncounted |
| `Packets.Packet.Advance` | pymysqlreplication/packet.py:153-162 | skips exactly what reading would consume |
| `Packets.Packet.ReadIntBe` | pymysqlreplication/packet.py:204-217 | signed for one to four bytes, unsigned for five, always failing for eight |
| `Packets.IntBeReads` | pymysqlreplication/packet.py:204-217 | every number that fits one to four bytes signed, or five unsigned, is read back from its big-endian bytes |
| `Packets.EightBytesFail` | pymysqlreplication/packet.py:204-217 | no eight bytes are read |
| `Packets.PushBackRestores` | pymysqlreplication/packet.py:146-151 | a pushed-back byte comes next exactly when only equal bytes wait before it |
| `Decimals.GroupReadersAgree` | pymysqlreplication/util/bytes.py:84-91 | the signed and the unsigned group reader agree exactly where the top bit is the sign |
| `Decimals.GroupsRoundTrip` | pymysqlreplication/row_event.py:477-485 | masked nine-digit groups are spelled back digit by digit |
| `Decimals.TableIsLeast` | pymysqlreplication/row_event.py:453 | for one to nine digits the table of byte counts holds the least number of bytes with room for the digits and a sign bit |
| `Decimals.TableIsStored` | pymysqlreplication/util/bytes.py:74 | the table is the storage format's rule, from which the reference encoder is built |
| `DecimalDecoders.BothDecodersInvert` | pymysqlreplication/row_event.py:445-492 | for every precision, scale, sign and number in range both decoders return the number |
| `DecimalDecoders.DecodersAgree` | pymysqlreplication/util/bytes.py:67-113 | on all bytes the packet decoder returns what the other returns if the leftover fraction carries the sign, and raises if not |
| `DecimalDecoders.DecodersDisagree` | pymysqlreplication/util/bytes.py:108-113 | two bytes on which one decoder raises and the other returns 5.255 |
| `DecimalDecoders.ParseDecimalFromBytes` | pymysqlreplication/util/bytes.py:67-113 | the decoder on bytes computes its specification for every precision and scale |
| `DecimalDecoders.ReadNewDecimal` | pymysqlreplication/row_event.py:445-492 | the decoder on a packet computes its specification for every precision, scale and push-back buffer, and with nothing waiting consumes exactly the encoded size |
| `Bitmaps.TableCounts` | pymysqlreplication/bitmap.py:2-19 | the table holds the number of set bits of every byte |
| `Bitmaps.BitCount` | pymysqlreplication/bitmap.py:24-31 | the loop counts the set bits of the bitmap |
| `RowImages.NullBitInBounds` | pymysqlreplication/row_event.py:83-88 | the NULL bit of a present column, at its rank, is inside the NULL bitmap |
| `RowImages.NullBitRead` | pymysqlreplication/row_event.py:154-162 | the NULL bit consulted for a column is the one written for it |
| `RowImages.ValueRoundTrip` | pymysqlreplication/row_event.py:164-243 | integer columns of all widths, signed or not, decimals, years, fixed-width bytes and length-prefixed bytes read back |
| `RowImages.ImageRoundTrip` | pymysqlreplication/row_event.py:90-141 | an image with absent and NULL columns reads back and consumes exactly its bytes |
| `RowImages.RowsRoundTrip` | pymysqlreplication/row_event.py:540-547 | with some column present, fetching inverts encoding any list of rows, one or two images each |
| `RowImages.FetchTerminates` | pymysqlreplication/row_event.py:540-547 | with some column present, fetching terminates on every input |
| `RowImages.FetchDivergesIff` | pymysqlreplication/row_event.py:540-547 | while bytes are due, the model answers Diverges exactly when no column is present |
| `RowTermination.FetchIsTheLimit` | pymysqlreplication/row_event.py:540-547 | the loop returns a result after some number of turns exactly when the model returns it, and never returns exactly when the model says Diverges |
| `RowTermination.FetchNeverReturnsIff` | pymysqlreplication/row_event.py:540-547 | while bytes are due, no number of turns is enough exactly when no column is present |
| `RowImages.ZeroPaddedDescribes` | pymysqlreplication/row_event.py:103-105 | zero padding bits leave the NULL bitmap as long as the present columns need |
| `RowReaders.ReadColumnValue` | pymysqlreplication/row_event.py:143-243 | reads an integer, decimal, year, float or double as bytes, or string, blob or geometry as bytes off the packet as specified |
| `RowReaders.ReadColumnData` | pymysqlreplication/row_event.py:90-141 | the column loop reads an image off the packet and counts its bytes |
| `RowReaders.FetchOneRow` | pymysqlreplication/row_event.py:641-652 | one image, or before and after images, off the packet |
| `RowReaders.FetchAllRows` | pymysqlreplication/row_event.py:540-547 | the fetch loop computes its specification; an incomplete event has no rows |

## Left out

- The persisted binlog file and position: set from every position operation, independently of commits.
- Logging, metrics, sockets, gob, zstd, Consul's protocol, configuration and goroutine shutdown: answers are parameters, connections are FIFO channels.
- The SQL text: a statement is a value naming its table, columns and key, and what it does is defined on tables that are sets of rows, so equal rows of a table without primary key are one; a statement MySQL would refuse, such as an INSERT of a present key, is an answer of SQL.
- What a DDL or DCL query does to a database: a parameter, the same on both sides.
- A primary-key index outside the reported columns, on which the code panics.
- `src/extract.go`: the operation stream is any sequence of operations.
- A bound on the delay of merged commits: the code has none, see `DelayHasNoEffect`.
- ApplierTheorems.MergeGroups: the pending counter is unbounded; its wrap-around after 2^64 transactions without a commit is not modelled.
- FanOut.DeliveredIsPrefix: the distributor is interleaved steps on values, because it races with the connection threads; the two ends of a connection and one undisturbed pass of `clientsReady` are objects updated in place. A Go data race inside one assignment is not modelled.
- AdaptiveFetch.EveryCall: floating point is exact arithmetic on reals.
- JsonTermination.ParseIsTheLimit: Python's recursion limit, which turns endless recursion into an exception, is not modelled.
- JsonBinary.ParseJson: text decoding of opaque values and strings is not modelled, they are their bytes; a double is its eight bytes; partial JSON updates are out.
- Packets.Packet.Read: the wrapped packet object is not part of the repository; it is taken to refuse a short read.
- RowReaders.ReadColumnValue: text decoding and the value of floats are not modelled, such values are their bytes; date, time, enum, set, bit and JSON columns are not modelled.
- RowReaders.ReadColumnData: a row is a list of cells by column position; the dictionary of column names, in which equal names would collide, and the partial bitmap of partial JSON updates are not modelled.
- `GtidSet` in `GtidSet`, which is list membership by equality, and the order comparisons of `Gtid`.
- Length-coded integers, TIME2, DATETIME2 and the other column readers: they would only add easy members.
- `main.py`, `main.bak1.py` and `rust-src`: earlier versions of the same pipeline.
