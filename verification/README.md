# MyDuck Server: replication, codecs and protocol, verified

MyDuck Server replicates MySQL and Postgres databases into DuckDB and answers clients of both. This
project models the parts of it where a mistake loses or duplicates data, and proves what they promise.

* **The delta buffer** (`Rows`, `Tags`, `Condense`, `Strategies`, `Controller`, `DeltaLog`, `Flushing`).
  Row events are buffered with a tag of transaction, statement and action. A flush condenses them to the
  last change of each key and writes each table by one of five strategies, chosen from counters. The
  simple thing it must agree with is applying the events one at a time (`Rows.ApplyAll`,
  `DeltaLog.ApplyLog`).
* **The Postgres replicator** (`PgMachine`, `PgSafety`, `PgExact`, `PgRuns`, `PgReach`, `PgResend`,
  `PgReplicator`), a step machine over every run with commits, ticks, resends, failed commits,
  reconnects, crashes and restarts, exactly which steps are safe, and the object whose methods are its
  steps.
* **The MySQL applier** (`MySqlMachine`, `MySqlSafety`, `MySqlExact`, `MySqlRuns`, `MySqlReach`,
  `MySqlApplier`), the same for binary log events with GTID positions, DDL and rotations.
* **Binary log cells** (`Bytes`, `Decimal`, `DecimalFormat`, `Time`, `Cells`, `RowWalk`, `CellFormat`): the
  reader of every cell type and the walk over a row, against the cells that MySQL writes.
* **Binary JSON** (`Json`, `JsonRoundTrip`, `JsonSizes`, `JsonExact`, `JsonFormat`, `JsonEncoder`): the
  encoder's loops, against a reader that goes by the stored counts, sizes and offsets, and against the
  documented format byte by byte.
* **Quotes** (`Lexers`, `Quotes`, `Backslashes`): the two translations of quote characters, against what
  MySQL and standard SQL take the quotes to mean.
* **The Postgres message loop** (`Protocol`, `Prepared`, `ConnectionHandler`), against the message flow of the
  PostgreSQL protocol.

What the code cannot decide is a parameter or a nondeterministic step: whether 200 ms have passed,
whether the buffer is full, whether DuckDB accepts a commit, when a connection breaks. A database is a
map of tables, each with an index on its primary key or a bag of rows without one; a transaction commits
or rolls back as a whole; LSNs are numbers and GTID sets are sets.

Where a promise does not hold for all inputs, the project keeps the code as it is and proves exactly when
it does; those rows say "if and only if", "exactly when", or show the inputs that fail.

`dafny verify dfyconfig.toml` checks everything.

## Model

| member | source | states |
|---|---|---|
| Tags.ArrivalOrderIsTagOrder | delta/controller.go:686-692 | In every valid history with ordered stamps, of two changes of one key the one that arrived later has the larger tag, so the order that LAST sorts by is arrival order. |
| Tags.TextLessMeans | delta/controller.go:686-692 | The order of transaction groups is that of texts: one is smaller if and only if they agree up to a place where it ends or has the smaller character. |
| Tags.TagLessTotal | delta/controller.go:686-692 | Changes that the order by group, sequence number, statement and action does not tell apart have the same stamp and action. |
| Condense.CondenseDelta | delta/controller.go:654-697 | The condensing loop keeps exactly one change for each changed key, one that was buffered and that no change of that key has a larger tag than. |
| Condense.CondensedIsLast | delta/controller.go:654-697 | Where later changes have larger tags, the condensed change of a key is its last one in arrival order. |
| Strategies.UpsertThenDeleteReplays | delta/controller.go:442-526 | Upserting the condensed insertions and then deleting the condensed deletions has the effect of replaying every buffered change. |
| Strategies.StrategiesAgree | delta/controller.go:442-600 | On every condensed delta, UPSERT-then-DELETE on an indexed table and DELETE-then-INSERT on a table without index give the same logical table, with one physical row per key. |
| Strategies.ZeroDeleteAgrees | delta/controller.go:361-401 | Without deletions the upsert of all condensed rows has the effect of the whole delta, so leaving out the DELETE and the filter on actions drops nothing and revives nothing. |
| Strategies.InsertEventsAreFresh | delta/controller.go:266-315 | In a valid history whose buffered rows all come from insert events no key repeats and none is in the table, which is what the insert-only shortcut relies on. |
| Strategies.WrittenRefinesHistory | delta/controller.go:137-190 | For every store, valid history, counters and condensed delta: whichever strategy the counters select succeeds and leaves exactly the table that one-by-one application gives. |
| Strategies.WrittenAgain | delta/controller.go:137-190 | Writing the same events into a table that already holds their outcome leaves it as it is if and only if the insert-only shortcut is not taken; the shortcut then stores the rows twice in a table without index and is refused by one with an index. |
| Controller.AppendedBuffers | delta/delta.go:129-147 | Appending an event, counted by what it is and its rows by their actions, keeps the buffer and its counters in step with the history. |
| Controller.ExecDelete | delta/controller.go:317-359 | A DELETE keeps exactly the rows with other keys and reports how many rows it removed. |
| Controller.HandleInsertOnly | delta/controller.go:266-315 | Appends the buffered rows; an indexed table refuses them exactly when a key repeats or is taken; the reported insertions are the rows added. |
| Controller.HandleDeleteOnly | delta/controller.go:317-359 | Deletes exactly the buffered keys; the reported deletions are the rows that the table lost, with or without index. |
| Controller.HandleZeroDelete | delta/controller.go:361-401 | Upserts every row of one condensed delta, whatever its action, and reports as many insertions as keys were changed, and no deletions. |
| Controller.HandleGeneralCase | delta/controller.go:442-526 | Upserts the insertions and deletes the deletions of one condensed delta; the reported deletions are the rows that the upserted table lost. |
| Controller.HandleWithoutIndex | delta/controller.go:536-600 | Deletes all changed keys and inserts the surviving rows of one condensed delta; the delta is as large as the number of changed keys, the reported deletions are the rows lost to them, and the reported insertions the surviving rows. |
| Controller.UpdateTable | delta/controller.go:137-190 | Takes the strategy that the counters select; fails exactly when the table's index refuses the rows; otherwise writes what that strategy writes, and without an index the reported numbers account for every row gained or lost. |
| DeltaLog.TableHistory | delta/controller.go:75-135 | A log over several tables, restricted to one table, is a valid history of it, with the same outcome. |
| DeltaLog.FlushRefinesLog | delta/controller.go:75-135 | For every valid ordered log, flushing the buffer that holds it takes tables that represent the state before to tables that represent the state after it. |
| DeltaLog.FlushIsNeverRefused | delta/controller.go:266-315 | What a valid log buffers is never refused by a table's index. |
| DeltaLog.FlushRunRefinesLog | delta/controller.go:75-135 | Every sequence of flushes of the parts of a log ends in tables that represent the whole log. |
| DeltaLog.BatchCutIndependence | delta/controller.go:75-135 | Any two ways of cutting one valid log into flushes end in the same tables, whatever order tables are visited in. |
| DeltaLog.FlushRunKeepsOneRowPerKey | delta/controller.go:536-600 | Through every sequence of flushes a table without index keeps at most one physical row per primary key, although nothing enforces it. |
| DeltaLog.KeyChangingUpdate | binlogreplication/binlog_replica_applier.go:1214-1276 | One update event that appends all before-images and then all after-images under one ordinal flushes to the simultaneous update, chains and cycles of keys included. |
| Flushing.FlushTables | delta/controller.go:75-135 | The loop over the buffered tables, in any order: fails exactly when some table blocks it, else every table is written by its strategy, the buffer is emptied or dropped as the reason says, and without indexes row count after = row count before + insertions - deletions. |
| Flushing.FlushedBufferIsDrained | delta/controller.go:105-132 | After a flush nothing is left buffered, for any reason of flushing; a DDL statement drops every appender, and nothing else drops any. |
| Flushing.DeltaController.GetDeltaAppender | delta/controller.go:44-62 | Returns the table's appender, creating an empty one the first time, and changes no other. |
| Flushing.DeltaController.Close | delta/controller.go:64-72 | Discards everything buffered. |
| Flushing.DeltaController.Flush | delta/controller.go:75-135 | The controller's flush, with the contract of the loop over its own tables. |
| PgMachine.PgAppendAppends | pgserver/logrepl/replication.go:787-859 | A row message buffers one tagged row for each image, counted by its action; an update is counted twice as an update, any other message once as what it is. |
| PgSafety.CommitMovesPrefix | pgserver/logrepl/replication.go:985-1024 | Committing a buffer of whole transactions moves the durable prefix to just these transactions, and the saved LSN to the last of them. |
| PgSafety.StepKeepsInv | pgserver/logrepl/replication.go:222-450 | Every step that commits nothing, or whole transactions up to the position it saves, keeps the invariant that ties tables, saved LSN, buffer and flags to the source's log, with resends of older transactions at any time between two transactions. |
| PgExact.CommitExact | pgserver/logrepl/replication.go:985-1024 | Committing what is buffered under any position keeps the durable prefix if and only if the transactions up to that position have the effect of all that was received. |
| PgExact.StepExact | pgserver/logrepl/replication.go:684-786 | Whatever the step, and whenever it commits: it keeps the durable prefix if and only if it commits nothing, or the transactions up to the position it saves have the effect of all that was received. |
| PgExact.DurableCountAfter | pgserver/logrepl/replication.go:960-982 | How many transactions are on disk after any safe step: all that were sent to the end by then if a database transaction is open and the step is a redefinition, a Begin or the end of a transaction after 200 ms, with 128 MB buffered or around the first one of a connection, or a tick or a stop with whole transactions pending; else as many as before. |
| PgExact.CommitsAreDurable | pgserver/logrepl/replication.go:985-1024 | After every safe commit exactly the transactions that were sent to the end are on disk, that of the Commit message included. |
| PgExact.RedefinitionAfterResend | pgserver/logrepl/replication.go:702-711 | A redefining Relation message behind the Commit message of the k-th transaction, resent, saves that LSN: the durable prefix survives if and only if the first k transactions have the effect of all that are done. |
| PgExact.RedefinitionMidTransaction | pgserver/logrepl/replication.go:702-711 | If it arrives after some rows of a transaction, the durable prefix survives if and only if those rows have no net effect. |
| PgExact.TickAfterResend | pgserver/logrepl/replication.go:768-786 | A skipped Commit message still sets the LSN that is saved next: a tick behind one, while whole transactions are pending, keeps the durable prefix if and only if the transactions up to the resent one have the effect of all that are done. |
| PgRuns.RunKeepsInv | pgserver/logrepl/replication.go:222-450 | The invariant holds in every state of every run. |
| PgRuns.QuietSourceOnlyRuns | pgserver/logrepl/replication.go:741-786 | If the source resends only while nothing is pending, and redefines a relation neither inside a transaction nor behind a resent one, then whatever else happens, every step is safe. |
| PgRuns.DurablePrefixInEveryRun | pgserver/logrepl/replication.go:741-859 | In every reachable state the committed tables are the one-by-one application of exactly the whole transactions with commit LSN at most the saved LSN, never part of one. |
| PgRuns.CaughtUp | pgserver/logrepl/replication.go:985-1024 | A run that has saved the source's last LSN holds all its transactions, each applied once, whatever happened on the way. |
| PgRuns.ExactlyOnce | pgserver/logrepl/replication.go:197-218 | Two runs over one source, from tables laid out alike, with any crashes, reconnects, resends of older transactions, failed commits and batch cuts, hold the same tables whenever they have saved the same LSN. |
| PgRuns.LastWrittenIsMonotone | pgserver/logrepl/replication.go:1004-1021 | In every run the last written LSN never decreases. |
| PgRuns.AcknowledgedIsDurable | pgserver/logrepl/replication.go:274-289 | The position reported to the primary never exceeds the saved LSN + 1, and every transaction below it is in the committed tables. |
| PgRuns.BufferedTagsIncrease | pgserver/logrepl/replication.go:1064-1069 | In every run the tags buffered for each table strictly increase in arrival order. |
| PgRuns.NeverBlocked | pgserver/logrepl/replication.go:985-1024 | In every state of a run no table's index refuses what is buffered, so only the surroundings can fail a commit. |
| PgReach.CatchUp | pgserver/logrepl/replication.go:684-904 | From every start there is a run that replicates the first n transactions of the source, for every n, and has saved the LSN of the last of them. |
| PgReach.RunToRedefinition | pgserver/logrepl/replication.go:702-711 | Over every source of three transactions or more there is a run to a redefining Relation message behind a resent transaction; it lowers the saved LSN, and keeps the durable prefix only if the second transaction changes nothing. |
| PgReach.RunToTick | pgserver/logrepl/replication.go:768-786 | And, if the third transaction has rows, one to a tick behind a transaction that was resent while the third was pending. |
| PgResend.ResendOfLastWritten | pgserver/logrepl/replication.go:741-749 | The resend that the guard does not skip, that of the last written transaction itself: committing it keeps the durable prefix if and only if the insert-only shortcut is taken for none of its tables; in each table for which it is, its rows are stored twice. A source that starts at the requested LSN, one behind the last written, sends none. |
| PgResend.ResendRefused | pgserver/logrepl/replication.go:741-766 | A table with an index stops such a resend from being committed if and only if the shortcut is taken for it. |
| PgResend.InsertsOnlyMeans | pgserver/logrepl/replication.go:787-859 | On a new connection the shortcut is taken exactly for the tables that the transaction only inserts into. |
| PgReplicator.LogicalReplicator.constructor | pgserver/logrepl/replication.go:197-218 | A start from what is on disk, whatever left it there, is the machine's restart, and the object is valid: its tables are the durable prefix. |
| PgReplicator.LogicalReplicator.CommitOngoingTxn | pgserver/logrepl/replication.go:985-1024 | On success the flushed tables and the last commit LSN are committed together, on failure neither changed; it succeeds exactly when nothing is open, or the database accepts the commit and no index refuses a row. |
| PgReplicator.LogicalReplicator.CommitOngoingTxnIfClean | pgserver/logrepl/replication.go:977-982 | Commits only a batch that holds changes and no part of a transaction, and fails exactly when that commit does. |
| PgReplicator.LogicalReplicator.ProcessRow | pgserver/logrepl/replication.go:787-859 | A row message is a step that keeps the object valid; it is an error exactly if its relation was not announced and its transaction is not skipped, and then changes nothing. |
| PgReplicator.LogicalReplicator.ProcessBegin | pgserver/logrepl/replication.go:741-766 | A Begin message is a step of the machine, or a commit failed and was rolled back, exactly when the step had to commit and the database did not accept it; the object is valid again if the step was safe or failed, and if a safe step commits, all transactions sent to the end are on disk. |
| PgReplicator.LogicalReplicator.ProcessCommit | pgserver/logrepl/replication.go:768-786 | The same for a Commit message: when it is due and accepted, the transaction that it ends is on disk, one more than were sent to the end before. |
| PgReplicator.LogicalReplicator.ProcessRelation | pgserver/logrepl/replication.go:702-711 | The same for a Relation message: what was buffered for the old schema is committed first. |
| PgReplicator.LogicalReplicator.ProcessMessage | pgserver/logrepl/replication.go:684-904 | Every message is a step of the machine or fails with disk unchanged: a row exactly if its relation was not announced and its transaction is not skipped, any other exactly if it had to commit and the database did not accept it. After every safe step or failure the object is valid, after every safe commit all transactions sent to the end are on disk, and an acknowledgement is asked for exactly after a Commit message. |
| PgReplicator.LogicalReplicator.ProcessTick | pgserver/logrepl/replication.go:362-371 | A tick commits what is due and whole, and keeps the object valid if that was safe or failed; it fails exactly if the database did not accept the commit, and else all transactions sent to the end are on disk when it has safely committed. |
| PgReplicator.LogicalReplicator.StandbyStatus | pgserver/logrepl/replication.go:274-289 | The transactions below the reported position are exactly those on disk. |
| PgReplicator.LogicalReplicator.Reconnect | pgserver/logrepl/replication.go:312-327 | Keeps the object valid and the disk as it is; what the source sends next are exactly the transactions that are not on disk. |
| PgReplicator.LogicalReplicator.Shutdown | pgserver/logrepl/replication.go:466-478 | Commits what is whole and rolls back the rest: to start again from what is on disk is the machine's restart, or its crash if that commit failed, exactly if the database did not accept it; the tables on disk are the durable prefix if the commit was safe. |
| PgReplicator.AppendRowMessage | pgserver/logrepl/replication.go:787-859 | The appends made for one row message add up to the tagged images and the counts that the buffer records. |
| MySqlMachine.MyAppendAppends | binlogreplication/binlog_replica_applier.go:1168-1278 | A row event buffers its images under one stamp, is counted once as what it is and nothing else, and its rows by action. |
| MySqlSafety.StepKeepsInv | binlogreplication/binlog_replica_applier.go:491-753 | Every step that does not save an unfinished transaction keeps the invariant that ties tables, positions, buffer and flags to the source's transactions, ticks and stops at any time included. |
| MySqlSafety.CommitBeforeSettles | binlogreplication/binlog_replica_applier.go:911-953 | Before BEGIN or DDL everything finished is committed with the pending position, and nothing stays buffered. |
| MySqlSafety.NeverBlocked | binlogreplication/binlog_replica_applier.go:1280-1299 | In every state of a run no table's index refuses what is buffered. |
| MySqlExact.StepExact | binlogreplication/binlog_replica_applier.go:462-479 | Whatever the step: the saved position is right after it if and only if it does not save an unfinished transaction, or that transaction has no effect; if it does, the transaction is never asked for again. |
| MySqlExact.StopBetweenGtidAndBegin | binlogreplication/binlog_replica_applier.go:471-479 | A stop between a GTID event and its BEGIN leaves the saved position right if and only if no batch is open or the announced transaction has no effect; with a batch open, that transaction is saved as done without its effect. |
| MySqlExact.TickBetweenGtidAndBegin | binlogreplication/binlog_replica_applier.go:462-469 | A tick there leaves the pending position at the finished transactions if and only if no batch is open; if the batch is due, the announced transaction is saved as done without its effect. |
| MySqlExact.AheadByTick | binlogreplication/binlog_replica_applier.go:863-873 | Nothing but such a tick makes the pending position count a transaction that is not finished. |
| MySqlExact.DurableCountAfter | binlogreplication/binlog_replica_applier.go:849-873 | How many transactions are on disk after any step that saves none too many: all that are finished by then for the end of a transaction, a BEGIN, a rotation or a tick between transactions after 200 ms or with 128 MB buffered, for DDL, and for a stop between transactions; else as many as before. |
| MySqlExact.DdlLayout | binlogreplication/binlog_replica_applier.go:876-974 | DDL lays out a created table with or without index as asked for, a truncated one as it was, and changes the layout of no other. |
| MySqlRuns.RunKeepsInv | binlogreplication/binlog_replica_applier.go:406-482 | The invariant holds in every state of every run. |
| MySqlRuns.PositionSafety | binlogreplication/binlog_replica_applier.go:791-873 | In every state the saved position is exactly the GTIDs of the whole transactions in the committed tables; the pending position adds exactly those whose rows the buffer holds whole, and the announced one only if it runs ahead. |
| MySqlRuns.SamePositionSameTables | binlogreplication/binlog_replica_applier.go:362-378 | Runs that have saved the same position hold the same tables, whatever interrupted them, and the same rows wherever they are laid out alike. |
| MySqlRuns.BufferedTagsFollowArrival | binlogreplication/binlog_replica_applier.go:741-750 | In every run buffered tags never decrease and tie only within one event and action. |
| MySqlReach.CatchUp | binlogreplication/binlog_replica_applier.go:491-753 | From every start there is a run that replicates the first n transactions of the source, rows and DDL, for every n. |
| MySqlReach.AnnouncedInBatch | binlogreplication/binlog_replica_applier.go:663-686 | Behind every transaction of rows there is a run to the GTID event of the next one while the batch is still open. |
| MySqlReach.RunToStop | binlogreplication/binlog_replica_applier.go:471-479 | And from there to a stop after which the applier resumes behind the announced transaction, with tables that lack it. |
| MySqlApplier.BinlogReplicaApplier.constructor | binlogreplication/binlog_replica_applier.go:340-378 | A start from what is on disk is the machine's restart, and the object is valid: its saved position is that of its tables. |
| MySqlApplier.BinlogReplicaApplier.AppendImages | binlogreplication/binlog_replica_applier.go:1214-1240 | The loop over the images of one half of an event buffers each of them, in order, under the event's stamp. |
| MySqlApplier.BinlogReplicaApplier.AppendRowFormatChanges | binlogreplication/binlog_replica_applier.go:1168-1278 | Buffers all before-images, then all after-images, under one stamp, with the counts of the event. |
| MySqlApplier.BinlogReplicaApplier.FlushDeltaBuffer | binlogreplication/binlog_replica_applier.go:1280-1299 | Writes everything buffered into the open transaction and empties the buffer, or is rolled back, exactly if an index refuses it. |
| MySqlApplier.BinlogReplicaApplier.CommitOngoingTxn | binlogreplication/binlog_replica_applier.go:791-847 | Commits the flushed tables and the pending position together; the current GTID is added except for a commit before a statement. |
| MySqlApplier.BinlogReplicaApplier.ExtendOrCommitBatchTxn | binlogreplication/binlog_replica_applier.go:863-873 | Adds the current GTID to the pending position, or commits. |
| MySqlApplier.BinlogReplicaApplier.CommitBeforeStatement | binlogreplication/binlog_replica_applier.go:939-951 | Flushes, and commits what an earlier transaction left uncommitted. |
| MySqlApplier.BinlogReplicaApplier.ProcessBegin | binlogreplication/binlog_replica_applier.go:876-974 | BEGIN is a step of the machine, and keeps the object valid unless it saves the transaction it begins. |
| MySqlApplier.BinlogReplicaApplier.ProcessGtid | binlogreplication/binlog_replica_applier.go:663-686 | A GTID event is a step that keeps the object valid: saved and pending positions stay those of the finished transactions. |
| MySqlApplier.BinlogReplicaApplier.ProcessDdl | binlogreplication/binlog_replica_applier.go:876-974 | DDL is a step of the machine, commit, execute, commit, and keeps the object valid. |
| MySqlApplier.BinlogReplicaApplier.ProcessRotate | binlogreplication/binlog_replica_applier.go:617-629 | A rotation is a step of the machine and keeps the object valid. |
| MySqlApplier.BinlogReplicaApplier.ProcessRows | binlogreplication/binlog_replica_applier.go:741-750 | A rows event is a step of the machine, under the next ordinal, and keeps the object valid; its table exists. |
| MySqlApplier.BinlogReplicaApplier.ProcessXid | binlogreplication/binlog_replica_applier.go:531-537 | The end of a transaction is a step of the machine and keeps the object valid. |
| MySqlApplier.BinlogReplicaApplier.ProcessTick | binlogreplication/binlog_replica_applier.go:462-469 | A tick is a step of the machine, and keeps the object valid unless it saves an unfinished transaction. |
| MySqlApplier.BinlogReplicaApplier.ProcessStop | binlogreplication/binlog_replica_applier.go:471-479 | A stop commits an open batch between events: to start again is the machine's restart, and the object stays valid unless an unfinished transaction was saved. |
| MySqlApplier.BinlogReplicaApplier.StartReplicationEventStream | binlogreplication/binlog_replica_applier.go:362-378 | Keeps the object valid and the disk as it is; what is asked for next are exactly the transactions that the saved position does not count. |
| Decimal.PowerTable | binlog/rbr.go:45-66 | Each of the twenty entries of the table is that power of ten. |
| Decimal.LayoutSize | binlog/rbr.go:115-140 | The closed form of a decimal's length is the total of its digit groups. |
| Decimal.BufferSuffices | binlog/rbr.go:541-558 | Every decimal that MySQL can declare fits the 40 bytes of the reader's copy. |
| Decimal.SignBitFree | binlog/rbr.go:562-570 | For every value the leading bit of the encoded digit groups is 0, so flipping it can carry the sign. |
| Decimal.CoefficientInverse | binlog/rbr.go:572-760 | Reading the digit groups of any number gives the number back. |
| Decimal.MagnitudeInverse | binlog/rbr.go:562-570 | Flipping and inverting in the reader undoes the sign step of the writer. |
| Decimal.DecimalRoundTrip | binlog/rbr.go:541-780 | For every precision, scale, signed digit string and builder scale, the value read is exact if and only if the scale is positive and at most the builder's, or is 0 and the builder's is 0 or the value is 0 (a cell of scale 0 is never padded). |
| Decimal.UnscaledBound | binlog/rbr.go:744-760 | The value handed on is below 10^(precision - scale + builder scale). |
| Decimal.CopyMagnitude | binlog/rbr.go:555-570 | The loop in place on the copy yields the sign, which is the top bit, and the magnitude: every byte, or of a negative value every byte's complement, without that bit. |
| Decimal.ReadNines | binlog/rbr.go:608-616 | The loop over full groups reads each of them behind the one before. |
| Decimal.Pad | binlog/rbr.go:738-752 | Padding nineteen digits at a time multiplies by exactly the missing power of ten, with every index inside the table. |
| Decimal.DecodeDecimal | binlog/rbr.go:541-780 | The whole reader computes the value of the groups, at the builder's scale, and refuses cells with more fractional digits than the builder keeps; where those groups are and what their bytes hold is DecimalFormat.EncodeHolds. |
| DecimalFormat.EncodeHolds | binlog/rbr.go:115-140 | The format that the reader is proved against, byte by byte: for every precision, scale and signed digits, the top bit tells the sign; behind it, complemented for a negative value, stand the digits left over of the integer part in 0 to 4 bytes, nine digits to four big-endian bytes on both sides of the point, and the digits left over of the fraction, each digit where the number in those bytes has it. |
| DecimalFormat.NegativeIsComplement | binlog/rbr.go:562-570 | The cells of a value and of its negative add up to 255 in every byte. |
| Time.TimeRoundTrip | binlog/rbr.go:466-539 | Decoding gives back every signed duration at every precision 0 to 6, also one of less than a second below zero. |
| Time.CellIsOffsetNumber | binlog/rbr.go:466-539 | The format that it is decoded from: one big-endian number of the hours, minutes, seconds and fraction with its top bit set, and for the negative as far below that offset as for the positive above it. |
| Time.OldTimeExact | binlog/rbr.go:282-305 | The older three-byte form is read right if and only if the time is not negative or is a whole number of hours. |
| Time.OldTimeMisread | binlog/rbr.go:282-305 | -01:30:00 in the older form is read as minus half an hour. |
| Cells.ReadsCellLength | binlog/rbr.go:70-185 | Whatever the column and the data, a cell that is read takes `CellLength` bytes if and only if it is not a timestamp or datetime that claims more than six fractional digits. |
| Cells.CellIsLocal | binlog/rbr.go:192-999 | What follows a cell does not change how it is read; what is read is CellFormat.CellReadsBack. |
| Cells.MisalignedTimestamp | binlog/rbr.go:355-401 | A timestamp claiming seven fractional digits is read four bytes short. |
| Cells.DecimalCell | binlog/rbr.go:541-780 | Every decimal of MySQL with no more fractional digits than the builder keeps is one whole cell of its column; what is read is its value at the builder's scale if and only if it has fractional digits, or the builder keeps none, or it is 0. |
| Cells.TimeCell | binlog/rbr.go:466-539 | Every duration of MySQL is one whole cell of its column, read as its microseconds. |
| CellFormat.CellReadsBack | binlog/rbr.go:70-999 | For every value that MySQL stores, of every type, written by MySQL's rules: two's complement integers of 1, 2, 3, 4 and 8 bytes, floats, years, dates, timestamps and datetimes with and without fraction, both forms of durations, decimals, BIT, enumerations and sets, texts behind their length in 1 to 4 bytes, CHAR and zero-padded BINARY. Its bytes are one whole cell of its column, and are read as the value, whatever follows, if and only if it is neither a negative duration of the older form other than whole hours nor a decimal without fractional digits, other than 0, for a builder that keeps some. |
| RowWalk.ReadRow | binlogreplication/binlog_replica_applier.go:1225-1239 | The loop over a row's columns reads each where the one before it ended, skips nulls, and stops at the first cell that cannot be read. |
| RowWalk.RowAlignment | binlogreplication/binlog_replica_applier.go:1256-1270 | For every schema, null bitmap and row laid out cell after cell, each column that is not null is read from its own bytes and the walk ends at the row's end. |
| CellFormat.RowReadsBack | binlogreplication/binlog_replica_applier.go:1214-1276 | For every schema and every row of such values and nulls, the walk over the image that MySQL writes ends at its end and reads null for null and value for value. |
| Bytes.LittleEndianByte | binlog/rbr.go:192-280 | The i-th byte of a little-endian number is that many bytes up in it. |
| Bytes.BigEndianByte | binlog/rbr.go:341-401 | The i-th byte of a big-endian number is that many bytes down in it. |
| JsonRoundTrip.KeyLength | binlogreplication/binlog_json_serialization.go:174-174 | The stored length of a key is its length modulo 256. |
| JsonRoundTrip.ArrayRoundTrip | binlogreplication/binlog_json_serialization.go:82-132 | Every array, small or large, whose size fits its field is read back element by element. |
| JsonRoundTrip.ObjectRoundTrip | binlogreplication/binlog_json_serialization.go:148-229 | Every object whose size fits its field is read back member by member, each key cut to its stored length. |
| JsonRoundTrip.LengthInverse | binlogreplication/binlog_json_serialization.go:308-327 | The seven-bit groups of a string's length are read back for every length that is supported. |
| JsonRoundTrip.RoundTrip | binlogreplication/binlog_json_serialization.go:233-288 | Every nested document whose container sizes fit is read back from the front of any data, across the fallback from small to large. |
| JsonRoundTrip.DocumentRoundTrip | binlogreplication/binlog_json_serialization.go:57-69 | Every document whose container sizes fit comes back as it was if and only if every key has at most 255 bytes; longer keys come back cut. |
| JsonSizes.SmallArraySize | binlogreplication/binlog_json_serialization.go:82-132 | A small array states its size rightly if and only if no element takes more than 65,535 bytes and it is not 21,844 or more literals. |
| JsonSizes.SmallObjectSize | binlogreplication/binlog_json_serialization.go:148-229 | A small object with short keys states its size rightly if and only if no value takes more than 65,535 bytes. |
| JsonSizes.LongElement | binlogreplication/binlog_json_serialization.go:106-106 | Every text of 65,536 bytes or more that can be encoded makes an array of it unreadable, because the room check wraps around. |
| JsonExact.ComesBackExactly | binlogreplication/binlog_json_serialization.go:57-358 | Every document that encodes to less than four gigabytes comes back as it was if and only if its keys have at most 255 bytes and its container sizes fit their fields. |
| JsonExact.ModestComesBack | binlogreplication/binlog_json_serialization.go:82-229 | Said of the encoded children: if and only if keys have at most 255 bytes and no container that takes the small form has a value of more than 65,535 bytes or is an array of 21,844 or more literals. |
| JsonFormat.DecodeMeans | binlogreplication/binlog_json_serialization.go:28-55 | The reader that the round trip goes through follows MySQL's documented format, stated byte by byte with its type codes, counts, sizes, entries, offsets and lengths: it reads a document as a value if and only if the bytes hold that value. |
| JsonFormat.WrittenInFormat | binlogreplication/binlog_json_serialization.go:57-358 | What is written of a document of less than four gigabytes is in that format if and only if its keys have at most 255 bytes and its container sizes fit their fields. |
| JsonFormat.FirstByteIsCode | binlogreplication/binlog_json_serialization.go:28-38 | Every document that can be written begins with its type code: 4 for null and booleans, 12 for texts, 11 for doubles, 2 or 3 for arrays, 0 or 1 for objects. |
| JsonFormat.EntryByteIsCode | binlogreplication/binlog_json_serialization.go:82-229 | And so does every value entry of every container, at its documented place. |
| JsonFormat.LeafBytes | binlogreplication/binlog_json_serialization.go:233-327 | Null, booleans, numbers and texts take no byte more than the format gives them, and lengths as few bytes as they can. |
| JsonFormat.ContainerBytes | binlogreplication/binlog_json_serialization.go:82-229 | A container whose size fits its field takes exactly the bytes that its size says. |
| JsonFormat.SmallArrayIfThereIsRoom | binlogreplication/binlog_json_serialization.go:82-132 | An array takes the small form whenever that needs no more than 65,535 bytes. |
| JsonFormat.SmallObjectIfThereIsRoom | binlogreplication/binlog_json_serialization.go:148-229 | And so does an object. |
| JsonEncoder.LayOutValues | binlogreplication/binlog_json_serialization.go:92-113 | The loop over the values produces exactly the entries and values of the layout, or fails exactly when a child does or finds no room. |
| JsonEncoder.LayOutKeys | binlogreplication/binlog_json_serialization.go:164-177 | The loop over the keys produces exactly the key entries and keys, or fails exactly when one finds no room. |
| JsonEncoder.EncodeJsonArray | binlogreplication/binlog_json_serialization.go:82-132 | The array encoder yields the small or large layout of its elements, or its failure. |
| JsonEncoder.EncodeJsonObject | binlogreplication/binlog_json_serialization.go:148-229 | The object encoder yields the small or large layout of its members, or its failure. |
| JsonEncoder.EncodeValue | binlogreplication/binlog_json_serialization.go:233-288 | The recursive encoder computes the encoding that the round trip is proved for and that JsonFormat.WrittenInFormat finds in the documented format. |
| Quotes.NormalizeStrings | transpiler/converter.go:52-169 | The loop computes the translation that the laws below are about. |
| Quotes.FollowStep | transpiler/converter.go:57-153 | The machine goes on following MySQL's reading if and only if no other quote stands right behind a closed one. |
| Quotes.NormalizePreservesTokens | transpiler/converter.go:52-169 | For every query whose quoted tokens are closed and separated by other characters, standard SQL reads the translation as MySQL reads the query if and only if it escapes only characters that stand for themselves and no name holds a double quote. |
| Quotes.NormalizeKeepsOpen | transpiler/converter.go:155-166 | A query that leaves a quote open is translated to one that does. |
| Quotes.AdjacentTexts | transpiler/converter.go:124-133 | Every separated, faithful query with two texts next to each other behind it is translated to a query with an open quote. |
| Quotes.DenormalizeStrings | transpiler/converter.go:172-265 | The loop computes the translation back. |
| Quotes.DenormalizePreservesTokens | transpiler/converter.go:172-265 | For every query without backslashes in values and without stray or adjacent quotes, MySQL reads the translation as standard SQL reads the query, open quotes included. |
| Backslashes.DenormalizeExact | transpiler/converter.go:172-265 | For every query without stray or adjacent quotes that leaves no quote open, MySQL reads the translation as standard SQL reads the query if and only if no value has a backslash. |
| Backslashes.BackslashIsLost | transpiler/converter.go:190-208 | Every text of a backslash and characters other than the quote fails to come back. |
| Quotes.ThereAndBack | transpiler/converter.go:52-265 | Translating a query to standard SQL and back gives a query that MySQL reads the same. |
| Protocol.ReadyForQueryAccounting | pgserver/connection_handler.go:405-446 | Of the message flow that the handler is proved against: in every stream of messages with any failures, each Sync and each query that is not skipped gets one ReadyForQuery, and nothing else gets one. |
| Protocol.SkippedHasNoEffect | pgserver/connection_handler.go:1346-1359 | Of the same flow: nothing between an error in an extended query and the next Sync has any effect. |
| Prepared.StatementMeans | pgserver/connection_handler.go:563-631 | Of the same flow, after every stream: a statement name stands for what the last Parse message under it that was accepted and not skipped has prepared, if nothing behind that closed or forgot the name, and else for nothing. |
| Prepared.PortalMeans | pgserver/connection_handler.go:684-734 | A portal name stands for the statement that it was bound to last, as that was at the time, if nothing behind that closed or forgot the name, and else for nothing. |
| Prepared.ExecuteRuns | pgserver/connection_handler.go:737-776 | An accepted Execute message runs and completes exactly the statement that its portal stands for; without one, or refused, it is an error, runs nothing, and begins the skipping. |
| Prepared.QueryRuns | pgserver/connection_handler.go:451-503 | A query runs and completes exactly the longest accepted front of its statements, then an error if that is not all of them, then ReadyForQuery; only a query that is not early forgets the unnamed statement and portal, and it keeps all others. |
| Prepared.OthersRunNothing | pgserver/connection_handler.go:411-446 | Every other message runs nothing and changes no name but the one that it is about. |
| Prepared.OneReply | pgserver/connection_handler.go:411-446 | Every message that is not skipped, other than a query, gets one reply, that it was accepted or an error, and an error exactly if it was refused or is about a name that stands for nothing; a closed name stands for nothing. |
| Prepared.ParseBindExecute | pgserver/connection_handler.go:563-776 | From any session Parse, Bind and Execute, one after the other, keep the statement and the portal under their names, run exactly that statement and reply three times. |
| ConnectionHandler.Handler.HandleQuery | pgserver/connection_handler.go:451-503 | Runs the statements up to the first that fails, after forgetting the unnamed statement and portal, and always ends the message group. |
| ConnectionHandler.Handler.HandleParse | pgserver/connection_handler.go:563-631 | Keeps the statement, or fails and changes nothing. |
| ConnectionHandler.Handler.HandleBind | pgserver/connection_handler.go:684-734 | Binds a portal to a known statement as the flow does, whose portals are what Prepared.PortalMeans says, or fails and changes nothing. |
| ConnectionHandler.Handler.HandleDescribe | pgserver/connection_handler.go:636-681 | Describes a known statement or portal, or fails and changes nothing. |
| ConnectionHandler.Handler.HandleExecute | pgserver/connection_handler.go:737-776 | Runs a known portal, or fails and changes nothing. |
| ConnectionHandler.Handler.HandleMessage | pgserver/connection_handler.go:411-446 | Dispatch: who ends a message group, and that a failed extended request leaves the handler waiting for a Sync. |
| ConnectionHandler.Handler.DiscardToSync | pgserver/connection_handler.go:1346-1359 | Reads up to and including the next Sync and no further, or to the end of the stream if there is none. |
| ConnectionHandler.Handler.EndOfMessages | pgserver/connection_handler.go:1208-1218 | Sends the error, if any, and one ReadyForQuery. |
| ConnectionHandler.Handler.ReceiveMessage | pgserver/connection_handler.go:348-403 | After each call the session is where the protocol would be, unless the stream ended inside recovery. |
| ConnectionHandler.Handler.HandleConnection | pgserver/connection_handler.go:171-183 | Over the whole connection what was kept, run and answered is what the protocol asks for; the ReadyForQuery count is right if and only if the client did not leave while an error was pending, in which case one too many is sent. |

Code and comments disagree in two places, where the model follows the code: the comment at
binlogreplication/binlog_json_serialization.go:144 gives keys two bytes of length, but the second byte
written is always 0; the comment at binlogreplication/binlog_json_serialization.go:46-48 says the offset
check decides when to switch to the large form, but it wraps around for elements of more than 65,535
bytes.

## Left out

- PgSafety.StepKeepsInv: asks that the step be safe, that it commits nothing in the middle of a transaction and nothing behind the Commit message of a resent one; what happens otherwise is PgExact.StepExact, and that it happens is PgReach.RunToRedefinition and PgReach.RunToTick.
- PgRuns.ExactlyOnce: of runs whose steps are safe in that sense; resends are of transactions strictly older than the last written one, and what happens for that one itself is PgResend.ResendOfLastWritten.
- MySqlSafety.StepKeepsInv: asks that the step save no unfinished transaction, which a tick or a stop may do between a GTID event and a BEGIN that is an event of its own; what happens then is MySqlExact.StepExact, and that it happens is MySqlReach.RunToStop.
- PgReplicator.LogicalReplicator.ProcessMessage: row messages are those of a valid source; Truncate messages and errors in decoding a row are not modelled.
- MySqlApplier.BinlogReplicaApplier.CommitOngoingTxn: no index refuses what is buffered, which MySqlSafety.NeverBlocked proves of every run, and the database accepts the commit.
- Flushing.DeltaController.GetDeltaAppender: returns the value of the appender, where the source returns the appender itself, shared with later appends; the replicators keep the controller's tables in the `buffer` of their state.
- JsonExact.ComesBackExactly: says nothing of documents that encode to four gigabytes or more.
- Quotes.NormalizePreservesTokens: one way only for adjacent quoted tokens, since behind one the machine reads quotes the other way round; Quotes.FollowStep says exactly when it loses track.
- Json.Encode: objects are given as their members in the order of the keys; sorting them is a library's.
- JsonEncoder.LayOutValues: the loops of the array and the object encoder over their values are one method here, and offsets are unbounded except where they are compared and stored.
- CellFormat.CellReadsBack: a float is its bits; a date or time is the fields given to the calendar, and what that makes of a month or day that does not exist is not modelled; enumeration and set members are their numbers; of character sets, members and nested JSON only whether they are refused. A BINARY of more than 255 bytes does not exist, nor does a decimal with a scale above its precision; one with more fractional digits than the builder keeps is Decimal.DecimalRoundTrip.
- ConnectionHandler.Handler.HandleDescribe: whether a portal answered in place sends its description now or later.
- COPY messages, messages of unknown type, panic recovery, failing sends, closing of engine statements and the empty-query response in the Postgres message loop.
- Truncate messages in the Postgres replicator, and the write-ahead position it reports besides the flushed one.
- Partial row images, keyless tables and statement-based changes in MySQL replication, which write outside the delta buffer.
- Errors that the MySQL applier logs and continues past, file-position GTIDs, and batches that mix several source servers.
- A crash inside a DDL statement, between its execution and its commit.
- Overflow of the 128-bit and 256-bit decimals of Arrow beyond the bound of Decimal.UnscaledBound.
- DuckDB, Arrow, Vitess and pgx themselves, SQL text building, catalogs, storage, authentication and the Flight SQL server, which would only add tables of constants and thin wrappers.
