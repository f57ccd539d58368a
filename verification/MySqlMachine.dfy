/**
 The MySQL binlog applier as a step machine.

 The source is a log of GTID transactions, of rows or of one DDL statement. The applier folds
 finished row transactions into one database transaction and saves the set of their GTIDs with
 it; `pendingPosition` runs ahead of the saved position by the batch not yet committed.
 */
module MySqlMachine {
  import opened Rows
  import opened Tags
  import opened Strategies
  import opened Controller
  import opened DeltaLog
  import opened Flushing

  // ----- The source -----

  datatype RowEvent = RowEvent(table: TableId, event: Event)

  datatype Ddl = CreateTable(table: TableId) | DropTable(table: TableId) | TruncateTable(table: TableId)

  /** One source server, so a GTID is its sequence number. */
  datatype Txn = RowTxn(gtid: nat, rows: seq<RowEvent>) | DdlTxn(gtid: nat, ddl: Ddl)

  type History = seq<Txn>

  function Plain(rows: seq<RowEvent>): (log: seq<Entry>)
    ensures |log| == |rows|
    ensures forall i :: 0 <= i < |rows| ==> log[i] == Entry(rows[i].table, Stamped(Stamp("", 0, 0), rows[i].event))
  {
    seq(|rows|, i requires 0 <= i < |rows| => Entry(rows[i].table, Stamped(Stamp("", 0, 0), rows[i].event)))
  }

  ghost predicate DdlAllowed(ts: Tables, ddl: Ddl) {
    match ddl
    case CreateTable(id) => id !in ts
    case DropTable(id) => id in ts
    case TruncateTable(id) => id in ts
  }

  ghost function ApplyDdl(ts: Tables, ddl: Ddl): Tables {
    match ddl
    case CreateTable(id) => ts[id := map[]]
    case DropTable(id) => ts - {id}
    case TruncateTable(id) => ts[id := map[]]
  }

  ghost function ApplyTxn(ts: Tables, txn: Txn): Tables {
    match txn
    case RowTxn(_, rows) => ApplyLog(ts, Plain(rows))
    case DdlTxn(_, ddl) => ApplyDdl(ts, ddl)
  }

  /** Applies whole transactions one at a time. */
  ghost function ApplyTxns(ts: Tables, h: History): Tables {
    if h == [] then ts else ApplyTxn(ApplyTxns(ts, h[..|h| - 1]), h[|h| - 1])
  }

  ghost predicate ValidTxn(ts: Tables, txn: Txn) {
    match txn
    case RowTxn(_, rows) => ValidLog(ts, Plain(rows))
    case DdlTxn(_, ddl) => DdlAllowed(ts, ddl)
  }

  ghost predicate IncreasingGtids(h: History) {
    forall i, j :: 0 <= i < j < |h| ==> h[i].gtid < h[j].gtid
  }

  /** `purged` are the GTIDs that the replica was seeded with. */
  ghost predicate ValidSource(h: History, ts: Tables, purged: set<nat>) {
    && IncreasingGtids(h)
    && (forall i :: 0 <= i < |h| ==> h[i].gtid !in purged)
    && (forall i {:trigger ValidTxn(ApplyTxns(ts, h[..i]), h[i])} ::
          0 <= i < |h| ==> ValidTxn(ApplyTxns(ts, h[..i]), h[i]))
  }

  ghost function GtidSet(h: History): set<nat> {
    set i | 0 <= i < |h| :: h[i].gtid
  }

  // ----- The applier -----

  datatype Gtid = NoGtid | Gtid(id: nat)

  datatype Transaction = NoTransaction | Open(view: Database)

  /** `db` and `saved` are on disk. `tx` is the open database transaction and what it sees. */
  datatype State = State(
    db: Database, saved: set<nat>, tx: Transaction, buffer: Buffer,
    position: set<nat>, pending: set<nat>, currentGtid: Gtid, previousGtid: Gtid,
    ongoingBatch: bool, dirtyTxn: bool, dirtyStream: bool, stmtId: nat)

  datatype CommitKind = NormalCommit | ImplicitCommitBeforeStmt | ImplicitCommitAfterStmt

  function AppendGtid(position: set<nat>, g: Gtid): set<nat> {
    match g
    case NoGtid => position
    case Gtid(id) => position + {id}
  }

  function View(s: State): Database {
    match s.tx
    case NoTransaction => s.db
    case Open(view) => view
  }

  function ExtendBatch(s: State, timedOut: bool, full: bool): (bool, FlushReason) {
    if !s.ongoingBatch then (false, UnknownFlush)
    else if timedOut then (false, TimeTickFlush)
    else if full then (false, MemoryLimitFlush)
    else (true, UnknownFlush)
  }

  predicate MayExtendBatch(s: State, timedOut: bool, full: bool) {
    ExtendBatch(s, timedOut, full).0
  }

  /** `flushDeltaBuffer`, into the open transaction or a new one, leaving it with `view`. */
  function Flushed(s: State, reason: FlushReason, view: Database): State {
    s.(tx := Open(view), buffer := FlushedBuffer(s.buffer, reason))
  }

  /** The state after `commitOngoingTxn` flushed to `db` and committed it with the pending position. */
  function Committed(s: State, kind: CommitKind, reason: FlushReason, db: Database): State {
    var pending := if kind.ImplicitCommitBeforeStmt? then s.pending else AppendGtid(s.pending, s.currentGtid);
    s.(db := db, saved := pending, tx := NoTransaction, buffer := FlushedBuffer(s.buffer, reason),
       position := pending, pending := pending,
       ongoingBatch := false, dirtyTxn := false, dirtyStream := false, stmtId := 0)
  }

  ghost predicate CommitOngoing(s: State, kind: CommitKind, reason: FlushReason, s': State) {
    FlushedTo(View(s), s.buffer, s'.db) && s' == Committed(s, kind, reason, s'.db)
  }

  ghost predicate ExtendOrCommit(s: State, timedOut: bool, full: bool, s': State) {
    if MayExtendBatch(s, timedOut, full)
    then s' == s.(pending := AppendGtid(s.pending, s.currentGtid), dirtyStream := false)
    else CommitOngoing(s, NormalCommit, ExtendBatch(s, timedOut, full).1, s')
  }

  function OnGtid(s: State, g: nat): State {
    s.(previousGtid := s.currentGtid, currentGtid := Gtid(g))
  }

  /** Flushes, and commits what an earlier transaction left uncommitted, before BEGIN or DDL. */
  ghost predicate CommitBefore(s: State, reason: FlushReason, s': State) {
    exists view ::
      && FlushedTo(View(s), s.buffer, view)
      && var s1 := Flushed(s, reason, view);
         if s1.dirtyTxn then CommitOngoing(s1, ImplicitCommitBeforeStmt, reason, s') else s' == s1
  }

  /** BEGIN. `viaQuery`: it came as a query event, which also takes a statement ordinal. */
  ghost predicate OnBegin(s: State, timedOut: bool, full: bool, viaQuery: bool, s': State) {
    var took := if viaQuery then 1 else 0;
    if MayExtendBatch(s, timedOut, full)
    then s' == s.(pending := AppendGtid(s.pending, s.previousGtid), dirtyStream := true, stmtId := s.stmtId + took)
    else exists s1 ::
           && CommitBefore(s, ExtendBatch(s, timedOut, full).1, s1)
           && s' == s1.(dirtyTxn := true, dirtyStream := true, ongoingBatch := true, stmtId := s1.stmtId + took)
  }

  /** `appendRowFormatChanges`: one event, counted once. */
  function MyAppend(app: Appender, e: Stamped): Appender {
    var c := match e.event
      case InsertRows(rows) => UpdateActionStats(app.counters, Insert, |rows|)
      case DeleteRows(rows) => UpdateActionStats(app.counters, Delete, |rows|)
      case UpdateRows(before, after) =>
        UpdateActionStats(UpdateActionStats(app.counters, Delete, |before|), Insert, |after|)
      case UpdateInPlace(_) => UpdateActionStats(app.counters, Insert, 1);
    Appender(app.rows + Render(e), ObserveEvents(c, KindOf(e.event)))
  }

  lemma {:induction false} MyAppendAppends(app: Appender, e: Stamped)
    ensures Appended(app, MyAppend(app, e), e)
    ensures EventCount(MyAppend(app, e).counters, KindOf(e.event)) == EventCount(app.counters, KindOf(e.event)) + 1
  {
    CountRendered(e, Insert);
    CountRendered(e, Delete);
  }

  /** The stamp that the next row event is buffered under. */
  function NextStamp(s: State): Stamp {
    Stamp("", if s.currentGtid.Gtid? then s.currentGtid.id else 0, s.stmtId)
  }

  function OnRows(s: State, r: RowEvent): State {
    var app := MyAppend(AppenderFor(s.buffer, r.table), Stamped(NextStamp(s), r.event));
    s.(buffer := s.buffer[r.table := app], dirtyTxn := true, dirtyStream := true, stmtId := s.stmtId + 1)
  }

  function NewStore(withoutIndex: bool): Store {
    if withoutIndex then Keyless(multiset{}) else Indexed(map[])
  }

  function ExecuteDdl(db: Database, ddl: Ddl, withoutIndex: bool): Database {
    match ddl
    case CreateTable(id) => db[id := NewStore(withoutIndex)]
    case DropTable(id) => db - {id}
    case TruncateTable(id) => if id in db then db[id := NewStore(db[id].Keyless?)] else db
  }

  /** A DDL statement commits before and after itself. */
  ghost predicate OnDdl(s: State, ddl: Ddl, withoutIndex: bool, s': State) {
    exists s1, s2 ::
      && CommitBefore(s, DDLStmtFlush, s1)
      && CommitOngoing(s1.(tx := Open(ExecuteDdl(View(s1), ddl, withoutIndex)),
                           dirtyTxn := true, dirtyStream := true, ongoingBatch := false),
                       ImplicitCommitAfterStmt, DDLStmtFlush, s2)
      && s' == s2.(stmtId := s2.stmtId + 1)
  }

  ghost predicate OnRotate(s: State, timedOut: bool, full: bool, s': State) {
    if s.currentGtid.Gtid? then ExtendOrCommit(s, timedOut, full, s') else s' == s
  }

  ghost predicate OnTick(s: State, timedOut: bool, full: bool, s': State) {
    if s.ongoingBatch && !s.dirtyStream then ExtendOrCommit(s, timedOut, full, s') else s' == s
  }

  ghost predicate OnStop(s: State, s': State) {
    if s.ongoingBatch && !s.dirtyStream then CommitOngoing(s, NormalCommit, OnCloseFlush, s') else s' == s
  }

  /** `startReplicationEventStream`: the memory after (re)connecting. An open transaction is left as it is. */
  function Restarted(s: State): State {
    State(s.db, s.saved, s.tx, map[], s.saved, s.saved, NoGtid, NoGtid, false, false, false, 0)
  }

  // ----- The world -----

  /** `Announced`: the GTID of the next transaction came, its BEGIN or DDL did not yet. */
  datatype Phase = Between | Announced | InTxn(sent: nat)

  /** `done` transactions are in the database or the buffer; `log` is what was buffered, as stamped. */
  datatype World = World(s: State, done: nat, phase: Phase, log: seq<Entry>)

  datatype Step =
    | GtidEvent
    | BeginEvent(timedOut: bool, full: bool, viaQuery: bool)
    | DdlEvent(withoutIndex: bool)
    | RowsEvent
    | XidEvent(timedOut: bool, full: bool)
    | RotateEvent(timedOut: bool, full: bool)
    | Tick(timedOut: bool, full: bool)
    | StopAndRestart
    | Reconnect
    | Crash

  ghost predicate Placed(h: History, w: World) {
    && w.done <= |h|
    && (!w.phase.Between? ==> w.done < |h|)
    && (w.phase.InTxn? ==> h[w.done].RowTxn? && w.phase.sent <= |h[w.done].rows|)
  }

  /** What may happen. Transactions arrive whole and in order, and a log rotation never splits one. */
  ghost predicate Enabled(h: History, w: World, step: Step)
    requires Placed(h, w)
  {
    match step
    case GtidEvent => w.phase.Between? && w.done < |h|
    case BeginEvent(_, _, _) => w.phase.Announced? && h[w.done].RowTxn?
    case DdlEvent(withoutIndex) => w.phase.Announced? && h[w.done].DdlTxn?
    case RowsEvent => w.phase.InTxn? && w.phase.sent < |h[w.done].rows|
    case XidEvent(_, _) => w.phase.InTxn? && w.phase.sent == |h[w.done].rows|
    case RotateEvent(_, _) => w.phase.Between?
    case Tick(_, _) => true
    case StopAndRestart => true
    case Reconnect => true
    case Crash => true
  }

  /** How many transactions of the source are in a position. */
  ghost function CountIn(h: History, position: set<nat>): nat {
    if h == [] then 0
    else CountIn(h[..|h| - 1], position) + if h[|h| - 1].gtid in position then 1 else 0
  }

  function Resumed(s: State, done: nat): World {
    World(s, done, Between, [])
  }

  ghost predicate Next(h: History, w: World, step: Step, w': World)
    requires Placed(h, w)
  {
    && Enabled(h, w, step)
    && match step
       case GtidEvent =>
         w' == w.(s := OnGtid(w.s, h[w.done].gtid), phase := Announced)
       case BeginEvent(timedOut, full, viaQuery) =>
         && OnBegin(w.s, timedOut, full, viaQuery, w'.s)
         && w' == w.(s := w'.s, phase := InTxn(0), log := if MayExtendBatch(w.s, timedOut, full) then w.log else [])
       case DdlEvent(withoutIndex) =>
         OnDdl(w.s, h[w.done].ddl, withoutIndex, w'.s) && w' == World(w'.s, w.done + 1, Between, [])
       case RowsEvent =>
         var r := h[w.done].rows[w.phase.sent];
         w' == w.(s := OnRows(w.s, r), phase := InTxn(w.phase.sent + 1),
                  log := w.log + [Entry(r.table, Stamped(NextStamp(w.s), r.event))])
       case XidEvent(timedOut, full) =>
         && ExtendOrCommit(w.s, timedOut, full, w'.s)
         && w' == World(w'.s, w.done + 1, Between, if MayExtendBatch(w.s, timedOut, full) then w.log else [])
       case RotateEvent(timedOut, full) =>
         && OnRotate(w.s, timedOut, full, w'.s)
         && w' == w.(s := w'.s,
                     log := if w.s.currentGtid.Gtid? && !MayExtendBatch(w.s, timedOut, full) then [] else w.log)
       case Tick(timedOut, full) =>
         && OnTick(w.s, timedOut, full, w'.s)
         && w' == w.(s := w'.s,
                     log := if w.s.ongoingBatch && !w.s.dirtyStream && !MayExtendBatch(w.s, timedOut, full) then []
                            else w.log)
       case StopAndRestart =>
         exists s1 :: OnStop(w.s, s1) && w' == Resumed(Restarted(s1), CountIn(h, s1.saved))
       case Reconnect =>
         w' == Resumed(Restarted(w.s), CountIn(h, w.s.saved))
       case Crash =>
         w' == Resumed(Restarted(w.s.(tx := NoTransaction)), CountIn(h, w.s.saved))
  }

  ghost predicate Initial(ts: Tables, purged: set<nat>, w: World) {
    && RepresentsAll(w.s.db, ts) && w.s.saved == purged && w.s.tx.NoTransaction?
    && w == Resumed(Restarted(w.s), 0)
  }

  // ----- When the position runs ahead -----

  /** The pending position already counts the transaction that was only announced, or has only begun. */
  predicate Ahead(w: World) {
    !w.phase.Between? && AppendGtid(w.s.pending, w.s.currentGtid) == w.s.pending
  }

  /**
   The step saves a position that counts an unfinished transaction: a tick or a stop that commits
   between a GTID event and the statement it announces, or a BEGIN that commits the batch before it
   although the position already counts the transaction it begins.
   */
  predicate SavesUnfinished(w: World, step: Step) {
    match step
    case Tick(timedOut, full) => w.phase.Announced? && w.s.ongoingBatch && !MayExtendBatch(w.s, timedOut, full)
    case StopAndRestart => w.phase.Announced? && w.s.ongoingBatch
    case BeginEvent(timedOut, full, _) => Ahead(w) && !MayExtendBatch(w.s, timedOut, full)
    case _ => false
  }
}
