/**
 The Postgres logical replicator as a step machine.

 The source is a log of whole transactions with increasing commit positions (LSNs). The replica
 buffers their rows, folds several of them into one database transaction, and saves the LSN of
 the last of them in that same transaction.
 */
module PgMachine {
  import opened Rows
  import opened Tags
  import opened Strategies
  import opened Controller
  import opened DeltaLog
  import opened Flushing

  // ----- The source -----

  datatype RowMessage = RowMessage(table: TableId, event: Event)

  datatype Txn = Txn(lsn: nat, changes: seq<RowMessage>)

  type History = seq<Txn>

  /** A row message is about one row. */
  predicate SingleRow(e: Event) {
    match e
    case InsertRows(rows) => |rows| == 1
    case DeleteRows(rows) => |rows| == 1
    case UpdateRows(before, after) => |before| == |after| == 1
    case UpdateInPlace(_) => true
  }

  ghost predicate SingleRowMessages(h: History) {
    forall i, j :: 0 <= i < |h| && 0 <= j < |h[i].changes| ==> SingleRow(h[i].changes[j].event)
  }

  /** The `i`-th row message of a transaction, with the stamp the replica gives it. */
  function EntryAt(txn: Txn, i: nat): Entry
    requires i < |txn.changes|
  {
    Entry(txn.changes[i].table, Stamped(Stamp("", txn.lsn, i), txn.changes[i].event))
  }

  function TxnLog(txn: Txn): (log: seq<Entry>)
    ensures |log| == |txn.changes|
    ensures forall i :: 0 <= i < |log| ==> log[i] == EntryAt(txn, i)
  {
    seq(|txn.changes|, i requires 0 <= i < |txn.changes| => EntryAt(txn, i))
  }

  ghost function LogOf(h: History): seq<Entry> {
    if h == [] then [] else LogOf(h[..|h| - 1]) + TxnLog(h[|h| - 1])
  }

  ghost predicate IncreasingLsns(h: History) {
    && (forall i :: 0 <= i < |h| ==> h[i].lsn > 0)
    && (forall i, j :: 0 <= i < j < |h| ==> h[i].lsn < h[j].lsn)
  }

  ghost predicate ValidSource(h: History, ts: Tables) {
    IncreasingLsns(h) && ValidLog(ts, LogOf(h))
  }

  /** The commit position of the `n`-th transaction; 0 is a cold start. */
  function LsnAt(h: History, n: nat): nat
    requires n <= |h|
  {
    if n == 0 then 0 else h[n - 1].lsn
  }

  /** How many transactions of the source committed at or before `lsn`. */
  ghost function CountUpTo(h: History, lsn: nat): (n: nat)
    ensures n <= |h|
  {
    if h == [] then 0
    else CountUpTo(h[..|h| - 1], lsn) + if h[|h| - 1].lsn <= lsn then 1 else 0
  }

  // ----- The replica -----

  /** `db` and `savedLsn` are on disk; the rest is the memory of the replicator. */
  datatype State = State(
    db: Database, savedLsn: nat,
    txOpen: bool, buffer: Buffer,
    lastWritten: nat, lastCommit: nat, currentTxn: nat,
    processMessages: bool, ongoingBatch: bool, dirtyTxn: bool, dirtyStream: bool,
    stmtId: nat, commitCount: nat)

  /** `reset`: the memory after (re)connecting at position `lsn`. */
  function Reset(s: State, lsn: nat): State {
    State(s.db, s.savedLsn, false, map[], lsn, lsn, 0, false, false, false, false, 0, 0)
  }

  /**
   `mayExtendBatchTxn`, and why not where not. `timedOut`: 200 ms passed since the last commit.
   `full`: 128 MB are buffered. The first commit is not held back.
   */
  function ExtendBatch(s: State, timedOut: bool, full: bool): (bool, FlushReason) {
    if !s.ongoingBatch then (false, UnknownFlush)
    else if s.commitCount == 1 then (false, InitFlush)
    else if timedOut then (false, TimeTickFlush)
    else if full then (false, MemoryLimitFlush)
    else (true, UnknownFlush)
  }

  predicate MayExtendBatch(s: State, timedOut: bool, full: bool) {
    ExtendBatch(s, timedOut, full).0
  }

  /** What `commitOngoingTxn` may leave in the database: without an open transaction it returns early. */
  ghost predicate MayCommit(s: State, db: Database) {
    if s.txOpen then FlushedTo(s.db, s.buffer, db) else db == s.db
  }

  /** The state after `commitOngoingTxn` left `db`, the last commit LSN saved with it. */
  function Committed(s: State, reason: FlushReason, db: Database): State {
    if !s.txOpen then s
    else
      s.(db := db, savedLsn := s.lastCommit, txOpen := false,
         buffer := FlushedBuffer(s.buffer, reason), lastWritten := s.lastCommit,
         ongoingBatch := false, dirtyTxn := false, dirtyStream := false, stmtId := 0)
  }

  ghost predicate CommitOngoing(s: State, reason: FlushReason, s': State) {
    MayCommit(s, s'.db) && s' == Committed(s, reason, s'.db)
  }

  predicate IsClean(s: State) {
    s.dirtyTxn && !s.dirtyStream
  }

  ghost predicate CommitIfClean(s: State, reason: FlushReason, s': State) {
    if IsClean(s) then CommitOngoing(s, reason, s') else s' == s
  }

  ghost predicate OnBegin(s: State, lsn: nat, timedOut: bool, full: bool, s': State) {
    if s.lastWritten > lsn then s' == s.(processMessages := false)
    else
      var s1 := s.(processMessages := true, currentTxn := lsn);
      if MayExtendBatch(s1, timedOut, full) then s' == s1
      else
        && MayCommit(s1, s'.db)
        && s' == Committed(s1, ExtendBatch(s1, timedOut, full).1, s'.db).(txOpen := true, ongoingBatch := true)
  }

  ghost predicate OnCommit(s: State, lsn: nat, timedOut: bool, full: bool, s': State) {
    var s1 := s.(lastCommit := lsn, commitCount := s.commitCount + 1);
    if MayExtendBatch(s1, timedOut, full) then s' == s1.(dirtyStream := false, stmtId := 0, processMessages := false)
    else
      && MayCommit(s1, s'.db)
      && s' == Committed(s1, ExtendBatch(s1, timedOut, full).1, s'.db)
               .(dirtyStream := false, stmtId := 0, processMessages := false)
  }

  /**
   `append`: an update observes its event once for each of its two halves, and an update whose
   old tuple was not sent buffers the new row only.
   */
  function PgAppend(app: Appender, e: Stamped): Appender {
    var c := app.counters;
    Appender(
      app.rows + Render(e),
      match e.event
      case InsertRows(rows) => ObserveEvents(UpdateActionStats(c, Insert, |rows|), InsertEvent)
      case DeleteRows(rows) => ObserveEvents(UpdateActionStats(c, Delete, |rows|), DeleteEvent)
      case UpdateRows(before, after) =>
        ObserveEvents(UpdateActionStats(ObserveEvents(UpdateActionStats(c, Delete, |before|), UpdateEvent),
                                        Insert, |after|), UpdateEvent)
      case UpdateInPlace(_) =>
        ObserveEvents(UpdateActionStats(ObserveEvents(c, UpdateEvent), Insert, 1), UpdateEvent))
  }

  lemma {:induction false} PgAppendAppends(app: Appender, e: Stamped)
    ensures Appended(app, PgAppend(app, e), e)
    ensures EventCount(PgAppend(app, e).counters, KindOf(e.event)) ==
            EventCount(app.counters, KindOf(e.event)) + if KindOf(e.event).UpdateEvent? then 2 else 1
  {
    CountRendered(e, Insert);
    CountRendered(e, Delete);
  }

  function OnRow(s: State, m: RowMessage): State {
    if !s.processMessages then s
    else
      var e := Stamped(Stamp("", s.currentTxn, s.stmtId), m.event);
      s.(buffer := s.buffer[m.table := PgAppend(AppenderFor(s.buffer, m.table), e)],
         dirtyTxn := true, dirtyStream := true, stmtId := s.stmtId + 1)
  }

  /** A Relation message for a known relation means that its schema changed. */
  ghost predicate OnRelation(s: State, redefines: bool, s': State) {
    if redefines then CommitOngoing(s, DDLStmtFlush, s') else s' == s
  }

  /** A failed commit: the transaction is closed and nothing on disk changed. */
  ghost predicate RolledBack(s: State, s': State) {
    !s'.txOpen && s'.db == s.db && s'.savedLsn == s.savedLsn && s'.lastWritten == s.lastWritten
  }

  // ----- The world: the replica and its connection to the source -----

  /** Where the connection stands: between transactions, `sent` rows into one, or lost. */
  datatype Phase = Between | InStale(index: nat, sent: nat) | InFresh(sent: nat) | Broken

  /**
   `done` transactions of the source are in the database or in the buffer. `acked` is the largest
   position reported to the source as flushed.
   */
  datatype World = World(s: State, done: nat, phase: Phase, acked: nat)

  datatype Step =
    | Begin(index: nat, timedOut: bool, full: bool)
    | RowSent
    | Commit(timedOut: bool, full: bool)
    | Relation(redefines: bool)
    | Tick
    | Acknowledge
    | CommitFails(after: State)
    | Reconnect
    | Crash
    | StopAndRestart

  ghost predicate Placed(h: History, w: World) {
    && w.done <= |h|
    && (w.phase.InFresh? ==> w.done < |h| && w.phase.sent <= |h[w.done].changes|)
    && (w.phase.InStale? ==> w.phase.index < |h| && w.phase.sent <= |h[w.phase.index].changes|)
  }

  /** A new connection resumes after the saved position. */
  function Connected(w: World, s: State, done: nat): World {
    World(s, done, Between, w.acked)
  }

  /**
   What the source may send and what may happen. At any time between two transactions the source
   may resend one that is strictly older than the last written one.
   */
  ghost predicate Enabled(h: History, w: World, step: Step)
    requires Placed(h, w)
  {
    match step
    case Begin(i, _, _) => w.phase.Between? && i < |h| && (i == w.done || h[i].lsn < w.s.lastWritten)
    case RowSent =>
      || (w.phase.InFresh? && w.phase.sent < |h[w.done].changes|)
      || (w.phase.InStale? && w.phase.sent < |h[w.phase.index].changes|)
    case Commit(_, _) =>
      || (w.phase.InFresh? && w.phase.sent == |h[w.done].changes|)
      || (w.phase.InStale? && w.phase.sent == |h[w.phase.index].changes|)
    case Relation(_) => !w.phase.Broken?
    case Tick => !w.phase.Broken?
    case Acknowledge => true
    case CommitFails(after) => w.s.txOpen && !w.phase.Broken? && RolledBack(w.s, after)
    case Reconnect => true
    case Crash => true
    case StopAndRestart => true
  }

  /** The transaction the current messages belong to. */
  function CurrentIndex(w: World): nat {
    if w.phase.InStale? then w.phase.index else w.done
  }

  ghost predicate Next(h: History, w: World, step: Step, w': World)
    requires Placed(h, w)
  {
    && Enabled(h, w, step)
    && match step
       case Begin(i, timedOut, full) =>
         && OnBegin(w.s, h[i].lsn, timedOut, full, w'.s)
         && w' == w.(s := w'.s, phase := if i == w.done then InFresh(0) else InStale(i, 0))
       case RowSent =>
         var m := h[CurrentIndex(w)].changes[w.phase.sent];
         w' == w.(s := OnRow(w.s, m), phase := w.phase.(sent := w.phase.sent + 1))
       case Commit(timedOut, full) =>
         && OnCommit(w.s, h[CurrentIndex(w)].lsn, timedOut, full, w'.s)
         && w' == w.(s := w'.s, phase := Between, done := if w.phase.InFresh? then w.done + 1 else w.done)
       case Relation(redefines) =>
         OnRelation(w.s, redefines, w'.s) && w' == w.(s := w'.s)
       case Tick =>
         CommitIfClean(w.s, TimeTickFlush, w'.s) && w' == w.(s := w'.s)
       case Acknowledge =>
         w' == w.(acked := if w.acked < w.s.lastWritten + 1 then w.s.lastWritten + 1 else w.acked)
       case CommitFails(after) =>
         w' == w.(s := after, phase := Broken)
       case Reconnect =>
         w' == Connected(w, Reset(w.s, w.s.lastWritten), CountUpTo(h, w.s.lastWritten))
       case Crash =>
         w' == Connected(w, Reset(w.s, w.s.savedLsn), CountUpTo(h, w.s.savedLsn))
       case StopAndRestart =>
         var s1 := if IsClean(w.s) then Committed(w.s, OnCloseFlush, w'.s.db) else w.s;
         CommitIfClean(w.s, OnCloseFlush, s1) && w' == Connected(w, Reset(s1, s1.savedLsn), CountUpTo(h, s1.savedLsn))
  }

  ghost predicate Initial(h: History, ts: Tables, w: World) {
    && RepresentsAll(w.s.db, ts) && w.s.savedLsn == 0
    && w == World(Reset(w.s, 0), 0, Between, 0)
  }

  // ----- When the replica commits -----

  /** The step commits the open transaction. */
  predicate Commits(h: History, w: World, step: Step) {
    w.s.txOpen &&
    match step
    case Begin(i, timedOut, full) =>
      i < |h| && h[i].lsn >= w.s.lastWritten && !MayExtendBatch(w.s, timedOut, full)
    case Commit(timedOut, full) => !MayExtendBatch(w.s.(commitCount := w.s.commitCount + 1), timedOut, full)
    case Relation(redefines) => redefines
    case Tick => IsClean(w.s)
    case StopAndRestart => IsClean(w.s)
    case _ => false
  }

  /** The position it saves: that of the last Commit message, also if it was that of a resent transaction. */
  function SavedBy(h: History, w: World, step: Step): nat {
    if step.Commit? && CurrentIndex(w) < |h| then h[CurrentIndex(w)].lsn else w.s.lastCommit
  }

  /**
   The step commits nothing, or whole transactions up to the position that it saves: no part of a
   transaction, and not while the last Commit message is that of a resent one.
   */
  predicate Safe(h: History, w: World, step: Step) {
    Commits(h, w, step) ==>
      && SavedBy(h, w, step) >= w.s.lastWritten
      && (w.phase.InFresh? && !step.Commit? ==> w.phase.sent == 0)
  }
}
