/**
 Exactly which steps of the MySQL applier leave the saved position right: those that do not save a
 transaction as done that was only announced.
 */
module MySqlExact {
  import opened Controller
  import opened DeltaLog
  import opened MySqlMachine
  import opened MySqlSafety

  /** The transaction is saved as done, without its effect. */
  ghost predicate SavedTooMuch(h: History, ts: Tables, purged: set<nat>, done: nat, s': State)
    requires done < |h|
  {
    && s'.saved == purged + GtidSet(h[..done + 1])
    && RepresentsAll(s'.db, ApplyTxns(ts, h[..done])) && View(s') == s'.db
  }

  /** That is harmless if and only if the transaction has no effect. */
  lemma {:induction false} TooMuchIsHarmless(h: History, ts: Tables, purged: set<nat>, done: nat, s': State)
    requires ValidSource(h, ts, purged) && done < |h| && SavedTooMuch(h, ts, purged, done, s')
    ensures CountIn(h, s'.saved) == done + 1 && RepresentsAll(s'.db, ApplyTxns(ts, h[..done]))
    ensures DurablePosition(h, ts, purged, s') <==> ApplyTxns(ts, h[..done + 1]) == ApplyTxns(ts, h[..done])
  {
    CountOfPrefix(h, purged, done + 1);
    if DurablePosition(h, ts, purged, s') {
      RepresentedAllIsUnique(s'.db, ApplyTxns(ts, h[..done + 1]), ApplyTxns(ts, h[..done]));
    }
  }

  lemma {:induction false} FlushAnnounced(h: History, ts: Tables, purged: set<nat>, w: World, db: Database)
    requires ValidSource(h, ts, purged) && Inv(h, ts, purged, w) && w.phase.Announced?
    requires FlushedTo(View(w.s), w.s.buffer, db)
    ensures RepresentsAll(db, ApplyTxns(ts, h[..w.done]))
  {
    assert Unstamped(w.log) == RowsIn(h, DurableCount(h, w.s), w.done);
    FlushReaches(h, ts, purged, w.s, w.done, w.log, db);
  }

  /** A commit between a GTID event and the statement it announces. */
  lemma {:induction false} CommitAnnounced(
    h: History, ts: Tables, purged: set<nat>, w: World, reason: FlushReason, s': State)
    requires ValidSource(h, ts, purged) && Inv(h, ts, purged, w) && w.phase.Announced?
    requires CommitOngoing(w.s, NormalCommit, reason, s')
    ensures SavedTooMuch(h, ts, purged, w.done, s')
  {
    AheadMeans(h, ts, purged, w);
    FlushAnnounced(h, ts, purged, w, s'.db);
  }

  lemma {:induction false} SettledTooMuch(
    h: History, ts: Tables, purged: set<nat>, w: World, reason: FlushReason, s': State)
    requires ValidSource(h, ts, purged) && Inv(h, ts, purged, w) && w.phase.Announced? && Ahead(w)
    requires CommitBefore(w.s, reason, s')
    ensures SavedTooMuch(h, ts, purged, w.done, s')
  {
    AheadMeans(h, ts, purged, w);
    CommitBeforeSettles(h, ts, purged, w, reason, s');
  }

  lemma {:induction false} BeginBehindTick(h: History, ts: Tables, purged: set<nat>, w: World, step: Step, w': World)
    requires ValidSource(h, ts, purged) && Inv(h, ts, purged, w) && step.BeginEvent? && Next(h, w, step, w')
    requires SavesUnfinished(w, step)
    ensures SavedTooMuch(h, ts, purged, w.done, w'.s)
  {
    var s1 := BeginCommits(h, w, step, w');
    SettledTooMuch(h, ts, purged, w, ExtendBatch(w.s, step.timedOut, step.full).1, s1);
  }

  lemma {:induction false} StopCommits(h: History, ts: Tables, purged: set<nat>, w: World, s': State)
    requires ValidSource(h, ts, purged) && Inv(h, ts, purged, w) && w.phase.Announced? && OnStop(w.s, s')
    requires w.s.ongoingBatch
    ensures SavedTooMuch(h, ts, purged, w.done, s')
  {
    CommitAnnounced(h, ts, purged, w, OnCloseFlush, s');
  }

  lemma {:induction false} UnfinishedIsSaved(h: History, ts: Tables, purged: set<nat>, w: World, step: Step, w': World)
    requires ValidSource(h, ts, purged) && Inv(h, ts, purged, w) && Next(h, w, step, w')
    requires SavesUnfinished(w, step)
    ensures SavedTooMuch(h, ts, purged, w.done, w'.s)
  {
    match step
    case Tick(timedOut, full) =>
      CommitAnnounced(h, ts, purged, w, ExtendBatch(w.s, timedOut, full).1, w'.s);
    case StopAndRestart =>
      var s1 :| OnStop(w.s, s1) && w' == Resumed(Restarted(s1), CountIn(h, s1.saved));
      StopCommits(h, ts, purged, w, s1);
    case BeginEvent(_, _, _) =>
      BeginBehindTick(h, ts, purged, w, step, w');
  }

  /**
   Any step leaves the saved position right if and only if it does not save an unfinished transaction,
   or that transaction has no effect. If it does, the transaction is never asked for again.
   */
  lemma {:induction false} StepExact(h: History, ts: Tables, purged: set<nat>, w: World, step: Step, w': World)
    requires ValidSource(h, ts, purged) && Inv(h, ts, purged, w) && Next(h, w, step, w')
    ensures DurablePosition(h, ts, purged, w'.s) <==>
            !SavesUnfinished(w, step) || ApplyTxns(ts, h[..w.done + 1]) == ApplyTxns(ts, h[..w.done])
    ensures SavesUnfinished(w, step) ==> CountIn(h, w'.s.saved) == w.done + 1
  {
    if SavesUnfinished(w, step) {
      UnfinishedIsSaved(h, ts, purged, w, step, w');
      TooMuchIsHarmless(h, ts, purged, w.done, w'.s);
    } else {
      StepKeepsInv(h, ts, purged, w, step, w');
    }
  }

  lemma {:induction false} StopInBatch(h: History, ts: Tables, purged: set<nat>, w: World, s': State)
    requires ValidSource(h, ts, purged) && Inv(h, ts, purged, w) && w.phase.Announced? && OnStop(w.s, s')
    requires w.s.ongoingBatch
    ensures DurablePosition(h, ts, purged, s') <==> ApplyTxns(ts, h[..w.done + 1]) == ApplyTxns(ts, h[..w.done])
    ensures CountIn(h, s'.saved) == w.done + 1 && RepresentsAll(s'.db, ApplyTxns(ts, h[..w.done]))
  {
    StopCommits(h, ts, purged, w, s');
    TooMuchIsHarmless(h, ts, purged, w.done, s');
  }

  /** A stop between a GTID event and the statement it announces. */
  lemma {:induction false} StopBetweenGtidAndBegin(h: History, ts: Tables, purged: set<nat>, w: World, s': State)
    requires ValidSource(h, ts, purged) && Inv(h, ts, purged, w) && w.phase.Announced? && OnStop(w.s, s')
    ensures DurablePosition(h, ts, purged, s') <==>
            !w.s.ongoingBatch || ApplyTxns(ts, h[..w.done + 1]) == ApplyTxns(ts, h[..w.done])
    ensures w.s.ongoingBatch ==>
              CountIn(h, s'.saved) == w.done + 1 && RepresentsAll(s'.db, ApplyTxns(ts, h[..w.done]))
  {
    if w.s.ongoingBatch {
      StopInBatch(h, ts, purged, w, s');
    }
  }

  /**
   A tick there leaves the pending position at the finished transactions if and only if no batch is open.
   Otherwise it counts the announced one, and if the batch is due it even saves it as done.
   */
  lemma {:induction false} TickBetweenGtidAndBegin(
    h: History, ts: Tables, purged: set<nat>, w: World, timedOut: bool, full: bool, s': State)
    requires ValidSource(h, ts, purged) && Inv(h, ts, purged, w) && w.phase.Announced?
    requires OnTick(w.s, timedOut, full, s')
    ensures s'.pending == purged + GtidSet(h[..w.done]) <==> !w.s.ongoingBatch
    ensures w.s.ongoingBatch && (timedOut || full) ==> SavedTooMuch(h, ts, purged, w.done, s')
  {
    AheadMeans(h, ts, purged, w);
    AnnouncedIsNew(h, purged, w.done);
    GtidSetStep(h, w.done);
    if w.s.ongoingBatch && (timedOut || full) {
      CommitAnnounced(h, ts, purged, w, ExtendBatch(w.s, timedOut, full).1, s');
    }
  }

  // ----- What is on disk after a step -----

  /**
   How many transactions are on disk after a step that saves none too many: those that are finished by
   then if 200 ms have passed or 128 MB are buffered, with DDL, or with a stop; else the same as before.
   */
  ghost function DurableAfter(h: History, w: World, step: Step): nat {
    var n := DurableCount(h, w.s);
    match step
    case XidEvent(timedOut, full) => if timedOut || full then w.done + 1 else n
    case DdlEvent(_) => w.done + 1
    case BeginEvent(timedOut, full, _) => if timedOut || full then w.done else n
    case RotateEvent(timedOut, full) => if timedOut || full then w.done else n
    case Tick(timedOut, full) => if !w.phase.InTxn? && (timedOut || full) then w.done else n
    case StopAndRestart => if w.phase.InTxn? then n else w.done
    case _ => n
  }

  lemma {:induction false} BeginDurableAfter(
    h: History, ts: Tables, purged: set<nat>, w: World, step: Step, w': World)
    requires ValidSource(h, ts, purged) && Inv(h, ts, purged, w) && step.BeginEvent? && Next(h, w, step, w')
    requires !SavesUnfinished(w, step)
    ensures DurableCount(h, w'.s) == DurableAfter(h, w, step)
  {
    if !MayExtendBatch(w.s, step.timedOut, step.full) {
      var s1 := BeginCommits(h, w, step, w');
      CommitBeforeSettles(h, ts, purged, w, ExtendBatch(w.s, step.timedOut, step.full).1, s1);
      AheadMeans(h, ts, purged, w);
      SettledIsDurable(h, ts, purged, w.done, w.s, s1);
    }
  }

  lemma {:induction false} StopDurableAfter(h: History, ts: Tables, purged: set<nat>, w: World, w': World)
    requires ValidSource(h, ts, purged) && Inv(h, ts, purged, w) && Next(h, w, StopAndRestart, w')
    requires !SavesUnfinished(w, StopAndRestart)
    ensures DurableCount(h, w'.s) == DurableAfter(h, w, StopAndRestart)
  {
    var s1 :| OnStop(w.s, s1) && w' == Resumed(Restarted(s1), CountIn(h, s1.saved));
    if w.s.ongoingBatch && !w.s.dirtyStream {
      CommitBetweenKeepsInv(h, ts, purged, w, OnCloseFlush, w.(s := s1, log := []));
    }
  }

  /** Ends of transactions, DDL, rotations and ticks: those that commit leave no batch open. */
  lemma {:induction false} EventDurableAfter(
    h: History, ts: Tables, purged: set<nat>, w: World, step: Step, w': World)
    requires ValidSource(h, ts, purged) && Inv(h, ts, purged, w) && Next(h, w, step, w') && Inv(h, ts, purged, w')
    requires step.XidEvent? || step.RotateEvent? || step.Tick?
    requires !SavesUnfinished(w, step)
    ensures DurableCount(h, w'.s) == DurableAfter(h, w, step)
  {
  }

  lemma {:induction false} DdlDurableAfter(
    h: History, ts: Tables, purged: set<nat>, w: World, step: Step, w': World)
    requires Placed(h, w) && step.DdlEvent? && Next(h, w, step, w') && Inv(h, ts, purged, w')
    ensures DurableCount(h, w'.s) == w.done + 1
  {
    assert !w'.s.ongoingBatch;
  }

  lemma {:induction false} DurableCountAfter(
    h: History, ts: Tables, purged: set<nat>, w: World, step: Step, w': World)
    requires ValidSource(h, ts, purged) && Inv(h, ts, purged, w) && Next(h, w, step, w')
    requires !SavesUnfinished(w, step)
    ensures DurableCount(h, w'.s) == DurableAfter(h, w, step)
  {
    StepKeepsInv(h, ts, purged, w, step, w');
    match step
    case BeginEvent(_, _, _) => BeginDurableAfter(h, ts, purged, w, step, w');
    case StopAndRestart => StopDurableAfter(h, ts, purged, w, w');
    case XidEvent(_, _) => EventDurableAfter(h, ts, purged, w, step, w');
    case RotateEvent(_, _) => EventDurableAfter(h, ts, purged, w, step, w');
    case Tick(_, _) => EventDurableAfter(h, ts, purged, w, step, w');
    case DdlEvent(_) => DdlDurableAfter(h, ts, purged, w, step, w');
    case _ =>
  }

  // ----- Layouts -----

  lemma {:induction false} CommitBeforeKeepsLayout(s: State, reason: FlushReason, s': State)
    requires CommitBefore(s, reason, s') && View(s) == s.db
    ensures SameLayout(s.db, View(s'))
  {
    var view :| FlushedTo(View(s), s.buffer, view) &&
                var s1 := Flushed(s, reason, view);
                if s1.dirtyTxn then CommitOngoing(s1, ImplicitCommitBeforeStmt, reason, s') else s' == s1;
    FlushKeepsLayout(s.db, s.buffer, view);
    if s.dirtyTxn {
      FlushKeepsLayout(view, Flushed(s, reason, view).buffer, s'.db);
    }
  }

  /** A table is created as asked for, truncated as it was, and all others stay as they were. */
  ghost predicate LaidOutBy(db: Database, ddl: Ddl, withoutIndex: bool, db': Database) {
    forall id :: id in db' ==>
      (db'[id].Keyless? <==> if ddl == CreateTable(id) then withoutIndex else id in db && db[id].Keyless?)
  }

  lemma {:induction false} ExecutedLayout(before: Database, db: Database, ddl: Ddl, withoutIndex: bool, after: Database)
    requires SameLayout(before, db) && SameLayout(ExecuteDdl(db, ddl, withoutIndex), after)
    ensures LaidOutBy(before, ddl, withoutIndex, after)
  {
  }

  lemma {:induction false} DdlLayout(s: State, ddl: Ddl, withoutIndex: bool, s': State)
    requires OnDdl(s, ddl, withoutIndex, s') && View(s) == s.db
    ensures LaidOutBy(s.db, ddl, withoutIndex, s'.db)
  {
    var s1, s2 :| && CommitBefore(s, DDLStmtFlush, s1)
                  && CommitOngoing(s1.(tx := Open(ExecuteDdl(View(s1), ddl, withoutIndex)),
                                       dirtyTxn := true, dirtyStream := true, ongoingBatch := false),
                                   ImplicitCommitAfterStmt, DDLStmtFlush, s2)
                  && s' == s2.(stmtId := s2.stmtId + 1);
    CommitBeforeKeepsLayout(s, DDLStmtFlush, s1);
    FlushKeepsLayout(ExecuteDdl(View(s1), ddl, withoutIndex), s1.buffer, s2.db);
    ExecutedLayout(s.db, View(s1), ddl, withoutIndex, s2.db);
  }

  /** Only such a tick makes it run ahead. */
  lemma {:induction false} AheadByTick(h: History, ts: Tables, purged: set<nat>, w: World, step: Step, w': World)
    requires ValidSource(h, ts, purged) && Inv(h, ts, purged, w) && Next(h, w, step, w') && !SavesUnfinished(w, step)
    requires !Ahead(w) && Ahead(w')
    ensures step.Tick? && w.phase.Announced? && w.s.ongoingBatch
  {
    AheadMeans(h, ts, purged, w);
    StepKeepsInv(h, ts, purged, w, step, w');
    AheadMeans(h, ts, purged, w');
    if w.done < |h| {
      AnnouncedIsNew(h, purged, w.done);
    }
  }
}
