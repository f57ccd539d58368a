/**
 The applier object. Its methods are steps of the machine, and beside its state it keeps, as ghost fields,
 the world it is in: every method leaves the object valid, which says that the position on disk is that of
 the tables on disk.
 */
module MySqlApplier {
  import opened Rows
  import opened Tags
  import opened Strategies
  import opened Controller
  import opened DeltaLog
  import opened Flushing
  import opened MySqlMachine
  import opened MySqlSafety

  /** Row events carry whole images. */
  ghost predicate WholeImages(h: History) {
    forall i, j :: 0 <= i < |h| && h[i].RowTxn? && 0 <= j < |h[i].rows| ==> !h[i].rows[j].event.UpdateInPlace?
  }

  predicate KnowsItsTables(s: State) {
    s.buffer.Keys <= View(s).Keys
  }

  /** Buffered tables exist, and no index refuses what is buffered. */
  ghost predicate Flushable(s: State) {
    KnowsItsTables(s) && forall id :: !Blocks(View(s), s.buffer, id, true)
  }

  lemma {:induction false} DrainedIsFlushable(s: State)
    requires Drained(s.buffer) && KnowsItsTables(s)
    ensures Flushable(s)
  {
    assert forall id: TableId :: AppenderFor(s.buffer, id).rows == [];
  }

  lemma {:induction false} InvIsFlushable(h: History, ts: Tables, purged: set<nat>, w: World)
    requires ValidSource(h, ts, purged) && Inv(h, ts, purged, w) && KnowsItsTables(w.s)
    ensures Flushable(w.s)
  {
    forall id
      ensures !Blocks(View(w.s), w.s.buffer, id, true)
    {
      NeverBlocked(h, ts, purged, w, id);
    }
  }

  lemma {:induction false} LastIsAdmitted(ts: Tables, rows: seq<RowEvent>)
    requires rows != [] && ValidLog(ts, Plain(rows))
    ensures rows[|rows| - 1].table in ts
  {
    ApplyLogKeys(ts, Plain(rows)[..|rows| - 1]);
  }

  /** The row events of a valid source are about tables that exist. */
  lemma {:induction false} SentTableExists(h: History, ts: Tables, purged: set<nat>, w: World)
    requires ValidSource(h, ts, purged) && Inv(h, ts, purged, w)
    requires w.phase.InTxn? && w.phase.sent < |h[w.done].rows|
    ensures h[w.done].rows[w.phase.sent].table in View(w.s)
  {
    var n, rows := DurableCount(h, w.s), h[w.done].rows[..w.phase.sent + 1];
    PartIsValid(h, ts, purged, n, w.done, rows);
    LastIsAdmitted(ApplyTxns(ts, h[..n]), RowsIn(h, n, w.done) + rows);
  }

  /** `log` after a step that commits if `commits`. */
  function KeptLog(w: World, commits: bool): seq<Entry> {
    if commits then [] else w.log
  }

  class BinlogReplicaApplier {
    /** The applier's fields, together with the database it writes to. */
    var state: State

    ghost var h: History
    ghost var ts: Tables
    ghost var purged: set<nat>
    ghost var world: World

    /** The object is in its world, whose invariant holds. */
    ghost predicate Valid()
      reads this
    {
      && ValidSource(h, ts, purged) && WholeImages(h) && Inv(h, ts, purged, world)
      && world.s == state && KnowsItsTables(state)
    }

    /** Starts from what is on disk, whatever left it there. */
    constructor (disk: State, ghost h: History, ghost ts: Tables, ghost purged: set<nat>, ghost w: World)
      requires ValidSource(h, ts, purged) && WholeImages(h) && Inv(h, ts, purged, w)
      requires disk.db == w.s.db && disk.saved == w.s.saved
      ensures Valid() && this.h == h && this.ts == ts && this.purged == purged
      ensures Next(h, w, Crash, world)
    {
      state := Restarted(disk.(tx := NoTransaction));
      this.h, this.ts, this.purged := h, ts, purged;
      world := Resumed(Restarted(disk.(tx := NoTransaction)), CountIn(h, disk.saved));
      StepKeepsInv(h, ts, purged, w, Crash, Resumed(Restarted(disk.(tx := NoTransaction)), CountIn(h, disk.saved)));
    }

    // ----- Buffering -----

    /** The loop over the images of one half of a row event. */
    method AppendImages(rows: seq<Change>, action: Action, stamp: Stamp, images: seq<Row>) returns (rows': seq<Change>)
      ensures rows' == rows + Tagged(action, stamp, images)
    {
      rows' := rows;
      for i := 0 to |images|
        invariant rows' == rows + Tagged(action, stamp, images)[..i]
      {
        rows' := rows' + [Change(action, stamp, images[i])];
      }
    }

    /**
     `appendRowFormatChanges`: all before-images, then all after-images, under one stamp. The
     event is counted once, its rows by action.
     */
    method AppendRowFormatChanges(app: Appender, stamp: Stamp, e: Event) returns (app': Appender)
      requires !e.UpdateInPlace?
      ensures app' == MyAppend(app, Stamped(stamp, e))
    {
      var rows, counters := app.rows, app.counters;
      ghost var deleted := [];
      if e.DeleteRows? || e.UpdateRows? {
        var images := if e.DeleteRows? then e.rows else e.before;
        rows := AppendImages(rows, Delete, stamp, images);
        counters := UpdateActionStats(counters, Delete, |images|);
        deleted := Tagged(Delete, stamp, images);
      }
      if e.InsertRows? || e.UpdateRows? {
        var images := if e.InsertRows? then e.rows else e.after;
        assert app.rows + (deleted + Tagged(Insert, stamp, images))
            == app.rows + deleted + Tagged(Insert, stamp, images);
        rows := AppendImages(rows, Insert, stamp, images);
        counters := UpdateActionStats(counters, Insert, |images|);
      }
      counters := ObserveEvents(counters, KindOf(e));
      app' := Appender(rows, counters);
    }

    // ----- Parts of steps -----

    method MayExtendBatchTxn(timedOut: bool, full: bool) returns (extend: bool, reason: FlushReason)
      ensures (extend, reason) == ExtendBatch(state, timedOut, full)
    {
      extend, reason := false, UnknownFlush;
      if state.ongoingBatch {
        extend := true;
        if timedOut {
          extend, reason := false, TimeTickFlush;
        } else if full {
          extend, reason := false, MemoryLimitFlush;
        }
      }
    }

    /** Writes the buffer into the open transaction. A flush that an index refuses is rolled back. */
    method FlushDeltaBuffer(reason: FlushReason) returns (ok: bool)
      requires KnowsItsTables(state)
      modifies `state
      ensures ok <==> !exists id :: Blocks(View(old(state)), old(state).buffer, id, true)
      ensures ok ==> FlushedTo(View(old(state)), old(state).buffer, View(state)) && KnowsItsTables(state)
      ensures ok ==> state == Flushed(old(state), reason, View(state))
      ensures !ok ==> state == old(state).(tx := NoTransaction, buffer := state.buffer)
    {
      var flushed, left, _ := FlushTables(View(state), state.buffer, true, reason);
      ok := flushed.Ok?;
      state := state.(tx := if ok then Open(flushed.value) else NoTransaction, buffer := left);
    }

    method CommitOngoingTxn(kind: CommitKind, reason: FlushReason)
      requires Flushable(state)
      modifies `state
      ensures CommitOngoing(old(state), kind, reason, state) && KnowsItsTables(state)
    {
      var _ := FlushDeltaBuffer(reason);
      if kind != ImplicitCommitBeforeStmt {
        state := state.(pending := AppendGtid(state.pending, state.currentGtid));
      }
      state := state.(saved := state.pending, db := View(state));
      state := state.(tx := NoTransaction, ongoingBatch := false, dirtyTxn := false, dirtyStream := false, stmtId := 0);
      state := state.(position := state.pending);
    }

    method ExtendOrCommitBatchTxn(timedOut: bool, full: bool)
      requires Flushable(state)
      modifies `state
      ensures ExtendOrCommit(old(state), timedOut, full, state) && KnowsItsTables(state)
    {
      var extend, reason := MayExtendBatchTxn(timedOut, full);
      if extend {
        state := state.(pending := AppendGtid(state.pending, state.currentGtid), dirtyStream := false);
        return;
      }
      CommitOngoingTxn(NormalCommit, reason);
    }

    /** Flushes before BEGIN or DDL, and commits if the transaction is dirty. */
    method CommitBeforeStatement(reason: FlushReason)
      requires Flushable(state)
      modifies `state
      ensures CommitBefore(old(state), reason, state) && KnowsItsTables(state)
      ensures Drained(state.buffer)
      ensures reason.DDLStmtFlush? ==> state.buffer == map[]
    {
      var _ := FlushDeltaBuffer(reason);
      FlushedBufferIsDrained(old(state).buffer, reason);
      if state.dirtyTxn {
        DrainedIsFlushable(state);
        FlushedBufferIsDrained(state.buffer, reason);
        CommitOngoingTxn(ImplicitCommitBeforeStmt, reason);
      }
    }

    method BeginTransaction(timedOut: bool, full: bool, viaQuery: bool)
      requires Flushable(state)
      modifies `state
      ensures OnBegin(old(state), timedOut, full, viaQuery, state) && KnowsItsTables(state)
    {
      var took := if viaQuery then 1 else 0;
      var extend, reason := MayExtendBatchTxn(timedOut, full);
      if extend {
        state := state.(pending := AppendGtid(state.pending, state.previousGtid),
                        dirtyStream := true, stmtId := state.stmtId + took);
        return;
      }
      CommitBeforeStatement(reason);
      state := state.(dirtyTxn := true, dirtyStream := true, ongoingBatch := true, stmtId := state.stmtId + took);
    }

    method ExecuteStatement(ddl: Ddl, withoutIndex: bool)
      requires Flushable(state)
      modifies `state
      ensures OnDdl(old(state), ddl, withoutIndex, state) && KnowsItsTables(state)
    {
      CommitBeforeStatement(DDLStmtFlush);
      ghost var s1 := state;
      state := state.(tx := Open(ExecuteDdl(View(state), ddl, withoutIndex)),
                      dirtyTxn := true, dirtyStream := true, ongoingBatch := false);
      assert state.buffer == map[];
      DrainedIsFlushable(state);
      CommitOngoingTxn(ImplicitCommitAfterStmt, DDLStmtFlush);
      ghost var s2 := state;
      state := state.(stmtId := state.stmtId + 1);
    }

    // ----- Steps -----

    /** The step was taken. If it saved no unfinished transaction, the object is valid again. */
    ghost method Advance(step: Step, w: World)
      requires ValidSource(h, ts, purged) && WholeImages(h) && Inv(h, ts, purged, world) && KnowsItsTables(state)
      requires Next(h, world, step, w) && w.s == state
      modifies `world
      ensures world == w && (!SavesUnfinished(old(world), step) ==> Valid())
    {
      if !SavesUnfinished(world, step) {
        StepKeepsInv(h, ts, purged, world, step, w);
      }
      world := w;
    }

    method ProcessGtid(g: nat)
      requires Valid() && Enabled(h, world, GtidEvent) && g == h[world.done].gtid
      modifies `state, `world
      ensures Valid() && Next(h, old(world), GtidEvent, world)
    {
      state := state.(previousGtid := state.currentGtid);
      state := state.(currentGtid := Gtid(g));
      Advance(GtidEvent, world.(s := state, phase := Announced));
    }

    method ProcessBegin(timedOut: bool, full: bool, viaQuery: bool)
      requires Valid() && Enabled(h, world, BeginEvent(timedOut, full, viaQuery))
      modifies `state, `world
      ensures Next(h, old(world), BeginEvent(timedOut, full, viaQuery), world) && world.s == state
      ensures !SavesUnfinished(old(world), BeginEvent(timedOut, full, viaQuery)) ==> Valid()
    {
      ghost var log := KeptLog(world, !MayExtendBatch(state, timedOut, full));
      InvIsFlushable(h, ts, purged, world);
      BeginTransaction(timedOut, full, viaQuery);
      Advance(BeginEvent(timedOut, full, viaQuery), world.(s := state, phase := InTxn(0), log := log));
    }

    method ProcessDdl(ddl: Ddl, withoutIndex: bool)
      requires Valid() && Enabled(h, world, DdlEvent(withoutIndex)) && ddl == h[world.done].ddl
      modifies `state, `world
      ensures Valid() && Next(h, old(world), DdlEvent(withoutIndex), world)
    {
      InvIsFlushable(h, ts, purged, world);
      ExecuteStatement(ddl, withoutIndex);
      Advance(DdlEvent(withoutIndex), World(state, world.done + 1, Between, []));
    }

    method ProcessRows(r: RowEvent)
      requires Valid() && Enabled(h, world, RowsEvent) && r == h[world.done].rows[world.phase.sent]
      modifies `state, `world
      ensures Valid() && Next(h, old(world), RowsEvent, world)
    {
      SentTableExists(h, ts, purged, world);
      ghost var e := NextEntry(h, world);
      var app := AppendRowFormatChanges(AppenderFor(state.buffer, r.table), NextStamp(state), r.event);
      state := state.(buffer := state.buffer[r.table := app],
                      dirtyTxn := true, dirtyStream := true, stmtId := state.stmtId + 1);
      Advance(RowsEvent, world.(s := state, phase := InTxn(world.phase.sent + 1), log := world.log + [e]));
    }

    method ProcessXid(timedOut: bool, full: bool)
      requires Valid() && Enabled(h, world, XidEvent(timedOut, full))
      modifies `state, `world
      ensures Valid() && Next(h, old(world), XidEvent(timedOut, full), world)
    {
      ghost var log := KeptLog(world, !MayExtendBatch(state, timedOut, full));
      InvIsFlushable(h, ts, purged, world);
      ExtendOrCommitBatchTxn(timedOut, full);
      Advance(XidEvent(timedOut, full), World(state, world.done + 1, Between, log));
    }

    method ProcessRotate(timedOut: bool, full: bool)
      requires Valid() && Enabled(h, world, RotateEvent(timedOut, full))
      modifies `state, `world
      ensures Valid() && Next(h, old(world), RotateEvent(timedOut, full), world)
    {
      ghost var log := KeptLog(world, state.currentGtid.Gtid? && !MayExtendBatch(state, timedOut, full));
      if state.currentGtid.Gtid? {
        InvIsFlushable(h, ts, purged, world);
        ExtendOrCommitBatchTxn(timedOut, full);
      }
      Advance(RotateEvent(timedOut, full), world.(s := state, log := log));
    }

    method ProcessTick(timedOut: bool, full: bool)
      requires Valid()
      modifies `state, `world
      ensures Next(h, old(world), Tick(timedOut, full), world) && world.s == state
      ensures !SavesUnfinished(old(world), Tick(timedOut, full)) ==> Valid()
    {
      ghost var commits := state.ongoingBatch && !state.dirtyStream && !MayExtendBatch(state, timedOut, full);
      ghost var log := KeptLog(world, commits);
      if state.ongoingBatch && !state.dirtyStream {
        InvIsFlushable(h, ts, purged, world);
        ExtendOrCommitBatchTxn(timedOut, full);
      }
      Advance(Tick(timedOut, full), world.(s := state, log := log));
    }

    /** To start again from what a stop has left is then a restart. */
    method ProcessStop()
      requires Valid()
      modifies `state, `world
      ensures world.s == state
      ensures Next(h, old(world), StopAndRestart, Resumed(Restarted(state), CountIn(h, state.saved)))
      ensures !SavesUnfinished(old(world), StopAndRestart) ==> Valid()
    {
      ghost var w := world;
      ghost var commits := state.ongoingBatch && !state.dirtyStream;
      if state.ongoingBatch && !state.dirtyStream {
        InvIsFlushable(h, ts, purged, world);
        CommitOngoingTxn(NormalCommit, OnCloseFlush);
      }
      world := w.(s := state, log := KeptLog(w, commits));
      assert OnStop(w.s, state);
      if commits && !SavesUnfinished(w, StopAndRestart) {
        CommitBetweenKeepsInv(h, ts, purged, w, OnCloseFlush, world);
      }
    }

    /** Asks for the transactions that the saved position does not count. */
    method StartReplicationEventStream()
      requires Valid()
      modifies `state, `world
      ensures Valid() && Next(h, old(world), Reconnect, world)
      ensures state.db == old(state).db && state.saved == old(state).saved
      ensures world.phase.Between? && world.done == DurableCount(h, state)
    {
      state := state.(position := state.saved, pending := state.saved);
      state := state.(previousGtid := NoGtid, currentGtid := NoGtid);
      state := state.(ongoingBatch := false, dirtyTxn := false, dirtyStream := false, stmtId := 0);
      state := state.(buffer := map[]);
      Advance(Reconnect, Resumed(state, CountIn(h, state.saved)));
    }
  }
}
