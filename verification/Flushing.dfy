/**
 `DeltaController`, the object that owns the appenders, and its `Flush`, which visits the tables
 in whatever order the map yields them.
 */
module Flushing {
  import opened Strategies
  import opened Controller
  import opened DeltaLog

  /** The buffer after a successful flush. A DDL statement may change schemas, so it drops the appenders. */
  function FlushedBuffer(buffer: Buffer, reason: FlushReason): Buffer {
    if reason.DDLStmtFlush? then map[]
    else map id | id in buffer :: if buffer[id].rows == [] then buffer[id] else EMPTY_APPENDER
  }

  lemma {:induction false} FlushedBufferIsDrained(buffer: Buffer, reason: FlushReason)
    ensures Drained(FlushedBuffer(buffer, reason))
    ensures BuffersLog(FlushedBuffer(buffer, reason), [])
    ensures FlushedBuffer(buffer, reason).Keys == if reason.DDLStmtFlush? then {} else buffer.Keys
  {
    DrainedBuffersNothing(FlushedBuffer(buffer, reason));
  }

  /** A table that stops a flush: rows are pending, and there is no transaction or an index refuses them. */
  ghost predicate Blocks(db: Database, buffer: Buffer, id: TableId, active: bool) {
    id in db && AppenderFor(buffer, id).rows != [] && (!active || Refused(db[id], AppenderFor(buffer, id)))
  }

  ghost predicate AllKeyless(db: Database) {
    forall id :: id in db ==> db[id].Keyless?
  }

  ghost function RowTotal(db: Database): nat
    decreases |db|
  {
    if db == map[] then 0
    else
      var id :| id in db;
      RowCount(db[id]) + RowTotal(db - {id})
  }

  lemma {:induction false} RowTotalSplit(db: Database, id: TableId)
    requires id in db
    ensures RowTotal(db) == RowCount(db[id]) + RowTotal(db - {id})
    decreases |db|
  {
    var pick :| pick in db && RowTotal(db) == RowCount(db[pick]) + RowTotal(db - {pick});
    if pick != id {
      RowTotalSplit(db - {pick}, id);
      RowTotalSplit(db - {id}, pick);
      assert db - {pick} - {id} == db - {id} - {pick};
    }
  }

  lemma {:induction false} RowTotalUpdate(db: Database, id: TableId, store: Store)
    requires id in db
    ensures RowTotal(db[id := store]) == RowTotal(db) - RowCount(db[id]) + RowCount(store)
  {
    RowTotalSplit(db, id);
    RowTotalSplit(db[id := store], id);
    assert db[id := store] - {id} == db - {id};
  }

  // ----- The loop of Flush -----

  /** The tables not in `todo` have been written, the others not. */
  ghost predicate Reached(db: Database, buffer: Buffer, todo: set<TableId>, now: Database, active: bool) {
    && todo <= buffer.Keys <= db.Keys && now.Keys == db.Keys
    && (forall id :: id in db && (id in todo || id !in buffer) ==> now[id] == db[id])
    && (forall id :: id in buffer && id !in todo ==>
          TableFlushed(db[id], buffer[id], now[id]) && !Blocks(db, buffer, id, active))
  }

  /** And their appenders are gone or empty. */
  ghost predicate Emptied(buffer: Buffer, todo: set<TableId>, tables: Buffer, reason: FlushReason) {
    && todo <= buffer.Keys
    && (forall id :: id in tables <==> id in todo || (id in buffer && !reason.DDLStmtFlush?))
    && (forall id :: id in tables ==>
          tables[id] == if id in todo || buffer[id].rows == [] then buffer[id] else EMPTY_APPENDER)
  }

  lemma {:induction false} ReachedStep(
    db: Database, buffer: Buffer, todo: set<TableId>, now: Database, active: bool, id: TableId, store: Store)
    requires Reached(db, buffer, todo, now, active) && id in todo
    requires TableFlushed(db[id], buffer[id], store) && !Blocks(db, buffer, id, active)
    ensures Reached(db, buffer, todo - {id}, now[id := store], active)
  {
  }

  lemma {:induction false} EmptiedStep(
    buffer: Buffer, todo: set<TableId>, tables: Buffer, reason: FlushReason, id: TableId)
    requires Emptied(buffer, todo, tables, reason) && id in todo
    ensures var app := if buffer[id].rows == [] then buffer[id] else EMPTY_APPENDER;
            Emptied(buffer, todo - {id},
                    if reason.DDLStmtFlush? then tables - {id} else tables[id := app], reason)
  {
  }

  lemma {:induction false} ReachedEnds(db: Database, buffer: Buffer, now: Database, active: bool)
    requires Reached(db, buffer, {}, now, active)
    ensures FlushedTo(db, buffer, now)
    ensures forall id :: !Blocks(db, buffer, id, active)
  {
    forall id | id in db
      ensures TableFlushed(db[id], AppenderFor(buffer, id), now[id])
    {
    }
  }

  lemma {:induction false} EmptiedEnds(buffer: Buffer, tables: Buffer, reason: FlushReason)
    requires Emptied(buffer, {}, tables, reason)
    ensures tables == FlushedBuffer(buffer, reason)
  {
  }

  /**
   Flushes every table of a buffer. It succeeds exactly when no table blocks it, and then each
   table is written by the strategy its counters choose, whatever the order of visits. Without
   indexes, the reported insertions and deletions account for every row gained or lost.
   */
  method FlushTables(db: Database, buffer: Buffer, active: bool, reason: FlushReason)
    returns (r: Result<Database>, buffer': Buffer, stats: FlushStats)
    requires buffer.Keys <= db.Keys
    ensures r.Err? <==> exists id :: Blocks(db, buffer, id, active)
    ensures r.Ok? ==> FlushedTo(db, buffer, r.value)
    ensures r.Ok? ==> buffer' == FlushedBuffer(buffer, reason)
    ensures buffer'.Keys <= buffer.Keys
    ensures r.Ok? && AllKeyless(db) ==>
              RowTotal(r.value) == RowTotal(db) + stats.insertions - stats.deletions
  {
    stats := FlushStats(0, 0, 0);
    buffer' := buffer;
    var now := db;
    var todo := buffer.Keys;
    while todo != {}
      invariant Reached(db, buffer, todo, now, active) && Emptied(buffer, todo, buffer', reason)
      invariant AllKeyless(db) ==> AllKeyless(now) && RowTotal(now) == RowTotal(db) + stats.insertions - stats.deletions
      decreases todo
    {
      var id :| id in todo;
      var app := buffer'[id];
      var store := now[id];
      if app.rows != [] {
        if !active {
          assert Blocks(db, buffer, id, active);
          return Err, buffer', stats;
        }
        var written;
        written, stats := UpdateTable(store, app, stats);
        if written.Err? {
          assert Blocks(db, buffer, id, active);
          return Err, buffer', stats;
        }
        store := written.value;
        app := EMPTY_APPENDER;
      }
      RowTotalUpdate(now, id, store);
      ReachedStep(db, buffer, todo, now, active, id, store);
      EmptiedStep(buffer, todo, buffer', reason, id);
      now := now[id := store];
      buffer' := if reason.DDLStmtFlush? then buffer' - {id} else buffer'[id := app];
      todo := todo - {id};
    }
    ReachedEnds(db, buffer, now, active);
    EmptiedEnds(buffer, buffer', reason);
    r := Ok(now);
  }

  class DeltaController {
    var tables: Buffer

    constructor ()
      ensures tables == map[]
    {
      tables := map[];
    }

    /** Discards everything buffered. */
    method Close()
      modifies this
      ensures tables == map[]
    {
      tables := map[];
    }

    method GetDeltaAppender(id: TableId) returns (app: Appender)
      modifies this
      ensures id in tables && app == tables[id] == AppenderFor(old(tables), id)
      ensures tables == old(tables)[id := app]
    {
      if id !in tables {
        tables := tables[id := EMPTY_APPENDER];
      }
      app := tables[id];
    }

    method Flush(db: Database, active: bool, reason: FlushReason) returns (r: Result<Database>, stats: FlushStats)
      requires tables.Keys <= db.Keys
      modifies this
      ensures r.Err? <==> exists id :: Blocks(db, old(tables), id, active)
      ensures r.Ok? ==> FlushedTo(db, old(tables), r.value)
      ensures r.Ok? ==> tables == FlushedBuffer(old(tables), reason)
      ensures r.Ok? && AllKeyless(db) ==>
                RowTotal(r.value) == RowTotal(db) + stats.insertions - stats.deletions
    {
      r, tables, stats := FlushTables(db, tables, active, reason);
    }
  }
}
