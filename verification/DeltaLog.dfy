/**
 A log of row events over several tables: applying it one event at a time, and the proof that
 flushing any buffer of it does the same, however the log is cut into flushes.
 */
module DeltaLog {
  import opened Rows
  import opened Tags
  import opened Condense
  import opened Strategies
  import opened Controller

  type Tables = map<TableId, Table>

  datatype Entry = Entry(table: TableId, item: Stamped)

  ghost function ApplyEntry(ts: Tables, e: Entry): Tables {
    if e.table in ts then ts[e.table := Apply(ts[e.table], e.item.event)] else ts
  }

  /** Applies the log one event at a time, first to last. */
  ghost function ApplyLog(ts: Tables, log: seq<Entry>): Tables {
    if log == [] then ts else ApplyEntry(ApplyLog(ts, log[..|log| - 1]), log[|log| - 1])
  }

  ghost predicate AdmitsEntry(ts: Tables, e: Entry) {
    e.table in ts && Admits(ts[e.table], e.item.event)
  }

  ghost predicate ValidLog(ts: Tables, log: seq<Entry>) {
    log == [] ||
    (var n := |log| - 1; ValidLog(ts, log[..n]) && AdmitsEntry(ApplyLog(ts, log[..n]), log[n]))
  }

  ghost predicate OrderedLog(log: seq<Entry>) {
    forall i, j :: 0 <= i < j < |log| ==> StampLess(log[i].item.stamp, log[j].item.stamp)
  }

  ghost function ForTable(log: seq<Entry>, id: TableId): seq<Stamped> {
    if log == [] then []
    else
      var n := |log| - 1;
      ForTable(log[..n], id) + if log[n].table == id then [log[n].item] else []
  }

  /** Every table's appender buffers that table's part of the log. */
  ghost predicate BuffersLog(buffer: Buffer, log: seq<Entry>) {
    forall id: TableId {:trigger Buffers(AppenderFor(buffer, id), ForTable(log, id))} ::
      Buffers(AppenderFor(buffer, id), ForTable(log, id))
  }

  ghost predicate Drained(buffer: Buffer) {
    forall id: TableId :: AppenderFor(buffer, id).rows == []
  }

  ghost predicate RepresentsAll(db: Database, ts: Tables) {
    db.Keys == ts.Keys && forall id :: id in db ==> Represents(db[id], ts[id])
  }

  ghost predicate SameLayout(a: Database, b: Database) {
    a.Keys == b.Keys && forall id :: id in a ==> (a[id].Keyless? <==> b[id].Keyless?)
  }

  /** What a flush of the whole buffer may leave in the database. */
  ghost predicate FlushedTo(db: Database, buffer: Buffer, db': Database) {
    && db'.Keys == db.Keys
    && forall id {:trigger TableFlushed(db[id], AppenderFor(buffer, id), db'[id])} ::
         id in db ==> TableFlushed(db[id], AppenderFor(buffer, id), db'[id])
  }

  // ----- Facts about logs -----

  lemma {:induction false} ApplyLogAppend(ts: Tables, a: seq<Entry>, b: seq<Entry>)
    ensures ApplyLog(ts, a + b) == ApplyLog(ApplyLog(ts, a), b)
  {
    if b == [] {
      assert a + b == a;
    } else {
      assert (a + b)[..|a + b| - 1] == a + b[..|b| - 1];
      ApplyLogAppend(ts, a, b[..|b| - 1]);
    }
  }

  lemma {:induction false} ValidLogAppend(ts: Tables, a: seq<Entry>, b: seq<Entry>)
    ensures ValidLog(ts, a + b) <==> ValidLog(ts, a) && ValidLog(ApplyLog(ts, a), b)
  {
    if b == [] {
      assert a + b == a;
    } else {
      assert (a + b)[..|a + b| - 1] == a + b[..|b| - 1];
      ValidLogAppend(ts, a, b[..|b| - 1]);
      ApplyLogAppend(ts, a, b[..|b| - 1]);
    }
  }

  lemma {:induction false} ApplyLogKeys(ts: Tables, log: seq<Entry>)
    ensures ApplyLog(ts, log).Keys == ts.Keys
  {
    if log != [] {
      ApplyLogKeys(ts, log[..|log| - 1]);
    }
  }

  /** One table's history does not depend on the events of the others. */
  lemma {:induction false} TableHistory(ts: Tables, log: seq<Entry>, id: TableId)
    requires id in ts && ValidLog(ts, log)
    ensures id in ApplyLog(ts, log)
    ensures ApplyLog(ts, log)[id] == ApplyAll(ts[id], Events(ForTable(log, id)))
    ensures ValidHistory(ts[id], Events(ForTable(log, id)))
  {
    ApplyLogKeys(ts, log);
    if log != [] {
      var n := |log| - 1;
      TableHistory(ts, log[..n], id);
      var es := ForTable(log[..n], id);
      if log[n].table == id {
        assert Events(es + [log[n].item])[..|es|] == Events(es);
      } else {
        assert ForTable(log, id) == es;
      }
    }
  }

  lemma {:induction false} ForTableStamps(log: seq<Entry>, id: TableId, s: Stamp)
    requires forall i :: 0 <= i < |log| ==> StampLess(log[i].item.stamp, s)
    ensures forall i :: 0 <= i < |ForTable(log, id)| ==> StampLess(ForTable(log, id)[i].stamp, s)
  {
    if log != [] {
      ForTableStamps(log[..|log| - 1], id, s);
    }
  }

  lemma {:induction false} ForTableOrdered(log: seq<Entry>, id: TableId)
    requires OrderedLog(log)
    ensures OrderedStamps(ForTable(log, id))
  {
    if log != [] {
      var n := |log| - 1;
      ForTableOrdered(log[..n], id);
      ForTableStamps(log[..n], id, log[n].item.stamp);
    }
  }

  lemma {:induction false} BuffersLogAppend(buffer: Buffer, log: seq<Entry>, e: Entry, app: Appender)
    requires BuffersLog(buffer, log)
    requires Appended(AppenderFor(buffer, e.table), app, e.item)
    ensures BuffersLog(buffer[e.table := app], log + [e])
  {
    assert (log + [e])[..|log|] == log;
    forall id: TableId
      ensures Buffers(AppenderFor(buffer[e.table := app], id), ForTable(log + [e], id))
    {
      assert Buffers(AppenderFor(buffer, id), ForTable(log, id));
      if id == e.table {
        AppendedBuffers(AppenderFor(buffer, id), app, ForTable(log, id), e.item);
      } else {
        assert ForTable(log + [e], id) == ForTable(log, id);
      }
    }
  }

  lemma {:induction false} DrainedBuffersNothing(buffer: Buffer)
    requires Drained(buffer)
    ensures BuffersLog(buffer, [])
  {
  }

  // ----- Flush refines one-at-a-time application -----

  lemma {:induction false} TableFlushRefinesHistory(
    store: Store, t: Table, es: seq<Stamped>, app: Appender, store': Store)
    requires Represents(store, t)
    requires ValidHistory(t, Events(es)) && OrderedStamps(es) && Buffers(app, es)
    requires TableFlushed(store, app, store')
    ensures Represents(store', ApplyAll(t, Events(es)))
    ensures store.Keyless? <==> store'.Keyless?
  {
    if app.rows == [] {
      ReplayHistory(t, es);
      assert Replay(t, app.rows) == t;
    } else {
      var out := WrittenAnswer(store, app, store');
      WrittenRefinesHistory(store, t, es, app, out);
    }
  }

  lemma {:induction false} WrittenAnswer(store: Store, app: Appender, store': Store) returns (out: map<Key, Change>)
    requires MayWrite(store, app, store')
    ensures IsCondensed(app.rows, out) && Written(store, app, out) == Ok(store')
  {
    out :| IsCondensed(app.rows, out) && Written(store, app, out) == Ok(store');
  }

  /** Whatever a flush of a valid, ordered log leaves is what applying the log leaves. */
  lemma {:induction false} FlushRefinesLog(db: Database, ts: Tables, log: seq<Entry>, buffer: Buffer, db': Database)
    requires RepresentsAll(db, ts)
    requires ValidLog(ts, log) && OrderedLog(log) && BuffersLog(buffer, log)
    requires FlushedTo(db, buffer, db')
    ensures RepresentsAll(db', ApplyLog(ts, log))
    ensures SameLayout(db, db')
  {
    ApplyLogKeys(ts, log);
    forall id | id in db
      ensures Represents(db'[id], ApplyLog(ts, log)[id])
      ensures db[id].Keyless? <==> db'[id].Keyless?
    {
      TableHistory(ts, log, id);
      ForTableOrdered(log, id);
      TableFlushRefinesHistory(db[id], ts[id], ForTable(log, id), AppenderFor(buffer, id), db'[id]);
    }
  }

  /** On a valid, ordered log no index refuses the insert-only shortcut. */
  lemma {:induction false} FlushIsNeverRefused(db: Database, ts: Tables, log: seq<Entry>, buffer: Buffer, id: TableId)
    requires RepresentsAll(db, ts) && id in db
    requires ValidLog(ts, log) && OrderedLog(log) && BuffersLog(buffer, log)
    requires AppenderFor(buffer, id).rows != []
    ensures !Refused(db[id], AppenderFor(buffer, id))
  {
    TableHistory(ts, log, id);
    ForTableOrdered(log, id);
    var app := AppenderFor(buffer, id);
    var out := SomeCondensed(app.rows);
    WrittenRefinesHistory(db[id], ts[id], ForTable(log, id), app, out);
  }

  ghost predicate CanFlush(store: Store, app: Appender) {
    exists store' :: TableFlushed(store, app, store')
  }

  ghost function SomeFlushed(store: Store, app: Appender): (store': Store)
    requires CanFlush(store, app)
    ensures TableFlushed(store, app, store')
  {
    var store' :| TableFlushed(store, app, store');
    store'
  }

  lemma {:induction false} TableCanFlush(store: Store, t: Table, es: seq<Stamped>, app: Appender)
    requires Represents(store, t) && ValidHistory(t, Events(es)) && OrderedStamps(es) && Buffers(app, es)
    ensures CanFlush(store, app)
  {
    if app.rows == [] {
      assert TableFlushed(store, app, store);
    } else {
      var out := SomeCondensed(app.rows);
      WrittenRefinesHistory(store, t, es, app, out);
      assert TableFlushed(store, app, Written(store, app, out).value);
    }
  }

  /** The buffer of a valid, ordered log can be flushed. */
  lemma {:induction false} FlushExists(db: Database, ts: Tables, log: seq<Entry>, buffer: Buffer)
    returns (db': Database)
    requires RepresentsAll(db, ts)
    requires ValidLog(ts, log) && OrderedLog(log) && BuffersLog(buffer, log)
    ensures FlushedTo(db, buffer, db')
  {
    forall id | id in db
      ensures CanFlush(db[id], AppenderFor(buffer, id))
    {
      TableHistory(ts, log, id);
      ForTableOrdered(log, id);
      assert Buffers(AppenderFor(buffer, id), ForTable(log, id));
      TableCanFlush(db[id], ts[id], ForTable(log, id), AppenderFor(buffer, id));
    }
    db' := map id | id in db :: SomeFlushed(db[id], AppenderFor(buffer, id));
  }

  /** A flush changes no table's layout. */
  lemma {:induction false} FlushKeepsLayout(db: Database, buffer: Buffer, db': Database)
    requires FlushedTo(db, buffer, db')
    ensures SameLayout(db, db')
  {
    forall id | id in db
      ensures db[id].Keyless? <==> db'[id].Keyless?
    {
      assert TableFlushed(db[id], AppenderFor(buffer, id), db'[id]);
    }
  }

  lemma {:induction false} RepresentsAllIsFunctional(a: Database, b: Database, ts: Tables)
    requires RepresentsAll(a, ts) && RepresentsAll(b, ts) && SameLayout(a, b)
    ensures a == b
  {
    forall id | id in a
      ensures a[id] == b[id]
    {
      RepresentsIsFunctional(a[id], b[id], ts[id]);
    }
  }

  lemma {:induction false} RepresentedAllIsUnique(db: Database, a: Tables, b: Tables)
    requires RepresentsAll(db, a) && RepresentsAll(db, b)
    ensures a == b
  {
    forall id | id in db
      ensures a[id] == b[id]
    {
      RepresentedIsUnique(db[id], a[id], b[id]);
    }
  }

  // ----- Cutting a log into flushes -----

  ghost function Concat(batches: seq<seq<Entry>>): seq<Entry> {
    if batches == [] then [] else Concat(batches[..|batches| - 1]) + batches[|batches| - 1]
  }

  ghost predicate MayFlush(db: Database, batch: seq<Entry>, db': Database) {
    exists buffer :: BuffersLog(buffer, batch) && FlushedTo(db, buffer, db')
  }

  /** `dbs` are the databases passed through by flushing the batches one after the other. */
  ghost predicate IsFlushRun(dbs: seq<Database>, batches: seq<seq<Entry>>) {
    && |dbs| == |batches| + 1
    && forall i :: 0 <= i < |batches| ==> MayFlush(dbs[i], batches[i], dbs[i + 1])
  }

  lemma {:induction false} MayFlushRefinesLog(
    db: Database, ts: Tables, before: seq<Entry>, batch: seq<Entry>, db': Database)
    requires RepresentsAll(db, ApplyLog(ts, before)) && MayFlush(db, batch, db')
    requires ValidLog(ts, before + batch) && OrderedLog(before + batch)
    ensures RepresentsAll(db', ApplyLog(ts, before + batch))
    ensures SameLayout(db, db')
  {
    ValidLogAppend(ts, before, batch);
    ApplyLogAppend(ts, before, batch);
    OrderedParts(before, batch);
    var buffer :| BuffersLog(buffer, batch) && FlushedTo(db, buffer, db');
    FlushRefinesLog(db, ApplyLog(ts, before), batch, buffer, db');
  }

  lemma {:induction false} FlushRunRefinesLog(ts: Tables, dbs: seq<Database>, batches: seq<seq<Entry>>)
    requires IsFlushRun(dbs, batches)
    requires RepresentsAll(dbs[0], ts)
    requires ValidLog(ts, Concat(batches)) && OrderedLog(Concat(batches))
    ensures RepresentsAll(dbs[|batches|], ApplyLog(ts, Concat(batches)))
    ensures SameLayout(dbs[0], dbs[|batches|])
  {
    if batches != [] {
      var n := |batches| - 1;
      ValidLogAppend(ts, Concat(batches[..n]), batches[n]);
      OrderedParts(Concat(batches[..n]), batches[n]);
      FlushRunRefinesLog(ts, dbs[..n + 1], batches[..n]);
      MayFlushRefinesLog(dbs[n], ts, Concat(batches[..n]), batches[n], dbs[n + 1]);
    }
  }

  lemma {:induction false} OrderedParts(a: seq<Entry>, b: seq<Entry>)
    requires OrderedLog(a + b)
    ensures OrderedLog(a) && OrderedLog(b)
  {
    assert forall i :: 0 <= i < |a| ==> (a + b)[i] == a[i];
    assert forall i :: 0 <= i < |b| ==> (a + b)[|a| + i] == b[i];
  }

  /** Any two ways of cutting one valid history into flushes end in the same physical tables. */
  lemma {:induction false} BatchCutIndependence(ts: Tables, dbs: seq<Database>, batches: seq<seq<Entry>>,
                             dbs': seq<Database>, batches': seq<seq<Entry>>)
    requires IsFlushRun(dbs, batches) && IsFlushRun(dbs', batches')
    requires dbs[0] == dbs'[0] && RepresentsAll(dbs[0], ts)
    requires Concat(batches) == Concat(batches')
    requires ValidLog(ts, Concat(batches)) && OrderedLog(Concat(batches))
    ensures dbs[|batches|] == dbs'[|batches'|]
  {
    FlushRunRefinesLog(ts, dbs, batches);
    FlushRunRefinesLog(ts, dbs', batches');
    RepresentsAllIsFunctional(dbs[|batches|], dbs'[|batches'|], ApplyLog(ts, Concat(batches)));
  }

  /**
   Without an index nothing enforces the primary key, yet no run of flushes of a valid history
   ever stores two rows under one key.
   */
  lemma {:induction false} FlushRunKeepsOneRowPerKey(
    ts: Tables, dbs: seq<Database>, batches: seq<seq<Entry>>, id: TableId)
    requires IsFlushRun(dbs, batches)
    requires RepresentsAll(dbs[0], ts) && id in dbs[0] && dbs[0][id].Keyless?
    requires ValidLog(ts, Concat(batches)) && OrderedLog(Concat(batches))
    ensures id in dbs[|batches|] && dbs[|batches|][id].Keyless?
    ensures OneRowPerKey(dbs[|batches|][id].rows)
  {
    FlushRunRefinesLog(ts, dbs, batches);
    HoldsIsOneRowPerKey(dbs[|batches|][id].rows, ApplyLog(ts, Concat(batches))[id]);
  }

  // ----- Key-changing updates -----

  /** `t'` is `t` with all before-images replaced by all after-images at once. */
  ghost predicate SimultaneousUpdate(t: Table, before: seq<Row>, after: seq<Row>, t': Table) {
    && (forall r :: r in after ==> r.key in t' && t'[r.key] == r.payload)
    && (forall k :: k in Keys(before) && k !in Keys(after) ==> k !in t')
    && (forall k :: k !in Keys(before) && k !in Keys(after) ==> (k in t' <==> k in t) && (k in t ==> t'[k] == t[k]))
  }

  /**
   One update event whose before-images and after-images share a single statement ordinal is
   written as the simultaneous update, chains and cycles of keys included: every after-image is
   there, every before-key that is not also an after-key is gone, and nothing else changed.
   */
  lemma {:induction false} KeyChangingUpdate(
    store: Store, t: Table, e: Stamped, app: Appender, store': Store) returns (t': Table)
    requires Represents(store, t) && e.event.UpdateRows? && Admits(t, e.event)
    requires Buffers(app, [e])
    requires TableFlushed(store, app, store')
    ensures Represents(store', t')
    ensures SimultaneousUpdate(t, e.event.before, e.event.after, t')
  {
    var es := [e];
    assert Events(es)[..0] == [];
    assert ApplyAll(t, Events(es)[..0]) == t;
    TableFlushRefinesHistory(store, t, es, app, store');
    t' := Apply(t, e.event);
    PutKeys(t - Keys(e.event.before), e.event.after);
    PutDistinct(t - Keys(e.event.before), e.event.after);
  }
}
