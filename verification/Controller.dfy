/**
 The delta controller: one appender per table, the handlers that write a delta to its table,
 and the flush of all of them.
 */
module Controller {
  import opened Rows
  import opened Tags
  import opened Condense
  import opened Strategies

  datatype TableId = TableId(dbName: string, tableName: string)

  type Database = map<TableId, Store>

  type Buffer = map<TableId, Appender>

  datatype FlushReason =
    | UnknownFlush | DDLStmtFlush | DMLStmtFlush | MemoryLimitFlush | TimeTickFlush | InitFlush | OnCloseFlush

  datatype FlushStats = FlushStats(deltaSize: nat, insertions: nat, deletions: nat)

  datatype EventKind = DeleteEvent | UpdateEvent | InsertEvent

  // ----- Appending -----

  function UpdateActionStats(c: Counters, action: Action, count: nat): Counters {
    match action
    case Delete => c.(deleteActions := c.deleteActions + count)
    case Insert => c.(insertActions := c.insertActions + count)
  }

  /** Counts the event, whatever number of rows it has. */
  function ObserveEvents(c: Counters, kind: EventKind): Counters {
    match kind
    case DeleteEvent => c.(deleteEvents := c.deleteEvents + 1)
    case InsertEvent => c.(insertEvents := c.insertEvents + 1)
    case UpdateEvent => c.(updateEvents := c.updateEvents + 1)
  }

  function KindOf(e: Event): EventKind {
    match e
    case InsertRows(_) => InsertEvent
    case DeleteRows(_) => DeleteEvent
    case UpdateRows(_, _) => UpdateEvent
    case UpdateInPlace(_) => UpdateEvent
  }

  function AppenderFor(buffer: Buffer, id: TableId): Appender {
    if id in buffer then buffer[id] else EMPTY_APPENDER
  }

  function EventCount(c: Counters, kind: EventKind): nat {
    match kind
    case DeleteEvent => c.deleteEvents
    case InsertEvent => c.insertEvents
    case UpdateEvent => c.updateEvents
  }

  function CountActions(cs: seq<Change>, action: Action): nat {
    if cs == [] then 0
    else CountActions(cs[..|cs| - 1], action) + if cs[|cs| - 1].action == action then 1 else 0
  }

  /**
   `after` is `before` with the event's rows buffered, each counted by its action, and the event counted:
   at least once as what it is, and not as anything else.
   */
  ghost predicate Appended(before: Appender, after: Appender, e: Stamped) {
    && after.rows == before.rows + Render(e)
    && (forall kind :: if kind == KindOf(e.event)
                       then EventCount(after.counters, kind) > EventCount(before.counters, kind)
                       else EventCount(after.counters, kind) == EventCount(before.counters, kind))
    && after.counters.deleteActions == before.counters.deleteActions + CountActions(Render(e), Delete)
    && after.counters.insertActions == before.counters.insertActions + CountActions(Render(e), Insert)
  }

  lemma {:induction false} CountTagged(action: Action, s: Stamp, rows: seq<Row>, other: Action)
    ensures CountActions(Tagged(action, s, rows), other) == if other == action then |rows| else 0
  {
    if rows != [] {
      var n := |rows| - 1;
      assert Tagged(action, s, rows)[..n] == Tagged(action, s, rows[..n]);
      CountTagged(action, s, rows[..n], other);
    }
  }

  lemma {:induction false} CountAppend(a: seq<Change>, b: seq<Change>, action: Action)
    ensures CountActions(a + b, action) == CountActions(a, action) + CountActions(b, action)
  {
    if b == [] {
      assert a + b == a;
    } else {
      assert (a + b)[..|a + b| - 1] == a + b[..|b| - 1];
      CountAppend(a, b[..|b| - 1], action);
    }
  }

  /** How many rows of the action an event is buffered as. */
  function ImageCount(e: Event, action: Action): nat {
    match e
    case InsertRows(rows) => if action.Insert? then |rows| else 0
    case DeleteRows(rows) => if action.Delete? then |rows| else 0
    case UpdateRows(before, after) => if action.Insert? then |after| else |before|
    case UpdateInPlace(_) => if action.Insert? then 1 else 0
  }

  lemma {:induction false} CountRendered(e: Stamped, action: Action)
    ensures CountActions(Render(e), action) == ImageCount(e.event, action)
  {
    match e.event
    case InsertRows(rows) => CountTagged(Insert, e.stamp, rows, action);
    case DeleteRows(rows) => CountTagged(Delete, e.stamp, rows, action);
    case UpdateRows(before, after) =>
      CountTagged(Delete, e.stamp, before, action);
      CountTagged(Insert, e.stamp, after, action);
      CountAppend(Tagged(Delete, e.stamp, before), Tagged(Insert, e.stamp, after), action);
    case UpdateInPlace(row) => CountTagged(Insert, e.stamp, [row], action);
  }

  lemma {:induction false} NoDeletions(cs: seq<Change>)
    requires CountActions(cs, Delete) == 0
    ensures forall c :: c in cs ==> c.action.Insert?
  {
    if cs != [] {
      NoDeletions(cs[..|cs| - 1]);
      assert cs == cs[..|cs| - 1] + [cs[|cs| - 1]];
    }
  }

  /** The appender that buffers a history goes on to buffer it when an event is appended. */
  lemma {:induction false} AppendedBuffers(before: Appender, after: Appender, es: seq<Stamped>, e: Stamped)
    requires Buffers(before, es) && Appended(before, after, e)
    ensures Buffers(after, es + [e])
  {
    assert (es + [e])[..|es|] == es;
    forall kind: EventKind
      ensures EventCount(after.counters, kind) >= EventCount(before.counters, kind)
    {
    }
    assert after.counters.insertEvents == EventCount(after.counters, InsertEvent);
    assert after.counters.deleteEvents == EventCount(after.counters, DeleteEvent);
    assert after.counters.updateEvents == EventCount(after.counters, UpdateEvent);
    if after.counters.deleteActions == 0 {
      NoDeletions(Render(e));
    }
  }

  // ----- SQL statements on a table -----

  method ExecDelete(rows: multiset<Row>, keys: set<Key>) returns (kept: multiset<Row>, affected: nat)
    ensures kept == DeleteWhere(rows, keys)
    ensures affected == |rows| - |kept|
  {
    kept, affected := multiset{}, 0;
    var todo := rows;
    while todo != multiset{}
      invariant forall x: Row ::
                  kept[x] + (if x.key in keys then 0 else todo[x]) == if x.key in keys then 0 else rows[x]
      invariant |kept| + affected + |todo| == |rows|
      decreases |todo|
    {
      var x :| x in todo;
      if x.key in keys {
        affected := affected + 1;
      } else {
        kept := kept + multiset{x};
      }
      todo := todo - multiset{x};
    }
    assert kept == DeleteWhere(rows, keys);
  }

  method ExecDeleteIndexed(t: Table, keys: set<Key>) returns (kept: Table, affected: nat)
    ensures kept == t - keys
    ensures affected == |t| - |kept|
  {
    kept, affected := t - keys, |t.Keys * keys|;
    assert kept.Keys == t.Keys - keys;
  }

  // ----- Handlers -----

  method HandleInsertOnly(store: Store, cs: seq<Change>, stats: FlushStats)
    returns (r: Result<Store>, stats': FlushStats)
    ensures r == Inserted(store, RowsOf(cs))
    ensures r.Ok? ==> stats' == stats.(insertions := stats.insertions + |cs|, deltaSize := stats.deltaSize + |cs|)
  {
    stats' := stats.(insertions := stats.insertions + |cs|, deltaSize := stats.deltaSize + |cs|);
    match store {
      case Keyless(rows) =>
        r := Ok(Keyless(rows + multiset(RowsOf(cs))));
      case Indexed(t) =>
        if DistinctKeys(RowsOf(cs)) && Keys(RowsOf(cs)) !! t.Keys {
          r := Ok(Indexed(Put(t, RowsOf(cs))));
        } else {
          r, stats' := Err, stats;
        }
    }
  }

  method HandleDeleteOnly(store: Store, cs: seq<Change>, stats: FlushStats)
    returns (store': Store, stats': FlushStats)
    ensures store' == Deleted(store, ChangedKeys(cs))
    ensures stats'.insertions == stats.insertions
    ensures stats'.deletions - stats.deletions == stats'.deltaSize - stats.deltaSize
            == RowCount(store) - RowCount(store')
  {
    match store {
      case Keyless(rows) =>
        var kept, affected := ExecDelete(rows, ChangedKeys(cs));
        store' := Keyless(kept);
        stats' := stats.(deletions := stats.deletions + affected, deltaSize := stats.deltaSize + affected);
      case Indexed(t) =>
        var kept, affected := ExecDeleteIndexed(t, ChangedKeys(cs));
        store' := Indexed(kept);
        stats' := stats.(deletions := stats.deletions + affected, deltaSize := stats.deltaSize + affected);
    }
  }

  method HandleZeroDelete(t: Table, cs: seq<Change>, stats: FlushStats)
    returns (t': Table, stats': FlushStats, out: map<Key, Change>)
    ensures IsCondensed(cs, out) && t' == UpsertAll(t, out)
    ensures stats'.insertions - stats.insertions == stats'.deltaSize - stats.deltaSize == |ChangedKeys(cs)|
    ensures stats'.deletions == stats.deletions
  {
    out := CondenseDelta(cs);
    t' := UpsertAll(t, out);
    var affected := |out.Keys|;
    stats' := stats.(insertions := stats.insertions + affected, deltaSize := stats.deltaSize + affected);
  }

  method HandleGeneralCase(t: Table, cs: seq<Change>, stats: FlushStats)
    returns (t': Table, stats': FlushStats, out: map<Key, Change>)
    ensures IsCondensed(cs, out) && t' == UpsertThenDelete(t, out)
    ensures stats'.deltaSize == stats.deltaSize + |out| && stats'.insertions == stats.insertions + |Upserts(out)|
    ensures stats'.deletions - stats.deletions == |Upsert(t, out)| - |t'|
  {
    out := CondenseDelta(cs);
    stats' := stats.(deltaSize := stats.deltaSize + |out|);
    t' := Upsert(t, out);
    stats' := stats'.(insertions := stats'.insertions + |Upserts(out)|);
    var affected;
    t', affected := ExecDeleteIndexed(t', DeletedKeys(out));
    stats' := stats'.(deletions := stats'.deletions + affected);
  }

  method HandleWithoutIndex(rows: multiset<Row>, cs: seq<Change>, stats: FlushStats)
    returns (rows': multiset<Row>, stats': FlushStats, out: map<Key, Change>)
    ensures IsCondensed(cs, out) && rows' == DeleteThenInsert(rows, out)
    ensures stats'.deltaSize == stats.deltaSize + |ChangedKeys(cs)|
    ensures stats'.insertions == stats.insertions + |Upserts(out)|
    ensures stats'.deletions - stats.deletions == |rows| - |DeleteWhere(rows, ChangedKeys(cs))|
    ensures |rows'| == |rows| + (stats'.insertions - stats.insertions) - (stats'.deletions - stats.deletions)
  {
    out := CondenseDelta(cs);
    stats' := stats.(deltaSize := stats.deltaSize + |out|);
    var kept, deleted := ExecDelete(rows, out.Keys);
    stats' := stats'.(deletions := stats'.deletions + deleted);
    var inserts := multiset(Upserts(out));
    rows' := kept + inserts;
    stats' := stats'.(insertions := stats'.insertions + |inserts|);
  }

  /** What flushing one table's appender may leave in the table. */
  ghost predicate MayWrite(store: Store, app: Appender, store': Store) {
    exists out :: IsCondensed(app.rows, out) && Written(store, app, out) == Ok(store')
  }

  /** A table without buffered rows is not visited. */
  ghost predicate TableFlushed(store: Store, app: Appender, store': Store) {
    if app.rows == [] then store' == store else MayWrite(store, app, store')
  }

  /** The unique index turned down the insert-only shortcut. */
  ghost predicate Refused(store: Store, app: Appender) {
    Choose(app.counters, store.Keyless?).InsertOnly? && Inserted(store, RowsOf(app.rows)).Err?
  }

  ghost function RowCount(store: Store): nat {
    match store
    case Keyless(rows) => |rows|
    case Indexed(t) => |t|
  }

  method UpdateTable(store: Store, app: Appender, stats: FlushStats)
    returns (r: Result<Store>, stats': FlushStats)
    ensures r.Err? <==> Refused(store, app)
    ensures r.Ok? ==> MayWrite(store, app, r.value)
    ensures r.Ok? ==> (r.value.Keyless? <==> store.Keyless?)
    ensures r.Ok? && store.Keyless? ==>
              RowCount(r.value) == RowCount(store) + (stats'.insertions - stats.insertions)
                                                   - (stats'.deletions - stats.deletions)
  {
    ghost var condensed := SomeCondensed(app.rows);
    match Choose(app.counters, store.Keyless?) {
      case InsertOnly =>
        r, stats' := HandleInsertOnly(store, app.rows, stats);
      case DeleteOnly =>
        var s;
        s, stats' := HandleDeleteOnly(store, app.rows, stats);
        r := Ok(s);
      case ZeroDelete =>
        var t, out;
        t, stats', out := HandleZeroDelete(store.table, app.rows, stats);
        r, condensed := Ok(Indexed(t)), out;
      case General =>
        var t, out;
        t, stats', out := HandleGeneralCase(store.table, app.rows, stats);
        r, condensed := Ok(Indexed(t)), out;
      case WithoutIndex =>
        var rows, out;
        rows, stats', out := HandleWithoutIndex(store.rows, app.rows, stats);
        r, condensed := Ok(Keyless(rows)), out;
    }
    assert r.Ok? ==> IsCondensed(app.rows, condensed) && Written(store, app, condensed) == r;
  }
}
