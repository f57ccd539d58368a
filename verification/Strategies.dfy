/**
 The five ways a buffered delta is written to a physical table, and the proof that whichever
 one is chosen gives the table that applying the events one at a time gives.
 */
module Strategies {
  import opened Rows
  import opened Tags
  import opened Condense

  datatype Result<T> = Ok(value: T) | Err

  /**
   A physical table: with a primary-key index, or, in the default configuration, without one,
   where nothing stops two rows from having the same key.
   */
  datatype Store = Indexed(table: Table) | Keyless(rows: multiset<Row>)

  ghost predicate Holds(rows: multiset<Row>, t: Table) {
    forall r: Row :: rows[r] == if r.key in t && t[r.key] == r.payload then 1 else 0
  }

  ghost predicate Represents(store: Store, t: Table) {
    match store
    case Indexed(u) => u == t
    case Keyless(rows) => Holds(rows, t)
  }

  ghost predicate OneRowPerKey(rows: multiset<Row>) {
    forall r, s :: r in rows && s in rows && r.key == s.key ==> r == s && rows[r] == 1
  }

  /** How many rows the source sent in each kind of event, and buffer rows of each action. */
  datatype Counters = Counters(deleteEvents: nat, insertEvents: nat, updateEvents: nat,
                               deleteActions: nat, insertActions: nat)

  const ZERO_COUNTERS := Counters(0, 0, 0, 0, 0)

  /** One table's buffered rows with the counters kept beside them. */
  datatype Appender = Appender(rows: seq<Change>, counters: Counters)

  const EMPTY_APPENDER := Appender([], ZERO_COUNTERS)

  datatype Strategy = InsertOnly | DeleteOnly | ZeroDelete | WithoutIndex | General

  function Choose(c: Counters, withoutIndex: bool): Strategy {
    if c.insertEvents > 0 && c.deleteEvents == 0 && c.updateEvents == 0 then InsertOnly
    else if c.deleteEvents > 0 && c.insertEvents == 0 && c.updateEvents == 0 then DeleteOnly
    else if c.deleteActions == 0 && !withoutIndex then ZeroDelete
    else if withoutIndex then WithoutIndex
    else General
  }

  function RowsOf(cs: seq<Change>): (rows: seq<Row>)
    ensures |rows| == |cs|
    ensures forall i :: 0 <= i < |rows| ==> rows[i] == cs[i].row
  {
    seq(|cs|, i requires 0 <= i < |cs| => cs[i].row)
  }

  /** `DELETE FROM table WHERE pk IN (keys)` on a table that may hold duplicates. */
  ghost function DeleteWhere(rows: multiset<Row>, keys: set<Key>): (r: multiset<Row>)
    ensures forall x: Row :: r[x] == if x.key in keys then 0 else rows[x]
    ensures r <= rows
    decreases |rows|
  {
    if rows == multiset{} then rows
    else
      var x :| x in rows;
      var rest := rows[x := 0];
      assert |rest| < |rows|;
      if x.key in keys then DeleteWhere(rest, keys) else DeleteWhere(rest, keys)[x := rows[x]]
  }

  function Upserts(out: map<Key, Change>): set<Row> {
    set k | k in out && out[k].action.Insert? :: out[k].row
  }

  function DeletedKeys(out: map<Key, Change>): set<Key> {
    set k | k in out && out[k].action.Delete?
  }

  /** `INSERT OR REPLACE` of the condensed changes with action INSERT. */
  function Upsert(t: Table, out: map<Key, Change>): Table {
    t + map k | k in out && out[k].action.Insert? :: out[k].row.payload
  }

  /** `INSERT OR REPLACE` of all condensed changes, whatever their action. */
  function UpsertAll(t: Table, out: map<Key, Change>): Table {
    t + map k | k in out :: out[k].row.payload
  }

  /** UPSERT then DELETE, on an indexed table. */
  function UpsertThenDelete(t: Table, out: map<Key, Change>): Table {
    Upsert(t, out) - DeletedKeys(out)
  }

  /** DELETE every changed key, then INSERT the rows to keep, on a table without an index. */
  ghost function DeleteThenInsert(rows: multiset<Row>, out: map<Key, Change>): multiset<Row> {
    DeleteWhere(rows, out.Keys) + multiset(Upserts(out))
  }

  /** A plain `INSERT`; a unique index refuses it if any key is taken or repeated. */
  ghost function Inserted(store: Store, rows: seq<Row>): Result<Store> {
    match store
    case Keyless(m) => Ok(Keyless(m + multiset(rows)))
    case Indexed(t) =>
      if DistinctKeys(rows) && Keys(rows) !! t.Keys then Ok(Indexed(Put(t, rows))) else Err
  }

  ghost function Deleted(store: Store, keys: set<Key>): Store {
    match store
    case Keyless(m) => Keyless(DeleteWhere(m, keys))
    case Indexed(t) => Indexed(t - keys)
  }

  /** The table after a flush that condensed the buffer to `out`. */
  ghost function Written(store: Store, app: Appender, out: map<Key, Change>): (r: Result<Store>)
    ensures r.Ok? ==> (r.value.Keyless? <==> store.Keyless?)
  {
    match Choose(app.counters, store.Keyless?)
    case InsertOnly => Inserted(store, RowsOf(app.rows))
    case DeleteOnly => Ok(Deleted(store, ChangedKeys(app.rows)))
    case ZeroDelete =>
      if store.Indexed? then Ok(Indexed(UpsertAll(store.table, out))) else Err
    case General =>
      if store.Indexed? then Ok(Indexed(UpsertThenDelete(store.table, out))) else Err
    case WithoutIndex =>
      if store.Keyless? then Ok(Keyless(DeleteThenInsert(store.rows, out))) else Err
  }

  /**
   The appender buffers exactly these events, and every kind of event that brought rows has
   been counted. (Events without rows may leave counts behind, since counters are reset only
   when a flush finds rows.)
   */
  ghost predicate Buffers(app: Appender, es: seq<Stamped>) {
    && app.rows == RenderAll(es)
    && (forall i :: 0 <= i < |es| && Render(es[i]) != [] ==> Counted(app.counters, es[i].event))
    && (app.counters.deleteActions == 0 ==> forall c :: c in app.rows ==> c.action.Insert?)
  }

  ghost predicate Counted(c: Counters, e: Event) {
    match e
    case InsertRows(_) => c.insertEvents > 0
    case DeleteRows(_) => c.deleteEvents > 0
    case UpdateRows(_, _) => c.updateEvents > 0
    case UpdateInPlace(_) => c.updateEvents > 0
  }

  // ----- The condensed strategies -----

  /** UPSERT-then-DELETE of a condensed delta is the replay of the whole delta. */
  lemma {:induction false} UpsertThenDeleteReplays(t: Table, cs: seq<Change>, out: map<Key, Change>)
    requires LaterIsLarger(cs) && IsCondensed(cs, out)
    ensures UpsertThenDelete(t, out) == Replay(t, cs)
  {
    forall k: Key
      ensures k in UpsertThenDelete(t, out) <==> k in Replay(t, cs)
      ensures k in Replay(t, cs) ==> UpsertThenDelete(t, out)[k] == Replay(t, cs)[k]
    {
      CondensedIsLast(cs, out, k);
      ReplayAt(t, cs, k);
    }
  }

  /**
   Strategy agreement: on every condensed delta, whatever its actions, DELETE-then-INSERT on the
   bag of rows and UPSERT-then-DELETE on the indexed table give the same logical table.
   */
  lemma {:induction false} StrategiesAgree(rows: multiset<Row>, t: Table, out: map<Key, Change>)
    requires Holds(rows, t)
    requires forall k :: k in out ==> out[k].row.key == k
    ensures Holds(DeleteThenInsert(rows, out), UpsertThenDelete(t, out))
  {
    var u := UpsertThenDelete(t, out);
    forall r: Row
      ensures DeleteThenInsert(rows, out)[r] == if r.key in u && u[r.key] == r.payload then 1 else 0
    {
      if r.key in out {
        assert r in Upserts(out) <==> out[r.key].action.Insert? && out[r.key].row == r;
      } else {
        assert r !in Upserts(out);
      }
    }
  }

  lemma {:induction false} NoneDeleted(t: Table, out: map<Key, Change>)
    requires forall k :: k in out ==> out[k].action.Insert?
    ensures UpsertAll(t, out) == UpsertThenDelete(t, out)
  {
    assert DeletedKeys(out) == {};
  }

  lemma {:induction false} ZeroDeleteAgrees(t: Table, cs: seq<Change>, out: map<Key, Change>)
    requires IsCondensed(cs, out)
    requires forall c :: c in cs ==> c.action.Insert?
    ensures UpsertAll(t, out) == UpsertThenDelete(t, out)
  {
    forall k | k in out
      ensures out[k].action.Insert?
    {
      assert out[k] in cs;
    }
    NoneDeleted(t, out);
  }

  // ----- The shortcuts -----

  lemma {:induction false} DeletesReplay(t: Table, cs: seq<Change>)
    requires forall c :: c in cs ==> c.action.Delete?
    ensures Replay(t, cs) == t - ChangedKeys(cs)
  {
    if cs != [] {
      var n := |cs| - 1;
      DeletesReplay(t, cs[..n]);
      assert cs == cs[..n] + [cs[n]];
      assert ChangedKeys(cs) == ChangedKeys(cs[..n]) + {cs[n].row.key};
    }
  }

  lemma {:induction false} InsertsReplay(t: Table, cs: seq<Change>)
    requires forall c :: c in cs ==> c.action.Insert?
    ensures Replay(t, cs) == Put(t, RowsOf(cs))
  {
    if cs != [] {
      var n := |cs| - 1;
      InsertsReplay(t, cs[..n]);
      assert RowsOf(cs)[..n] == RowsOf(cs[..n]);
    }
  }

  /** The changes insert distinct keys that are not in the table. */
  ghost predicate InsertsFresh(t: Table, cs: seq<Change>) {
    && DistinctKeys(RowsOf(cs)) && Keys(RowsOf(cs)) !! t.Keys
    && forall c :: c in cs ==> c.action.Insert?
  }

  lemma {:induction false} InsertsFreshAppend(t: Table, a: seq<Change>, b: seq<Change>)
    requires InsertsFresh(t, a) && DistinctKeys(RowsOf(b)) && Keys(RowsOf(b)) !! Put(t, RowsOf(a)).Keys
    requires forall c :: c in b ==> c.action.Insert?
    ensures InsertsFresh(t, a + b)
  {
    PutKeys(t, RowsOf(a));
    assert RowsOf(a + b) == RowsOf(a) + RowsOf(b);
    DistinctAppend(RowsOf(a), RowsOf(b));
  }

  /** In a valid history whose rows all come from insert events, no key repeats or is taken. */
  lemma {:induction false} InsertEventsAreFresh(t: Table, es: seq<Stamped>)
    requires ValidHistory(t, Events(es))
    requires forall i :: 0 <= i < |es| && Render(es[i]) != [] ==> es[i].event.InsertRows?
    ensures InsertsFresh(t, RenderAll(es))
  {
    if es != [] {
      var n := |es| - 1;
      assert Events(es)[..n] == Events(es[..n]);
      InsertEventsAreFresh(t, es[..n]);
      var a, b := RenderAll(es[..n]), Render(es[n]);
      if b == [] {
        assert a + b == a;
      } else {
        ReplayHistory(t, es[..n]);
        InsertsReplay(t, a);
        assert RowsOf(b) == es[n].event.rows;
        InsertsFreshAppend(t, a, b);
      }
    }
  }

  lemma {:induction false} DistinctAppend(a: seq<Row>, b: seq<Row>)
    requires DistinctKeys(a) && DistinctKeys(b) && Keys(a) !! Keys(b)
    ensures DistinctKeys(a + b)
    ensures Keys(a + b) == Keys(a) + Keys(b)
  {
    forall i, j | 0 <= i < j < |a + b|
      ensures (a + b)[i].key != (a + b)[j].key
    {
      if i < |a| <= j {
        assert a[i].key in Keys(a) && b[j - |a|].key in Keys(b);
      }
    }
  }

  lemma {:induction false} DeleteEventsOnlyDelete(es: seq<Stamped>)
    requires forall i :: 0 <= i < |es| && Render(es[i]) != [] ==> es[i].event.DeleteRows?
    ensures forall c :: c in RenderAll(es) ==> c.action.Delete?
  {
    if es != [] {
      DeleteEventsOnlyDelete(es[..|es| - 1]);
    }
  }

  /** A plain INSERT of fresh, distinct rows succeeds and loses none of them. */
  lemma {:induction false} InsertedHolds(store: Store, t: Table, rows: seq<Row>)
    requires Represents(store, t)
    requires DistinctKeys(rows) && Keys(rows) !! t.Keys
    ensures Inserted(store, rows).Ok? && Represents(Inserted(store, rows).value, Put(t, rows))
  {
    if store.Keyless? {
      PutKeys(t, rows);
      PutDistinct(t, rows);
      forall r: Row
        ensures (store.rows + multiset(rows))[r] ==
                if r.key in Put(t, rows) && Put(t, rows)[r.key] == r.payload then 1 else 0
      {
        DistinctIsOnce(rows, r);
        if r in rows {
          assert r.key in Keys(rows);
        } else if r.key in Keys(rows) {
          var s :| s in rows && s.key == r.key;
        }
      }
    }
  }

  lemma {:induction false} DistinctIsOnce(rows: seq<Row>, r: Row)
    requires DistinctKeys(rows)
    ensures multiset(rows)[r] == if r in rows then 1 else 0
  {
    if rows != [] {
      var n := |rows| - 1;
      assert rows == rows[..n] + [rows[n]];
      DistinctIsOnce(rows[..n], r);
    }
  }

  lemma {:induction false} DeletedHolds(store: Store, t: Table, keys: set<Key>)
    requires Represents(store, t)
    ensures Represents(Deleted(store, keys), t - keys)
  {
  }

  // ----- The refinement -----

  /**
   Flush refines sequential application: for every table, every valid history with increasing
   stamps and every answer of the condense query, the strategy chosen from the counters succeeds
   and writes the table that applying the events one at a time gives.
   */
  lemma {:induction false} WrittenRefinesHistory(
    store: Store, t: Table, es: seq<Stamped>, app: Appender, out: map<Key, Change>)
    requires Represents(store, t)
    requires ValidHistory(t, Events(es)) && OrderedStamps(es)
    requires Buffers(app, es) && app.rows != []
    requires IsCondensed(app.rows, out)
    ensures Written(store, app, out).Ok?
    ensures Represents(Written(store, app, out).value, ApplyAll(t, Events(es)))
  {
    ReplayHistory(t, es);
    match Choose(app.counters, store.Keyless?)
    case InsertOnly =>
      assert forall i :: 0 <= i < |es| && Render(es[i]) != [] ==> es[i].event.InsertRows?;
      InsertEventsAreFresh(t, es);
      InsertsReplay(t, app.rows);
      InsertedHolds(store, t, RowsOf(app.rows));
    case DeleteOnly =>
      assert forall i :: 0 <= i < |es| && Render(es[i]) != [] ==> es[i].event.DeleteRows?;
      DeleteEventsOnlyDelete(es);
      DeletesReplay(t, app.rows);
      DeletedHolds(store, t, ChangedKeys(app.rows));
    case ZeroDelete =>
      ArrivalOrderIsTagOrder(t, es);
      ZeroDeleteAgrees(t, app.rows, out);
      UpsertThenDeleteReplays(t, app.rows, out);
    case General =>
      ArrivalOrderIsTagOrder(t, es);
      UpsertThenDeleteReplays(t, app.rows, out);
    case WithoutIndex =>
      ArrivalOrderIsTagOrder(t, es);
      StrategiesAgree(store.rows, t, out);
      UpsertThenDeleteReplays(t, app.rows, out);
  }

  lemma {:induction false} HoldsIsOneRowPerKey(rows: multiset<Row>, t: Table)
    requires Holds(rows, t)
    ensures OneRowPerKey(rows)
  {
  }

  /** A physical table is determined by the logical table it represents. */
  lemma {:induction false} RepresentsIsFunctional(a: Store, b: Store, t: Table)
    requires Represents(a, t) && Represents(b, t) && (a.Keyless? <==> b.Keyless?)
    ensures a == b
  {
    if a.Keyless? {
      assert forall r: Row :: a.rows[r] == b.rows[r];
    }
  }

  /** And determines it. */
  lemma {:induction false} RepresentedIsUnique(store: Store, a: Table, b: Table)
    requires Represents(store, a) && Represents(store, b)
    ensures a == b
  {
    if store.Keyless? {
      forall k: Key
        ensures k in a <==> k in b
        ensures k in a ==> a[k] == b[k]
      {
        if k in a {
          assert store.rows[Row(k, a[k])] == 1;
        }
        if k in b {
          assert store.rows[Row(k, b[k])] == 1;
        }
      }
    }
  }

  // ----- The same events written again -----

  lemma {:induction false} ReplayAgain(t: Table, cs: seq<Change>)
    ensures Replay(Replay(t, cs), cs) == Replay(t, cs)
  {
    var u := Replay(t, cs);
    forall k: Key
      ensures k in Replay(u, cs) <==> k in u
      ensures k in u ==> Replay(u, cs)[k] == u[k]
    {
      ReplayAt(t, cs, k);
      ReplayAt(u, cs, k);
    }
  }

  /** The table already holds the rows of the insert events. */
  lemma {:induction false} InsertedAgain(store: Store, t: Table, cs: seq<Change>)
    requires cs != [] && Represents(store, Put(t, RowsOf(cs)))
    ensures Inserted(store, RowsOf(cs)) != Ok(store)
    ensures store.Indexed? ==> Inserted(store, RowsOf(cs)).Err?
  {
    var rows := RowsOf(cs);
    PutKeys(t, rows);
    assert rows[0].key in Keys(rows);
    if store.Keyless? {
      assert (store.rows + multiset(rows))[rows[0]] > store.rows[rows[0]];
    }
  }

  /** The other strategies replay the changes on whatever the table holds. */
  lemma {:induction false} RewrittenHolds(
    store: Store, t: Table, es: seq<Stamped>, app: Appender, out: map<Key, Change>)
    requires ValidHistory(t, Events(es)) && OrderedStamps(es)
    requires Buffers(app, es) && app.rows != [] && IsCondensed(app.rows, out)
    requires Represents(store, Replay(t, app.rows))
    requires !Choose(app.counters, store.Keyless?).InsertOnly?
    ensures Written(store, app, out).Ok?
    ensures Represents(Written(store, app, out).value, Replay(Replay(t, app.rows), app.rows))
  {
    var u := Replay(t, app.rows);
    match Choose(app.counters, store.Keyless?)
    case DeleteOnly =>
      assert forall i :: 0 <= i < |es| && Render(es[i]) != [] ==> es[i].event.DeleteRows?;
      DeleteEventsOnlyDelete(es);
      DeletesReplay(u, app.rows);
      DeletedHolds(store, u, ChangedKeys(app.rows));
    case ZeroDelete =>
      ArrivalOrderIsTagOrder(t, es);
      ZeroDeleteAgrees(u, app.rows, out);
      UpsertThenDeleteReplays(u, app.rows, out);
    case General =>
      ArrivalOrderIsTagOrder(t, es);
      UpsertThenDeleteReplays(u, app.rows, out);
    case WithoutIndex =>
      ArrivalOrderIsTagOrder(t, es);
      StrategiesAgree(store.rows, u, out);
      UpsertThenDeleteReplays(u, app.rows, out);
  }

  /**
   Writing the same events into a table that already holds their outcome leaves it as it is if and
   only if the insert-only shortcut is not taken. The shortcut stores the rows twice in a table
   without index, and is refused by one with an index.
   */
  lemma {:induction false} WrittenAgain(
    store: Store, t: Table, es: seq<Stamped>, app: Appender, out: map<Key, Change>)
    requires ValidHistory(t, Events(es)) && OrderedStamps(es)
    requires Buffers(app, es) && app.rows != [] && IsCondensed(app.rows, out)
    requires Represents(store, ApplyAll(t, Events(es)))
    ensures Written(store, app, out) == Ok(store) <==> !Choose(app.counters, store.Keyless?).InsertOnly?
    ensures Choose(app.counters, store.Keyless?).InsertOnly? ==>
              Written(store, app, out) ==
              if store.Indexed? then Err else Ok(Keyless(store.rows + multiset(RowsOf(app.rows))))
  {
    ReplayHistory(t, es);
    var u := Replay(t, app.rows);
    ReplayAgain(t, app.rows);
    if Choose(app.counters, store.Keyless?).InsertOnly? {
      InsertEventsAreFresh(t, es);
      InsertsReplay(t, app.rows);
      InsertedAgain(store, t, app.rows);
    } else {
      RewrittenHolds(store, t, es, app, out);
      RepresentsIsFunctional(store, Written(store, app, out).value, u);
    }
  }
}
