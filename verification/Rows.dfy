/**
 Rows, tables and row events, and what applying a history of events one at a time means.

 This is the simple thing that the delta buffer must agree with.
 */
module Rows {

  datatype Cell = Null | Text(text: string)

  type Key = seq<Cell>

  type Payload = seq<Cell>

  /** A row, split into its primary-key columns and the others. */
  datatype Row = Row(key: Key, payload: Payload)

  /** The logical contents of a table with a primary key. */
  type Table = map<Key, Payload>

  /**
   One row event of the source. A deletion carries before-images of which only the key is
   certain to be present; an update replaces all its before-images by its after-images at once.
   `UpdateInPlace` is a Postgres update sent without an old tuple: its key did not change.
   */
  datatype Event =
    | InsertRows(rows: seq<Row>)
    | DeleteRows(rows: seq<Row>)
    | UpdateRows(before: seq<Row>, after: seq<Row>)
    | UpdateInPlace(row: Row)

  function Keys(rows: seq<Row>): set<Key> {
    set r | r in rows :: r.key
  }

  predicate DistinctKeys(rows: seq<Row>) {
    forall i, j :: 0 <= i < j < |rows| ==> rows[i].key != rows[j].key
  }

  /** Writes the rows over the table, later rows last. */
  function Put(t: Table, rows: seq<Row>): Table {
    if rows == [] then t
    else
      var n := |rows| - 1;
      Put(t, rows[..n])[rows[n].key := rows[n].payload]
  }

  /** The source only emits events that its own table admits. */
  ghost predicate Admits(t: Table, e: Event) {
    match e
    case InsertRows(rows) =>
      DistinctKeys(rows) && Keys(rows) !! t.Keys
    case DeleteRows(rows) =>
      DistinctKeys(rows) && Keys(rows) <= t.Keys
    case UpdateRows(before, after) =>
      && |before| == |after|
      && DistinctKeys(before) && Keys(before) <= t.Keys
      && DistinctKeys(after) && Keys(after) !! (t.Keys - Keys(before))
    case UpdateInPlace(row) =>
      row.key in t
  }

  ghost function Apply(t: Table, e: Event): Table {
    match e
    case InsertRows(rows) => Put(t, rows)
    case DeleteRows(rows) => t - Keys(rows)
    case UpdateRows(before, after) => Put(t - Keys(before), after)
    case UpdateInPlace(row) => t[row.key := row.payload]
  }

  /** Applies the events one at a time, first to last. */
  ghost function ApplyAll(t: Table, es: seq<Event>): Table {
    if es == [] then t
    else Apply(ApplyAll(t, es[..|es| - 1]), es[|es| - 1])
  }

  ghost predicate ValidHistory(t: Table, es: seq<Event>) {
    es == [] ||
    (var n := |es| - 1;
     ValidHistory(t, es[..n]) && Admits(ApplyAll(t, es[..n]), es[n]))
  }

  lemma {:induction false} PutKeys(t: Table, rows: seq<Row>)
    ensures Put(t, rows).Keys == t.Keys + Keys(rows)
  {
    if rows != [] {
      var n := |rows| - 1;
      PutKeys(t, rows[..n]);
      assert rows == rows[..n] + [rows[n]];
    }
  }

  /** With distinct keys, every row written is the row read back. */
  lemma {:induction false} PutDistinct(t: Table, rows: seq<Row>)
    requires DistinctKeys(rows)
    ensures forall k :: k in t && k !in Keys(rows) ==> k in Put(t, rows) && Put(t, rows)[k] == t[k]
    ensures forall r :: r in rows ==> r.key in Put(t, rows) && Put(t, rows)[r.key] == r.payload
  {
    PutKeys(t, rows);
    if rows != [] {
      var n := |rows| - 1;
      PutKeys(t, rows[..n]);
      PutDistinct(t, rows[..n]);
      assert rows == rows[..n] + [rows[n]];
      assert forall r :: r in rows[..n] ==> r.key != rows[n].key;
    }
  }

  lemma {:induction false} PutAppend(t: Table, a: seq<Row>, b: seq<Row>)
    ensures Put(t, a + b) == Put(Put(t, a), b)
  {
    if b == [] {
      assert a + b == a;
    } else {
      var n := |b| - 1;
      assert (a + b)[..|a + b| - 1] == a + b[..n];
      PutAppend(t, a, b[..n]);
    }
  }
}
