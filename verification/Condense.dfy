/**
 The condense query: the latest buffered change of every primary key.
 */
module Condense {
  import opened Rows
  import opened Tags

  function ChangedKeys(cs: seq<Change>): set<Key> {
    set c | c in cs :: c.row.key
  }

  /**
   The relational meaning of
   `SELECT LAST(... ORDER BY txn_group, txn_seq, txn_stmt, action) ... GROUP BY pk`:
   one change per key present, none of that key's changes tagged after it.
   Among equal tags the query may return any.
   */
  ghost predicate IsCondensed(cs: seq<Change>, out: map<Key, Change>) {
    && out.Keys == ChangedKeys(cs)
    && forall k :: k in out ==>
         && out[k] in cs && out[k].row.key == k
         && forall c :: c in cs && c.row.key == k ==> !TagLess(out[k], c)
  }

  method CondenseDelta(cs: seq<Change>) returns (out: map<Key, Change>)
    ensures IsCondensed(cs, out)
  {
    out := map[];
    for i := 0 to |cs|
      invariant IsCondensed(cs[..i], out)
    {
      var c := cs[i];
      assert cs[..i + 1] == cs[..i] + [c];
      CondenseStep(cs[..i], out, c);
      if c.row.key !in out || !TagLess(c, out[c.row.key]) {
        out := out[c.row.key := c];
      }
    }
    assert cs[..|cs|] == cs;
  }

  /** The query always has an answer. */
  lemma {:induction false} SomeCondensed(cs: seq<Change>) returns (out: map<Key, Change>)
    ensures IsCondensed(cs, out)
  {
    if cs == [] {
      out := map[];
    } else {
      var c := cs[|cs| - 1];
      out := SomeCondensed(cs[..|cs| - 1]);
      CondenseStep(cs[..|cs| - 1], out, c);
      assert cs == cs[..|cs| - 1] + [c];
      out := if c.row.key !in out || !TagLess(c, out[c.row.key]) then out[c.row.key := c] else out;
    }
  }

  lemma {:induction false} CondenseStep(cs: seq<Change>, out: map<Key, Change>, c: Change)
    requires IsCondensed(cs, out)
    ensures IsCondensed(cs + [c], if c.row.key !in out || !TagLess(c, out[c.row.key]) then out[c.row.key := c] else out)
  {
    var k := c.row.key;
    if k !in out || !TagLess(c, out[k]) {
      forall d | d in cs + [c] && d.row.key == k
        ensures !TagLess(c, d)
      {
        if TagLess(c, d) {
          if d == c {
            TagLessAsymmetric(c, c);
          } else {
            NotBelow(out[k], c, d);
          }
        }
      }
    } else {
      TagLessAsymmetric(c, out[k]);
    }
  }

  /** Tags are totally preordered: `c` not below `m`, and `d` above `c`, puts `d` above `m`. */
  lemma {:induction false} NotBelow(m: Change, c: Change, d: Change)
    requires !TagLess(c, m) && TagLess(c, d)
    ensures TagLess(m, d)
  {
    TextLessTotal(m.stamp.group, c.stamp.group);
    if TagLess(m, c) {
      TagLessTransitive(m, c, d);
    }
  }

  lemma {:induction false} TextLessTotal(a: string, b: string)
    ensures TextLess(a, b) || a == b || TextLess(b, a)
  {
    if a != "" && b != "" && a[0] == b[0] {
      TextLessTotal(a[1..], b[1..]);
      assert a == [a[0]] + a[1..] && b == [b[0]] + b[1..];
    }
  }

  /** The position of the last change of `k`, or -1. */
  function LastIndex(cs: seq<Change>, k: Key): (i: int)
    ensures -1 <= i < |cs|
    ensures i >= 0 ==> cs[i].row.key == k
    ensures forall j :: i < j < |cs| ==> cs[j].row.key != k
  {
    if cs == [] then -1
    else if cs[|cs| - 1].row.key == k then |cs| - 1
    else LastIndex(cs[..|cs| - 1], k)
  }

  /** Where later changes have larger tags, the query has one answer: the last change of each key. */
  lemma {:induction false} CondensedIsLast(cs: seq<Change>, out: map<Key, Change>, k: Key)
    requires LaterIsLarger(cs) && IsCondensed(cs, out)
    ensures k in out <==> LastIndex(cs, k) >= 0
    ensures k in out ==> out[k] == cs[LastIndex(cs, k)]
  {
    var j := LastIndex(cs, k);
    if k in out {
      var i :| 0 <= i < |cs| && cs[i] == out[k];
      assert i <= j && !TagLess(out[k], cs[j]);
    }
  }

  /** Replays changes row by row in arrival order. */
  ghost function Replay(t: Table, cs: seq<Change>): Table {
    if cs == [] then t
    else
      var c := cs[|cs| - 1];
      var u := Replay(t, cs[..|cs| - 1]);
      if c.action.Insert? then u[c.row.key := c.row.payload] else u - {c.row.key}
  }

  /** What one key holds after a replay depends on its last change only. */
  lemma {:induction false} ReplayAt(t: Table, cs: seq<Change>, k: Key)
    ensures var i := LastIndex(cs, k);
            if i < 0 then (k in Replay(t, cs) <==> k in t) && (k in t ==> Replay(t, cs)[k] == t[k])
            else (k in Replay(t, cs) <==> cs[i].action.Insert?) &&
                 (cs[i].action.Insert? ==> Replay(t, cs)[k] == cs[i].row.payload)
  {
    if cs != [] {
      ReplayAt(t, cs[..|cs| - 1], k);
    }
  }

  lemma {:induction false} ReplayAppend(t: Table, a: seq<Change>, b: seq<Change>)
    ensures Replay(t, a + b) == Replay(Replay(t, a), b)
  {
    if b == [] {
      assert a + b == a;
    } else {
      assert (a + b)[..|a + b| - 1] == a + b[..|b| - 1];
      ReplayAppend(t, a, b[..|b| - 1]);
    }
  }

  lemma {:induction false} ReplayInserts(t: Table, s: Stamp, rows: seq<Row>)
    ensures Replay(t, Tagged(Insert, s, rows)) == Put(t, rows)
  {
    if rows != [] {
      var n := |rows| - 1;
      ReplayInserts(t, s, rows[..n]);
      assert Tagged(Insert, s, rows)[..n] == Tagged(Insert, s, rows[..n]);
    }
  }

  lemma {:induction false} ReplayDeletes(t: Table, s: Stamp, rows: seq<Row>)
    ensures Replay(t, Tagged(Delete, s, rows)) == t - Keys(rows)
  {
    if rows != [] {
      var n := |rows| - 1;
      ReplayDeletes(t, s, rows[..n]);
      assert Tagged(Delete, s, rows)[..n] == Tagged(Delete, s, rows[..n]);
      assert rows == rows[..n] + [rows[n]];
      assert Keys(rows) == Keys(rows[..n]) + {rows[n].key};
    }
  }

  /** Replaying an event's buffer rows is applying the event, updates included. */
  lemma {:induction false} ReplayEvent(t: Table, e: Stamped)
    ensures Replay(t, Render(e)) == Apply(t, e.event)
  {
    match e.event
    case InsertRows(rows) => ReplayInserts(t, e.stamp, rows);
    case DeleteRows(rows) => ReplayDeletes(t, e.stamp, rows);
    case UpdateRows(before, after) =>
      ReplayDeletes(t, e.stamp, before);
      ReplayInserts(t - Keys(before), e.stamp, after);
      ReplayAppend(t, Tagged(Delete, e.stamp, before), Tagged(Insert, e.stamp, after));
    case UpdateInPlace(row) =>
      ReplayInserts(t, e.stamp, [row]);
      assert Put(t, [row]) == t[row.key := row.payload];
  }

  lemma {:induction false} ReplayHistory(t: Table, es: seq<Stamped>)
    ensures Replay(t, RenderAll(es)) == ApplyAll(t, Events(es))
  {
    if es != [] {
      var n := |es| - 1;
      ReplayHistory(t, es[..n]);
      assert Events(es)[..n] == Events(es[..n]);
      ReplayAppend(t, RenderAll(es[..n]), Render(es[n]));
      ReplayEvent(Replay(t, RenderAll(es[..n])), es[n]);
    }
  }
}
