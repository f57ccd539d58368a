/**
 The tags put on buffered row changes, and their order.

 The condense query orders changes by (txn_group, txn_seq, txn_stmt, action).
 */
module Tags {
  import opened Rows

  /** DELETE is numbered below INSERT, because an update is a deletion followed by an insertion. */
  datatype Action = Delete | Insert

  /** `group` is the binlog file name, or empty where the source leaves it null. */
  datatype Stamp = Stamp(group: string, seqNo: nat, stmt: nat)

  datatype Change = Change(action: Action, stamp: Stamp, row: Row)

  /** A source event together with the stamp its rows are buffered under. */
  datatype Stamped = Stamped(stamp: Stamp, event: Event)

  predicate TextLess(a: string, b: string) {
    if b == "" then false
    else if a == "" then true
    else a[0] < b[0] || (a[0] == b[0] && TextLess(a[1..], b[1..]))
  }

  predicate StampLess(a: Stamp, b: Stamp) {
    || TextLess(a.group, b.group)
    || (a.group == b.group && a.seqNo < b.seqNo)
    || (a.group == b.group && a.seqNo == b.seqNo && a.stmt < b.stmt)
  }

  predicate TagLess(a: Change, b: Change) {
    StampLess(a.stamp, b.stamp) || (a.stamp == b.stamp && a.action.Delete? && b.action.Insert?)
  }

  lemma {:induction false} TextLessIrreflexive(a: string)
    ensures !TextLess(a, a)
  {
    if a != "" {
      TextLessIrreflexive(a[1..]);
    }
  }

  lemma {:induction false} TextLessTransitive(a: string, b: string, c: string)
    requires TextLess(a, b) && TextLess(b, c)
    ensures TextLess(a, c)
  {
    if a != "" && a[0] == b[0] == c[0] {
      TextLessTransitive(a[1..], b[1..], c[1..]);
    }
  }

  /** The texts agree up to `k`, where `a` ends or has the smaller character. */
  predicate DivergeAt(a: string, b: string, k: nat) {
    k <= |a| && k < |b| && a[..k] == b[..k] && (k == |a| || a[k] < b[k])
  }

  lemma {:induction false} DivergeLater(a: string, b: string, k: nat)
    requires a != "" && b != "" && a[0] == b[0]
    ensures DivergeAt(a, b, k + 1) <==> DivergeAt(a[1..], b[1..], k)
  {
    if k + 1 <= |a| && k + 1 < |b| {
      assert a[..k + 1] == [a[0]] + a[1..][..k] && b[..k + 1] == [b[0]] + b[1..][..k];
      assert a[1..][..k] == a[..k + 1][1..] && b[1..][..k] == b[..k + 1][1..];
    }
  }

  /** Texts are ordered by the first place where they differ. */
  lemma {:induction false} TextLessMeans(a: string, b: string)
    ensures TextLess(a, b) <==> exists k :: DivergeAt(a, b, k)
  {
    if a == "" || b == "" {
      assert b != "" ==> DivergeAt(a, b, 0);
    } else if a[0] == b[0] {
      TextLessMeans(a[1..], b[1..]);
      if k: nat :| DivergeAt(a[1..], b[1..], k) {
        DivergeLater(a, b, k);
      }
      if k: nat :| DivergeAt(a, b, k) {
        assert k > 0;
        DivergeLater(a, b, k - 1);
      }
    } else {
      assert a[0] < b[0] ==> DivergeAt(a, b, 0);
      assert forall k :: k > 0 && DivergeAt(a, b, k) ==> a[..k][0] == b[..k][0];
    }
  }

  lemma {:induction false} TextLessTotal(a: string, b: string)
    ensures TextLess(a, b) || a == b || TextLess(b, a)
  {
    if a != "" && b != "" && a[0] == b[0] {
      TextLessTotal(a[1..], b[1..]);
      assert a == [a[0]] + a[1..] && b == [b[0]] + b[1..];
    }
  }

  /** Two changes that the order does not tell apart have the same stamp and the same action. */
  lemma {:induction false} TagLessTotal(a: Change, b: Change)
    ensures TagLess(a, b) || TagLess(b, a) || (a.stamp == b.stamp && a.action == b.action)
  {
    TextLessTotal(a.stamp.group, b.stamp.group);
  }

  lemma {:induction false} StampLessTransitive(a: Stamp, b: Stamp, c: Stamp)
    requires StampLess(a, b) && StampLess(b, c)
    ensures StampLess(a, c)
  {
    if TextLess(a.group, b.group) && TextLess(b.group, c.group) {
      TextLessTransitive(a.group, b.group, c.group);
    }
  }

  /** No change is tagged before itself, so a latest change of a key always exists. */
  lemma {:induction false} TagLessAsymmetric(a: Change, b: Change)
    requires TagLess(a, b)
    ensures !TagLess(b, a)
  {
    if TagLess(b, a) {
      TextLessIrreflexive(a.stamp.group);
      if StampLess(a.stamp, b.stamp) && StampLess(b.stamp, a.stamp) {
        StampLessTransitive(a.stamp, b.stamp, a.stamp);
      }
    }
  }

  lemma {:induction false} TagLessTransitive(a: Change, b: Change, c: Change)
    requires TagLess(a, b) && TagLess(b, c)
    ensures TagLess(a, c)
  {
    if StampLess(a.stamp, b.stamp) && StampLess(b.stamp, c.stamp) {
      StampLessTransitive(a.stamp, b.stamp, c.stamp);
    }
  }

  function Tagged(action: Action, stamp: Stamp, rows: seq<Row>): (cs: seq<Change>)
    ensures |cs| == |rows|
    ensures forall i :: 0 <= i < |cs| ==> cs[i] == Change(action, stamp, rows[i])
  {
    seq(|rows|, i requires 0 <= i < |rows| => Change(action, stamp, rows[i]))
  }

  /** The buffer rows of one event: all before-images, then all after-images, under one stamp. */
  function Render(e: Stamped): seq<Change> {
    match e.event
    case InsertRows(rows) => Tagged(Insert, e.stamp, rows)
    case DeleteRows(rows) => Tagged(Delete, e.stamp, rows)
    case UpdateRows(before, after) => Tagged(Delete, e.stamp, before) + Tagged(Insert, e.stamp, after)
    case UpdateInPlace(row) => Tagged(Insert, e.stamp, [row])
  }

  function RenderAll(es: seq<Stamped>): seq<Change> {
    if es == [] then [] else RenderAll(es[..|es| - 1]) + Render(es[|es| - 1])
  }

  function Events(es: seq<Stamped>): (r: seq<Event>)
    ensures |r| == |es|
    ensures forall i :: 0 <= i < |es| ==> r[i] == es[i].event
  {
    seq(|es|, i requires 0 <= i < |es| => es[i].event)
  }

  ghost predicate OrderedStamps(es: seq<Stamped>) {
    forall i, j :: 0 <= i < j < |es| ==> StampLess(es[i].stamp, es[j].stamp)
  }

  /** Of two changes of one key, the one that arrived later has the larger tag. */
  ghost predicate LaterIsLarger(cs: seq<Change>) {
    forall i, j :: 0 <= i < j < |cs| && cs[i].row.key == cs[j].row.key ==> TagLess(cs[i], cs[j])
  }

  lemma {:induction false} StampsBelow(es: seq<Stamped>, s: Stamp)
    requires forall i :: 0 <= i < |es| ==> StampLess(es[i].stamp, s)
    ensures forall i :: 0 <= i < |RenderAll(es)| ==> StampLess(RenderAll(es)[i].stamp, s)
  {
    if es != [] {
      StampsBelow(es[..|es| - 1], s);
    }
  }

  /** Changes under a new, larger stamp keep the order. */
  lemma {:induction false} LaterIsLargerAppend(a: seq<Change>, b: seq<Change>, s: Stamp)
    requires LaterIsLarger(a) && LaterIsLarger(b)
    requires forall i :: 0 <= i < |a| ==> StampLess(a[i].stamp, s)
    requires forall i :: 0 <= i < |b| ==> b[i].stamp == s
    ensures LaterIsLarger(a + b)
  {
    var cs := a + b;
    forall i, j | 0 <= i < j < |cs| && cs[i].row.key == cs[j].row.key
      ensures TagLess(cs[i], cs[j])
    {
      if i >= |a| {
        assert cs[i] == b[i - |a|] && cs[j] == b[j - |a|];
      }
    }
  }

  lemma {:induction false} RenderIsLaterIsLarger(t: Table, e: Stamped)
    requires Admits(t, e.event)
    ensures LaterIsLarger(Render(e))
    ensures forall i :: 0 <= i < |Render(e)| ==> Render(e)[i].stamp == e.stamp
  {
  }

  /**
   Tag order is arrival order: on a valid history with increasing stamps, the tag of the last
   change of each key is the largest.
   */
  lemma {:induction false} ArrivalOrderIsTagOrder(t: Table, es: seq<Stamped>)
    requires ValidHistory(t, Events(es)) && OrderedStamps(es)
    ensures LaterIsLarger(RenderAll(es))
  {
    if es != [] {
      var n := |es| - 1;
      assert Events(es)[..n] == Events(es[..n]);
      ArrivalOrderIsTagOrder(t, es[..n]);
      StampsBelow(es[..n], es[n].stamp);
      RenderIsLaterIsLarger(ApplyAll(t, Events(es)[..n]), es[n]);
      LaterIsLargerAppend(RenderAll(es[..n]), Render(es[n]), es[n].stamp);
    }
  }
}
