/**
 A resend of the last written transaction itself, which the guard on Begin messages lets through: it
 skips strictly older transactions only.

 A source that starts where it is asked to, one behind the last written position, sends no such
 transaction. If one does, the transaction is written a second time.
 */
module PgResend {
  import opened Rows
  import opened Tags
  import opened Condense
  import opened Strategies
  import opened Controller
  import opened DeltaLog
  import opened Flushing
  import opened PgMachine
  import opened PgSafety
  import opened PgRuns

  function OnRows(s: State, ms: seq<RowMessage>): State {
    if ms == [] then s else OnRow(OnRows(s, ms[..|ms| - 1]), ms[|ms| - 1])
  }

  /** The rows of a transaction are buffered as its part of the log. */
  lemma {:induction false} RowsAreBuffered(s: State, txn: Txn, k: nat)
    requires s.processMessages && s.currentTxn == txn.lsn && s.stmtId == 0 && BuffersLog(s.buffer, [])
    requires k <= |txn.changes|
    ensures var s' := OnRows(s, txn.changes[..k]);
            && BuffersLog(s'.buffer, TxnLog(txn)[..k]) && s'.stmtId == k
            && s' == s.(buffer := s'.buffer, dirtyTxn := s'.dirtyTxn, dirtyStream := s'.dirtyStream, stmtId := k)
  {
    if k > 0 {
      RowsAreBuffered(s, txn, k - 1);
      var ms := txn.changes[..k];
      assert ms[..k - 1] == txn.changes[..k - 1];
      var before := OnRows(s, txn.changes[..k - 1]);
      var e := EntryAt(txn, k - 1);
      assert TxnLog(txn)[..k] == TxnLog(txn)[..k - 1] + [e];
      PgAppendAppends(AppenderFor(before.buffer, e.table), e.item);
      BuffersLogAppend(before.buffer, TxnLog(txn)[..k - 1], e, PgAppend(AppenderFor(before.buffer, e.table), e.item));
    }
  }

  /** Nothing is pending, and the last written transaction is about to be sent again. */
  ghost predicate BeforeResend(h: History, ts: Tables, w: World) {
    && ValidSource(h, ts) && Inv(h, ts, w) && w.phase.Between? && !w.s.txOpen
    && w.done == DurableCount(h, w.s) && w.done > 0
  }

  /** The last written transaction. */
  function LastWritten(h: History, w: World): Txn
    requires 0 < w.done <= |h|
  {
    h[w.done - 1]
  }

  /** `s` is the state once its Begin message and its rows have been processed. */
  ghost predicate ResentRows(h: History, w: World, s: State)
    requires 0 < w.done <= |h|
  {
    var txn := LastWritten(h, w);
    exists s1, timedOut, full {:trigger OnBegin(w.s, txn.lsn, timedOut, full, s1)} ::
      OnBegin(w.s, txn.lsn, timedOut, full, s1) && s == OnRows(s1, txn.changes)
  }

  /** The guard does not skip it. */
  lemma {:induction false} ResendIsBegun(
    h: History, ts: Tables, w: World, timedOut: bool, full: bool, s': State)
    requires BeforeResend(h, ts, w) && OnBegin(w.s, LastWritten(h, w).lsn, timedOut, full, s')
    ensures s' == w.s.(processMessages := true, currentTxn := LastWritten(h, w).lsn,
                       txOpen := true, ongoingBatch := true)
    ensures BuffersLog(s'.buffer, []) && s'.stmtId == 0
  {
    EmptySegment(h, w.done);
    assert Pending(h, w) == [];
  }

  /** And its rows are all that is buffered. */
  lemma {:induction false} ResentIsBuffered(h: History, ts: Tables, w: World, s: State)
    requires BeforeResend(h, ts, w) && ResentRows(h, w, s)
    ensures BuffersLog(s.buffer, TxnLog(LastWritten(h, w)))
    ensures s.txOpen && s.db == w.s.db && s.savedLsn == s.lastWritten == w.s.savedLsn
  {
    var txn := LastWritten(h, w);
    var s1, timedOut, full :| OnBegin(w.s, txn.lsn, timedOut, full, s1) && s == OnRows(s1, txn.changes);
    ResendIsBegun(h, ts, w, timedOut, full, s1);
    RowsAreBuffered(s1, txn, |txn.changes|);
    assert txn.changes[..|txn.changes|] == txn.changes && TxnLog(txn)[..|txn.changes|] == TxnLog(txn);
  }

  /** The table that the transaction was applied to, the first time. */
  ghost function TableBefore(h: History, ts: Tables, w: World, id: TableId): Table
    requires 0 < w.done <= |h| && id in ApplyLog(ts, LogOf(h[..w.done - 1]))
  {
    ApplyLog(ts, LogOf(h[..w.done - 1]))[id]
  }

  lemma {:induction false} AppliedOnce(h: History, ts: Tables, w: World, id: TableId)
    requires BeforeResend(h, ts, w) && id in w.s.db
    ensures id in ApplyLog(ts, LogOf(h[..w.done - 1]))
    ensures var es, t := ForTable(TxnLog(LastWritten(h, w)), id), TableBefore(h, ts, w, id);
            ValidHistory(t, Events(es)) && OrderedStamps(es) && Represents(w.s.db[id], ApplyAll(t, Events(es)))
  {
    var n, log := w.done, TxnLog(LastWritten(h, w));
    var base := ApplyLog(ts, LogOf(h[..n - 1]));
    Segment(h, ts, n - 1, n);
    assert h[n - 1..n] == [h[n - 1]] && h[n - 1..n][..0] == [];
    assert LogOf(h[n - 1..n]) == log;
    ApplyLogKeys(ts, LogOf(h[..n - 1]));
    ApplyLogKeys(ts, LogOf(h[..n]));
    TableHistory(base, log, id);
    ForTableOrdered(log, id);
  }

  /** The strategy that its rows for the table are written with. */
  function StrategyFor(db: Database, buffer: Buffer, id: TableId): Strategy
    requires id in db
  {
    Choose(AppenderFor(buffer, id).counters, db[id].Keyless?)
  }

  /** A table that the transaction has rows for, all of which came from insert events. */
  ghost predicate InsertsOnly(db: Database, buffer: Buffer, id: TableId) {
    id in db && AppenderFor(buffer, id).rows != [] && StrategyFor(db, buffer, id).InsertOnly?
  }

  /** Such a table refuses the rows if it has an index, and else stores them twice; every other stays as it is. */
  lemma {:induction false} TableOfResend(h: History, ts: Tables, w: World, s: State, id: TableId, store: Store)
    requires BeforeResend(h, ts, w) && ResentRows(h, w, s) && id in w.s.db
    requires TableFlushed(w.s.db[id], AppenderFor(s.buffer, id), store)
    ensures store == w.s.db[id] <==> !InsertsOnly(w.s.db, s.buffer, id)
    ensures InsertsOnly(w.s.db, s.buffer, id) ==>
              w.s.db[id].Keyless? &&
              store == Keyless(w.s.db[id].rows + multiset(RowsOf(AppenderFor(s.buffer, id).rows)))
  {
    var app, es := AppenderFor(s.buffer, id), ForTable(TxnLog(LastWritten(h, w)), id);
    ResentIsBuffered(h, ts, w, s);
    AppliedOnce(h, ts, w, id);
    assert Buffers(app, es);
    if app.rows != [] {
      var out := WrittenAnswer(w.s.db[id], app, store);
      WrittenAgain(w.s.db[id], TableBefore(h, ts, w, id), es, app, out);
    }
  }

  lemma {:induction false} TablesOfResend(h: History, ts: Tables, w: World, s: State, db: Database)
    requires BeforeResend(h, ts, w) && ResentRows(h, w, s) && FlushedTo(w.s.db, s.buffer, db)
    ensures db == w.s.db <==> !exists id :: InsertsOnly(w.s.db, s.buffer, id)
    ensures forall id :: InsertsOnly(w.s.db, s.buffer, id) ==>
              id in db && w.s.db[id].Keyless? &&
              db[id] == Keyless(w.s.db[id].rows + multiset(RowsOf(AppenderFor(s.buffer, id).rows)))
  {
    forall id | id in w.s.db
      ensures db[id] == w.s.db[id] <==> !InsertsOnly(w.s.db, s.buffer, id)
      ensures InsertsOnly(w.s.db, s.buffer, id) ==>
                w.s.db[id].Keyless? &&
                db[id] == Keyless(w.s.db[id].rows + multiset(RowsOf(AppenderFor(s.buffer, id).rows)))
    {
      TableOfResend(h, ts, w, s, id, db[id]);
    }
  }

  /**
   Exactly when such a resend is harmless: committing it keeps the durable prefix if and only if it
   inserts only into no table. In every table into which it does, its rows are then stored twice.
   */
  lemma {:induction false} ResendOfLastWritten(
    h: History, ts: Tables, w: World, s: State, timedOut: bool, full: bool, s': State)
    requires BeforeResend(h, ts, w) && ResentRows(h, w, s)
    requires OnCommit(s, LastWritten(h, w).lsn, timedOut, full, s')
    requires !MayExtendBatch(s.(commitCount := s.commitCount + 1), timedOut, full)
    ensures s'.savedLsn == w.s.savedLsn
    ensures DurablePrefix(h, ts, s') <==> !exists id :: InsertsOnly(w.s.db, s.buffer, id)
    ensures forall id :: InsertsOnly(w.s.db, s.buffer, id) ==>
              id in s'.db && w.s.db[id].Keyless? &&
              s'.db[id] == Keyless(w.s.db[id].rows + multiset(RowsOf(AppenderFor(s.buffer, id).rows)))
  {
    ResentIsBuffered(h, ts, w, s);
    TablesOfResend(h, ts, w, s, s'.db);
    FlushKeepsLayout(w.s.db, s.buffer, s'.db);
    if DurablePrefix(h, ts, s') {
      RepresentsAllIsFunctional(w.s.db, s'.db, ApplyLog(ts, LogOf(h[..DurableCount(h, w.s)])));
    }
  }

  /** A table with an index that it inserts only into stops it from ever being committed. */
  lemma {:induction false} ResendRefused(h: History, ts: Tables, w: World, s: State, id: TableId)
    requires BeforeResend(h, ts, w) && ResentRows(h, w, s) && id in w.s.db && w.s.db[id].Indexed?
    ensures Blocks(w.s.db, s.buffer, id, true) <==> InsertsOnly(w.s.db, s.buffer, id)
  {
    var app, es := AppenderFor(s.buffer, id), ForTable(TxnLog(LastWritten(h, w)), id);
    ResentIsBuffered(h, ts, w, s);
    AppliedOnce(h, ts, w, id);
    assert Buffers(app, es);
    if app.rows != [] {
      var out := SomeCondensed(app.rows);
      WrittenAgain(w.s.db[id], TableBefore(h, ts, w, id), es, app, out);
    }
  }

  // ----- The condition, said of the transaction -----

  ghost predicate HasKind(es: seq<Stamped>, kind: EventKind) {
    exists i :: 0 <= i < |es| && KindOf(es[i].event) == kind
  }

  /** The kinds of events that have been counted are those of the events. */
  ghost predicate CountsKinds(c: Counters, es: seq<Stamped>) {
    && (c.insertEvents > 0 <==> HasKind(es, InsertEvent))
    && (c.deleteEvents > 0 <==> HasKind(es, DeleteEvent))
    && (c.updateEvents > 0 <==> HasKind(es, UpdateEvent))
  }

  lemma {:induction false} KindAppended(es: seq<Stamped>, e: Stamped, kind: EventKind)
    ensures HasKind(es + [e], kind) <==> HasKind(es, kind) || KindOf(e.event) == kind
  {
    var all := es + [e];
    assert all[|es|] == e;
    assert forall i :: 0 <= i < |es| ==> all[i] == es[i];
  }

  lemma {:induction false} AppendCountsKind(app: Appender, es: seq<Stamped>, e: Stamped)
    requires CountsKinds(app.counters, es)
    ensures CountsKinds(PgAppend(app, e).counters, es + [e])
  {
    KindAppended(es, e, InsertEvent);
    KindAppended(es, e, DeleteEvent);
    KindAppended(es, e, UpdateEvent);
  }

  lemma {:induction false} RowsKeepTransaction(s: State, ms: seq<RowMessage>)
    requires s.processMessages
    ensures var s' := OnRows(s, ms);
            s'.processMessages && s'.currentTxn == s.currentTxn && s'.stmtId == s.stmtId + |ms|
  {
    if ms != [] {
      RowsKeepTransaction(s, ms[..|ms| - 1]);
    }
  }

  lemma {:induction false} LastRow(s: State, txn: Txn, k: nat, id: TableId)
    requires s.processMessages && s.currentTxn == txn.lsn && s.stmtId == 0 && k < |txn.changes|
    ensures var e := EntryAt(txn, k);
            var app := AppenderFor(OnRows(s, txn.changes[..k]).buffer, id);
            AppenderFor(OnRows(s, txn.changes[..k + 1]).buffer, id) ==
            if e.table == id then PgAppend(app, e.item) else app
  {
    RowsKeepTransaction(s, txn.changes[..k]);
    var ms := txn.changes[..k + 1];
    assert ms[..k] == txn.changes[..k] && ms[k] == txn.changes[k];
    assert OnRows(s, ms) == OnRow(OnRows(s, ms[..k]), ms[k]);
  }

  lemma {:induction false} ForTableLast(log: seq<Entry>, k: nat, id: TableId)
    requires k < |log|
    ensures ForTable(log[..k + 1], id) == ForTable(log[..k], id) + if log[k].table == id then [log[k].item] else []
  {
    assert log[..k + 1][..k] == log[..k];
  }

  lemma {:induction false} RowsCountKinds(s: State, txn: Txn, k: nat, id: TableId)
    requires s.processMessages && s.currentTxn == txn.lsn && s.stmtId == 0 && s.buffer == map[] && k <= |txn.changes|
    ensures CountsKinds(AppenderFor(OnRows(s, txn.changes[..k]).buffer, id).counters, ForTable(TxnLog(txn)[..k], id))
  {
    if k > 0 {
      RowsCountKinds(s, txn, k - 1, id);
      LastRow(s, txn, k - 1, id);
      ForTableLast(TxnLog(txn), k - 1, id);
      if txn.changes[k - 1].table == id {
        AppendCountsKind(AppenderFor(OnRows(s, txn.changes[..k - 1]).buffer, id),
                         ForTable(TxnLog(txn)[..k - 1], id), EntryAt(txn, k - 1).item);
      } else {
        assert ForTable(TxnLog(txn)[..k], id) == ForTable(TxnLog(txn)[..k - 1], id);
      }
    }
  }

  /** All that the transaction does to the table is to insert. */
  ghost predicate OnlyInsertsInto(txn: Txn, id: TableId) {
    var es := ForTable(TxnLog(txn), id);
    es != [] && forall i :: 0 <= i < |es| ==> es[i].event.InsertRows?
  }

  lemma {:induction false} InsertOnlyIsChosen(app: Appender, es: seq<Stamped>, keyless: bool)
    requires CountsKinds(app.counters, es) && Buffers(app, es)
    requires forall i :: 0 <= i < |es| ==> SingleRow(es[i].event)
    ensures app.rows != [] && Choose(app.counters, keyless).InsertOnly? <==>
            es != [] && forall i :: 0 <= i < |es| ==> es[i].event.InsertRows?
  {
    if es != [] {
      var n := |es| - 1;
      assert Render(es[n]) != [];
      assert app.rows == RenderAll(es[..n]) + Render(es[n]);
    }
    if es != [] && forall i :: 0 <= i < |es| ==> es[i].event.InsertRows? {
      assert KindOf(es[0].event) == InsertEvent;
    }
  }

  lemma {:induction false} ResentCountsKinds(h: History, ts: Tables, w: World, s: State, id: TableId)
    requires BeforeResend(h, ts, w) && ResentRows(h, w, s) && w.s.buffer == map[]
    ensures CountsKinds(AppenderFor(s.buffer, id).counters, ForTable(TxnLog(LastWritten(h, w)), id))
  {
    var txn := LastWritten(h, w);
    var s1, timedOut, full :| OnBegin(w.s, txn.lsn, timedOut, full, s1) && s == OnRows(s1, txn.changes);
    ResendIsBegun(h, ts, w, timedOut, full, s1);
    RowsCountKinds(s1, txn, |txn.changes|, id);
    assert txn.changes[..|txn.changes|] == txn.changes && TxnLog(txn)[..|txn.changes|] == TxnLog(txn);
  }

  /** On a new connection the resend does harm exactly in the tables into which the transaction only inserts. */
  lemma {:induction false} InsertsOnlyMeans(h: History, ts: Tables, w: World, s: State, id: TableId)
    requires BeforeResend(h, ts, w) && SingleRowMessages(h) && ResentRows(h, w, s) && id in w.s.db
    requires w.s.buffer == map[]
    ensures InsertsOnly(w.s.db, s.buffer, id) <==> OnlyInsertsInto(LastWritten(h, w), id)
  {
    var txn := LastWritten(h, w);
    ResentCountsKinds(h, ts, w, s, id);
    ResentIsBuffered(h, ts, w, s);
    assert Buffers(AppenderFor(s.buffer, id), ForTable(TxnLog(txn), id));
    ForTableSingleRows(TxnLog(txn), id);
    InsertOnlyIsChosen(AppenderFor(s.buffer, id), ForTable(TxnLog(txn), id), w.s.db[id].Keyless?);
  }
}
