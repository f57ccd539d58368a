/**
 Position safety of the MySQL applier over whole runs.
 */
module MySqlSafety {
  import opened Tags
  import opened Strategies
  import opened Controller
  import opened DeltaLog
  import opened Flushing
  import opened MySqlMachine

  // ----- Positions -----

  lemma {:induction false} CountOfPrefix(h: History, purged: set<nat>, n: nat)
    requires IncreasingGtids(h) && n <= |h|
    requires forall i :: 0 <= i < |h| ==> h[i].gtid !in purged
    ensures CountIn(h, purged + GtidSet(h[..n])) == n
  {
    if h != [] {
      var m := |h| - 1;
      if n == |h| {
        assert h[m].gtid in GtidSet(h[..n]);
        CountOfPrefixAux(h[..m], purged + GtidSet(h[..n]));
      } else {
        assert h[..m][..n] == h[..n];
        CountOfPrefix(h[..m], purged, n);
      }
    }
  }

  lemma {:induction false} CountOfPrefixAux(h: History, position: set<nat>)
    requires forall i :: 0 <= i < |h| ==> h[i].gtid in position
    ensures CountIn(h, position) == |h|
  {
    if h != [] {
      CountOfPrefixAux(h[..|h| - 1], position);
    }
  }

  // ----- Stamps do not matter to what a log does -----

  ghost function Unstamped(log: seq<Entry>): (rows: seq<RowEvent>)
    ensures |rows| == |log|
    ensures forall i :: 0 <= i < |log| ==> rows[i] == RowEvent(log[i].table, log[i].item.event)
  {
    seq(|log|, i requires 0 <= i < |log| => RowEvent(log[i].table, log[i].item.event))
  }

  lemma {:induction false} StampsDoNotMatter(ts: Tables, a: seq<Entry>, b: seq<Entry>)
    requires Unstamped(a) == Unstamped(b)
    ensures ApplyLog(ts, a) == ApplyLog(ts, b)
    ensures ValidLog(ts, a) <==> ValidLog(ts, b)
  {
    if a != [] {
      var n := |a| - 1;
      assert Unstamped(a[..n]) == Unstamped(a)[..n] == Unstamped(b[..n]);
      StampsDoNotMatter(ts, a[..n], b[..n]);
      assert Unstamped(a)[n] == Unstamped(b)[n];
    }
  }

  // ----- Runs of row transactions -----

  ghost predicate AllRows(h: History, n: nat, m: nat)
    requires n <= m <= |h|
  {
    forall i :: n <= i < m ==> h[i].RowTxn?
  }

  ghost function RowsIn(h: History, n: nat, m: nat): seq<RowEvent>
    requires n <= m <= |h| && AllRows(h, n, m)
    decreases m
  {
    if n == m then [] else RowsIn(h, n, m - 1) + h[m - 1].rows
  }

  lemma {:induction false} SegmentStep(ts: Tables, at: Tables, before: seq<RowEvent>, rows: seq<RowEvent>)
    requires ts == ApplyLog(at, Plain(before)) && ValidLog(at, Plain(before)) && ValidLog(ts, Plain(rows))
    ensures ApplyLog(ts, Plain(rows)) == ApplyLog(at, Plain(before + rows)) && ValidLog(at, Plain(before + rows))
  {
    assert Plain(before + rows) == Plain(before) + Plain(rows);
    ApplyLogAppend(at, Plain(before), Plain(rows));
    ValidLogAppend(at, Plain(before), Plain(rows));
  }

  /** A segment of row transactions does what the log of its rows does. */
  lemma {:induction false} SegmentIsLog(h: History, ts: Tables, purged: set<nat>, n: nat, m: nat)
    requires ValidSource(h, ts, purged) && n <= m <= |h| && AllRows(h, n, m)
    ensures ApplyTxns(ts, h[..m]) == ApplyLog(ApplyTxns(ts, h[..n]), Plain(RowsIn(h, n, m)))
    ensures ValidLog(ApplyTxns(ts, h[..n]), Plain(RowsIn(h, n, m)))
    decreases m
  {
    if n < m {
      SegmentIsLog(h, ts, purged, n, m - 1);
      assert h[..m][..m - 1] == h[..m - 1];
      assert ValidTxn(ApplyTxns(ts, h[..m - 1]), h[m - 1]);
      SegmentStep(ApplyTxns(ts, h[..m - 1]), ApplyTxns(ts, h[..n]), RowsIn(h, n, m - 1), h[m - 1].rows);
    }
  }

  // ----- The invariant -----

  ghost function DurableCount(h: History, s: State): nat {
    CountIn(h, s.saved)
  }

  /**
   The saved position is exactly the GTIDs of the whole transactions that the committed tables
   hold, and no uncommitted write is visible inside an open transaction.
   */
  ghost predicate DurablePosition(h: History, ts: Tables, purged: set<nat>, s: State) {
    var n := DurableCount(h, s);
    && n <= |h| && s.saved == purged + GtidSet(h[..n])
    && RepresentsAll(s.db, ApplyTxns(ts, h[..n]))
    && View(s) == s.db
  }

  ghost predicate StampedBelow(log: seq<Entry>, next: Stamp) {
    forall i :: 0 <= i < |log| ==> log[i].item.stamp.group == "" && StampLess(log[i].item.stamp, next)
  }

  /** The buffer holds the finished row transactions not yet saved, and the rows of the current one. */
  ghost predicate BufferInv(h: History, w: World)
    requires Placed(h, w)
  {
    var s, n := w.s, DurableCount(h, w.s);
    && n <= w.done && AllRows(h, n, w.done)
    && BuffersLog(s.buffer, w.log) && OrderedLog(w.log)
    && Unstamped(w.log) == RowsIn(h, n, w.done) + (if w.phase.InTxn? then h[w.done].rows[..w.phase.sent] else [])
    && (w.done < |h| ==> StampedBelow(w.log, Stamp("", h[w.done].gtid, if w.phase.InTxn? then s.stmtId else 0)))
  }

  /**
   `pendingPosition` adds to the saved position exactly the finished transactions of the batch, and the
   announced one if a tick has come behind its GTID event. A batch is open while there are such
   transactions, and inside of one.
   */
  ghost predicate PendingInv(h: History, purged: set<nat>, w: World)
    requires Placed(h, w)
  {
    var s := w.s;
    && s.position == s.saved
    && (s.pending == purged + GtidSet(h[..w.done]) ||
        (!w.phase.Between? && s.ongoingBatch && s.pending == purged + GtidSet(h[..w.done + 1])))
    && (w.phase.Between? ==> AppendGtid(s.pending, s.currentGtid) == s.pending && !s.dirtyStream)
    && (w.phase.Announced? ==> !s.dirtyStream)
    && (!w.phase.Between? ==>
          s.currentGtid == Gtid(h[w.done].gtid) && AppendGtid(s.pending, s.previousGtid) == s.pending)
    && (w.phase.InTxn? ==> s.dirtyStream)
    && (s.ongoingBatch <==> s.dirtyTxn)
    && (s.ongoingBatch <==> w.done > DurableCount(h, s) || w.phase.InTxn?)
    && (s.ongoingBatch ==> s.currentGtid.Gtid?)
  }

  ghost predicate Inv(h: History, ts: Tables, purged: set<nat>, w: World) {
    Placed(h, w) && DurablePosition(h, ts, purged, w.s) && BufferInv(h, w) && PendingInv(h, purged, w)
  }

  // ----- Commits -----

  /** Flushing a log of whole row transactions brings the tables to the last of them. */
  lemma {:induction false} FlushReaches(
    h: History, ts: Tables, purged: set<nat>, s: State, done: nat, log: seq<Entry>, db: Database)
    requires ValidSource(h, ts, purged) && DurablePosition(h, ts, purged, s)
    requires DurableCount(h, s) <= done <= |h| && AllRows(h, DurableCount(h, s), done)
    requires BuffersLog(s.buffer, log) && OrderedLog(log)
    requires Unstamped(log) == RowsIn(h, DurableCount(h, s), done)
    requires FlushedTo(View(s), s.buffer, db)
    ensures RepresentsAll(db, ApplyTxns(ts, h[..done]))
  {
    var n := DurableCount(h, s);
    var at := ApplyTxns(ts, h[..n]);
    SegmentIsLog(h, ts, purged, n, done);
    assert Unstamped(Plain(RowsIn(h, n, done))) == RowsIn(h, n, done);
    StampsDoNotMatter(at, log, Plain(RowsIn(h, n, done)));
    FlushRefinesLog(s.db, at, log, s.buffer, db);
  }

  lemma {:induction false} DrainedFlushIsIdle(db: Database, buffer: Buffer, db': Database)
    requires Drained(buffer) && FlushedTo(db, buffer, db')
    ensures db' == db
  {
    forall id | id in db
      ensures db'[id] == db[id]
    {
      assert TableFlushed(db[id], AppenderFor(buffer, id), db'[id]);
    }
  }

  /** A commit of whole transactions makes the pending position the saved one. */
  lemma {:induction false} CommitReaches(h: History, ts: Tables, purged: set<nat>, s: State, done: nat, log: seq<Entry>,
                      kind: CommitKind, reason: FlushReason, s': State)
    requires ValidSource(h, ts, purged) && DurablePosition(h, ts, purged, s)
    requires DurableCount(h, s) <= done <= |h| && AllRows(h, DurableCount(h, s), done)
    requires BuffersLog(s.buffer, log) && OrderedLog(log)
    requires Unstamped(log) == RowsIn(h, DurableCount(h, s), done)
    requires (if kind.ImplicitCommitBeforeStmt? then s.pending else AppendGtid(s.pending, s.currentGtid))
             == purged + GtidSet(h[..done])
    requires CommitOngoing(s, kind, reason, s')
    ensures DurablePosition(h, ts, purged, s') && DurableCount(h, s') == done
    ensures BuffersLog(s'.buffer, [])
  {
    FlushReaches(h, ts, purged, s, done, log, s'.db);
    CountOfPrefix(h, purged, done);
    FlushedBufferIsDrained(s.buffer, reason);
  }

  lemma {:induction false} GtidSetStep(h: History, done: nat)
    requires done < |h|
    ensures GtidSet(h[..done + 1]) == GtidSet(h[..done]) + {h[done].gtid}
  {
    assert forall i :: 0 <= i < done ==> h[..done + 1][i] == h[..done][i];
    assert h[..done + 1][done] == h[done];
    forall g | g in GtidSet(h[..done])
      ensures g in GtidSet(h[..done + 1])
    {
      var i :| 0 <= i < done && h[..done][i].gtid == g;
      assert h[..done + 1][i].gtid == g;
    }
  }

  /** Between transactions, with nothing buffered, the memory is settled. */
  lemma {:induction false} SettledInv(h: History, ts: Tables, purged: set<nat>, w: World)
    requires Placed(h, w) && DurablePosition(h, ts, purged, w.s) && w.phase.Between?
    requires w.done == DurableCount(h, w.s) && w.log == [] && BuffersLog(w.s.buffer, [])
    requires w.s.position == w.s.pending == w.s.saved
    requires AppendGtid(w.s.pending, w.s.currentGtid) == w.s.pending
    requires !w.s.dirtyStream && !w.s.ongoingBatch && !w.s.dirtyTxn
    ensures Inv(h, ts, purged, w)
  {
    assert Unstamped([]) == [];
  }

  // ----- Every step keeps the invariant -----

  /** A commit between transactions, be it by a tick, a rotation or a stop. */
  lemma {:induction false} CommitBetweenKeepsInv(
    h: History, ts: Tables, purged: set<nat>, w: World, reason: FlushReason, w': World)
    requires ValidSource(h, ts, purged) && Inv(h, ts, purged, w) && w.phase.Between?
    requires CommitOngoing(w.s, NormalCommit, reason, w'.s) && w' == w.(s := w'.s, log := [])
    ensures Inv(h, ts, purged, w')
  {
    assert Unstamped(w.log) == RowsIn(h, DurableCount(h, w.s), w.done);
    CommitReaches(h, ts, purged, w.s, w.done, w.log, NormalCommit, reason, w'.s);
    SettledInv(h, ts, purged, w');
  }

  lemma {:induction false} ExtendOrCommitBetweenKeepsInv(
    h: History, ts: Tables, purged: set<nat>, w: World, timedOut: bool, full: bool, w': World)
    requires ValidSource(h, ts, purged) && Inv(h, ts, purged, w) && w.phase.Between?
    requires ExtendOrCommit(w.s, timedOut, full, w'.s)
    requires w' == w.(s := w'.s, log := if MayExtendBatch(w.s, timedOut, full) then w.log else [])
    ensures Inv(h, ts, purged, w')
  {
    if MayExtendBatch(w.s, timedOut, full) {
      assert w' == w;
    } else {
      CommitBetweenKeepsInv(h, ts, purged, w, ExtendBatch(w.s, timedOut, full).1, w');
    }
  }

  lemma {:induction false} GtidKeepsInv(h: History, ts: Tables, purged: set<nat>, w: World, w': World)
    requires ValidSource(h, ts, purged) && Inv(h, ts, purged, w) && Next(h, w, GtidEvent, w')
    ensures Inv(h, ts, purged, w')
  {
  }

  /** Committing what has just been flushed writes nothing more. */
  lemma {:induction false} CommitDrained(s: State, kind: CommitKind, reason: FlushReason, s': State)
    requires Drained(s.buffer) && CommitOngoing(s, kind, reason, s')
    ensures s'.db == View(s) && Drained(s'.buffer) && BuffersLog(s'.buffer, [])
  {
    DrainedFlushIsIdle(View(s), s.buffer, s'.db);
    FlushedBufferIsDrained(s.buffer, reason);
    DrainedBuffersNothing(s'.buffer);
  }

  lemma {:induction false} EmptyLogIsIdle(db: Database, buffer: Buffer, db': Database)
    requires BuffersLog(buffer, []) && FlushedTo(db, buffer, db')
    ensures db' == db
  {
    forall id: TableId
      ensures AppenderFor(buffer, id).rows == []
    {
      assert Buffers(AppenderFor(buffer, id), ForTable([], id));
    }
    DrainedFlushIsIdle(db, buffer, db');
  }

  /**
   Everything up to `done` is committed with the pending position, nothing is buffered, and the GTIDs
   are still those of `s`.
   */
  ghost predicate Settles(h: History, ts: Tables, done: nat, s: State, s': State)
    requires done <= |h|
  {
    && RepresentsAll(s'.db, ApplyTxns(ts, h[..done])) && View(s') == s'.db
    && BuffersLog(s'.buffer, []) && Drained(s'.buffer)
    && s'.position == s'.pending == s'.saved == s.pending
    && s'.currentGtid == s.currentGtid && s'.previousGtid == s.previousGtid
  }

  lemma {:induction false} DirtySettles(
    h: History, ts: Tables, purged: set<nat>, w: World, reason: FlushReason, view: Database, s': State)
    requires ValidSource(h, ts, purged) && Inv(h, ts, purged, w) && w.phase.Announced? && w.s.dirtyTxn
    requires FlushedTo(View(w.s), w.s.buffer, view)
    requires CommitOngoing(Flushed(w.s, reason, view), ImplicitCommitBeforeStmt, reason, s')
    ensures Settles(h, ts, w.done, w.s, s')
  {
    FlushedBufferIsDrained(w.s.buffer, reason);
    FlushReaches(h, ts, purged, w.s, w.done, w.log, view);
    CommitDrained(Flushed(w.s, reason, view), ImplicitCommitBeforeStmt, reason, s');
  }

  lemma {:induction false} CleanSettles(
    h: History, ts: Tables, purged: set<nat>, w: World, reason: FlushReason, view: Database)
    requires ValidSource(h, ts, purged) && Inv(h, ts, purged, w) && w.phase.Announced? && !w.s.dirtyTxn
    requires FlushedTo(View(w.s), w.s.buffer, view)
    ensures Settles(h, ts, w.done, w.s, Flushed(w.s, reason, view))
  {
    assert w.log == [];
    EmptyLogIsIdle(w.s.db, w.s.buffer, view);
    FlushedBufferIsDrained(w.s.buffer, reason);
    DrainedBuffersNothing(FlushedBuffer(w.s.buffer, reason));
  }

  /** Whatever is finished but uncommitted is committed before BEGIN or DDL. */
  lemma {:induction false} CommitBeforeSettles(
    h: History, ts: Tables, purged: set<nat>, w: World, reason: FlushReason, s': State)
    requires ValidSource(h, ts, purged) && Inv(h, ts, purged, w) && w.phase.Announced?
    requires CommitBefore(w.s, reason, s')
    ensures Settles(h, ts, w.done, w.s, s')
  {
    var view :| FlushedTo(View(w.s), w.s.buffer, view) &&
                var s1 := Flushed(w.s, reason, view);
                if s1.dirtyTxn then CommitOngoing(s1, ImplicitCommitBeforeStmt, reason, s') else s' == s1;
    if w.s.dirtyTxn {
      DirtySettles(h, ts, purged, w, reason, view, s');
    } else {
      CleanSettles(h, ts, purged, w, reason, view);
    }
  }

  /** If the pending position counts just the finished transactions, the saved one is then right. */
  lemma {:induction false} SettledIsDurable(
    h: History, ts: Tables, purged: set<nat>, done: nat, s: State, s': State)
    requires ValidSource(h, ts, purged) && done <= |h| && Settles(h, ts, done, s, s')
    requires s.pending == purged + GtidSet(h[..done])
    ensures DurablePosition(h, ts, purged, s') && DurableCount(h, s') == done
  {
    CountOfPrefix(h, purged, done);
  }

  lemma {:induction false} AnnouncedIsNew(h: History, purged: set<nat>, d: nat)
    requires IncreasingGtids(h) && d < |h| && forall i :: 0 <= i < |h| ==> h[i].gtid !in purged
    ensures h[d].gtid !in purged + GtidSet(h[..d])
  {
    assert forall i :: 0 <= i < d ==> h[..d][i].gtid < h[d].gtid;
  }

  /** The pending position counts the current transaction exactly when it runs ahead. */
  lemma {:induction false} AheadMeans(h: History, ts: Tables, purged: set<nat>, w: World)
    requires ValidSource(h, ts, purged) && Inv(h, ts, purged, w)
    ensures w.s.pending == purged + GtidSet(h[..if Ahead(w) then w.done + 1 else w.done])
    ensures !w.phase.Between? ==> AppendGtid(w.s.pending, w.s.currentGtid) == purged + GtidSet(h[..w.done + 1])
  {
    if !w.phase.Between? {
      AnnouncedIsNew(h, purged, w.done);
      GtidSetStep(h, w.done);
    }
  }

  lemma {:induction false} EmptyBufferInv(h: History, w: World)
    requires Placed(h, w) && w.done == DurableCount(h, w.s) && w.log == [] && BuffersLog(w.s.buffer, [])
    requires w.phase.InTxn? ==> w.phase.sent == 0
    ensures BufferInv(h, w)
  {
    assert Unstamped([]) == [];
    assert RowsIn(h, w.done, w.done) == [];
    assert w.phase.InTxn? ==> h[w.done].rows[..0] == [];
  }

  lemma {:induction false} StampedBelowLater(log: seq<Entry>, next: Stamp, stmt: nat)
    requires StampedBelow(log, next) && next.group == "" && next.stmt <= stmt
    ensures StampedBelow(log, next.(stmt := stmt))
  {
  }

  lemma {:induction false} BeginExtendKeepsInv(
    h: History, ts: Tables, purged: set<nat>, w: World, step: Step, w': World)
    requires ValidSource(h, ts, purged) && Inv(h, ts, purged, w) && step.BeginEvent? && Next(h, w, step, w')
    requires MayExtendBatch(w.s, step.timedOut, step.full)
    ensures Inv(h, ts, purged, w')
  {
    assert h[w.done].rows[..0] == [];
    assert BufferInv(h, w') by {
      StampedBelowLater(w.log, Stamp("", h[w.done].gtid, 0), w'.s.stmtId);
    }
  }

  /** The state between the commit of the batch and the BEGIN that caused it. */
  lemma {:induction false} BeginCommits(h: History, w: World, step: Step, w': World) returns (s1: State)
    requires Placed(h, w) && step.BeginEvent? && Next(h, w, step, w')
    requires !MayExtendBatch(w.s, step.timedOut, step.full)
    ensures CommitBefore(w.s, ExtendBatch(w.s, step.timedOut, step.full).1, s1)
    ensures w'.s == s1.(dirtyTxn := true, dirtyStream := true, ongoingBatch := true, stmtId := w'.s.stmtId)
    ensures w' == World(w'.s, w.done, InTxn(0), [])
  {
    var reason := ExtendBatch(w.s, step.timedOut, step.full).1;
    var took := if step.viaQuery then 1 else 0;
    s1 :| CommitBefore(w.s, reason, s1) &&
          w'.s == s1.(dirtyTxn := true, dirtyStream := true, ongoingBatch := true, stmtId := s1.stmtId + took);
  }

  lemma {:induction false} BeginKeepsInv(h: History, ts: Tables, purged: set<nat>, w: World, step: Step, w': World)
    requires ValidSource(h, ts, purged) && Inv(h, ts, purged, w) && step.BeginEvent? && Next(h, w, step, w')
    requires !SavesUnfinished(w, step)
    ensures Inv(h, ts, purged, w')
  {
    if MayExtendBatch(w.s, step.timedOut, step.full) {
      BeginExtendKeepsInv(h, ts, purged, w, step, w');
    } else {
      var s1 := BeginCommits(h, w, step, w');
      CommitBeforeSettles(h, ts, purged, w, ExtendBatch(w.s, step.timedOut, step.full).1, s1);
      AheadMeans(h, ts, purged, w);
      SettledIsDurable(h, ts, purged, w.done, w.s, s1);
      EmptyBufferInv(h, w');
    }
  }

  lemma {:induction false} StampsStayBelow(log: seq<Entry>, e: Entry)
    requires OrderedLog(log) && StampedBelow(log, e.item.stamp) && e.item.stamp.group == ""
    ensures OrderedLog(log + [e])
    ensures StampedBelow(log + [e], e.item.stamp.(stmt := e.item.stamp.stmt + 1))
  {
  }

  /** The entry that the next row event of the current transaction is buffered as. */
  ghost function NextEntry(h: History, w: World): Entry
    requires Placed(h, w) && w.phase.InTxn? && w.phase.sent < |h[w.done].rows|
  {
    var r := h[w.done].rows[w.phase.sent];
    Entry(r.table, Stamped(NextStamp(w.s), r.event))
  }

  lemma {:induction false} RowIsLogged(h: History, w: World)
    requires Placed(h, w) && w.phase.InTxn? && w.phase.sent < |h[w.done].rows|
    ensures Unstamped(w.log + [NextEntry(h, w)]) == Unstamped(w.log) + [h[w.done].rows[w.phase.sent]]
    ensures h[w.done].rows[..w.phase.sent + 1] == h[w.done].rows[..w.phase.sent] + [h[w.done].rows[w.phase.sent]]
  {
  }

  lemma {:induction false} RowIsBuffered(h: History, w: World, w': World)
    requires Placed(h, w) && BufferInv(h, w) && w.phase.InTxn?
    requires Next(h, w, RowsEvent, w')
    ensures BuffersLog(w'.s.buffer, w'.log)
  {
    var e := NextEntry(h, w);
    MyAppendAppends(AppenderFor(w.s.buffer, e.table), e.item);
    BuffersLogAppend(w.s.buffer, w.log, e, MyAppend(AppenderFor(w.s.buffer, e.table), e.item));
  }

  lemma {:induction false} RowKeepsBufferInv(h: History, w: World, w': World)
    requires Placed(h, w) && BufferInv(h, w) && w.phase.InTxn? && w.s.currentGtid == Gtid(h[w.done].gtid)
    requires Next(h, w, RowsEvent, w')
    ensures BufferInv(h, w')
  {
    RowIsBuffered(h, w, w');
    RowIsLogged(h, w);
    StampsStayBelow(w.log, NextEntry(h, w));
  }

  lemma {:induction false} RowKeepsPendingInv(h: History, purged: set<nat>, w: World, w': World)
    requires Placed(h, w) && PendingInv(h, purged, w) && w.phase.InTxn? && Next(h, w, RowsEvent, w')
    ensures PendingInv(h, purged, w')
  {
  }

  lemma {:induction false} RowsKeepsInv(h: History, ts: Tables, purged: set<nat>, w: World, w': World)
    requires ValidSource(h, ts, purged) && Inv(h, ts, purged, w) && Next(h, w, RowsEvent, w')
    ensures Inv(h, ts, purged, w')
  {
    RowKeepsBufferInv(h, w, w');
    RowKeepsPendingInv(h, purged, w, w');
  }

  /** The last row has come: what is buffered is whole transactions again. */
  lemma {:induction false} WholeTransactions(h: History, w: World)
    requires IncreasingGtids(h) && Placed(h, w) && BufferInv(h, w)
    requires w.phase.InTxn? && w.phase.sent == |h[w.done].rows|
    ensures AllRows(h, DurableCount(h, w.s), w.done + 1)
    ensures Unstamped(w.log) == RowsIn(h, DurableCount(h, w.s), w.done + 1)
    ensures w.done + 1 < |h| ==> StampedBelow(w.log, Stamp("", h[w.done + 1].gtid, 0))
  {
    assert h[w.done].rows[..|h[w.done].rows|] == h[w.done].rows;
  }

  lemma {:induction false} XidExtendKeepsInv(h: History, ts: Tables, purged: set<nat>, w: World, step: Step, w': World)
    requires ValidSource(h, ts, purged) && Inv(h, ts, purged, w) && step.XidEvent? && Next(h, w, step, w')
    requires MayExtendBatch(w.s, step.timedOut, step.full)
    ensures Inv(h, ts, purged, w')
  {
    WholeTransactions(h, w);
    AheadMeans(h, ts, purged, w);
  }

  lemma {:induction false} XidCommitKeepsInv(h: History, ts: Tables, purged: set<nat>, w: World, step: Step, w': World)
    requires ValidSource(h, ts, purged) && Inv(h, ts, purged, w) && step.XidEvent? && Next(h, w, step, w')
    requires !MayExtendBatch(w.s, step.timedOut, step.full)
    ensures Inv(h, ts, purged, w')
  {
    WholeTransactions(h, w);
    AheadMeans(h, ts, purged, w);
    var reason := ExtendBatch(w.s, step.timedOut, step.full).1;
    CommitReaches(h, ts, purged, w.s, w.done + 1, w.log, NormalCommit, reason, w'.s);
    SettledInv(h, ts, purged, w');
  }

  lemma {:induction false} XidKeepsInv(h: History, ts: Tables, purged: set<nat>, w: World, step: Step, w': World)
    requires ValidSource(h, ts, purged) && Inv(h, ts, purged, w) && step.XidEvent? && Next(h, w, step, w')
    ensures Inv(h, ts, purged, w')
  {
    if MayExtendBatch(w.s, step.timedOut, step.full) {
      XidExtendKeepsInv(h, ts, purged, w, step, w');
    } else {
      XidCommitKeepsInv(h, ts, purged, w, step, w');
    }
  }

  lemma {:induction false} DdlRepresents(db: Database, ts: Tables, ddl: Ddl, withoutIndex: bool)
    requires RepresentsAll(db, ts) && DdlAllowed(ts, ddl)
    ensures RepresentsAll(ExecuteDdl(db, ddl, withoutIndex), ApplyDdl(ts, ddl))
  {
  }

  /** The DDL statement executed and committed after everything before it had been. */
  lemma {:induction false} DdlReaches(
    h: History, ts: Tables, purged: set<nat>, d: nat, s1: State, withoutIndex: bool, s2: State)
    requires ValidSource(h, ts, purged) && d < |h| && h[d].DdlTxn?
    requires RepresentsAll(s1.db, ApplyTxns(ts, h[..d])) && View(s1) == s1.db && Drained(s1.buffer)
    requires AppendGtid(s1.pending, s1.currentGtid) == purged + GtidSet(h[..d + 1])
    requires CommitOngoing(s1.(tx := Open(ExecuteDdl(View(s1), h[d].ddl, withoutIndex)),
                               dirtyTxn := true, dirtyStream := true, ongoingBatch := false),
                           ImplicitCommitAfterStmt, DDLStmtFlush, s2)
    ensures DurablePosition(h, ts, purged, s2) && DurableCount(h, s2) == d + 1
    ensures BuffersLog(s2.buffer, [])
  {
    assert ValidTxn(ApplyTxns(ts, h[..d]), h[d]);
    DdlRepresents(s1.db, ApplyTxns(ts, h[..d]), h[d].ddl, withoutIndex);
    DrainedFlushIsIdle(ExecuteDdl(s1.db, h[d].ddl, withoutIndex), s1.buffer, s2.db);
    assert h[..d + 1][..d] == h[..d];
    assert s2.saved == purged + GtidSet(h[..d + 1]);
    CountOfPrefix(h, purged, d + 1);
    FlushedBufferIsDrained(s1.buffer, DDLStmtFlush);
  }

  lemma {:induction false} DdlKeepsInv(h: History, ts: Tables, purged: set<nat>, w: World, step: Step, w': World)
    requires ValidSource(h, ts, purged) && Inv(h, ts, purged, w) && step.DdlEvent? && Next(h, w, step, w')
    ensures Inv(h, ts, purged, w')
  {
    var s1, s2 :| && CommitBefore(w.s, DDLStmtFlush, s1)
                  && CommitOngoing(s1.(tx := Open(ExecuteDdl(View(s1), h[w.done].ddl, step.withoutIndex)),
                                       dirtyTxn := true, dirtyStream := true, ongoingBatch := false),
                                   ImplicitCommitAfterStmt, DDLStmtFlush, s2)
                  && w'.s == s2.(stmtId := s2.stmtId + 1);
    CommitBeforeSettles(h, ts, purged, w, DDLStmtFlush, s1);
    AheadMeans(h, ts, purged, w);
    DdlReaches(h, ts, purged, w.done, s1, step.withoutIndex, s2);
    SettledInv(h, ts, purged, w');
  }

  lemma {:induction false} ResumedInv(h: History, ts: Tables, purged: set<nat>, s: State)
    requires DurablePosition(h, ts, purged, s)
    ensures Inv(h, ts, purged, Resumed(Restarted(s), CountIn(h, s.saved)))
  {
    DrainedBuffersNothing(map[]);
    SettledInv(h, ts, purged, Resumed(Restarted(s), CountIn(h, s.saved)));
  }

  lemma {:induction false} SameBufferInv(h: History, w: World, w': World)
    requires Placed(h, w) && Placed(h, w') && BufferInv(h, w)
    requires w'.done == w.done && w'.log == w.log && w'.phase == w.phase
    requires w'.s.saved == w.s.saved && w'.s.buffer == w.s.buffer
    requires w'.s.stmtId == w.s.stmtId
    ensures BufferInv(h, w')
  {
  }

  lemma {:induction false} AheadKeepsPendingInv(h: History, purged: set<nat>, w: World, w': World)
    requires Placed(h, w) && PendingInv(h, purged, w) && w.phase.Announced? && w.s.ongoingBatch
    requires AppendGtid(w.s.pending, w.s.currentGtid) == purged + GtidSet(h[..w.done + 1])
    requires w' == w.(s := w.s.(pending := AppendGtid(w.s.pending, w.s.currentGtid)))
    ensures PendingInv(h, purged, w') && Ahead(w')
  {
    assert AppendGtid(w'.s.pending, w.s.previousGtid) == w'.s.pending;
  }

  /** A tick that extends the batch behind a GTID event makes the pending position run ahead. */
  lemma {:induction false} TickAheadKeepsInv(
    h: History, ts: Tables, purged: set<nat>, w: World, step: Step, w': World)
    requires ValidSource(h, ts, purged) && Inv(h, ts, purged, w) && step.Tick? && Next(h, w, step, w')
    requires w.phase.Announced? && MayExtendBatch(w.s, step.timedOut, step.full)
    ensures Inv(h, ts, purged, w') && Ahead(w')
  {
    assert w' == w.(s := w.s.(pending := AppendGtid(w.s.pending, w.s.currentGtid)));
    AheadMeans(h, ts, purged, w);
    SameBufferInv(h, w, w');
    AheadKeepsPendingInv(h, purged, w, w');
  }

  lemma {:induction false} TickKeepsInv(h: History, ts: Tables, purged: set<nat>, w: World, step: Step, w': World)
    requires ValidSource(h, ts, purged) && Inv(h, ts, purged, w) && step.Tick? && Next(h, w, step, w')
    requires !SavesUnfinished(w, step)
    ensures Inv(h, ts, purged, w')
  {
    if w.s.ongoingBatch && !w.s.dirtyStream {
      if w.phase.Announced? {
        TickAheadKeepsInv(h, ts, purged, w, step, w');
      } else {
        ExtendOrCommitBetweenKeepsInv(h, ts, purged, w, step.timedOut, step.full, w');
      }
    }
  }

  lemma {:induction false} RotateKeepsInv(h: History, ts: Tables, purged: set<nat>, w: World, step: Step, w': World)
    requires ValidSource(h, ts, purged) && Inv(h, ts, purged, w) && step.RotateEvent? && Next(h, w, step, w')
    ensures Inv(h, ts, purged, w')
  {
    if w.s.currentGtid.Gtid? {
      ExtendOrCommitBetweenKeepsInv(h, ts, purged, w, step.timedOut, step.full, w');
    }
  }

  lemma {:induction false} StopKeepsInv(h: History, ts: Tables, purged: set<nat>, w: World, w': World)
    requires ValidSource(h, ts, purged) && Inv(h, ts, purged, w) && Next(h, w, StopAndRestart, w')
    requires !SavesUnfinished(w, StopAndRestart)
    ensures Inv(h, ts, purged, w')
  {
    var s1 :| OnStop(w.s, s1) && w' == Resumed(Restarted(s1), CountIn(h, s1.saved));
    if w.s.ongoingBatch && !w.s.dirtyStream {
      CommitBetweenKeepsInv(h, ts, purged, w, OnCloseFlush, w.(s := s1, log := []));
    }
    ResumedInv(h, ts, purged, s1);
  }

  lemma {:induction false} StepKeepsInv(h: History, ts: Tables, purged: set<nat>, w: World, step: Step, w': World)
    requires ValidSource(h, ts, purged) && Inv(h, ts, purged, w) && Next(h, w, step, w')
    requires !SavesUnfinished(w, step)
    ensures Inv(h, ts, purged, w')
  {
    match step
    case GtidEvent => GtidKeepsInv(h, ts, purged, w, w');
    case BeginEvent(_, _, _) => BeginKeepsInv(h, ts, purged, w, step, w');
    case DdlEvent(_) => DdlKeepsInv(h, ts, purged, w, step, w');
    case RowsEvent => RowsKeepsInv(h, ts, purged, w, w');
    case XidEvent(_, _) => XidKeepsInv(h, ts, purged, w, step, w');
    case RotateEvent(_, _) => RotateKeepsInv(h, ts, purged, w, step, w');
    case Tick(_, _) => TickKeepsInv(h, ts, purged, w, step, w');
    case StopAndRestart => StopKeepsInv(h, ts, purged, w, w');
    case Reconnect => ResumedInv(h, ts, purged, w.s);
    case Crash => ResumedInv(h, ts, purged, w.s.(tx := NoTransaction));
  }

  // ----- Flushing never fails -----

  lemma {:induction false} PartIsValid(h: History, ts: Tables, purged: set<nat>, n: nat, d: nat, rows: seq<RowEvent>)
    requires ValidSource(h, ts, purged) && n <= d <= |h| && AllRows(h, n, d)
    requires rows == [] || (d < |h| && h[d].RowTxn? && rows <= h[d].rows)
    ensures ValidLog(ApplyTxns(ts, h[..n]), Plain(RowsIn(h, n, d) + rows))
  {
    SegmentIsLog(h, ts, purged, n, d);
    if rows == [] {
      assert RowsIn(h, n, d) + rows == RowsIn(h, n, d);
    } else {
      assert ValidTxn(ApplyTxns(ts, h[..d]), h[d]);
      var rest := h[d].rows[|rows|..];
      assert Plain(h[d].rows) == Plain(rows) + Plain(rest);
      ValidLogAppend(ApplyTxns(ts, h[..d]), Plain(rows), Plain(rest));
      SegmentStep(ApplyTxns(ts, h[..d]), ApplyTxns(ts, h[..n]), RowsIn(h, n, d), rows);
    }
  }

  /** What is buffered is a valid part of the log where it is going to be applied. */
  lemma {:induction false} BufferedIsValid(h: History, ts: Tables, purged: set<nat>, w: World)
    requires ValidSource(h, ts, purged) && Inv(h, ts, purged, w)
    ensures ValidLog(ApplyTxns(ts, h[..DurableCount(h, w.s)]), w.log)
  {
    var n := DurableCount(h, w.s);
    var rows := if w.phase.InTxn? then h[w.done].rows[..w.phase.sent] else [];
    var plain := Plain(RowsIn(h, n, w.done) + rows);
    PartIsValid(h, ts, purged, n, w.done, rows);
    assert Unstamped(plain) == Unstamped(w.log);
    StampsDoNotMatter(ApplyTxns(ts, h[..n]), w.log, plain);
  }

  /** In every state of a run, no table's index refuses what is buffered for it. */
  lemma {:induction false} NeverBlocked(h: History, ts: Tables, purged: set<nat>, w: World, id: TableId)
    requires ValidSource(h, ts, purged) && Inv(h, ts, purged, w)
    ensures !Blocks(View(w.s), w.s.buffer, id, true)
  {
    BufferedIsValid(h, ts, purged, w);
    if id in w.s.db && AppenderFor(w.s.buffer, id).rows != [] {
      FlushIsNeverRefused(w.s.db, ApplyTxns(ts, h[..DurableCount(h, w.s)]), w.log, w.s.buffer, id);
    }
  }
}
