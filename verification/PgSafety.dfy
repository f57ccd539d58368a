/**
 Safety of the Postgres replicator over whole runs: the durable prefix, exactly-once application
 across failures, and safe acknowledgement.
 */
module PgSafety {
  import opened Controller
  import opened DeltaLog
  import opened Flushing
  import opened PgMachine

  // ----- Positions and logs -----

  lemma {:induction false} CountBounds(h: History, lsn: nat)
    requires IncreasingLsns(h)
    ensures CountUpTo(h, lsn) <= |h|
    ensures forall i :: 0 <= i < |h| ==> (h[i].lsn <= lsn <==> i < CountUpTo(h, lsn))
  {
    if h != [] {
      CountBounds(h[..|h| - 1], lsn);
    }
  }

  lemma {:induction false} CountAtLsn(h: History, n: nat)
    requires IncreasingLsns(h) && n <= |h|
    ensures CountUpTo(h, LsnAt(h, n)) == n
  {
    CountBounds(h, LsnAt(h, n));
    assert n > 0 ==> h[n - 1].lsn <= LsnAt(h, n);
    assert n < |h| ==> h[n].lsn > LsnAt(h, n);
  }

  lemma {:induction false} LogOfSplit(h: History, n: nat, m: nat)
    requires n <= m <= |h|
    ensures LogOf(h[..m]) == LogOf(h[..n]) + LogOf(h[n..m])
  {
    if n < m {
      LogOfSplit(h, n, m - 1);
      assert h[..m][..m - 1] == h[..m - 1];
      assert h[n..m][..m - n - 1] == h[n..m - 1];
    } else {
      assert h[n..m] == [];
    }
  }

  lemma {:induction false} LogOfOrdered(h: History)
    requires IncreasingLsns(h)
    ensures OrderedLog(LogOf(h))
    ensures forall i :: 0 <= i < |LogOf(h)| ==>
              LogOf(h)[i].item.stamp.group == "" && LogOf(h)[i].item.stamp.seqNo <= LsnAt(h, |h|)
  {
    if h != [] {
      LogOfOrdered(h[..|h| - 1]);
    }
  }

  lemma {:induction false} PrefixIsValid(h: History, ts: Tables, m: nat)
    requires ValidSource(h, ts) && m <= |h|
    ensures ValidLog(ts, LogOf(h[..m]))
  {
    assert h[..|h|] == h;
    LogOfSplit(h, m, |h|);
    ValidLogAppend(ts, LogOf(h[..m]), LogOf(h[m..|h|]));
  }

  /** The part of a valid source log between two cuts is valid and ordered where it is applied. */
  lemma {:induction false} Segment(h: History, ts: Tables, n: nat, m: nat)
    requires ValidSource(h, ts) && n <= m <= |h|
    ensures ValidLog(ApplyLog(ts, LogOf(h[..n])), LogOf(h[n..m]))
    ensures OrderedLog(LogOf(h[n..m]))
    ensures ApplyLog(ts, LogOf(h[..m])) == ApplyLog(ApplyLog(ts, LogOf(h[..n])), LogOf(h[n..m]))
  {
    PrefixIsValid(h, ts, m);
    LogOfSplit(h, n, m);
    ValidLogAppend(ts, LogOf(h[..n]), LogOf(h[n..m]));
    ApplyLogAppend(ts, LogOf(h[..n]), LogOf(h[n..m]));
    LogOfOrdered(h[n..m]);
  }

  // ----- The invariant -----

  ghost function DurableCount(h: History, s: State): nat {
    CountUpTo(h, s.savedLsn)
  }

  /**
   The durable prefix: the committed tables are the one-by-one application of exactly the whole
   transactions that committed at or before the saved LSN, and the replicator knows that LSN.
   */
  ghost predicate DurablePrefix(h: History, ts: Tables, s: State) {
    var n := DurableCount(h, s);
    && n <= |h| && s.savedLsn == LsnAt(h, n) == s.lastWritten
    && RepresentsAll(s.db, ApplyLog(ts, LogOf(h[..n])))
  }

  /** What the buffer holds: the finished transactions not yet durable, and the rows of the current one. */
  ghost function Pending(h: History, w: World): seq<Entry>
    requires Placed(h, w) && DurableCount(h, w.s) <= w.done
  {
    LogOf(h[DurableCount(h, w.s)..w.done]) +
    if w.phase.InFresh? then TxnLog(h[w.done])[..w.phase.sent] else []
  }

  /** A cold start or the position of a transaction. */
  ghost predicate IsPosition(h: History, lsn: nat) {
    lsn == LsnAt(h, CountUpTo(h, lsn))
  }

  ghost predicate MemoryInv(h: History, w: World)
    requires Placed(h, w)
  {
    var s, n := w.s, DurableCount(h, w.s);
    && n <= w.done
    && BuffersLog(s.buffer, Pending(h, w))
    && IsPosition(h, s.lastCommit) && (s.lastCommit == LsnAt(h, w.done) || s.lastCommit < s.savedLsn)
    && (s.dirtyTxn <==> Pending(h, w) != [])
    && (w.phase.InFresh? ==> && s.processMessages && s.currentTxn == h[w.done].lsn
                             && s.stmtId == w.phase.sent && (s.dirtyStream <==> w.phase.sent > 0))
    && (!w.phase.InFresh? ==> !s.dirtyStream && s.stmtId == 0)
    && (w.phase.InStale? ==> !s.processMessages && h[w.phase.index].lsn < s.savedLsn)
    && (s.ongoingBatch <==> s.txOpen)
  }

  ghost predicate Inv(h: History, ts: Tables, w: World) {
    && DurablePrefix(h, ts, w.s)
    && Placed(h, w)
    && w.acked <= w.s.savedLsn + 1
    && if w.phase.Broken? then !w.s.txOpen else MemoryInv(h, w)
  }

  // ----- Commits -----

  /** Committing a buffer of whole transactions moves the durable prefix to the last of them. */
  lemma {:induction false} CommitMovesPrefix(
    h: History, ts: Tables, s: State, done: nat, reason: FlushReason, s': State)
    requires ValidSource(h, ts) && DurablePrefix(h, ts, s)
    requires DurableCount(h, s) <= done <= |h|
    requires BuffersLog(s.buffer, LogOf(h[DurableCount(h, s)..done]))
    requires s.txOpen && s.lastCommit == LsnAt(h, done)
    requires CommitOngoing(s, reason, s')
    ensures DurablePrefix(h, ts, s') && DurableCount(h, s') == done
    ensures BuffersLog(s'.buffer, [])
    ensures s'.savedLsn >= s.savedLsn
  {
    var n := DurableCount(h, s);
    Segment(h, ts, n, done);
    FlushRefinesLog(s.db, ApplyLog(ts, LogOf(h[..n])), LogOf(h[n..done]), s.buffer, s'.db);
    CountAtLsn(h, done);
    FlushedBufferIsDrained(s.buffer, reason);
    assert n < done ==> LsnAt(h, n) <= LsnAt(h, done);
  }

  lemma {:induction false} EmptySegment(h: History, n: nat)
    requires n <= |h|
    ensures LogOf(h[n..n]) == []
  {
    assert h[n..n] == [];
  }

  // ----- Every step keeps the invariant -----

  /** Beginning the next transaction of the source adds nothing to what is pending. */
  lemma {:induction false} NoRowsYet(h: History, w: World, w': World)
    requires Placed(h, w) && w.phase.Between? && MemoryInv(h, w)
    requires Placed(h, w') && w'.phase == InFresh(0) && w'.done == w.done
    requires DurableCount(h, w'.s) == DurableCount(h, w.s)
    ensures Pending(h, w') == Pending(h, w) == LogOf(h[DurableCount(h, w.s)..w.done])
  {
    assert TxnLog(h[w.done])[..0] == [];
  }

  /** A commit between transactions, or before the first row of one, keeps the invariant. */
  lemma {:induction false} CleanCommitKeepsInv(h: History, ts: Tables, w: World, reason: FlushReason, w': World)
    requires ValidSource(h, ts) && Inv(h, ts, w) && !w.phase.Broken?
    requires w.phase.InFresh? ==> w.phase.sent == 0
    requires w.s.txOpen && w.s.lastCommit >= w.s.lastWritten
    requires CommitOngoing(w.s, reason, w'.s) && w' == w.(s := w'.s)
    ensures Inv(h, ts, w') && w'.s.lastWritten >= w.s.lastWritten
  {
    if w.phase.InFresh? {
      assert TxnLog(h[w.done])[..0] == [];
    }
    assert Pending(h, w) == LogOf(h[DurableCount(h, w.s)..w.done]);
    CommitMovesPrefix(h, ts, w.s, w.done, reason, w'.s);
    EmptySegment(h, w.done);
    assert Pending(h, w') == [];
  }

  lemma {:induction false} BeginFreshKeepsInv(h: History, ts: Tables, w: World, step: Step, w': World)
    requires ValidSource(h, ts) && Inv(h, ts, w) && step.Begin? && Next(h, w, step, w') && Safe(h, w, step)
    requires step.index == w.done && w.s.lastWritten <= h[w.done].lsn
    ensures Inv(h, ts, w') && w'.s.lastWritten >= w.s.lastWritten
  {
    var s1 := w.s.(processMessages := true, currentTxn := h[w.done].lsn);
    var w1 := w.(s := s1, phase := InFresh(0));
    NoRowsYet(h, w, w1);
    assert Inv(h, ts, w1);
    if !MayExtendBatch(s1, step.timedOut, step.full) {
      var reason := ExtendBatch(s1, step.timedOut, step.full).1;
      var w2 := w1.(s := Committed(s1, reason, w'.s.db));
      if s1.txOpen {
        CleanCommitKeepsInv(h, ts, w1, reason, w2);
      }
      assert Pending(h, w') == Pending(h, w2);
    }
  }

  lemma {:induction false} BeginKeepsInv(h: History, ts: Tables, w: World, step: Step, w': World)
    requires ValidSource(h, ts) && Inv(h, ts, w) && step.Begin? && Next(h, w, step, w') && Safe(h, w, step)
    ensures Inv(h, ts, w') && w'.s.lastWritten >= w.s.lastWritten
  {
    CountBounds(h, w.s.savedLsn);
    if step.index == w.done {
      BeginFreshKeepsInv(h, ts, w, step, w');
    } else {
      assert Pending(h, w') == Pending(h, w);
    }
  }

  /** The row of a fresh transaction is buffered under the stamp that its place in the log has. */
  lemma {:induction false} RowIsBuffered(h: History, w: World, w': World)
    requires Placed(h, w) && w.phase.InFresh? && w.phase.sent < |h[w.done].changes| && MemoryInv(h, w)
    requires w' == w.(s := OnRow(w.s, h[w.done].changes[w.phase.sent]), phase := InFresh(w.phase.sent + 1))
    ensures BuffersLog(w'.s.buffer, Pending(h, w'))
  {
    var log := TxnLog(h[w.done]);
    var e := log[w.phase.sent];
    assert log[..w.phase.sent + 1] == log[..w.phase.sent] + [e];
    assert Pending(h, w') == Pending(h, w) + [e];
    var app := PgAppend(AppenderFor(w.s.buffer, e.table), e.item);
    PgAppendAppends(AppenderFor(w.s.buffer, e.table), e.item);
    BuffersLogAppend(w.s.buffer, Pending(h, w), e, app);
    assert w'.s.buffer == w.s.buffer[e.table := app];
  }

  lemma {:induction false} RowKeepsInv(h: History, ts: Tables, w: World, w': World)
    requires ValidSource(h, ts) && Inv(h, ts, w) && Next(h, w, RowSent, w')
    ensures Inv(h, ts, w') && w'.s.lastWritten >= w.s.lastWritten
  {
    if w.phase.InFresh? {
      RowIsBuffered(h, w, w');
    } else {
      assert Pending(h, w') == Pending(h, w);
    }
  }

  /** Receiving the commit of a fresh transaction turns its rows into a whole pending transaction. */
  lemma {:induction false} WholeTransactionPending(h: History, w: World, w': World)
    requires Placed(h, w) && w.phase.InFresh? && w.phase.sent == |h[w.done].changes| && MemoryInv(h, w)
    requires Placed(h, w') && w'.phase.Between? && w'.done == w.done + 1
    requires DurableCount(h, w'.s) == DurableCount(h, w.s)
    ensures Pending(h, w') == Pending(h, w)
  {
    var n, d := DurableCount(h, w.s), w.done;
    var log := TxnLog(h[d]);
    assert log[..|log|] == log;
    assert h[n..d + 1][..d - n] == h[n..d];
  }

  /** The world once a commit message has been noted, before any database commit. */
  function CommitNoted(h: History, w: World): World
    requires w.done < |h|
  {
    w.(s := w.s.(lastCommit := h[w.done].lsn, commitCount := w.s.commitCount + 1,
                 dirtyStream := false, stmtId := 0, processMessages := false),
       phase := Between, done := w.done + 1)
  }

  lemma {:induction false} CommitNotedKeepsInv(h: History, ts: Tables, w: World)
    requires ValidSource(h, ts) && Inv(h, ts, w)
    requires w.phase.InFresh? && w.phase.sent == |h[w.done].changes|
    ensures Inv(h, ts, CommitNoted(h, w))
  {
    WholeTransactionPending(h, w, CommitNoted(h, w));
    CountAtLsn(h, w.done + 1);
  }

  lemma {:induction false} CommitOfNoted(h: History, w: World, step: Step, w': World) returns (reason: FlushReason)
    requires Placed(h, w) && step.Commit? && Next(h, w, step, w') && w.phase.InFresh?
    ensures w' == CommitNoted(h, w).(s := w'.s)
    ensures w'.s == CommitNoted(h, w).s || (w.s.txOpen && CommitOngoing(CommitNoted(h, w).s, reason, w'.s))
  {
    var s1 := w.s.(lastCommit := h[w.done].lsn, commitCount := w.s.commitCount + 1);
    reason := ExtendBatch(s1, step.timedOut, step.full).1;
  }

  lemma {:induction false} CommitFreshKeepsInv(h: History, ts: Tables, w: World, step: Step, w': World)
    requires ValidSource(h, ts) && Inv(h, ts, w) && step.Commit? && Next(h, w, step, w') && w.phase.InFresh?
    ensures Inv(h, ts, w') && w'.s.lastWritten >= w.s.lastWritten
  {
    var w1 := CommitNoted(h, w);
    CommitNotedKeepsInv(h, ts, w);
    var reason := CommitOfNoted(h, w, step, w');
    if w'.s != w1.s {
      CleanCommitKeepsInv(h, ts, w1, reason, w');
    }
  }

  lemma {:induction false} StaleCommitNoted(h: History, w: World, step: Step, w': World)
    requires Placed(h, w) && step.Commit? && Next(h, w, step, w') && w.phase.InStale? && !Commits(h, w, step)
    ensures w' == w.(s := w'.s, phase := Between)
    ensures w'.s == w.s.(lastCommit := h[w.phase.index].lsn, commitCount := w.s.commitCount + 1,
                         dirtyStream := false, stmtId := 0, processMessages := false)
  {
  }

  /** The Commit message of a resent transaction is noted, too, but nothing is committed. */
  lemma {:induction false} CommitStaleKeepsInv(h: History, ts: Tables, w: World, step: Step, w': World)
    requires ValidSource(h, ts) && Inv(h, ts, w) && step.Commit? && Next(h, w, step, w') && w.phase.InStale?
    requires !Commits(h, w, step)
    ensures Inv(h, ts, w') && w'.s.lastWritten == w.s.lastWritten
  {
    CountAtLsn(h, w.phase.index + 1);
    StaleCommitNoted(h, w, step, w');
    assert Pending(h, w') == Pending(h, w);
  }

  lemma {:induction false} CommitKeepsInv(h: History, ts: Tables, w: World, step: Step, w': World)
    requires ValidSource(h, ts) && Inv(h, ts, w) && step.Commit? && Next(h, w, step, w') && Safe(h, w, step)
    ensures Inv(h, ts, w') && w'.s.lastWritten >= w.s.lastWritten
  {
    if w.phase.InFresh? {
      CommitFreshKeepsInv(h, ts, w, step, w');
    } else {
      CommitStaleKeepsInv(h, ts, w, step, w');
    }
  }

  lemma {:induction false} RelationKeepsInv(h: History, ts: Tables, w: World, step: Step, w': World)
    requires ValidSource(h, ts) && Inv(h, ts, w) && step.Relation? && Next(h, w, step, w') && Safe(h, w, step)
    ensures Inv(h, ts, w') && w'.s.lastWritten >= w.s.lastWritten
  {
    if step.redefines && w.s.txOpen {
      CleanCommitKeepsInv(h, ts, w, DDLStmtFlush, w');
    }
  }

  lemma {:induction false} TickKeepsInv(h: History, ts: Tables, w: World, w': World)
    requires ValidSource(h, ts) && Inv(h, ts, w) && Next(h, w, Tick, w') && Safe(h, w, Tick)
    ensures Inv(h, ts, w') && w'.s.lastWritten >= w.s.lastWritten
  {
    if IsClean(w.s) && w.s.txOpen {
      CleanCommitKeepsInv(h, ts, w, TimeTickFlush, w');
    }
  }

  lemma {:induction false} FreshConnectionInv(h: History, ts: Tables, w: World, s: State)
    requires IncreasingLsns(h) && DurablePrefix(h, ts, s) && w.acked <= s.savedLsn + 1
    ensures Inv(h, ts, Connected(w, Reset(s, s.savedLsn), DurableCount(h, s)))
  {
    var w' := Connected(w, Reset(s, s.savedLsn), DurableCount(h, s));
    EmptySegment(h, w'.done);
    assert Pending(h, w') == [];
    DrainedBuffersNothing(map[]);
  }

  lemma {:induction false} StopKeepsInv(h: History, ts: Tables, w: World, w': World)
    requires ValidSource(h, ts) && Inv(h, ts, w) && Next(h, w, StopAndRestart, w') && Safe(h, w, StopAndRestart)
    ensures Inv(h, ts, w') && w'.s.lastWritten >= w.s.lastWritten
  {
    var s1 := if IsClean(w.s) then Committed(w.s, OnCloseFlush, w'.s.db) else w.s;
    if IsClean(w.s) && w.s.txOpen {
      CleanCommitKeepsInv(h, ts, w, OnCloseFlush, w.(s := s1));
    }
    FreshConnectionInv(h, ts, w, s1);
  }

  lemma {:induction false} AcknowledgeKeepsInv(h: History, ts: Tables, w: World, w': World)
    requires Inv(h, ts, w) && Next(h, w, Acknowledge, w')
    ensures Inv(h, ts, w')
  {
    assert w.phase.Broken? || Pending(h, w') == Pending(h, w);
  }

  lemma {:induction false} BrokenInv(h: History, ts: Tables, w: World, s: State, s': State)
    requires Placed(h, w) && DurablePrefix(h, ts, s) && w.acked <= s.savedLsn + 1 && RolledBack(s, s')
    ensures Inv(h, ts, w.(s := s', phase := Broken))
  {
  }

  /** Every step keeps the invariant, and the last written LSN never decreases. */
  lemma {:induction false} StepKeepsInv(h: History, ts: Tables, w: World, step: Step, w': World)
    requires ValidSource(h, ts) && Inv(h, ts, w) && Next(h, w, step, w') && Safe(h, w, step)
    ensures Inv(h, ts, w') && w'.s.lastWritten >= w.s.lastWritten
  {
    match step
    case Begin(_, _, _) => BeginKeepsInv(h, ts, w, step, w');
    case RowSent => RowKeepsInv(h, ts, w, w');
    case Commit(_, _) => CommitKeepsInv(h, ts, w, step, w');
    case Relation(_) => RelationKeepsInv(h, ts, w, step, w');
    case Tick => TickKeepsInv(h, ts, w, w');
    case Acknowledge => AcknowledgeKeepsInv(h, ts, w, w');
    case CommitFails(_) => BrokenInv(h, ts, w, w.s, w'.s);
    case Reconnect => FreshConnectionInv(h, ts, w, w.s);
    case Crash => FreshConnectionInv(h, ts, w, w.s);
    case StopAndRestart => StopKeepsInv(h, ts, w, w');
  }
}
