/**
 Exactly which steps of the Postgres replicator keep the durable prefix: those that commit nothing,
 and those that commit no more than the position they save stands for.
 */
module PgExact {
  import opened Controller
  import opened DeltaLog
  import opened PgMachine
  import opened PgSafety

  /** All that was received: the finished transactions and the rows of the current one. */
  ghost function Received(h: History, w: World): seq<Entry>
    requires Placed(h, w)
  {
    LogOf(h[..w.done]) + if w.phase.InFresh? then TxnLog(h[w.done])[..w.phase.sent] else []
  }

  lemma {:induction false} PartialTransaction(h: History, ts: Tables, n: nat, d: nat, sent: nat)
    requires ValidSource(h, ts) && n <= d < |h| && sent <= |h[d].changes|
    ensures ValidLog(ApplyLog(ts, LogOf(h[..n])), LogOf(h[n..d]) + TxnLog(h[d])[..sent])
    ensures OrderedLog(LogOf(h[n..d]) + TxnLog(h[d])[..sent])
  {
    var a, c := LogOf(h[n..d]) + TxnLog(h[d])[..sent], TxnLog(h[d])[sent..];
    Segment(h, ts, n, d + 1);
    LogOfPrefix(h, n, d, sent);
    ValidLogAppend(ApplyLog(ts, LogOf(h[..n])), a, c);
    OrderedParts(a, c);
  }

  lemma {:induction false} LogOfPrefix(h: History, n: nat, d: nat, sent: nat)
    requires n <= d < |h| && sent <= |h[d].changes|
    ensures LogOf(h[n..d + 1]) == (LogOf(h[n..d]) + TxnLog(h[d])[..sent]) + TxnLog(h[d])[sent..]
  {
    assert h[n..d + 1][..d - n] == h[n..d];
  }

  lemma {:induction false} ReceivedSplit(h: History, w: World)
    requires Placed(h, w) && DurableCount(h, w.s) <= w.done
    ensures Received(h, w) == LogOf(h[..DurableCount(h, w.s)]) + Pending(h, w)
  {
    LogOfSplit(h, DurableCount(h, w.s), w.done);
  }

  /** What is pending is valid where it is applied, and completes what was received. */
  lemma {:induction false} PendingApplies(h: History, ts: Tables, w: World)
    requires ValidSource(h, ts) && Inv(h, ts, w) && !w.phase.Broken?
    ensures ValidLog(ApplyLog(ts, LogOf(h[..DurableCount(h, w.s)])), Pending(h, w)) && OrderedLog(Pending(h, w))
    ensures ApplyLog(ApplyLog(ts, LogOf(h[..DurableCount(h, w.s)])), Pending(h, w)) == ApplyLog(ts, Received(h, w))
  {
    var n, d := DurableCount(h, w.s), w.done;
    if w.phase.InFresh? {
      PartialTransaction(h, ts, n, d, w.phase.sent);
    } else {
      Segment(h, ts, n, d);
      assert Pending(h, w) == LogOf(h[n..d]);
    }
    ReceivedSplit(h, w);
    ApplyLogAppend(ts, LogOf(h[..n]), Pending(h, w));
  }

  /** A commit leaves the tables of all that was received. */
  lemma {:induction false} CommittedTables(h: History, ts: Tables, w: World, s: State, reason: FlushReason, s': State)
    requires ValidSource(h, ts) && Inv(h, ts, w) && !w.phase.Broken?
    requires s.db == w.s.db && s.buffer == w.s.buffer && s.txOpen && CommitOngoing(s, reason, s')
    ensures RepresentsAll(s'.db, ApplyLog(ts, Received(h, w)))
  {
    PendingApplies(h, ts, w);
    FlushRefinesLog(s.db, ApplyLog(ts, LogOf(h[..DurableCount(h, w.s)])), Pending(h, w), s.buffer, s'.db);
  }

  lemma {:induction false} PrefixExact(h: History, ts: Tables, s: State, after: Tables)
    requires IsPosition(h, s.savedLsn) && s.lastWritten == s.savedLsn && RepresentsAll(s.db, after)
    ensures DurablePrefix(h, ts, s) <==> ApplyLog(ts, LogOf(h[..CountUpTo(h, s.savedLsn)])) == after
  {
    if DurablePrefix(h, ts, s) {
      RepresentedAllIsUnique(s.db, ApplyLog(ts, LogOf(h[..CountUpTo(h, s.savedLsn)])), after);
    }
  }

  /**
   Committing what is pending under any position keeps the durable prefix if and only if the
   transactions up to that position have the effect of all that was received.
   */
  lemma {:induction false} CommitExact(h: History, ts: Tables, w: World, s: State, reason: FlushReason, s': State)
    requires ValidSource(h, ts) && Inv(h, ts, w) && !w.phase.Broken?
    requires s.db == w.s.db && s.buffer == w.s.buffer && s.txOpen && IsPosition(h, s.lastCommit)
    requires CommitOngoing(s, reason, s')
    ensures DurablePrefix(h, ts, s') <==>
            ApplyLog(ts, LogOf(h[..CountUpTo(h, s.lastCommit)])) == ApplyLog(ts, Received(h, w))
  {
    CommittedTables(h, ts, w, s, reason, s');
    PrefixExact(h, ts, s', ApplyLog(ts, Received(h, w)));
  }

  /** The state in which a Commit message is committed. */
  function CommitReceived(h: History, w: World): State
    requires CurrentIndex(w) < |h|
  {
    w.s.(lastCommit := h[CurrentIndex(w)].lsn, commitCount := w.s.commitCount + 1)
  }

  lemma {:induction false} CommitMessageCommits(h: History, w: World, step: Step, w': World) returns (s': State)
    requires Placed(h, w) && step.Commit? && Next(h, w, step, w') && Commits(h, w, step)
    ensures CommitOngoing(CommitReceived(h, w), ExtendBatch(CommitReceived(h, w), step.timedOut, step.full).1, s')
    ensures s'.db == w'.s.db && s'.savedLsn == w'.s.savedLsn && s'.lastWritten == w'.s.lastWritten
  {
    var s := CommitReceived(h, w);
    s' := Committed(s, ExtendBatch(s, step.timedOut, step.full).1, w'.s.db);
  }

  lemma {:induction false} ReceivedAtPosition(h: History, ts: Tables, w: World)
    requires ValidSource(h, ts) && CurrentIndex(w) < |h|
    ensures IsPosition(h, CommitReceived(h, w).lastCommit)
  {
    CountAtLsn(h, CurrentIndex(w) + 1);
  }

  lemma {:induction false} CommitMessageExact(h: History, ts: Tables, w: World, step: Step, w': World)
    requires ValidSource(h, ts) && Inv(h, ts, w) && step.Commit? && Next(h, w, step, w') && Commits(h, w, step)
    ensures DurablePrefix(h, ts, w'.s) <==>
            ApplyLog(ts, LogOf(h[..CountUpTo(h, SavedBy(h, w, step))])) == ApplyLog(ts, Received(h, w))
  {
    var s := CommitReceived(h, w);
    var s' := CommitMessageCommits(h, w, step, w');
    ReceivedAtPosition(h, ts, w);
    CommitExact(h, ts, w, s, ExtendBatch(s, step.timedOut, step.full).1, s');
  }

  lemma {:induction false} BeginExact(h: History, ts: Tables, w: World, step: Step, w': World)
    requires ValidSource(h, ts) && Inv(h, ts, w) && step.Begin? && Next(h, w, step, w') && Commits(h, w, step)
    ensures DurablePrefix(h, ts, w'.s) <==>
            ApplyLog(ts, LogOf(h[..CountUpTo(h, SavedBy(h, w, step))])) == ApplyLog(ts, Received(h, w))
  {
    var s := w.s.(processMessages := true, currentTxn := h[step.index].lsn);
    var reason := ExtendBatch(s, step.timedOut, step.full).1;
    CommitExact(h, ts, w, s, reason, Committed(s, reason, w'.s.db));
  }

  lemma {:induction false} StopExact(h: History, ts: Tables, w: World, w': World)
    requires ValidSource(h, ts) && Inv(h, ts, w) && Next(h, w, StopAndRestart, w') && Commits(h, w, StopAndRestart)
    ensures DurablePrefix(h, ts, w'.s) <==>
            ApplyLog(ts, LogOf(h[..CountUpTo(h, w.s.lastCommit)])) == ApplyLog(ts, Received(h, w))
  {
    CommitExact(h, ts, w, w.s, OnCloseFlush, Committed(w.s, OnCloseFlush, w'.s.db));
  }

  /**
   Any step, also one that commits while the last Commit message is that of a resent transaction
   or in the middle of a transaction, keeps the durable prefix if and only if it commits nothing,
   or the transactions up to the position it saves have the effect of all that was received.
   */
  lemma {:induction false} StepExact(h: History, ts: Tables, w: World, step: Step, w': World)
    requires ValidSource(h, ts) && Inv(h, ts, w) && Next(h, w, step, w')
    ensures DurablePrefix(h, ts, w'.s) <==>
            !Commits(h, w, step) ||
            ApplyLog(ts, LogOf(h[..CountUpTo(h, SavedBy(h, w, step))])) == ApplyLog(ts, Received(h, w))
  {
    if !Commits(h, w, step) {
      StepKeepsInv(h, ts, w, step, w');
    } else {
      match step
      case Begin(_, _, _) => BeginExact(h, ts, w, step, w');
      case Commit(_, _) => CommitMessageExact(h, ts, w, step, w');
      case Relation(_) => CommitExact(h, ts, w, w.s, DDLStmtFlush, w'.s);
      case Tick => CommitExact(h, ts, w, w.s, TimeTickFlush, w'.s);
      case StopAndRestart => StopExact(h, ts, w, w');
    }
  }

  /** A step saves the position that it commits under; without a commit the saved position stays. */
  lemma {:induction false} CommitSaves(h: History, w: World, step: Step, w': World)
    requires Placed(h, w) && Next(h, w, step, w') && (w.s.ongoingBatch <==> w.s.txOpen)
    ensures w'.s.savedLsn == if Commits(h, w, step) then SavedBy(h, w, step) else w.s.savedLsn
  {
  }

  /** The position under which a safe step commits is that of the last transaction sent to the end. */
  lemma {:induction false} SafePosition(h: History, ts: Tables, w: World, step: Step)
    requires ValidSource(h, ts) && Inv(h, ts, w) && Enabled(h, w, step) && Commits(h, w, step) && Safe(h, w, step)
    ensures step.Commit? ==> w.phase.InFresh?
    ensures CountUpTo(h, SavedBy(h, w, step)) == w.done + if step.Commit? then 1 else 0
  {
    var k := w.done + if step.Commit? then 1 else 0;
    assert SavedBy(h, w, step) == LsnAt(h, k);
    CountAtLsn(h, k);
  }

  lemma {:induction false} DoneAfterCommit(h: History, w: World, step: Step, w': World)
    requires Placed(h, w) && Next(h, w, step, w') && Commits(h, w, step) && (step.Commit? ==> w.phase.InFresh?)
    ensures w'.done == if step.StopAndRestart? then DurableCount(h, w'.s) else w.done + if step.Commit? then 1 else 0
  {
  }

  /** After a safe commit everything that the source has sent to the end is on disk. */
  lemma {:induction false} CommitsAreDurable(h: History, ts: Tables, w: World, step: Step, w': World)
    requires ValidSource(h, ts) && Inv(h, ts, w) && Next(h, w, step, w') && Commits(h, w, step) && Safe(h, w, step)
    ensures DurableCount(h, w'.s) == w'.done == w.done + if step.Commit? then 1 else 0
  {
    CommitSaves(h, w, step, w');
    SafePosition(h, ts, w, step);
    DoneAfterCommit(h, w, step, w');
  }

  /** The end of a fresh transaction can be committed at any time. */
  lemma {:induction false} FreshCommitIsSafe(h: History, ts: Tables, w: World, step: Step)
    requires ValidSource(h, ts) && Inv(h, ts, w) && step.Commit? && w.phase.InFresh?
    ensures Safe(h, w, step)
  {
    CountBounds(h, w.s.savedLsn);
  }

  /**
   Whole transactions are pending: rows have been sent, and none of them is of a transaction that has not
   been sent to the end.
   */
  ghost predicate WholePending(h: History, w: World)
    requires Placed(h, w) && DurableCount(h, w.s) <= w.done
  {
    Pending(h, w) != [] && (w.phase.InFresh? ==> w.phase.sent == 0)
  }

  /**
   The step is due to commit: a Begin or the end of a transaction once 200 ms have passed or 128 MB are
   buffered, and around the first one of a connection; a redefinition always; a tick or a stop when whole
   transactions are pending.
   */
  ghost predicate Due(h: History, w: World, step: Step)
    requires Placed(h, w) && DurableCount(h, w.s) <= w.done
  {
    match step
    case Begin(i, timedOut, full) => i == w.done && (w.s.commitCount == 1 || timedOut || full)
    case Commit(timedOut, full) => w.phase.InFresh? && (w.s.commitCount == 0 || timedOut || full)
    case Relation(redefines) => redefines
    case Tick => WholePending(h, w)
    case StopAndRestart => WholePending(h, w)
    case _ => false
  }

  lemma {:induction false} CommitsMeansDue(h: History, ts: Tables, w: World, step: Step)
    requires ValidSource(h, ts) && Inv(h, ts, w) && Enabled(h, w, step) && Safe(h, w, step) && !w.phase.Broken?
    ensures Commits(h, w, step) <==> w.s.txOpen && Due(h, w, step)
  {
    CountBounds(h, w.s.savedLsn);
    if Commits(h, w, step) {
      SafePosition(h, ts, w, step);
    }
  }

  /**
   How many transactions are on disk after a safe step: all that were sent to the end by then if a database
   transaction is open and the step is due to commit, else the same as before.
   */
  lemma {:induction false} DurableCountAfter(h: History, ts: Tables, w: World, step: Step, w': World)
    requires ValidSource(h, ts) && Inv(h, ts, w) && Next(h, w, step, w') && Safe(h, w, step)
    ensures DurableCount(h, w'.s) ==
            if !w.phase.Broken? && w.s.txOpen && Due(h, w, step) then w.done + if step.Commit? then 1 else 0
            else DurableCount(h, w.s)
  {
    if w.phase.Broken? {
      assert w'.s.savedLsn == w.s.savedLsn;
    } else {
      CommitsMeansDue(h, ts, w, step);
      if Commits(h, w, step) {
        CommitsAreDurable(h, ts, w, step, w');
      } else {
        CommitSaves(h, w, step, w');
      }
    }
  }

  lemma {:induction false} NothingReceivedYet(h: History, w: World)
    requires Placed(h, w) && (w.phase.InFresh? ==> w.phase.sent == 0)
    ensures Received(h, w) == LogOf(h[..w.done])
  {
  }

  /**
   A redefining Relation message that arrives when the last Commit message was that of the `k`-th
   transaction, resent, saves the position of that one with the tables of all of them.
   */
  lemma {:induction false} RedefinitionAfterResend(h: History, ts: Tables, w: World, k: nat, s': State)
    requires ValidSource(h, ts) && Inv(h, ts, w) && w.phase == InFresh(0) && w.s.txOpen
    requires k <= |h| && w.s.lastCommit == LsnAt(h, k) && OnRelation(w.s, true, s')
    ensures s'.savedLsn == LsnAt(h, k)
    ensures DurablePrefix(h, ts, s') <==> ApplyLog(ts, LogOf(h[..k])) == ApplyLog(ts, LogOf(h[..w.done]))
  {
    CountAtLsn(h, k);
    NothingReceivedYet(h, w);
    CommitExact(h, ts, w, w.s, DDLStmtFlush, s');
  }

  /**
   If it arrives after some rows of a transaction, those rows are committed while the saved LSN
   stays before the transaction: the durable prefix survives exactly when those rows have no net
   effect on the tables.
   */
  lemma {:induction false} RedefinitionMidTransaction(h: History, ts: Tables, w: World, s': State)
    requires ValidSource(h, ts) && Inv(h, ts, w) && w.phase.InFresh?
    requires w.s.txOpen && w.s.lastCommit >= w.s.lastWritten && OnRelation(w.s, true, s')
    ensures s'.savedLsn == LsnAt(h, w.done)
    ensures DurablePrefix(h, ts, s') <==>
            ApplyLog(ts, LogOf(h[..w.done])) == ApplyLog(ts, LogOf(h[..w.done]) + TxnLog(h[w.done])[..w.phase.sent])
  {
    CountAtLsn(h, w.done);
    CommitExact(h, ts, w, w.s, DDLStmtFlush, s');
  }

  /**
   A resend while finished transactions are pending: if the batch is committed before the next
   fresh Commit message, the position of the resent transaction is saved with all of them.
   */
  lemma {:induction false} TickAfterResend(h: History, ts: Tables, w: World, k: nat, s': State)
    requires ValidSource(h, ts) && Inv(h, ts, w) && w.phase.Between? && w.s.txOpen && IsClean(w.s)
    requires k <= |h| && w.s.lastCommit == LsnAt(h, k) && CommitIfClean(w.s, TimeTickFlush, s')
    ensures s'.savedLsn == LsnAt(h, k)
    ensures DurablePrefix(h, ts, s') <==> ApplyLog(ts, LogOf(h[..k])) == ApplyLog(ts, LogOf(h[..w.done]))
  {
    CountAtLsn(h, k);
    NothingReceivedYet(h, w);
    CommitExact(h, ts, w, w.s, TimeTickFlush, s');
  }

  // ----- Sources for which every step is safe -----

  /**
   The source resends only while nothing is pending, and redefines a relation only before the
   first row of a transaction and not while the last Commit message is that of a resent one.
   */
  ghost predicate Quiet(h: History, w: World, step: Step) {
    && (step.Begin? && step.index != w.done ==> w.done == DurableCount(h, w.s) && !w.s.txOpen)
    && (step == Relation(true) && w.s.txOpen ==>
          (w.phase.InFresh? ==> w.phase.sent == 0) && w.s.lastCommit >= w.s.lastWritten)
  }

  /** The last Commit message is that of a resent transaction only while nothing is pending. */
  ghost predicate Calm(h: History, w: World) {
    w.phase.Broken? ||
    (&& (w.s.lastCommit >= w.s.lastWritten ||
         (w.done == DurableCount(h, w.s) && (!w.phase.InFresh? ==> !w.s.txOpen)))
     && (w.phase.InStale? ==> w.done == DurableCount(h, w.s) && !w.s.txOpen))
  }

  lemma {:induction false} QuietStepIsSafe(h: History, ts: Tables, w: World, step: Step, w': World)
    requires ValidSource(h, ts) && Inv(h, ts, w) && Calm(h, w) && Next(h, w, step, w') && Quiet(h, w, step)
    ensures Safe(h, w, step)
  {
    CountBounds(h, w.s.savedLsn);
    EmptySegment(h, w.done);
  }

  lemma {:induction false} QuietBeginKeepsCalm(h: History, ts: Tables, w: World, step: Step, w': World)
    requires ValidSource(h, ts) && Inv(h, ts, w) && Calm(h, w) && Quiet(h, w, step)
    requires step.Begin? && Next(h, w, step, w')
    ensures Calm(h, w')
  {
    CountBounds(h, w.s.savedLsn);
  }

  lemma {:induction false} QuietStepKeepsCalm(h: History, ts: Tables, w: World, step: Step, w': World)
    requires ValidSource(h, ts) && Inv(h, ts, w) && Calm(h, w) && Next(h, w, step, w') && Quiet(h, w, step)
    ensures Calm(h, w')
  {
    if step.Begin? {
      QuietBeginKeepsCalm(h, ts, w, step, w');
    } else {
      CountBounds(h, w.s.savedLsn);
    }
  }
}
