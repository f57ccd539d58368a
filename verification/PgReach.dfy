/**
 Worlds that the Postgres replicator does reach: every transaction can be delivered and made
 durable, and so can those in which a commit is not safe.
 */
module PgReach {
  import opened Controller
  import opened DeltaLog
  import opened PgMachine
  import opened PgSafety
  import opened PgExact
  import opened PgRuns

  ghost predicate SafePath(h: History, ws: seq<World>, steps: seq<Step>) {
    IsPath(h, ws, steps) && forall i :: 0 <= i < |steps| ==> Safe(h, ws[i], steps[i])
  }

  ghost predicate Joins(h: History, ws: seq<World>, steps: seq<Step>, w: World, w': World) {
    SafePath(h, ws, steps) && ws[0] == w && ws[|steps|] == w'
  }

  /** Safe steps lead from the one to the other. */
  ghost predicate Reaches(h: History, w: World, w': World) {
    exists ws, steps :: Joins(h, ws, steps, w, w')
  }

  lemma {:induction false} ReachesByStep(h: History, w: World, step: Step, w': World)
    requires Placed(h, w) && Next(h, w, step, w') && Safe(h, w, step)
    ensures Reaches(h, w, w')
  {
    assert Joins(h, [w, w'], [step], w, w');
  }

  lemma {:induction false} ReachesSelf(h: History, w: World)
    ensures Reaches(h, w, w)
  {
    assert Joins(h, [w], [], w, w);
  }

  lemma {:induction false} ReachesThrough(h: History, a: World, b: World, c: World)
    requires Reaches(h, a, b) && Reaches(h, b, c)
    ensures Reaches(h, a, c)
  {
    var ws, steps :| Joins(h, ws, steps, a, b);
    var ws', steps' :| Joins(h, ws', steps', b, c);
    var us, moves, m := ws + ws'[1..], steps + steps', |steps|;
    forall i | 0 <= i < |moves|
      ensures Placed(h, us[i]) && Next(h, us[i], moves[i], us[i + 1]) && Safe(h, us[i], moves[i])
    {
      if i < m {
        assert us[i] == ws[i] && us[i + 1] == ws[i + 1] && moves[i] == steps[i];
      } else {
        assert us[i] == ws'[i - m] && us[i + 1] == ws'[i - m + 1] && moves[i] == steps'[i - m];
      }
    }
    assert Joins(h, us, moves, a, c);
  }

  // ----- Steps that can be taken -----

  /** Between transactions with nothing pending and no transaction open. */
  ghost predicate Settled(h: History, w: World) {
    w.phase.Between? && !w.s.txOpen && w.done == DurableCount(h, w.s)
  }

  /** The same but for what is buffered. */
  predicate SameFrame(s: State, s': State) {
    && s'.db == s.db && s'.savedLsn == s.savedLsn && s'.lastWritten == s.lastWritten
    && s'.lastCommit == s.lastCommit && s'.commitCount == s.commitCount
    && s'.txOpen == s.txOpen && s'.ongoingBatch == s.ongoingBatch
  }

  lemma {:induction false} SomeCommit(h: History, ts: Tables, w: World, s: State, reason: FlushReason)
    returns (s': State)
    requires ValidSource(h, ts) && Inv(h, ts, w) && !w.phase.Broken?
    requires s.txOpen && s.db == w.s.db && s.buffer == w.s.buffer
    ensures CommitOngoing(s, reason, s') && s' == Committed(s, reason, s'.db)
  {
    PendingApplies(h, ts, w);
    var db := FlushExists(w.s.db, ApplyLog(ts, LogOf(h[..DurableCount(h, w.s)])), Pending(h, w), w.s.buffer);
    s' := Committed(s, reason, db);
  }

  lemma {:induction false} Open(h: History, ts: Tables, w: World) returns (w': World)
    requires ValidSource(h, ts) && Inv(h, ts, w) && Settled(h, w) && w.done < |h|
    ensures Reaches(h, w, w') && Inv(h, ts, w') && w'.phase == InFresh(0) && w'.done == w.done
    ensures w'.s == w.s.(processMessages := true, currentTxn := h[w.done].lsn, txOpen := true, ongoingBatch := true)
  {
    var step := Begin(w.done, true, false);
    CountBounds(h, w.s.savedLsn);
    w' := w.(s := w.s.(processMessages := true, currentTxn := h[w.done].lsn, txOpen := true, ongoingBatch := true),
             phase := InFresh(0));
    assert Next(h, w, step, w');
    StepKeepsInv(h, ts, w, step, w');
    ReachesByStep(h, w, step, w');
  }

  lemma {:induction false} SendRows(h: History, ts: Tables, w: World) returns (w': World)
    requires ValidSource(h, ts) && Inv(h, ts, w) && w.phase.InFresh?
    ensures Reaches(h, w, w') && Inv(h, ts, w') && w'.phase == InFresh(|h[w.done].changes|) && w'.done == w.done
    ensures SameFrame(w.s, w'.s) && (w.s.dirtyTxn || w.phase.sent < |h[w.done].changes| ==> w'.s.dirtyTxn)
    decreases |h[w.done].changes| - w.phase.sent
  {
    if w.phase.sent == |h[w.done].changes| {
      w' := w;
      ReachesSelf(h, w);
    } else {
      var next := w.(s := OnRow(w.s, h[w.done].changes[w.phase.sent]), phase := InFresh(w.phase.sent + 1));
      StepKeepsInv(h, ts, w, RowSent, next);
      ReachesByStep(h, w, RowSent, next);
      w' := SendRows(h, ts, next);
      ReachesThrough(h, w, next, w');
    }
  }

  lemma {:induction false} CloseStep(h: History, ts: Tables, w: World) returns (w': World)
    requires ValidSource(h, ts) && Inv(h, ts, w) && w.s.txOpen
    requires w.phase.InFresh? && w.phase.sent == |h[w.done].changes|
    ensures Next(h, w, Commit(true, false), w') && w'.phase.Between? && !w'.s.txOpen && w'.done == w.done + 1
    ensures w'.s.savedLsn == h[w.done].lsn && w'.s.commitCount == w.s.commitCount + 1
  {
    var s := CommitReceived(h, w);
    var s' := SomeCommit(h, ts, w, s, ExtendBatch(s, true, false).1);
    w' := w.(s := s'.(dirtyStream := false, stmtId := 0, processMessages := false),
             phase := Between, done := w.done + 1);
  }

  /** The Commit message of a whole transaction commits a batch that is due. */
  lemma {:induction false} Close(h: History, ts: Tables, w: World) returns (w': World)
    requires ValidSource(h, ts) && Inv(h, ts, w) && w.s.txOpen
    requires w.phase.InFresh? && w.phase.sent == |h[w.done].changes|
    ensures Reaches(h, w, w') && Inv(h, ts, w') && Settled(h, w') && w'.done == w.done + 1
    ensures w'.s.commitCount == w.s.commitCount + 1
  {
    w' := CloseStep(h, ts, w);
    CountBounds(h, w.s.savedLsn);
    StepKeepsInv(h, ts, w, Commit(true, false), w');
    ReachesByStep(h, w, Commit(true, false), w');
    CountAtLsn(h, w.done + 1);
  }

  /** The Commit message of a whole transaction leaves a batch open that is not due. */
  lemma {:induction false} Hold(h: History, ts: Tables, w: World) returns (w': World)
    requires ValidSource(h, ts) && Inv(h, ts, w) && w.s.ongoingBatch && w.s.commitCount > 0
    requires w.phase.InFresh? && w.phase.sent == |h[w.done].changes|
    ensures Reaches(h, w, w') && Inv(h, ts, w') && w'.phase.Between? && w'.done == w.done + 1
    ensures w'.s == CommitReceived(h, w).(dirtyStream := false, stmtId := 0, processMessages := false)
  {
    var step := Commit(false, false);
    w' := w.(s := CommitReceived(h, w).(dirtyStream := false, stmtId := 0, processMessages := false),
             phase := Between, done := w.done + 1);
    assert Next(h, w, step, w');
    StepKeepsInv(h, ts, w, step, w');
    ReachesByStep(h, w, step, w');
  }

  /** The next transaction is delivered and made durable. */
  lemma {:induction false} Deliver(h: History, ts: Tables, w: World) returns (w': World)
    requires ValidSource(h, ts) && Inv(h, ts, w) && Settled(h, w) && w.done < |h|
    ensures Reaches(h, w, w') && Inv(h, ts, w') && Settled(h, w') && w'.done == w.done + 1
    ensures w'.s.commitCount == w.s.commitCount + 1
  {
    var a := Open(h, ts, w);
    var b := SendRows(h, ts, a);
    w' := Close(h, ts, b);
    ReachesThrough(h, w, a, b);
    ReachesThrough(h, w, b, w');
  }

  /** The next transaction is delivered and kept pending. */
  lemma {:induction false} DeliverAndHold(h: History, ts: Tables, w: World) returns (w': World)
    requires ValidSource(h, ts) && Inv(h, ts, w) && Settled(h, w) && w.done < |h| && w.s.commitCount > 0
    ensures Reaches(h, w, w') && Inv(h, ts, w') && w'.phase.Between? && w'.done == w.done + 1
    ensures w'.s.txOpen && w'.s.ongoingBatch && w'.s.commitCount > 0 && w'.s.lastWritten == w.s.lastWritten
    ensures h[w.done].changes != [] ==> IsClean(w'.s)
  {
    var a := Open(h, ts, w);
    var b := SendRows(h, ts, a);
    w' := Hold(h, ts, b);
    ReachesThrough(h, w, a, b);
    ReachesThrough(h, w, b, w');
  }

  lemma {:induction false} SkipRows(h: History, ts: Tables, w: World) returns (w': World)
    requires ValidSource(h, ts) && Inv(h, ts, w) && w.phase.InStale?
    ensures Reaches(h, w, w') && Inv(h, ts, w')
    ensures w' == w.(phase := InStale(w.phase.index, |h[w.phase.index].changes|))
    decreases |h[w.phase.index].changes| - w.phase.sent
  {
    if w.phase.sent == |h[w.phase.index].changes| {
      w' := w;
      ReachesSelf(h, w);
    } else {
      var next := w.(phase := InStale(w.phase.index, w.phase.sent + 1));
      assert Next(h, w, RowSent, next);
      StepKeepsInv(h, ts, w, RowSent, next);
      ReachesByStep(h, w, RowSent, next);
      w' := SkipRows(h, ts, next);
      ReachesThrough(h, w, next, w');
    }
  }

  lemma {:induction false} SkipCommit(h: History, ts: Tables, w: World) returns (w': World)
    requires ValidSource(h, ts) && Inv(h, ts, w)
    requires w.phase.InStale? && w.phase.sent == |h[w.phase.index].changes|
    requires w.s.txOpen ==> w.s.ongoingBatch && w.s.commitCount > 0
    ensures Reaches(h, w, w') && Inv(h, ts, w') && w'.phase.Between? && w'.done == w.done
    ensures w'.s == CommitReceived(h, w).(dirtyStream := false, stmtId := 0, processMessages := false)
  {
    var step := Commit(false, false);
    w' := w.(s := CommitReceived(h, w).(dirtyStream := false, stmtId := 0, processMessages := false), phase := Between);
    assert Next(h, w, step, w');
    StepKeepsInv(h, ts, w, step, w');
    ReachesByStep(h, w, step, w');
  }

  /** An older transaction is resent and skipped; its position stays behind as that of the last Commit message. */
  lemma {:induction false} Resend(h: History, ts: Tables, w: World, i: nat) returns (w': World)
    requires ValidSource(h, ts) && Inv(h, ts, w) && w.phase.Between? && i < |h| && h[i].lsn < w.s.lastWritten
    requires w.s.txOpen ==> w.s.ongoingBatch && w.s.commitCount > 0
    ensures Reaches(h, w, w') && Inv(h, ts, w') && w'.phase.Between? && w'.done == w.done
    ensures w'.s == w.s.(lastCommit := h[i].lsn, commitCount := w.s.commitCount + 1, processMessages := false)
  {
    var step, a := Begin(i, false, false), w.(s := w.s.(processMessages := false), phase := InStale(i, 0));
    CountBounds(h, w.s.savedLsn);
    assert Next(h, w, step, a);
    StepKeepsInv(h, ts, w, step, a);
    ReachesByStep(h, w, step, a);
    var b := SkipRows(h, ts, a);
    w' := SkipCommit(h, ts, b);
    ReachesThrough(h, w, a, b);
    ReachesThrough(h, w, b, w');
  }

  // ----- Runs -----

  /** From every start the whole source, or any part of it from the front, can be replicated. */
  lemma {:induction false} CatchUp(h: History, ts: Tables, w: World, n: nat) returns (w': World)
    requires ValidSource(h, ts) && Initial(h, ts, w) && n <= |h|
    ensures Reaches(h, w, w') && Inv(h, ts, w') && Settled(h, w') && w'.done == w'.s.commitCount == n
    ensures w'.s.savedLsn == LsnAt(h, n)
  {
    if n == 0 {
      InitialInv(h, ts, w);
      CountBounds(h, 0);
      ReachesSelf(h, w);
      w' := w;
    } else {
      var a := CatchUp(h, ts, w, n - 1);
      w' := Deliver(h, ts, a);
      ReachesThrough(h, w, a, w');
    }
  }

  /** A run after which a fresh transaction has begun behind one that was resent. */
  lemma {:induction false} RunToBegin(h: History, ts: Tables, start: World) returns (w: World)
    requires ValidSource(h, ts) && Initial(h, ts, start) && |h| >= 3
    ensures Reaches(h, start, w) && Inv(h, ts, w) && w.phase == InFresh(0) && w.done == 2 && w.s.txOpen
    ensures w.s.lastCommit == LsnAt(h, 1) < w.s.savedLsn
  {
    var a := CatchUp(h, ts, start, 2);
    var b := Resend(h, ts, a, 0);
    w := Open(h, ts, b);
    ReachesThrough(h, start, a, b);
    ReachesThrough(h, start, b, w);
  }

  /**
   Over every source of at least three transactions there is a run that gets to a redefining Relation
   message behind a resent transaction. That message keeps the durable prefix only if the second
   transaction changes nothing.
   */
  lemma {:induction false} RunToRedefinition(h: History, ts: Tables, start: World) returns (w: World, w': World)
    requires ValidSource(h, ts) && Initial(h, ts, start) && |h| >= 3
    ensures Reaches(h, start, w) && Placed(h, w) && Next(h, w, Relation(true), w') && !Safe(h, w, Relation(true))
    ensures w'.s.savedLsn == h[0].lsn < w.s.savedLsn
    ensures DurablePrefix(h, ts, w'.s) <==> ApplyLog(ts, LogOf(h[..1])) == ApplyLog(ts, LogOf(h[..2]))
  {
    w := RunToBegin(h, ts, start);
    var s' := SomeCommit(h, ts, w, w.s, DDLStmtFlush);
    w' := w.(s := s');
    RedefinitionAfterResend(h, ts, w, 1, s');
  }

  /**
   And one that gets to a tick behind a transaction that was resent while the third one, which has
   rows, was pending.
   */
  lemma {:induction false} RunToTick(h: History, ts: Tables, start: World) returns (w: World, w': World)
    requires ValidSource(h, ts) && Initial(h, ts, start) && |h| >= 3 && h[2].changes != []
    ensures Reaches(h, start, w) && Placed(h, w) && Next(h, w, Tick, w') && !Safe(h, w, Tick)
    ensures w'.s.savedLsn == h[0].lsn < w.s.savedLsn
    ensures DurablePrefix(h, ts, w'.s) <==> ApplyLog(ts, LogOf(h[..1])) == ApplyLog(ts, LogOf(h[..3]))
  {
    var a := CatchUp(h, ts, start, 2);
    var b := DeliverAndHold(h, ts, a);
    w := Resend(h, ts, b, 0);
    ReachesThrough(h, start, a, b);
    ReachesThrough(h, start, b, w);
    var s' := SomeCommit(h, ts, w, w.s, TimeTickFlush);
    w' := w.(s := s');
    TickAfterResend(h, ts, w, 1, s');
  }
}
