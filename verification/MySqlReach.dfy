/**
 Worlds that the MySQL applier does reach: every source can be replicated, and a stop can fall between a
 GTID event and its BEGIN while a batch is open.
 */
module MySqlReach {
  import opened Controller
  import opened DeltaLog
  import opened Flushing
  import opened MySqlMachine
  import opened MySqlSafety
  import opened MySqlExact
  import opened MySqlRuns

  ghost predicate Joins(h: History, ws: seq<World>, steps: seq<Step>, w: World, w': World) {
    IsPath(h, ws, steps) && ws[0] == w && ws[|steps|] == w'
  }

  /** Steps that save nothing unfinished lead from the one to the other. */
  ghost predicate Reaches(h: History, w: World, w': World) {
    exists ws, steps :: Joins(h, ws, steps, w, w')
  }

  lemma {:induction false} ReachesByStep(h: History, w: World, step: Step, w': World)
    requires Placed(h, w) && Next(h, w, step, w') && !SavesUnfinished(w, step)
    ensures Reaches(h, w, w')
  {
    assert Joins(h, [w, w'], [step], w, w');
  }

  lemma {:induction false} ReachesSelf(h: History, w: World)
    ensures Reaches(h, w, w)
  {
    assert Joins(h, [w], [], w, w);
  }

  lemma {:induction false} ReachesThrough(h: History, a: World, b: World, c: World)
    requires Reaches(h, a, b) && Reaches(h, b, c)
    ensures Reaches(h, a, c)
  {
    var ws, steps :| Joins(h, ws, steps, a, b);
    var ws', steps' :| Joins(h, ws', steps', b, c);
    var us, moves, m := ws + ws'[1..], steps + steps', |steps|;
    forall i | 0 <= i < |moves|
      ensures Placed(h, us[i]) && Next(h, us[i], moves[i], us[i + 1]) && !SavesUnfinished(us[i], moves[i])
    {
      if i < m {
        assert us[i] == ws[i] && us[i + 1] == ws[i + 1] && moves[i] == steps[i];
      } else {
        assert us[i] == ws'[i - m] && us[i + 1] == ws'[i - m + 1] && moves[i] == steps'[i - m];
      }
    }
    assert Joins(h, us, moves, a, c);
  }

  // ----- Steps that can be taken -----

  lemma {:induction false} Announce(h: History, ts: Tables, purged: set<nat>, w: World) returns (w': World)
    requires ValidSource(h, ts, purged) && Inv(h, ts, purged, w) && w.phase.Between? && w.done < |h|
    ensures Reaches(h, w, w') && Inv(h, ts, purged, w')
    ensures w' == w.(s := OnGtid(w.s, h[w.done].gtid), phase := Announced)
  {
    w' := w.(s := OnGtid(w.s, h[w.done].gtid), phase := Announced);
    StepKeepsInv(h, ts, purged, w, GtidEvent, w');
    ReachesByStep(h, w, GtidEvent, w');
  }

  /** What is buffered can be written. */
  lemma {:induction false} SomeFlush(h: History, ts: Tables, purged: set<nat>, w: World) returns (db: Database)
    requires ValidSource(h, ts, purged) && Inv(h, ts, purged, w)
    ensures FlushedTo(View(w.s), w.s.buffer, db)
  {
    BufferedIsValid(h, ts, purged, w);
    db := FlushExists(w.s.db, ApplyTxns(ts, h[..DurableCount(h, w.s)]), w.log, w.s.buffer);
  }

  lemma {:induction false} SomeFlushOfNothing(db: Database, buffer: Buffer)
    requires Drained(buffer)
    ensures FlushedTo(db, buffer, db)
  {
  }

  lemma {:induction false} SomeCommitBefore(h: History, ts: Tables, purged: set<nat>, w: World, reason: FlushReason)
    returns (s1: State)
    requires ValidSource(h, ts, purged) && Inv(h, ts, purged, w)
    ensures CommitBefore(w.s, reason, s1)
  {
    var view := SomeFlush(h, ts, purged, w);
    s1 := Flushed(w.s, reason, view);
    if s1.dirtyTxn {
      FlushedBufferIsDrained(w.s.buffer, reason);
      SomeFlushOfNothing(view, s1.buffer);
      s1 := Committed(s1, ImplicitCommitBeforeStmt, reason, view);
    }
  }

  lemma {:induction false} NotAhead(h: History, ts: Tables, purged: set<nat>, w: World)
    requires ValidSource(h, ts, purged) && Inv(h, ts, purged, w) && !w.phase.Between? && !w.s.ongoingBatch
    ensures !Ahead(w)
  {
    AnnouncedIsNew(h, purged, w.done);
  }

  /** BEGIN commits what is left and opens a batch. */
  lemma {:induction false} Begin(h: History, ts: Tables, purged: set<nat>, w: World) returns (w': World)
    requires ValidSource(h, ts, purged) && Inv(h, ts, purged, w) && w.phase.Announced? && h[w.done].RowTxn?
    requires !w.s.ongoingBatch
    ensures Reaches(h, w, w') && Inv(h, ts, purged, w') && w'.phase == InTxn(0) && w'.done == w.done
    ensures w'.s.ongoingBatch
  {
    var step := BeginEvent(false, false, false);
    var s1 := SomeCommitBefore(h, ts, purged, w, UnknownFlush);
    w' := World(s1.(dirtyTxn := true, dirtyStream := true, ongoingBatch := true), w.done, InTxn(0), []);
    assert w'.s == s1.(dirtyTxn := true, dirtyStream := true, ongoingBatch := true, stmtId := s1.stmtId + 0);
    assert Next(h, w, step, w');
    NotAhead(h, ts, purged, w);
    StepKeepsInv(h, ts, purged, w, step, w');
    ReachesByStep(h, w, step, w');
  }

  lemma {:induction false} SendRows(h: History, ts: Tables, purged: set<nat>, w: World) returns (w': World)
    requires ValidSource(h, ts, purged) && Inv(h, ts, purged, w) && w.phase.InTxn?
    ensures Reaches(h, w, w') && Inv(h, ts, purged, w') && w'.phase == InTxn(|h[w.done].rows|) && w'.done == w.done
    ensures w'.s.ongoingBatch == w.s.ongoingBatch
    decreases |h[w.done].rows| - w.phase.sent
  {
    if w.phase.sent == |h[w.done].rows| {
      w' := w;
      ReachesSelf(h, w);
    } else {
      var r := h[w.done].rows[w.phase.sent];
      var next := w.(s := OnRows(w.s, r), phase := InTxn(w.phase.sent + 1),
                     log := w.log + [NextEntry(h, w)]);
      StepKeepsInv(h, ts, purged, w, RowsEvent, next);
      ReachesByStep(h, w, RowsEvent, next);
      w' := SendRows(h, ts, purged, next);
      ReachesThrough(h, w, next, w');
    }
  }

  /** The end of a transaction leaves a batch open that is not due. */
  lemma {:induction false} Hold(h: History, ts: Tables, purged: set<nat>, w: World) returns (w': World)
    requires ValidSource(h, ts, purged) && Inv(h, ts, purged, w) && w.s.ongoingBatch
    requires w.phase.InTxn? && w.phase.sent == |h[w.done].rows|
    ensures Reaches(h, w, w') && Inv(h, ts, purged, w') && w'.phase.Between? && w'.done == w.done + 1
    ensures w'.s.ongoingBatch
  {
    var step := XidEvent(false, false);
    w' := World(w.s.(pending := AppendGtid(w.s.pending, w.s.currentGtid), dirtyStream := false),
                w.done + 1, Between, w.log);
    assert Next(h, w, step, w');
    StepKeepsInv(h, ts, purged, w, step, w');
    ReachesByStep(h, w, step, w');
  }

  /** And commits one that is due. */
  lemma {:induction false} Close(h: History, ts: Tables, purged: set<nat>, w: World) returns (w': World)
    requires ValidSource(h, ts, purged) && Inv(h, ts, purged, w)
    requires w.phase.InTxn? && w.phase.sent == |h[w.done].rows|
    ensures Reaches(h, w, w') && Inv(h, ts, purged, w') && w'.phase.Between? && w'.done == w.done + 1
    ensures !w'.s.ongoingBatch
  {
    var step := XidEvent(true, false);
    var db := SomeFlush(h, ts, purged, w);
    w' := World(Committed(w.s, NormalCommit, ExtendBatch(w.s, true, false).1, db), w.done + 1, Between, []);
    assert Next(h, w, step, w');
    StepKeepsInv(h, ts, purged, w, step, w');
    ReachesByStep(h, w, step, w');
  }

  lemma {:induction false} DdlStep(h: History, ts: Tables, purged: set<nat>, w: World) returns (w': World)
    requires ValidSource(h, ts, purged) && Inv(h, ts, purged, w) && w.phase.Announced? && h[w.done].DdlTxn?
    ensures Next(h, w, DdlEvent(true), w')
  {
    var s1 := SomeCommitBefore(h, ts, purged, w, DDLStmtFlush);
    CommitBeforeSettles(h, ts, purged, w, DDLStmtFlush, s1);
    var executed := s1.(tx := Open(ExecuteDdl(View(s1), h[w.done].ddl, true)),
                        dirtyTxn := true, dirtyStream := true, ongoingBatch := false);
    SomeFlushOfNothing(View(executed), executed.buffer);
    var s2 := Committed(executed, ImplicitCommitAfterStmt, DDLStmtFlush, View(executed));
    w' := World(s2.(stmtId := s2.stmtId + 1), w.done + 1, Between, []);
    assert CommitOngoing(executed, ImplicitCommitAfterStmt, DDLStmtFlush, s2);
  }

  lemma {:induction false} Execute(h: History, ts: Tables, purged: set<nat>, w: World) returns (w': World)
    requires ValidSource(h, ts, purged) && Inv(h, ts, purged, w) && w.phase.Announced? && h[w.done].DdlTxn?
    ensures Reaches(h, w, w') && Inv(h, ts, purged, w') && w'.phase.Between? && w'.done == w.done + 1
    ensures !w'.s.ongoingBatch
  {
    w' := DdlStep(h, ts, purged, w);
    StepKeepsInv(h, ts, purged, w, DdlEvent(true), w');
    ReachesByStep(h, w, DdlEvent(true), w');
  }

  /** The next transaction is delivered, its batch not kept open. */
  lemma {:induction false} Deliver(h: History, ts: Tables, purged: set<nat>, w: World) returns (w': World)
    requires ValidSource(h, ts, purged) && Inv(h, ts, purged, w) && w.phase.Between? && !w.s.ongoingBatch
    requires w.done < |h|
    ensures Reaches(h, w, w') && Inv(h, ts, purged, w') && w'.phase.Between? && w'.done == w.done + 1
    ensures !w'.s.ongoingBatch
  {
    var a := Announce(h, ts, purged, w);
    if h[w.done].DdlTxn? {
      w' := Execute(h, ts, purged, a);
      ReachesThrough(h, w, a, w');
    } else {
      var b := Begin(h, ts, purged, a);
      var c := SendRows(h, ts, purged, b);
      w' := Close(h, ts, purged, c);
      ReachesThrough(h, w, a, b);
      ReachesThrough(h, w, b, c);
      ReachesThrough(h, w, c, w');
    }
  }

  // ----- Runs -----

  /** From every start the whole source, or any part of it from the front, can be replicated. */
  lemma {:induction false} CatchUp(h: History, ts: Tables, purged: set<nat>, w: World, n: nat) returns (w': World)
    requires ValidSource(h, ts, purged) && Initial(ts, purged, w) && n <= |h|
    ensures Reaches(h, w, w') && Inv(h, ts, purged, w') && w'.phase.Between? && w'.done == n && !w'.s.ongoingBatch
  {
    if n == 0 {
      InitialInv(h, ts, purged, w);
      ReachesSelf(h, w);
      w' := w;
    } else {
      var a := CatchUp(h, ts, purged, w, n - 1);
      w' := Deliver(h, ts, purged, a);
      ReachesThrough(h, w, a, w');
    }
  }

  /** Behind every transaction of rows the next one can be announced while the batch is still open. */
  lemma {:induction false} AnnouncedInBatch(h: History, ts: Tables, purged: set<nat>, start: World, d: nat)
    returns (w: World)
    requires ValidSource(h, ts, purged) && Initial(ts, purged, start) && d + 1 < |h| && h[d].RowTxn?
    ensures Reaches(h, start, w) && Inv(h, ts, purged, w) && w.phase.Announced? && w.done == d + 1 && w.s.ongoingBatch
  {
    var a := CatchUp(h, ts, purged, start, d);
    var b := Announce(h, ts, purged, a);
    var c := Begin(h, ts, purged, b);
    var e := SendRows(h, ts, purged, c);
    var f := Hold(h, ts, purged, e);
    w := Announce(h, ts, purged, f);
    ReachesThrough(h, start, a, b);
    ReachesThrough(h, start, b, c);
    ReachesThrough(h, start, c, e);
    ReachesThrough(h, start, e, f);
    ReachesThrough(h, start, f, w);
  }

  /** And the applier can be stopped there, after which it never asks for that transaction again. */
  lemma {:induction false} RunToStop(h: History, ts: Tables, purged: set<nat>, start: World, d: nat)
    returns (w: World, w': World)
    requires ValidSource(h, ts, purged) && Initial(ts, purged, start) && d + 1 < |h| && h[d].RowTxn?
    ensures Reaches(h, start, w) && Placed(h, w) && Next(h, w, StopAndRestart, w')
    ensures w'.done == d + 2 && RepresentsAll(w'.s.db, ApplyTxns(ts, h[..d + 1]))
    ensures DurablePosition(h, ts, purged, w'.s) <==> ApplyTxns(ts, h[..d + 2]) == ApplyTxns(ts, h[..d + 1])
  {
    w := AnnouncedInBatch(h, ts, purged, start, d);
    var db := SomeFlush(h, ts, purged, w);
    var s' := Committed(w.s, NormalCommit, OnCloseFlush, db);
    assert OnStop(w.s, s');
    w' := Resumed(Restarted(s'), CountIn(h, s'.saved));
    StopBetweenGtidAndBegin(h, ts, purged, w, s');
    StepExact(h, ts, purged, w, StopAndRestart, w');
  }
}
