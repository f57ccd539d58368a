/**
 The replicator object. Its methods are steps of the machine, and beside its state it keeps, as ghost
 fields, the world it is in: every method leaves the object valid, which says that the tables on disk
 are the durable prefix of the source.
 */
module PgReplicator {
  import opened Rows
  import opened Tags
  import opened Strategies
  import opened Controller
  import opened DeltaLog
  import opened Flushing
  import opened PgMachine
  import opened PgSafety
  import opened PgExact
  import opened PgRuns

  /** `announced`: the relation of the row has been described on this connection. */
  datatype Message =
    | BeginMessage(finalLsn: nat)
    | CommitMessage(commitLsn: nat)
    | RowChange(row: RowMessage, announced: bool)
    | RelationMessage(redefines: bool)

  /**
   What the surroundings decide while a message is processed: whether 200 ms have passed,
   whether the buffer is full, and whether the database accepts a commit.
   */
  datatype Surroundings = Surroundings(timedOut: bool, full: bool, accepts: bool)

  predicate KnowsItsTables(s: State) {
    s.buffer.Keys <= s.db.Keys
  }

  /** A commit goes through: nothing is open, or the database accepts it and no index refuses a row. */
  ghost predicate CanCommit(s: State, accepts: bool) {
    !s.txOpen || (accepts && !exists id :: Blocks(s.db, s.buffer, id, true))
  }

  lemma {:induction false} OnlySurroundingsRefuse(h: History, ts: Tables, w: World, accepts: bool)
    requires ValidSource(h, ts) && Inv(h, ts, w)
    ensures CanCommit(w.s, accepts) <==> !w.s.txOpen || accepts
  {
    if exists id :: !w.phase.Broken? && Blocks(w.s.db, w.s.buffer, id, true) {
      var id :| !w.phase.Broken? && Blocks(w.s.db, w.s.buffer, id, true);
      NeverBlocked(h, ts, w, id);
    }
  }

  lemma {:induction false} CommitSucceeds(h: History, ts: Tables, w: World, e: Surroundings)
    requires ValidSource(h, ts) && Inv(h, ts, w)
    ensures (|| MayExtendBatch(w.s.(commitCount := w.s.commitCount + 1), e.timedOut, e.full)
             || CanCommit(w.s, e.accepts)) <==>
            e.accepts || !Commits(h, w, Commit(e.timedOut, e.full))
  {
    OnlySurroundingsRefuse(h, ts, w, e.accepts);
  }

  lemma {:induction false} CleanCommitSucceeds(h: History, w: World, accepts: bool)
    requires CanCommit(w.s, accepts) <==> !w.s.txOpen || accepts
    ensures !IsClean(w.s) || CanCommit(w.s, accepts) <==> accepts || !Commits(h, w, Tick)
    ensures Commits(h, w, Tick) <==> Commits(h, w, StopAndRestart)
  {
  }

  /** The step that the message is, `index` being the transaction that a Begin message is of. */
  function StepOf(m: Message, e: Surroundings, index: nat): Step {
    match m
    case BeginMessage(_) => Begin(index, e.timedOut, e.full)
    case CommitMessage(_) => Commit(e.timedOut, e.full)
    case RowChange(_, _) => RowSent
    case RelationMessage(redefines) => Relation(redefines)
  }

  /** The source may send the message now. */
  ghost predicate Sends(h: History, w: World, m: Message, e: Surroundings, index: nat)
    requires Placed(h, w)
  {
    && Enabled(h, w, StepOf(m, e, index))
    && match m
       case BeginMessage(lsn) => lsn == h[index].lsn
       case CommitMessage(lsn) => lsn == h[CurrentIndex(w)].lsn
       case RowChange(row, _) => row == h[CurrentIndex(w)].changes[w.phase.sent]
       case RelationMessage(_) => true
  }

  lemma {:induction false} LastIsAdmitted(ts: Tables, log: seq<Entry>, e: Entry)
    requires ValidLog(ts, log + [e])
    ensures e.table in ts
  {
    assert (log + [e])[..|log|] == log;
    ApplyLogKeys(ts, log);
  }

  /** The row messages of a valid source are about tables that exist. */
  lemma {:induction false} SentTableExists(h: History, ts: Tables, d: nat, k: nat)
    requires ValidSource(h, ts) && d < |h| && k < |h[d].changes|
    ensures h[d].changes[k].table in ts
  {
    var log := LogOf(h[d..d]) + TxnLog(h[d])[..k];
    PartialTransaction(h, ts, d, d, k + 1);
    assert LogOf(h[d..d]) + TxnLog(h[d])[..k + 1] == log + [EntryAt(h[d], k)];
    LastIsAdmitted(ApplyLog(ts, LogOf(h[..d])), log, EntryAt(h[d], k));
    ApplyLogKeys(ts, LogOf(h[..d]));
  }

  ghost function AfterRow(h: History, w: World): World
    requires Placed(h, w) && Enabled(h, w, RowSent)
  {
    w.(s := OnRow(w.s, h[CurrentIndex(w)].changes[w.phase.sent]), phase := w.phase.(sent := w.phase.sent + 1))
  }

  ghost function AfterCommit(w: World, s': State): World {
    w.(s := s', phase := Between, done := if w.phase.InFresh? then w.done + 1 else w.done)
  }

  lemma {:induction false} CommitTaken(h: History, ts: Tables, w: World, lsn: nat, e: Surroundings, s': State)
    requires ValidSource(h, ts) && Inv(h, ts, w) && Enabled(h, w, Commit(e.timedOut, e.full))
    requires lsn == h[CurrentIndex(w)].lsn && OnCommit(w.s, lsn, e.timedOut, e.full, s')
    ensures Next(h, w, Commit(e.timedOut, e.full), AfterCommit(w, s'))
    ensures w.phase.InFresh? ==> Safe(h, w, Commit(e.timedOut, e.full))
  {
    if w.phase.InFresh? {
      FreshCommitIsSafe(h, ts, w, Commit(e.timedOut, e.full));
    }
  }

  lemma {:induction false} RowCanBeBuffered(h: History, ts: Tables, w: World)
    requires ValidSource(h, ts) && SingleRowMessages(h) && Inv(h, ts, w) && Enabled(h, w, RowSent)
    ensures var row := h[CurrentIndex(w)].changes[w.phase.sent];
            w.s.processMessages ==> row.table in w.s.db && SingleRow(row.event)
    ensures Next(h, w, RowSent, AfterRow(h, w))
  {
    if w.phase.InFresh? {
      SentTableExists(h, ts, w.done, w.phase.sent);
      ApplyLogKeys(ts, LogOf(h[..DurableCount(h, w.s)]));
    }
  }

  /** To start from what a stop left on disk is the machine's restart. */
  lemma {:induction false} StopAndStart(h: History, w: World, s1: State)
    requires Placed(h, w) && CommitIfClean(w.s, OnCloseFlush, s1)
    ensures Next(h, w, StopAndRestart, Connected(w, Reset(s1, s1.savedLsn), CountUpTo(h, s1.savedLsn)))
  {
  }

  lemma {:induction false} StopKeepsPrefix(h: History, ts: Tables, w: World, s1: State)
    requires ValidSource(h, ts) && Inv(h, ts, w) && CommitIfClean(w.s, OnCloseFlush, s1)
    requires Safe(h, w, StopAndRestart)
    ensures Inv(h, ts, w.(s := s1.(txOpen := false), phase := Broken))
  {
    var restarted := Connected(w, Reset(s1, s1.savedLsn), CountUpTo(h, s1.savedLsn));
    StopAndStart(h, w, s1);
    StepKeepsInv(h, ts, w, StopAndRestart, restarted);
    assert s1.lastWritten == s1.savedLsn;
    BrokenInv(h, ts, w, restarted.s, s1.(txOpen := false));
  }

  lemma {:induction false} Stopped(h: History, ts: Tables, w: World, ok: bool, s1: State)
    requires ValidSource(h, ts) && Inv(h, ts, w)
    requires if ok then CommitIfClean(w.s, OnCloseFlush, s1) else RolledBack(w.s, s1)
    ensures Next(h, w, if ok then StopAndRestart else Crash,
                 Connected(w, Reset(s1, s1.savedLsn), CountUpTo(h, s1.savedLsn)))
    ensures Safe(h, w, StopAndRestart) ==> Inv(h, ts, w.(s := s1.(txOpen := false), phase := Broken))
    ensures ok && Safe(h, w, StopAndRestart) && Commits(h, w, StopAndRestart) ==> DurableCount(h, s1) == w.done
  {
    if ok {
      StopAndStart(h, w, s1);
      if Safe(h, w, StopAndRestart) {
        StopKeepsPrefix(h, ts, w, s1);
        if Commits(h, w, StopAndRestart) {
          var restarted := Connected(w, Reset(s1, s1.savedLsn), CountUpTo(h, s1.savedLsn));
          CommitsAreDurable(h, ts, w, StopAndRestart, restarted);
        }
      }
    }
  }

  /** The transactions below the reported position are those on disk. */
  lemma {:induction false} ReportedMeansDurable(h: History, ts: Tables, w: World)
    requires ValidSource(h, ts) && DurablePrefix(h, ts, w.s)
    ensures forall i :: 0 <= i < |h| ==> (h[i].lsn < w.s.lastWritten + 1 <==> i < DurableCount(h, w.s))
  {
    CountBounds(h, w.s.savedLsn);
  }

  /** `append`: buffers one row of one half of a row message, and counts it. */
  function AppendRow(app: Appender, c: Change, kind: EventKind): Appender {
    Appender(app.rows + [c], ObserveEvents(UpdateActionStats(app.counters, c.action, 1), kind))
  }

  /** `append` with an empty tuple: the key columns of an update are unchanged, only the event is counted. */
  function AppendEmptyTuple(app: Appender): Appender {
    Appender(app.rows, ObserveEvents(app.counters, UpdateEvent))
  }

  /** The halves appended one after the other make up the whole message. */
  method AppendRowMessage(app: Appender, stamp: Stamp, e: Event) returns (app': Appender)
    requires SingleRow(e)
    ensures app' == PgAppend(app, Stamped(stamp, e))
  {
    match e {
      case InsertRows(rows) =>
        app' := AppendRow(app, Change(Insert, stamp, rows[0]), InsertEvent);
      case DeleteRows(rows) =>
        app' := AppendRow(app, Change(Delete, stamp, rows[0]), DeleteEvent);
      case UpdateRows(before, after) =>
        app' := AppendRow(app, Change(Delete, stamp, before[0]), UpdateEvent);
        app' := AppendRow(app', Change(Insert, stamp, after[0]), UpdateEvent);
      case UpdateInPlace(row) =>
        app' := AppendEmptyTuple(app);
        app' := AppendRow(app', Change(Insert, stamp, row), UpdateEvent);
    }
    assert app'.rows == PgAppend(app, Stamped(stamp, e)).rows;
  }

  class LogicalReplicator {
    /** The `replicationState` record, together with the database it writes to. */
    var state: State

    ghost var h: History
    ghost var ts: Tables
    ghost var world: World

    /** The object is in its world, whose invariant holds. */
    ghost predicate Valid()
      reads this
    {
      && ValidSource(h, ts) && SingleRowMessages(h) && Inv(h, ts, world)
      && world.s == state && KnowsItsTables(state)
    }

    /** Starts from the position found on disk, whatever left it there. */
    constructor (disk: State, ghost h: History, ghost ts: Tables, ghost w: World)
      requires ValidSource(h, ts) && SingleRowMessages(h) && Inv(h, ts, w)
      requires disk.db == w.s.db && disk.savedLsn == w.s.savedLsn
      ensures Valid() && this.h == h && this.ts == ts
      ensures Next(h, w, Crash, world)
    {
      state := Reset(disk, disk.savedLsn);
      this.h, this.ts := h, ts;
      world := Connected(w, Reset(disk, disk.savedLsn), CountUpTo(h, disk.savedLsn));
      StepKeepsInv(h, ts, w, Crash, Connected(w, Reset(disk, disk.savedLsn), CountUpTo(h, disk.savedLsn)));
    }

    // ----- Parts of steps -----

    /**
     Flushes the buffer, saves the last commit LSN and commits, all in one transaction. A failure
     rolls the transaction back: the database and the saved LSN stay as they were.
     */
    method CommitOngoingTxn(reason: FlushReason, accepts: bool) returns (ok: bool)
      requires KnowsItsTables(state)
      modifies `state
      ensures KnowsItsTables(state)
      ensures ok ==> CommitOngoing(old(state), reason, state)
      ensures !ok ==> old(state).txOpen && state == old(state).(txOpen := false, buffer := state.buffer)
      ensures ok <==> CanCommit(old(state), accepts)
    {
      if !state.txOpen {
        return true;
      }
      var flushed, left, _ := FlushTables(state.db, state.buffer, true, reason);
      if flushed.Err? || !accepts {
        state := state.(txOpen := false, buffer := left);
        return false;
      }
      state := state.(db := flushed.value, savedLsn := state.lastCommit, txOpen := false,
                      buffer := left, lastWritten := state.lastCommit,
                      ongoingBatch := false, dirtyTxn := false, dirtyStream := false, stmtId := 0);
      return true;
    }

    method CommitOngoingTxnIfClean(reason: FlushReason, accepts: bool) returns (ok: bool)
      requires KnowsItsTables(state)
      modifies `state
      ensures KnowsItsTables(state)
      ensures ok ==> CommitIfClean(old(state), reason, state)
      ensures !ok ==> old(state).txOpen && RolledBack(old(state), state)
      ensures ok <==> !IsClean(old(state)) || CanCommit(old(state), accepts)
    {
      ok := true;
      if state.dirtyTxn && !state.dirtyStream {
        ok := CommitOngoingTxn(reason, accepts);
      }
    }

    method MayExtendBatchTxn(timedOut: bool, full: bool) returns (extend: bool, reason: FlushReason)
      ensures (extend, reason) == ExtendBatch(state, timedOut, full)
    {
      extend, reason := false, UnknownFlush;
      if state.ongoingBatch {
        extend := true;
        if state.commitCount == 1 {
          extend, reason := false, InitFlush;
        } else if timedOut {
          extend, reason := false, TimeTickFlush;
        } else if full {
          extend, reason := false, MemoryLimitFlush;
        }
      }
    }

    /** Goes on with the batch where that is allowed, and commits it where not. */
    method ExtendOrCommit(e: Surroundings) returns (extended: bool, ok: bool)
      requires KnowsItsTables(state)
      modifies `state
      ensures KnowsItsTables(state)
      ensures extended <==> MayExtendBatch(old(state), e.timedOut, e.full)
      ensures extended ==> ok && state == old(state)
      ensures !extended && ok ==> CommitOngoing(old(state), ExtendBatch(old(state), e.timedOut, e.full).1, state)
      ensures !ok ==> old(state).txOpen && RolledBack(old(state), state)
      ensures ok <==> extended || CanCommit(old(state), e.accepts)
    {
      var reason;
      extended, reason := MayExtendBatchTxn(e.timedOut, e.full);
      ok := true;
      if !extended {
        ok := CommitOngoingTxn(reason, e.accepts);
      }
    }

    /** Buffers the row under the next ordinal, unless its transaction is skipped. */
    method NoteRow(m: RowMessage)
      requires KnowsItsTables(state)
      requires state.processMessages ==> m.table in state.db && SingleRow(m.event)
      modifies `state
      ensures KnowsItsTables(state) && state == OnRow(old(state), m)
    {
      if !state.processMessages {
        return;
      }
      var stamp := Stamp("", state.currentTxn, state.stmtId);
      var app := AppendRowMessage(AppenderFor(state.buffer, m.table), stamp, m.event);
      state := state.(buffer := state.buffer[m.table := app],
                      dirtyTxn := true, dirtyStream := true, stmtId := state.stmtId + 1);
    }

    /** Skips an older transaction; else goes on with the batch, or commits it and opens the next. */
    method NoteBegin(lsn: nat, e: Surroundings) returns (ok: bool)
      requires KnowsItsTables(state)
      modifies `state
      ensures KnowsItsTables(state)
      ensures ok ==> OnBegin(old(state), lsn, e.timedOut, e.full, state)
      ensures !ok ==> old(state).txOpen && RolledBack(old(state), state)
      ensures ok <==> || lsn < old(state).lastWritten || MayExtendBatch(old(state), e.timedOut, e.full)
                      || CanCommit(old(state), e.accepts)
    {
      if state.lastWritten > lsn {
        state := state.(processMessages := false);
        return true;
      }
      state := state.(processMessages := true, currentTxn := lsn);
      var extended;
      extended, ok := ExtendOrCommit(e);
      if ok && !extended {
        state := state.(txOpen := true, ongoingBatch := true);
      }
    }

    /** Notes the position, and commits the batch unless it may go on. */
    method NoteCommit(lsn: nat, e: Surroundings) returns (ok: bool)
      requires KnowsItsTables(state)
      modifies `state
      ensures KnowsItsTables(state)
      ensures ok ==> OnCommit(old(state), lsn, e.timedOut, e.full, state)
      ensures !ok ==> old(state).txOpen && RolledBack(old(state), state)
      ensures ok <==> || MayExtendBatch(old(state).(commitCount := old(state).commitCount + 1), e.timedOut, e.full)
                      || CanCommit(old(state), e.accepts)
    {
      state := state.(lastCommit := lsn, commitCount := state.commitCount + 1);
      var extended;
      extended, ok := ExtendOrCommit(e);
      if ok {
        state := state.(dirtyStream := false, stmtId := 0, processMessages := false);
      }
    }

    // ----- Steps -----

    /** The step was taken. If it was safe, the object is valid again. */
    ghost method Advance(step: Step, w: World)
      requires ValidSource(h, ts) && SingleRowMessages(h) && Inv(h, ts, world) && KnowsItsTables(state)
      requires Next(h, world, step, w) && w.s == state
      modifies `world
      ensures world == w && (Safe(h, old(world), step) ==> Valid())
      ensures Safe(h, old(world), step) && Commits(h, old(world), step) ==> DurableCount(h, state) == w.done
    {
      if Safe(h, world, step) {
        StepKeepsInv(h, ts, world, step, w);
        if Commits(h, world, step) {
          CommitsAreDurable(h, ts, world, step, w);
        }
      }
      world := w;
    }

    /** A commit failed: the object is as good as before, but the connection has to be made anew. */
    ghost method Break()
      requires ValidSource(h, ts) && SingleRowMessages(h) && Inv(h, ts, world) && KnowsItsTables(state)
      requires world.s.txOpen && !world.phase.Broken? && RolledBack(world.s, state)
      modifies `world
      ensures Valid() && Next(h, old(world), CommitFails(state), world)
    {
      Advance(CommitFails(state), world.(s := state, phase := Broken));
    }

    /** A row of a relation that was not announced is an error. */
    method ProcessRow(row: RowMessage, announced: bool) returns (ok: bool)
      requires Valid() && Enabled(h, world, RowSent) && row == h[CurrentIndex(world)].changes[world.phase.sent]
      modifies `state, `world
      ensures Valid()
      ensures if ok then Next(h, old(world), RowSent, world) else world == old(world)
      ensures ok <==> announced || !old(state).processMessages
    {
      ok := announced || !state.processMessages;
      if ok {
        RowCanBeBuffered(h, ts, world);
        NoteRow(row);
        Advance(RowSent, AfterRow(h, world));
      }
    }

    method ProcessBegin(lsn: nat, e: Surroundings, ghost index: nat) returns (ok: bool)
      requires Valid() && Enabled(h, world, Begin(index, e.timedOut, e.full)) && lsn == h[index].lsn
      modifies `state, `world
      ensures ok ==> Next(h, old(world), Begin(index, e.timedOut, e.full), world) && world.s == state
      ensures !ok ==> Next(h, old(world), CommitFails(state), world)
      ensures !ok || Safe(h, old(world), Begin(index, e.timedOut, e.full)) ==> Valid()
      ensures ok <==> e.accepts || !Commits(h, old(world), Begin(index, e.timedOut, e.full))
      ensures var step := Begin(index, e.timedOut, e.full);
              ok && Safe(h, old(world), step) && Commits(h, old(world), step) ==> DurableCount(h, state) == world.done
    {
      OnlySurroundingsRefuse(h, ts, world, e.accepts);
      ok := NoteBegin(lsn, e);
      if ok {
        ghost var phase := if index == world.done then InFresh(0) else InStale(index, 0);
        Advance(Begin(index, e.timedOut, e.full), world.(s := state, phase := phase));
      } else {
        Break();
      }
    }

    method ProcessCommit(lsn: nat, e: Surroundings) returns (ok: bool)
      requires Valid() && Enabled(h, world, Commit(e.timedOut, e.full)) && lsn == h[CurrentIndex(world)].lsn
      modifies `state, `world
      ensures ok ==> Next(h, old(world), Commit(e.timedOut, e.full), world) && world.s == state
      ensures !ok ==> Next(h, old(world), CommitFails(state), world)
      ensures !ok || Safe(h, old(world), Commit(e.timedOut, e.full)) ==> Valid()
      ensures ok <==> e.accepts || !Commits(h, old(world), Commit(e.timedOut, e.full))
      ensures ok && old(world).phase.InFresh? && Commits(h, old(world), Commit(e.timedOut, e.full)) ==>
                DurableCount(h, state) == old(world).done + 1
    {
      CommitSucceeds(h, ts, world, e);
      ok := NoteCommit(lsn, e);
      if ok {
        CommitTaken(h, ts, world, lsn, e, state);
        Advance(Commit(e.timedOut, e.full), AfterCommit(world, state));
      } else {
        Break();
      }
    }

    /** A relation that was known already has changed: commits what is buffered for its old schema. */
    method ProcessRelation(redefines: bool, accepts: bool) returns (ok: bool)
      requires Valid() && Enabled(h, world, Relation(redefines))
      modifies `state, `world
      ensures ok ==> Next(h, old(world), Relation(redefines), world) && world.s == state
      ensures !ok ==> Next(h, old(world), CommitFails(state), world)
      ensures !ok || Safe(h, old(world), Relation(redefines)) ==> Valid()
      ensures ok <==> accepts || !Commits(h, old(world), Relation(redefines))
      ensures ok && Safe(h, old(world), Relation(redefines)) && Commits(h, old(world), Relation(redefines)) ==>
                DurableCount(h, state) == world.done
    {
      OnlySurroundingsRefuse(h, ts, world, accepts);
      ok := true;
      if redefines {
        ok := CommitOngoingTxn(DDLStmtFlush, accepts);
      }
      if ok {
        Advance(Relation(redefines), world.(s := state));
      } else {
        Break();
      }
    }

    /**
     Processes one message. It is a step of the machine, or fails: a failed commit is rolled back, and
     a row of a relation that was not announced changes nothing; then the connection is made anew.
     After every step that is safe the tables on disk are the durable prefix again.
     */
    method ProcessMessage(m: Message, e: Surroundings, ghost index: nat) returns (ack: bool, ok: bool)
      requires Valid() && Sends(h, world, m, e, index)
      modifies `state, `world
      ensures ok ==> Next(h, old(world), StepOf(m, e, index), world) && world.s == state
      ensures !ok ==> world == old(world) || Next(h, old(world), CommitFails(state), world)
      ensures !ok || Safe(h, old(world), StepOf(m, e, index)) ==> Valid()
      ensures ok <==> if m.RowChange? then m.announced || !old(state).processMessages
                      else e.accepts || !Commits(h, old(world), StepOf(m, e, index))
      ensures ok && Safe(h, old(world), StepOf(m, e, index)) && Commits(h, old(world), StepOf(m, e, index)) ==>
                DurableCount(h, state) == world.done
      ensures ok ==> (ack <==> m.CommitMessage?)
    {
      ack := false;
      match m {
        case RelationMessage(redefines) =>
          ok := ProcessRelation(redefines, e.accepts);
        case BeginMessage(lsn) =>
          ok := ProcessBegin(lsn, e, index);
        case CommitMessage(lsn) =>
          ok := ProcessCommit(lsn, e);
          ack := ok;
        case RowChange(row, announced) =>
          ok := ProcessRow(row, announced);
      }
    }

    /** The ticker. `due`: the interval has passed since the last commit. */
    method ProcessTick(due: bool, accepts: bool) returns (ack: bool, ok: bool)
      requires Valid() && !world.phase.Broken?
      modifies `state, `world
      ensures ok && due ==> Next(h, old(world), Tick, world) && world.s == state
      ensures !due ==> world == old(world) && ok
      ensures !ok ==> Next(h, old(world), CommitFails(state), world)
      ensures !ok || Safe(h, old(world), Tick) ==> Valid()
      ensures ok <==> accepts || !due || !Commits(h, old(world), Tick)
      ensures ok && due && Safe(h, old(world), Tick) && Commits(h, old(world), Tick) ==>
                DurableCount(h, state) == world.done
      ensures ack <==> ok && due
    {
      ack, ok := false, true;
      if due {
        OnlySurroundingsRefuse(h, ts, world, accepts);
        CleanCommitSucceeds(h, world, accepts);
        ok := CommitOngoingTxnIfClean(TimeTickFlush, accepts);
        ack := ok;
        if ok {
          Advance(Tick, world.(s := state));
        } else {
          Break();
        }
      }
    }

    /** The position reported as flushed: the transactions below it are those on disk. */
    method StandbyStatus() returns (flushed: nat)
      requires Valid()
      modifies `world
      ensures Valid() && Next(h, old(world), Acknowledge, world)
      ensures forall i :: 0 <= i < |h| ==> (h[i].lsn < flushed <==> i < DurableCount(h, state))
    {
      flushed := state.lastWritten + 1;
      Advance(Acknowledge, world.(acked := if world.acked < flushed then flushed else world.acked));
      ReportedMeansDurable(h, ts, world);
    }

    /** After a lost connection: what the source sends next are the transactions that are not on disk. */
    method Reconnect()
      requires Valid()
      modifies `state, `world
      ensures Valid() && Next(h, old(world), PgMachine.Reconnect, world)
      ensures state.db == old(state).db && state.savedLsn == old(state).savedLsn
      ensures world.phase.Between? && world.done == DurableCount(h, state)
    {
      state := Reset(state, state.lastWritten);
      Advance(PgMachine.Reconnect, Connected(world, state, CountUpTo(h, state.lastWritten)));
    }

    /** Commits what is whole and rolls back the rest. To start again from what is on disk is then a restart. */
    method Shutdown(accepts: bool) returns (ok: bool)
      requires Valid()
      modifies `state, `world
      ensures !state.txOpen && world == old(world).(s := state, phase := Broken)
      ensures var restarted := Connected(old(world), Reset(state, state.savedLsn), CountUpTo(h, state.savedLsn));
              Next(h, old(world), if ok then StopAndRestart else Crash, restarted)
      ensures Safe(h, old(world), StopAndRestart) ==> Valid()
      ensures ok <==> accepts || !Commits(h, old(world), StopAndRestart)
      ensures ok && Safe(h, old(world), StopAndRestart) && Commits(h, old(world), StopAndRestart) ==>
                DurableCount(h, state) == world.done
    {
      OnlySurroundingsRefuse(h, ts, world, accepts);
      CleanCommitSucceeds(h, world, accepts);
      ok := CommitOngoingTxnIfClean(OnCloseFlush, accepts);
      Stopped(h, ts, world, ok, state);
      state := state.(txOpen := false);
      world := world.(s := state, phase := Broken);
    }
  }
}
