/**
 What holds in every run of the Postgres replicator, and exactly where its assumptions matter.
 */
module PgRuns {
  import opened Tags
  import opened Strategies
  import opened Controller
  import opened DeltaLog
  import opened Flushing
  import opened PgMachine
  import opened PgSafety
  import opened PgExact

  /** The worlds passed through by the steps. */
  ghost predicate IsPath(h: History, ws: seq<World>, steps: seq<Step>) {
    && |ws| == |steps| + 1
    && forall i :: 0 <= i < |steps| ==> Placed(h, ws[i]) && Next(h, ws[i], steps[i], ws[i + 1])
  }

  /** A run: nothing is committed in the middle of a transaction, nor behind a resent Commit message. */
  ghost predicate IsRun(h: History, ts: Tables, ws: seq<World>, steps: seq<Step>) {
    && IsPath(h, ws, steps) && Initial(h, ts, ws[0])
    && forall i :: 0 <= i < |steps| ==> Safe(h, ws[i], steps[i])
  }

  lemma {:induction false} InitialInv(h: History, ts: Tables, w: World)
    requires ValidSource(h, ts) && Initial(h, ts, w)
    ensures Inv(h, ts, w)
  {
    CountBounds(h, 0);
    assert h[..0] == [];
    FreshConnectionInv(h, ts, w, w.s);
  }

  lemma {:induction false} RunKeepsInv(h: History, ts: Tables, ws: seq<World>, steps: seq<Step>, k: nat)
    requires ValidSource(h, ts) && IsRun(h, ts, ws, steps) && k < |ws|
    ensures Inv(h, ts, ws[k])
  {
    if k == 0 {
      InitialInv(h, ts, ws[0]);
    } else {
      RunKeepsInv(h, ts, ws, steps, k - 1);
      StepKeepsInv(h, ts, ws[k - 1], steps[k - 1], ws[k]);
    }
  }

  lemma {:induction false} QuietPathIsSafe(h: History, ts: Tables, ws: seq<World>, steps: seq<Step>, k: nat)
    requires ValidSource(h, ts) && IsPath(h, ws, steps) && Initial(h, ts, ws[0]) && k <= |steps|
    requires forall i :: 0 <= i < |steps| ==> Quiet(h, ws[i], steps[i])
    ensures Inv(h, ts, ws[k]) && Calm(h, ws[k])
    ensures forall i :: 0 <= i < k ==> Safe(h, ws[i], steps[i])
  {
    if k == 0 {
      InitialInv(h, ts, ws[0]);
    } else {
      QuietPathIsSafe(h, ts, ws, steps, k - 1);
      QuietStepIsSafe(h, ts, ws[k - 1], steps[k - 1], ws[k]);
      QuietStepKeepsCalm(h, ts, ws[k - 1], steps[k - 1], ws[k]);
      StepKeepsInv(h, ts, ws[k - 1], steps[k - 1], ws[k]);
    }
  }

  /**
   Over a source that resends only while nothing is pending, and redefines relations neither inside
   a transaction nor behind a resent one, whatever else happens is a run.
   */
  lemma {:induction false} QuietSourceOnlyRuns(h: History, ts: Tables, ws: seq<World>, steps: seq<Step>)
    requires ValidSource(h, ts) && IsPath(h, ws, steps) && Initial(h, ts, ws[0])
    requires forall i :: 0 <= i < |steps| ==> Quiet(h, ws[i], steps[i])
    ensures IsRun(h, ts, ws, steps)
  {
    QuietPathIsSafe(h, ts, ws, steps, |steps|);
  }

  lemma {:induction false} OneStep(h: History, ts: Tables, ws: seq<World>, steps: seq<Step>, k: nat)
    requires ValidSource(h, ts) && IsRun(h, ts, ws, steps) && k < |steps|
    ensures ws[k].s.lastWritten <= ws[k + 1].s.lastWritten
  {
    RunKeepsInv(h, ts, ws, steps, k);
    StepKeepsInv(h, ts, ws[k], steps[k], ws[k + 1]);
  }

  lemma {:induction false} NeverFalls(ns: seq<nat>, i: nat, j: nat)
    requires i <= j < |ns| && forall k :: 0 <= k < |ns| - 1 ==> ns[k] <= ns[k + 1]
    ensures ns[i] <= ns[j]
  {
    if i < j {
      NeverFalls(ns, i, j - 1);
      assert ns[j - 1] <= ns[j - 1 + 1];
    }
  }

  /** The last written LSN never decreases along a run. */
  lemma {:induction false} LastWrittenIsMonotone(
    h: History, ts: Tables, ws: seq<World>, steps: seq<Step>, i: nat, j: nat)
    requires ValidSource(h, ts) && IsRun(h, ts, ws, steps) && i <= j < |ws|
    ensures ws[i].s.lastWritten <= ws[j].s.lastWritten
  {
    var ns := seq(|ws|, k requires 0 <= k < |ws| => ws[k].s.lastWritten);
    forall k | 0 <= k < |ns| - 1 ensures ns[k] <= ns[k + 1] {
      OneStep(h, ts, ws, steps, k);
    }
    NeverFalls(ns, i, j);
  }

  /**
   Durable prefix: in every reachable state the committed tables are the one-by-one application
   of exactly the whole transactions with commit LSN at most the saved LSN.
   */
  lemma {:induction false} DurablePrefixInEveryRun(h: History, ts: Tables, ws: seq<World>, steps: seq<Step>, k: nat)
    requires ValidSource(h, ts) && IsRun(h, ts, ws, steps) && k < |ws|
    ensures var n := CountUpTo(h, ws[k].s.savedLsn);
            && n <= |h|
            && (forall i :: 0 <= i < |h| ==> (i < n <==> h[i].lsn <= ws[k].s.savedLsn))
            && RepresentsAll(ws[k].s.db, ApplyLog(ts, LogOf(h[..n])))
  {
    RunKeepsInv(h, ts, ws, steps, k);
    CountBounds(h, ws[k].s.savedLsn);
  }

  /** A run that has saved the last position of the source holds all of its transactions, each applied once. */
  lemma {:induction false} CaughtUp(h: History, ts: Tables, ws: seq<World>, steps: seq<Step>, k: nat)
    requires ValidSource(h, ts) && IsRun(h, ts, ws, steps) && k < |ws|
    requires ws[k].s.savedLsn == LsnAt(h, |h|)
    ensures RepresentsAll(ws[k].s.db, ApplyLog(ts, LogOf(h)))
  {
    DurablePrefixInEveryRun(h, ts, ws, steps, k);
    CountAtLsn(h, |h|);
    assert h[..|h|] == h;
  }

  lemma {:induction false} StepKeepsLayout(h: History, w: World, step: Step, w': World)
    requires Placed(h, w) && Next(h, w, step, w')
    ensures SameLayout(w.s.db, w'.s.db)
  {
    if w.s.txOpen && w'.s.db != w.s.db {
      FlushKeepsLayout(w.s.db, w.s.buffer, w'.s.db);
    }
  }

  lemma {:induction false} PathKeepsLayout(h: History, ws: seq<World>, steps: seq<Step>, k: nat)
    requires IsPath(h, ws, steps) && k < |ws|
    ensures SameLayout(ws[0].s.db, ws[k].s.db)
  {
    if k > 0 {
      PathKeepsLayout(h, ws, steps, k - 1);
      StepKeepsLayout(h, ws[k - 1], steps[k - 1], ws[k]);
    }
  }

  /**
   Exactly once across failures: two runs over one source, with whatever crashes, reconnects,
   resends, failed commits and batch cuts, hold the same tables whenever they have saved the same
   position. In particular an interrupted run that has caught up equals an uninterrupted one.
   */
  lemma {:induction false} ExactlyOnce(
    h: History, ts: Tables, ws: seq<World>, steps: seq<Step>, ws': seq<World>, steps': seq<Step>)
    requires ValidSource(h, ts) && IsRun(h, ts, ws, steps) && IsRun(h, ts, ws', steps')
    requires SameLayout(ws[0].s.db, ws'[0].s.db)
    requires ws[|steps|].s.savedLsn == ws'[|steps'|].s.savedLsn
    ensures ws[|steps|].s.db == ws'[|steps'|].s.db
  {
    RunKeepsInv(h, ts, ws, steps, |steps|);
    RunKeepsInv(h, ts, ws', steps', |steps'|);
    PathKeepsLayout(h, ws, steps, |steps|);
    PathKeepsLayout(h, ws', steps', |steps'|);
    var s, s' := ws[|steps|].s, ws'[|steps'|].s;
    assert DurablePrefix(h, ts, s) && DurablePrefix(h, ts, s');
    RepresentsAllIsFunctional(s.db, s'.db, ApplyLog(ts, LogOf(h[..DurableCount(h, s)])));
  }

  /**
   Acknowledgement safety: the position reported as flushed never passes the saved LSN by more
   than one, so every transaction that the source may discard is in the committed tables.
   */
  lemma {:induction false} AcknowledgedIsDurable(
    h: History, ts: Tables, ws: seq<World>, steps: seq<Step>, k: nat, i: nat)
    requires ValidSource(h, ts) && IsRun(h, ts, ws, steps) && k < |ws|
    requires i < |h| && h[i].lsn < ws[k].acked
    ensures ws[k].acked <= ws[k].s.savedLsn + 1
    ensures i < CountUpTo(h, ws[k].s.savedLsn) <= |h|
    ensures RepresentsAll(ws[k].s.db, ApplyLog(ts, LogOf(h[..CountUpTo(h, ws[k].s.savedLsn)])))
  {
    RunKeepsInv(h, ts, ws, steps, k);
    CountBounds(h, ws[k].s.savedLsn);
  }

  // ----- Tag order -----

  ghost predicate StrictTags(cs: seq<Change>) {
    forall i, j :: 0 <= i < j < |cs| ==> TagLess(cs[i], cs[j])
  }

  lemma {:induction false} SingleRowsTagStrictly(es: seq<Stamped>)
    requires OrderedStamps(es)
    requires forall i :: 0 <= i < |es| ==> SingleRow(es[i].event)
    ensures StrictTags(RenderAll(es))
  {
    if es != [] {
      var n := |es| - 1;
      SingleRowsTagStrictly(es[..n]);
      StampsBelow(es[..n], es[n].stamp);
      StrictTagsAppend(RenderAll(es[..n]), Render(es[n]), es[n].stamp);
    }
  }

  lemma {:induction false} StrictTagsAppend(a: seq<Change>, b: seq<Change>, s: Stamp)
    requires StrictTags(a) && StrictTags(b)
    requires forall i :: 0 <= i < |a| ==> StampLess(a[i].stamp, s)
    requires forall i :: 0 <= i < |b| ==> b[i].stamp == s
    ensures StrictTags(a + b)
  {
    var cs := a + b;
    forall i, j | 0 <= i < j < |cs|
      ensures TagLess(cs[i], cs[j])
    {
      if i >= |a| {
        assert cs[i] == b[i - |a|] && cs[j] == b[j - |a|];
      }
    }
  }

  lemma {:induction false} LogOfSingleRows(h: History)
    requires SingleRowMessages(h)
    ensures forall i :: 0 <= i < |LogOf(h)| ==> SingleRow(LogOf(h)[i].item.event)
  {
    if h != [] {
      LogOfSingleRows(h[..|h| - 1]);
    }
  }

  lemma {:induction false} ForTableSingleRows(log: seq<Entry>, id: TableId)
    requires forall i :: 0 <= i < |log| ==> SingleRow(log[i].item.event)
    ensures forall i :: 0 <= i < |ForTable(log, id)| ==> SingleRow(ForTable(log, id)[i].event)
  {
    if log != [] {
      ForTableSingleRows(log[..|log| - 1], id);
    }
  }

  /** What is pending is a prefix of the log of the transactions up to the current one. */
  lemma {:induction false} PendingIsPrefix(h: History, w: World) returns (m: nat)
    requires Placed(h, w) && DurableCount(h, w.s) <= w.done
    ensures DurableCount(h, w.s) <= m <= |h| && Pending(h, w) <= LogOf(h[DurableCount(h, w.s)..m])
  {
    var n, d := DurableCount(h, w.s), w.done;
    if w.phase.InFresh? {
      m := d + 1;
      assert h[n..d + 1][..d - n] == h[n..d];
      assert TxnLog(h[d])[..w.phase.sent] <= TxnLog(h[d]);
    } else {
      m := d;
    }
  }

  lemma {:induction false} PendingIsOrdered(h: History, w: World)
    requires IncreasingLsns(h) && SingleRowMessages(h) && Placed(h, w) && DurableCount(h, w.s) <= w.done
    ensures OrderedLog(Pending(h, w))
    ensures forall i :: 0 <= i < |Pending(h, w)| ==> SingleRow(Pending(h, w)[i].item.event)
  {
    var m := PendingIsPrefix(h, w);
    LogOfOrdered(h[DurableCount(h, w.s)..m]);
    LogOfSingleRows(h[DurableCount(h, w.s)..m]);
  }

  lemma {:induction false} BufferedLogTagsStrictly(buffer: Buffer, log: seq<Entry>, id: TableId)
    requires BuffersLog(buffer, log) && OrderedLog(log)
    requires forall i :: 0 <= i < |log| ==> SingleRow(log[i].item.event)
    ensures StrictTags(AppenderFor(buffer, id).rows)
  {
    ForTableOrdered(log, id);
    ForTableSingleRows(log, id);
    SingleRowsTagStrictly(ForTable(log, id));
    assert Buffers(AppenderFor(buffer, id), ForTable(log, id));
  }

  /** In every run, the tags buffered for each table strictly increase in arrival order. */
  lemma {:induction false} BufferedTagsIncrease(
    h: History, ts: Tables, ws: seq<World>, steps: seq<Step>, k: nat, id: TableId)
    requires ValidSource(h, ts) && SingleRowMessages(h) && IsRun(h, ts, ws, steps) && k < |ws|
    requires !ws[k].phase.Broken?
    ensures StrictTags(AppenderFor(ws[k].s.buffer, id).rows)
  {
    RunKeepsInv(h, ts, ws, steps, k);
    PendingIsOrdered(h, ws[k]);
    BufferedLogTagsStrictly(ws[k].s.buffer, Pending(h, ws[k]), id);
  }

  // ----- Commits are never refused -----

  /** In every run no table's index refuses what is buffered, so only the surroundings can fail a commit. */
  lemma {:induction false} NeverBlocked(h: History, ts: Tables, w: World, id: TableId)
    requires ValidSource(h, ts) && Inv(h, ts, w) && !w.phase.Broken?
    ensures !Blocks(w.s.db, w.s.buffer, id, true)
  {
    PendingApplies(h, ts, w);
    if id in w.s.db && AppenderFor(w.s.buffer, id).rows != [] {
      FlushIsNeverRefused(w.s.db, ApplyLog(ts, LogOf(h[..DurableCount(h, w.s)])), Pending(h, w), w.s.buffer, id);
    }
  }
}
