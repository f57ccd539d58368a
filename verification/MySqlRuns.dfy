/** What holds in every run of the MySQL applier. */
module MySqlRuns {
  import opened Tags
  import opened Strategies
  import opened Controller
  import opened DeltaLog
  import opened MySqlMachine
  import opened MySqlSafety

  /** The worlds passed through by steps none of which saves an unfinished transaction. */
  ghost predicate IsPath(h: History, ws: seq<World>, steps: seq<Step>) {
    && |ws| == |steps| + 1
    && forall i :: 0 <= i < |steps| ==>
         Placed(h, ws[i]) && Next(h, ws[i], steps[i], ws[i + 1]) && !SavesUnfinished(ws[i], steps[i])
  }

  ghost predicate IsRun(h: History, ts: Tables, purged: set<nat>, ws: seq<World>, steps: seq<Step>) {
    IsPath(h, ws, steps) && Initial(ts, purged, ws[0])
  }

  lemma {:induction false} InitialInv(h: History, ts: Tables, purged: set<nat>, w: World)
    requires ValidSource(h, ts, purged) && Initial(ts, purged, w)
    ensures Inv(h, ts, purged, w)
  {
    assert h[..0] == [] && purged + GtidSet([]) == purged;
    CountOfPrefix(h, purged, 0);
    ResumedInv(h, ts, purged, w.s);
  }

  lemma {:induction false} RunKeepsInv(
    h: History, ts: Tables, purged: set<nat>, ws: seq<World>, steps: seq<Step>, k: nat)
    requires ValidSource(h, ts, purged) && IsRun(h, ts, purged, ws, steps) && k < |ws|
    ensures Inv(h, ts, purged, ws[k])
  {
    if k == 0 {
      InitialInv(h, ts, purged, ws[0]);
    } else {
      RunKeepsInv(h, ts, purged, ws, steps, k - 1);
      StepKeepsInv(h, ts, purged, ws[k - 1], steps[k - 1], ws[k]);
    }
  }

  /**
   Position safety: in every reachable state there are `n` and `m` such that the committed tables
   are exactly the first `n` whole transactions, the saved position is exactly their GTIDs, and
   the pending position adds exactly the transactions up to `m`, which are those whose rows the
   open batch has buffered whole, and one more if it runs ahead.
   */
  lemma {:induction false} PositionSafety(
    h: History, ts: Tables, purged: set<nat>, ws: seq<World>, steps: seq<Step>, k: nat)
    returns (n: nat, m: nat)
    requires ValidSource(h, ts, purged) && IsRun(h, ts, purged, ws, steps) && k < |ws|
    ensures n <= m <= |h|
    ensures RepresentsAll(ws[k].s.db, ApplyTxns(ts, h[..n]))
    ensures ws[k].s.saved == ws[k].s.position == purged + GtidSet(h[..n])
    ensures Ahead(ws[k]) ==> m < |h|
    ensures ws[k].s.pending == purged + GtidSet(h[..if Ahead(ws[k]) then m + 1 else m])
    ensures BuffersLog(ws[k].s.buffer, ws[k].log)
    ensures AllRows(h, n, m) && RowsIn(h, n, m) <= Unstamped(ws[k].log)
    ensures !ws[k].phase.InTxn? ==> RowsIn(h, n, m) == Unstamped(ws[k].log)
  {
    RunKeepsInv(h, ts, purged, ws, steps, k);
    AheadMeans(h, ts, purged, ws[k]);
    n, m := DurableCount(h, ws[k].s), ws[k].done;
  }

  /**
   Runs that have saved the same position hold the same tables, whatever interrupted them; and the
   same rows, if both keep each table with an index or both without one.
   */
  lemma {:induction false} SamePositionSameTables(h: History, ts: Tables, purged: set<nat>,
                               ws: seq<World>, steps: seq<Step>, ws': seq<World>, steps': seq<Step>)
    returns (tables: Tables)
    requires ValidSource(h, ts, purged)
    requires IsRun(h, ts, purged, ws, steps) && IsRun(h, ts, purged, ws', steps')
    requires ws[|steps|].s.saved == ws'[|steps'|].s.saved
    ensures RepresentsAll(ws[|steps|].s.db, tables) && RepresentsAll(ws'[|steps'|].s.db, tables)
    ensures SameLayout(ws[|steps|].s.db, ws'[|steps'|].s.db) ==> ws[|steps|].s.db == ws'[|steps'|].s.db
  {
    RunKeepsInv(h, ts, purged, ws, steps, |steps|);
    RunKeepsInv(h, ts, purged, ws', steps', |steps'|);
    var s, s' := ws[|steps|].s, ws'[|steps'|].s;
    tables := ApplyTxns(ts, h[..DurableCount(h, s)]);
    if SameLayout(s.db, s'.db) {
      RepresentsAllIsFunctional(s.db, s'.db, tables);
    }
  }

  // ----- Tag order -----

  /** Tags never decrease, and tie only within one event and action. */
  ghost predicate TagsTieWithinEvents(cs: seq<Change>) {
    forall i, j :: 0 <= i < j < |cs| ==>
      TagLess(cs[i], cs[j]) || (cs[i].stamp == cs[j].stamp && cs[i].action == cs[j].action)
  }

  lemma {:induction false} OrderedStampsTag(es: seq<Stamped>)
    requires OrderedStamps(es)
    ensures TagsTieWithinEvents(RenderAll(es))
  {
    if es != [] {
      var n := |es| - 1;
      OrderedStampsTag(es[..n]);
      StampsBelow(es[..n], es[n].stamp);
      TagsAppend(RenderAll(es[..n]), Render(es[n]), es[n].stamp);
    }
  }

  lemma {:induction false} TagsAppend(a: seq<Change>, b: seq<Change>, s: Stamp)
    requires TagsTieWithinEvents(a) && TagsTieWithinEvents(b)
    requires forall i :: 0 <= i < |a| ==> StampLess(a[i].stamp, s)
    requires forall i :: 0 <= i < |b| ==> b[i].stamp == s
    ensures TagsTieWithinEvents(a + b)
  {
    var cs := a + b;
    forall i, j | 0 <= i < j < |cs|
      ensures TagLess(cs[i], cs[j]) || (cs[i].stamp == cs[j].stamp && cs[i].action == cs[j].action)
    {
      if i >= |a| {
        assert cs[i] == b[i - |a|] && cs[j] == b[j - |a|];
      }
    }
  }

  /** In every run the tags buffered for each table follow arrival order. */
  lemma {:induction false} BufferedTagsFollowArrival(
    h: History, ts: Tables, purged: set<nat>, ws: seq<World>, steps: seq<Step>, k: nat, id: TableId)
    requires ValidSource(h, ts, purged) && IsRun(h, ts, purged, ws, steps) && k < |ws|
    ensures TagsTieWithinEvents(AppenderFor(ws[k].s.buffer, id).rows)
  {
    RunKeepsInv(h, ts, purged, ws, steps, k);
    ForTableOrdered(ws[k].log, id);
    OrderedStampsTag(ForTable(ws[k].log, id));
    assert Buffers(AppenderFor(ws[k].s.buffer, id), ForTable(ws[k].log, id));
  }
}
