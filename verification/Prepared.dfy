/**
 What the names of an extended query stand for, told from the messages alone: a statement name for the
 last accepted Parse message, a portal name for the statement of the last accepted Bind message, as long
 as nothing behind it replaced, closed or forgot the name.
 */
module Prepared {
  import opened Protocol

  /** The message is not skipped. */
  predicate Heard(ms: seq<Message>, i: nat)
    requires i < |ms|
  {
    !FlowRun(ms[..i]).skipping
  }

  function SessionAt(ms: seq<Message>, i: nat): Session
    requires i <= |ms|
  {
    FlowRun(ms[..i]).session
  }

  /** A query other than an early one makes both unnamed things forgotten. */
  predicate Forgets(m: Message, name: string) {
    m.Query? && !m.early && name == ""
  }

  // ----- Statements -----

  ghost predicate DefinesStatement(ms: seq<Message>, i: nat, name: string, id: nat) {
    i < |ms| && Heard(ms, i) && ms[i] == Parse(name, id, true)
  }

  ghost predicate TouchesStatement(ms: seq<Message>, i: nat, name: string) {
    && i < |ms| && Heard(ms, i)
    && ((exists id :: ms[i] == Parse(name, id, true)) || ms[i] == CloseStatement(name) || Forgets(ms[i], name))
  }

  /** The last of the first `n` messages that touch the name is the Parse message of `id`. */
  ghost predicate StatementIs(ms: seq<Message>, n: nat, name: string, id: nat) {
    exists i: nat ::
      i < n && DefinesStatement(ms, i, name, id) && forall j :: i < j < n ==> !TouchesStatement(ms, j, name)
  }

  lemma {:induction false} StatementIsStep(ms: seq<Message>, n: nat, name: string, id: nat)
    requires n < |ms|
    ensures StatementIs(ms, n + 1, name, id) <==>
            if TouchesStatement(ms, n, name) then DefinesStatement(ms, n, name, id) else StatementIs(ms, n, name, id)
  {
    if i: nat :| && i < n && DefinesStatement(ms, i, name, id)
                 && forall j :: i < j < n ==> !TouchesStatement(ms, j, name) {
      assert !TouchesStatement(ms, n, name) ==> forall j :: i < j < n + 1 ==> !TouchesStatement(ms, j, name);
    }
    assert DefinesStatement(ms, n, name, id) ==> ms[n] == Parse(name, id, true);
  }

  // ----- Portals -----

  ghost predicate DefinesPortal(ms: seq<Message>, i: nat, portal: string, id: nat) {
    && i < |ms| && Heard(ms, i) && ms[i].Bind? && ms[i].ok && ms[i].portal == portal
    && StatementIs(ms, i, ms[i].name, id)
  }

  ghost predicate TouchesPortal(ms: seq<Message>, i: nat, portal: string) {
    && i < |ms| && Heard(ms, i)
    && ((exists id :: DefinesPortal(ms, i, portal, id)) || ms[i] == ClosePortal(portal) || Forgets(ms[i], portal))
  }

  ghost predicate PortalIs(ms: seq<Message>, n: nat, portal: string, id: nat) {
    exists i: nat ::
      i < n && DefinesPortal(ms, i, portal, id) && forall j :: i < j < n ==> !TouchesPortal(ms, j, portal)
  }

  lemma {:induction false} PortalIsStep(ms: seq<Message>, n: nat, portal: string, id: nat)
    requires n < |ms|
    ensures PortalIs(ms, n + 1, portal, id) <==>
            if TouchesPortal(ms, n, portal) then DefinesPortal(ms, n, portal, id) else PortalIs(ms, n, portal, id)
  {
    if i: nat :| i < n && DefinesPortal(ms, i, portal, id) && forall j :: i < j < n ==> !TouchesPortal(ms, j, portal) {
      assert !TouchesPortal(ms, n, portal) ==> forall j :: i < j < n + 1 ==> !TouchesPortal(ms, j, portal);
    }
  }

  // ----- The session keeps just that -----

  lemma {:induction false} RunAllKeepsNames(s: Session, statements: seq<Statement>)
    ensures RunAll(s, statements).0.prepared == s.prepared && RunAll(s, statements).0.portals == s.portals
    decreases statements
  {
    if statements != [] && statements[0].ok {
      RunAllKeepsNames(Runs(s, statements[0].id), statements[1..]);
    }
  }

  lemma {:induction false} QueryKeepsNames(s: Session, m: Message)
    requires m.Query?
    ensures RunQuery(s, m).0.prepared == if m.early then s.prepared else s.prepared - {""}
    ensures RunQuery(s, m).0.portals == if m.early then s.portals else s.portals - {""}
  {
    RunAllKeepsNames(s, [m.first]);
    RunAllKeepsNames(ForgetUnnamed(s), [m.first] + m.rest);
  }

  lemma {:induction false} OneMore(ms: seq<Message>, n: nat)
    requires n < |ms|
    ensures FlowRun(ms[..n + 1]) == FlowStep(FlowRun(ms[..n]), ms[n])
  {
    assert ms[..n + 1] == ms[..n] + [ms[n]];
    FlowRunAppend(ms[..n], ms[n]);
  }

  predicate Stands(names: map<string, nat>, name: string, id: nat) {
    name in names && names[name] == id
  }

  lemma {:induction false} StatementStep(ms: seq<Message>, n: nat, name: string, id: nat)
    requires n < |ms|
    ensures Stands(SessionAt(ms, n + 1).prepared, name, id) <==>
            if TouchesStatement(ms, n, name) then DefinesStatement(ms, n, name, id)
            else Stands(SessionAt(ms, n).prepared, name, id)
  {
    OneMore(ms, n);
    if ms[n].Query? {
      QueryKeepsNames(SessionAt(ms, n), ms[n]);
    }
    if ms[n].Parse? && ms[n].ok && ms[n].name == name && Heard(ms, n) {
      assert ms[n] == Parse(name, ms[n].id, true);
    }
  }

  /** After any stream a statement name stands for what was parsed under it last, and for nothing if that is gone. */
  lemma {:induction false} StatementMeans(ms: seq<Message>, n: nat, name: string, id: nat)
    requires n <= |ms|
    ensures Stands(SessionAt(ms, n).prepared, name, id) <==> StatementIs(ms, n, name, id)
  {
    if n == 0 {
      assert ms[..0] == [];
    } else {
      StatementMeans(ms, n - 1, name, id);
      StatementStep(ms, n - 1, name, id);
      StatementIsStep(ms, n - 1, name, id);
    }
  }

  lemma {:induction false} BindDefines(ms: seq<Message>, n: nat, portal: string, id: nat)
    requires n < |ms| && ms[n].Bind?
    ensures DefinesPortal(ms, n, portal, id) <==>
            Heard(ms, n) && ms[n].ok && ms[n].portal == portal && Stands(SessionAt(ms, n).prepared, ms[n].name, id)
  {
    StatementMeans(ms, n, ms[n].name, id);
  }

  lemma {:induction false} PortalStep(ms: seq<Message>, n: nat, portal: string, id: nat)
    requires n < |ms|
    ensures Stands(SessionAt(ms, n + 1).portals, portal, id) <==>
            if TouchesPortal(ms, n, portal) then DefinesPortal(ms, n, portal, id)
            else Stands(SessionAt(ms, n).portals, portal, id)
  {
    OneMore(ms, n);
    if ms[n].Query? {
      QueryKeepsNames(SessionAt(ms, n), ms[n]);
    }
    if ms[n].Bind? {
      BindDefines(ms, n, portal, id);
      if ms[n].name in SessionAt(ms, n).prepared {
        BindDefines(ms, n, portal, SessionAt(ms, n).prepared[ms[n].name]);
      }
      forall other
        ensures DefinesPortal(ms, n, portal, other) <==>
                && Heard(ms, n) && ms[n].ok && ms[n].portal == portal
                && Stands(SessionAt(ms, n).prepared, ms[n].name, other)
      {
        BindDefines(ms, n, portal, other);
      }
    }
  }

  /** And a portal name for the statement that it was bound to last, as that was at the time. */
  lemma {:induction false} PortalMeans(ms: seq<Message>, n: nat, portal: string, id: nat)
    requires n <= |ms|
    ensures Stands(SessionAt(ms, n).portals, portal, id) <==> PortalIs(ms, n, portal, id)
  {
    if n == 0 {
      assert ms[..0] == [];
    } else {
      PortalMeans(ms, n - 1, portal, id);
      PortalStep(ms, n - 1, portal, id);
      PortalIsStep(ms, n - 1, portal, id);
    }
  }

  // ----- What is run and answered -----

  /** An Execute message runs the statement its portal stands for and completes it, or is an error. */
  lemma {:induction false} ExecuteRuns(ms: seq<Message>, n: nat, portal: string, ok: bool)
    requires n < |ms| && ms[n] == Execute(portal, ok) && Heard(ms, n)
    ensures forall id :: PortalIs(ms, n, portal, id) && ok ==>
              && FlowRun(ms[..n + 1]) == Flow(SessionAt(ms, n + 1), false)
              && SessionAt(ms, n + 1) == SessionAt(ms, n).(ran := SessionAt(ms, n).ran + [id],
                                                           sent := SessionAt(ms, n).sent + [CommandComplete(id)])
    ensures !ok || (forall id :: !PortalIs(ms, n, portal, id)) ==>
              && FlowRun(ms[..n + 1]) == Flow(SessionAt(ms, n + 1), true)
              && SessionAt(ms, n + 1) == SessionAt(ms, n).(sent := SessionAt(ms, n).sent + [ErrorResponse])
  {
    OneMore(ms, n);
    forall id
      ensures Stands(SessionAt(ms, n).portals, portal, id) <==> PortalIs(ms, n, portal, id)
    {
      PortalMeans(ms, n, portal, id);
    }
    if portal in SessionAt(ms, n).portals {
      assert Stands(SessionAt(ms, n).portals, portal, SessionAt(ms, n).portals[portal]);
    }
  }

  function Ids(statements: seq<Statement>): (ids: seq<nat>)
    ensures |ids| == |statements| && forall i :: 0 <= i < |ids| ==> ids[i] == statements[i].id
  {
    seq(|statements|, i requires 0 <= i < |statements| => statements[i].id)
  }

  function Completions(statements: seq<Statement>): (rs: seq<Response>)
    ensures |rs| == |statements| && forall i :: 0 <= i < |rs| ==> rs[i] == CommandComplete(statements[i].id)
  {
    seq(|statements|, i requires 0 <= i < |statements| => CommandComplete(statements[i].id))
  }

  /** `k` statements are accepted, and they are all or the next one is not. */
  predicate AcceptedUpTo(statements: seq<Statement>, k: nat) {
    && k <= |statements| && (forall i :: 0 <= i < k ==> statements[i].ok)
    && (k < |statements| ==> !statements[k].ok)
  }

  lemma {:induction false} OneRun(s: Session, statements: seq<Statement>, k: nat)
    requires 0 < k <= |statements|
    ensures s.ran + [statements[0].id] + Ids(statements[1..][..k - 1]) == s.ran + Ids(statements[..k])
    ensures s.sent + [CommandComplete(statements[0].id)] + Completions(statements[1..][..k - 1])
            == s.sent + Completions(statements[..k])
  {
  }

  lemma {:induction false} RunAllMeans(s: Session, statements: seq<Statement>, k: nat)
    requires AcceptedUpTo(statements, k)
    ensures RunAll(s, statements).0
            == s.(ran := s.ran + Ids(statements[..k]), sent := s.sent + Completions(statements[..k]))
    ensures RunAll(s, statements).1 <==> k == |statements|
    decreases statements
  {
    if k == 0 {
      assert s.ran + Ids([]) == s.ran && s.sent + Completions([]) == s.sent;
    } else {
      RunAllMeans(Runs(s, statements[0].id), statements[1..], k - 1);
      OneRun(s, statements, k);
    }
  }

  lemma {:induction false} Replies(sent: seq<Response>, done: seq<Response>)
    ensures sent + done + [ReadyForQuery] == sent + (done + [] + [ReadyForQuery])
    ensures sent + done + [ErrorResponse] + [ReadyForQuery] == sent + (done + [ErrorResponse] + [ReadyForQuery])
  {
  }

  /**
   A query runs and completes its statements in order up to the first one that is not accepted, which is
   answered by an error; then the server is ready. An early query is its first statement alone, and only a
   query that is not early forgets the unnamed statement and the unnamed portal.
   */
  lemma {:induction false} QueryRuns(s: Session, m: Message, k: nat)
    requires m.Query? && AcceptedUpTo(if m.early then [m.first] else [m.first] + m.rest, k)
    ensures var statements := if m.early then [m.first] else [m.first] + m.rest;
            var error := if k < |statements| then [ErrorResponse] else [];
            FlowStep(Flow(s, false), m) == Flow(Session(
              if m.early then s.prepared else s.prepared - {""}, if m.early then s.portals else s.portals - {""},
              s.ran + Ids(statements[..k]), s.sent + (Completions(statements[..k]) + error + [ReadyForQuery])), false)
  {
    var statements := if m.early then [m.first] else [m.first] + m.rest;
    var start := if m.early then s else ForgetUnnamed(s);
    RunAllMeans(start, statements, k);
    Replies(s.sent, Completions(statements[..k]));
  }

  /** Every other message changes the one name that it is about, and runs nothing. */
  lemma {:induction false} OthersRunNothing(f: Flow, m: Message)
    requires !m.Query? && !m.Execute?
    ensures FlowStep(f, m).session.ran == f.session.ran
    ensures forall name :: !(m.Parse? && m.name == name) && m != CloseStatement(name) ==>
              forall id :: Stands(FlowStep(f, m).session.prepared, name, id) <==> Stands(f.session.prepared, name, id)
    ensures forall portal :: !(m.Bind? && m.portal == portal) && m != ClosePortal(portal) ==>
              forall id :: Stands(FlowStep(f, m).session.portals, portal, id) <==> Stands(f.session.portals, portal, id)
  {
  }

  /** The reply that tells that `m` was accepted. */
  predicate Accepts(r: Response, m: Message) {
    match r
    case ParseComplete => m.Parse?
    case BindComplete => m.Bind?
    case Description => m.DescribeStatement? || m.DescribePortal?
    case CommandComplete(_) => m.Execute?
    case CloseComplete => m.CloseStatement? || m.ClosePortal?
    case ReadyForQuery => m.Sync?
    case ErrorResponse => false
  }

  /** The engine does not accept the message, or it is about a name that stands for nothing. */
  predicate Unanswerable(s: Session, m: Message) {
    || ((m.Parse? || m.Bind? || m.DescribeStatement? || m.DescribePortal? || m.Execute?) && !m.ok)
    || ((m.Bind? || m.DescribeStatement?) && m.name !in s.prepared)
    || (m.DescribePortal? && m.name !in s.portals)
    || (m.Execute? && m.portal !in s.portals)
  }

  /**
   Every message that is not skipped, other than a query, gets one reply: that it was accepted, or else an
   error, with which the skipping begins; a closed name stands for nothing.
   */
  lemma {:induction false} OneReply(s: Session, m: Message)
    requires !m.Query?
    ensures var f := FlowStep(Flow(s, false), m);
            && |f.session.sent| == |s.sent| + 1 && f.session.sent[..|s.sent|] == s.sent
            && (f.skipping <==> Unanswerable(s, m))
            && (if f.skipping then f.session.sent[|s.sent|] == ErrorResponse else Accepts(f.session.sent[|s.sent|], m))
            && (m.CloseStatement? ==> m.name !in f.session.prepared)
            && (m.ClosePortal? ==> m.name !in f.session.portals)
  {
  }

  /** Parse, Bind and Execute, one after the other, run just that statement, under whatever names. */
  lemma {:induction false} ParseBindExecute(s: Session, name: string, portal: string, id: nat)
    ensures var f := FlowStep(FlowStep(FlowStep(Flow(s, false), Parse(name, id, true)), Bind(portal, name, true)),
                              Execute(portal, true));
            f == Flow(Session(s.prepared[name := id], s.portals[portal := id], s.ran + [id],
                              s.sent + [ParseComplete, BindComplete, CommandComplete(id)]), false)
  {
    assert s.sent + [ParseComplete] + [BindComplete] + [CommandComplete(id)]
        == s.sent + [ParseComplete, BindComplete, CommandComplete(id)];
  }
}
