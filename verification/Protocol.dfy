/**
 The PostgreSQL message flow, as the protocol describes it (sections "Simple Query" and "Extended
 Query" of "Message Flow"): after an error in an extended query everything up to the next Sync is
 read and discarded, and each Sync, like each simple query, is answered by one ReadyForQuery.
 */
module Protocol {

  datatype Statement = Statement(id: nat, ok: bool)

  /**
   What a client sends. `ok` tells whether the engine will accept the request. A query is one or more
   statements; an early one is answered before it is converted.
   */
  datatype Message =
    | Query(early: bool, first: Statement, rest: seq<Statement>)
    | Parse(name: string, id: nat, ok: bool)
    | Bind(portal: string, name: string, ok: bool)
    | DescribeStatement(name: string, ok: bool)
    | DescribePortal(name: string, ok: bool)
    | Execute(portal: string, ok: bool)
    | CloseStatement(name: string)
    | ClosePortal(name: string)
    | Sync

  datatype Response =
    | ParseComplete
    | BindComplete
    | Description
    | CommandComplete(id: nat)
    | CloseComplete
    | ErrorResponse
    | ReadyForQuery

  /** What a connection has done: the statements it ran and the responses it sent, and what it keeps. */
  datatype Session = Session(
    prepared: map<string, nat>, portals: map<string, nat>, ran: seq<nat>, sent: seq<Response>)

  const FRESH := Session(map[], map[], [], [])

  function Sends(s: Session, r: Response): Session {
    s.(sent := s.sent + [r])
  }

  function Runs(s: Session, id: nat): Session {
    s.(ran := s.ran + [id], sent := s.sent + [CommandComplete(id)])
  }

  predicate IsExtended(m: Message) {
    !m.Query? && !m.Sync?
  }

  /** The statements of a query up to the first that fails, and whether one does. */
  function RunAll(s: Session, statements: seq<Statement>): (Session, bool)
    decreases statements
  {
    if statements == [] then (s, true)
    else if !statements[0].ok then (s, false)
    else RunAll(Runs(s, statements[0].id), statements[1..])
  }

  /** A query forgets the unnamed statement and the unnamed portal. */
  function ForgetUnnamed(s: Session): Session {
    s.(prepared := s.prepared - {""}, portals := s.portals - {""})
  }

  function RunQuery(s: Session, m: Message): (Session, bool)
    requires m.Query?
  {
    if m.early then RunAll(s, [m.first]) else RunAll(ForgetUnnamed(s), [m.first] + m.rest)
  }

  /** A request of the extended query protocol; nothing if it fails. */
  function Answer(s: Session, m: Message): (r: (Session, bool))
    requires IsExtended(m)
    ensures !r.1 ==> r.0 == s
  {
    match m
    case Parse(name, id, ok) =>
      if ok then (Sends(s.(prepared := s.prepared[name := id]), ParseComplete), true) else (s, false)
    case Bind(portal, name, ok) =>
      if name in s.prepared && ok then
        (Sends(s.(portals := s.portals[portal := s.prepared[name]]), BindComplete), true)
      else (s, false)
    case DescribeStatement(name, ok) =>
      if name in s.prepared && ok then (Sends(s, Description), true) else (s, false)
    case DescribePortal(name, ok) =>
      if name in s.portals && ok then (Sends(s, Description), true) else (s, false)
    case Execute(portal, ok) =>
      if portal in s.portals && ok then (Runs(s, s.portals[portal]), true) else (s, false)
    case CloseStatement(name) => (Sends(s.(prepared := s.prepared - {name}), CloseComplete), true)
    case ClosePortal(name) => (Sends(s.(portals := s.portals - {name}), CloseComplete), true)
  }

  // ----- The flow -----

  /** `skipping` is the time between an error in an extended query and the next Sync. */
  datatype Flow = Flow(session: Session, skipping: bool)

  function FlowStep(f: Flow, m: Message): Flow {
    if m.Sync? then Flow(Sends(f.session, ReadyForQuery), false)
    else if f.skipping then f
    else if m.Query? then
      var (s, ok) := RunQuery(f.session, m);
      Flow(Sends(if ok then s else Sends(s, ErrorResponse), ReadyForQuery), false)
    else
      var (s, ok) := Answer(f.session, m);
      if ok then Flow(s, false) else Flow(Sends(s, ErrorResponse), true)
  }

  function FlowRun(ms: seq<Message>): Flow {
    if ms == [] then Flow(FRESH, false) else FlowStep(FlowRun(ms[..|ms| - 1]), ms[|ms| - 1])
  }

  lemma {:induction false} FlowRunAppend(ms: seq<Message>, m: Message)
    ensures FlowRun(ms + [m]) == FlowStep(FlowRun(ms), m)
  {
    assert (ms + [m])[..|ms|] == ms;
  }

  // ----- Counting ReadyForQuery -----

  function Readies(rs: seq<Response>): nat {
    if rs == [] then 0
    else Readies(rs[..|rs| - 1]) + (if rs[|rs| - 1].ReadyForQuery? then 1 else 0)
  }

  lemma {:induction false} ReadiesAppend(rs: seq<Response>, r: Response)
    ensures Readies(rs + [r]) == Readies(rs) + (if r.ReadyForQuery? then 1 else 0)
  {
    assert (rs + [r])[..|rs|] == rs;
  }

  /** The Syncs, and the queries that are not skipped. */
  function Owed(ms: seq<Message>): nat {
    if ms == [] then 0
    else
      var n := |ms| - 1;
      Owed(ms[..n]) + (if ms[n].Sync? || (ms[n].Query? && !FlowRun(ms[..n]).skipping) then 1 else 0)
  }

  lemma {:induction false} RunAllIsNotReady(s: Session, statements: seq<Statement>)
    ensures Readies(RunAll(s, statements).0.sent) == Readies(s.sent)
    decreases statements
  {
    if statements != [] && statements[0].ok {
      ReadiesAppend(s.sent, CommandComplete(statements[0].id));
      RunAllIsNotReady(Runs(s, statements[0].id), statements[1..]);
    }
  }

  lemma {:induction false} AnswerIsNotReady(s: Session, m: Message)
    requires IsExtended(m)
    ensures Readies(Answer(s, m).0.sent) == Readies(s.sent)
  {
    var t := Answer(s, m).0.sent;
    if t != s.sent {
      ReadiesAppend(s.sent, t[|s.sent|]);
      assert t == s.sent + [t[|s.sent|]];
    }
  }

  lemma {:induction false} StepReadies(f: Flow, m: Message)
    ensures Readies(FlowStep(f, m).session.sent)
            == Readies(f.session.sent) + (if m.Sync? || (m.Query? && !f.skipping) then 1 else 0)
  {
    if m.Sync? {
      ReadiesAppend(f.session.sent, ReadyForQuery);
    } else if !f.skipping && m.Query? {
      var (s, ok) := RunQuery(f.session, m);
      RunAllIsNotReady(f.session, [m.first]);
      RunAllIsNotReady(ForgetUnnamed(f.session), [m.first] + m.rest);
      ReadiesAppend(s.sent, ErrorResponse);
      ReadiesAppend(s.sent, ReadyForQuery);
      ReadiesAppend(s.sent + [ErrorResponse], ReadyForQuery);
    } else if !f.skipping {
      AnswerIsNotReady(f.session, m);
      ReadiesAppend(Answer(f.session, m).0.sent, ErrorResponse);
    }
  }

  /** In every stream each Sync and each query that is not skipped gets one ReadyForQuery, and nothing else does. */
  lemma {:induction false} ReadyForQueryAccounting(ms: seq<Message>)
    ensures Readies(FlowRun(ms).session.sent) == Owed(ms)
  {
    if ms != [] {
      var n := |ms| - 1;
      ReadyForQueryAccounting(ms[..n]);
      StepReadies(FlowRun(ms[..n]), ms[n]);
    }
  }

  /** Nothing that is sent between an error and the next Sync has any effect. */
  lemma {:induction false} SkippedHasNoEffect(ms: seq<Message>, skipped: seq<Message>)
    requires FlowRun(ms).skipping && Sync !in skipped
    ensures FlowRun(ms + skipped) == FlowRun(ms)
  {
    if skipped == [] {
      assert ms + skipped == ms;
    } else {
      var n := |skipped| - 1;
      SkippedHasNoEffect(ms, skipped[..n]);
      assert ms + skipped == ms + skipped[..n] + [skipped[n]];
      FlowRunAppend(ms + skipped[..n], skipped[n]);
    }
  }
}
