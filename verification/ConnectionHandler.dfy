/**
 The message loop of a Postgres connection (`pgserver/connection_handler.go`): where the protocol
 skips message by message, the handler reads ahead to the next Sync and only then reports the error.
 */
module ConnectionHandler {
  import opened Protocol

  datatype Outcome = Outcome(endOfMessages: bool, failed: bool)

  class Handler {
    /** What the client sends, and how much of it has been received. */
    const incoming: seq<Message>
    var received: nat
    var waitForSync: bool
    var session: Session

    ghost predicate Valid()
      reads this
    {
      received <= |incoming|
    }

    constructor (messages: seq<Message>)
      ensures Valid() && incoming == messages && received == 0 && session == FRESH && !waitForSync
    {
      incoming, received, waitForSync, session := messages, 0, false, FRESH;
    }

    method Send(r: Response)
      modifies `session
      ensures session == Sends(old(session), r)
    {
      session := session.(sent := session.sent + [r]);
    }

    method Run(statement: Statement) returns (ok: bool)
      modifies `session
      ensures (session, ok) == RunAll(old(session), [statement])
    {
      ok := statement.ok;
      if ok {
        session := Runs(session, statement.id);
        assert [statement][1..] == [];
      }
    }

    method HandleQuery(m: Message) returns (r: Outcome)
      requires m.Query?
      modifies `session
      ensures (session, !r.failed) == RunQuery(old(session), m) && r.endOfMessages
    {
      if m.early {
        var ok := Run(m.first);
        return Outcome(true, !ok);
      }
      session := ForgetUnnamed(session);
      ghost var start := session;
      var statements := [m.first] + m.rest;
      for i := 0 to |statements|
        invariant RunAll(session, statements[i..]) == RunAll(start, statements)
      {
        ghost var before := session;
        var ok := Run(statements[i]);
        assert RunAll(before, statements[i..])
            == if ok then RunAll(session, statements[i + 1..]) else (session, false) by {
          assert statements[i..][1..] == statements[i + 1..] && [statements[i]][1..] == [];
        }
        if !ok {
          return Outcome(true, true);
        }
      }
      return Outcome(true, false);
    }

    method HandleParse(name: string, id: nat, ok: bool) returns (failed: bool)
      modifies `session, `waitForSync
      ensures (session, !failed) == Answer(old(session), Parse(name, id, ok)) && waitForSync
    {
      waitForSync := true;
      if !ok {
        return true;
      }
      session := session.(prepared := session.prepared[name := id]);
      Send(ParseComplete);
      return false;
    }

    method HandleBind(portal: string, name: string, ok: bool) returns (failed: bool)
      modifies `session, `waitForSync
      ensures (session, !failed) == Answer(old(session), Bind(portal, name, ok)) && waitForSync
    {
      waitForSync := true;
      if name !in session.prepared || !ok {
        return true;
      }
      session := session.(portals := session.portals[portal := session.prepared[name]]);
      Send(BindComplete);
      return false;
    }

    method HandleDescribe(statement: bool, name: string, ok: bool) returns (failed: bool)
      modifies `session, `waitForSync
      ensures var m := if statement then DescribeStatement(name, ok) else DescribePortal(name, ok);
              (session, !failed) == Answer(old(session), m)
      ensures waitForSync
    {
      waitForSync := true;
      if statement {
        if name !in session.prepared {
          return true;
        }
      } else if name !in session.portals {
        return true;
      }
      if !ok {
        return true;
      }
      Send(Description);
      return false;
    }

    method HandleExecute(portal: string, ok: bool) returns (failed: bool)
      modifies `session, `waitForSync
      ensures (session, !failed) == Answer(old(session), Execute(portal, ok)) && waitForSync
    {
      waitForSync := true;
      if portal !in session.portals || !ok {
        return true;
      }
      session := Runs(session, session.portals[portal]);
      return false;
    }

    method HandleMessage(m: Message) returns (r: Outcome)
      modifies `session, `waitForSync
      ensures m.Sync? ==> r == Outcome(true, false) && session == old(session)
      ensures m.Query? ==> r.endOfMessages && (session, !r.failed) == RunQuery(old(session), m)
      ensures IsExtended(m) ==>
                !r.endOfMessages && (session, !r.failed) == Answer(old(session), m) && (r.failed ==> waitForSync)
    {
      var failed := false;
      match m {
        case Sync =>
          waitForSync := false;
          return Outcome(true, false);
        case Query(_, _, _) =>
          r := HandleQuery(m);
          return;
        case Parse(name, id, ok) => failed := HandleParse(name, id, ok);
        case DescribeStatement(name, ok) => failed := HandleDescribe(true, name, ok);
        case DescribePortal(name, ok) => failed := HandleDescribe(false, name, ok);
        case Bind(portal, name, ok) => failed := HandleBind(portal, name, ok);
        case Execute(portal, ok) => failed := HandleExecute(portal, ok);
        case CloseStatement(name) =>
          session := session.(prepared := session.prepared - {name});
          Send(CloseComplete);
        case ClosePortal(name) =>
          session := session.(portals := session.portals - {name});
          Send(CloseComplete);
      }
      return Outcome(false, failed);
    }

    /** Reads up to and including the next Sync; `found` is false if the client hangs up before it. */
    method DiscardToSync() returns (found: bool)
      requires Valid()
      modifies `received
      ensures Valid() && old(received) <= received
      ensures found ==> old(received) < received && incoming[received - 1] == Sync
      ensures Sync !in incoming[old(received)..if found then received - 1 else received]
      ensures !found ==> received == |incoming|
    {
      while received < |incoming|
        invariant Valid() && old(received) <= received && Sync !in incoming[old(received)..received]
      {
        var m := incoming[received];
        received := received + 1;
        assert incoming[old(received)..received] == incoming[old(received)..received - 1] + [m];
        if m == Sync {
          return true;
        }
      }
      return false;
    }

    method EndOfMessages(failed: bool)
      modifies `session
      ensures session == Sends(if failed then Sends(old(session), ErrorResponse) else old(session), ReadyForQuery)
    {
      if failed {
        Send(ErrorResponse);
      }
      Send(ReadyForQuery);
    }

    /** The session is where the protocol would be, had it read the same messages. */
    ghost predicate InStep()
      requires Valid()
      reads this
    {
      FlowRun(incoming[..received]) == Flow(session, false)
    }

    method ReceiveMessage()
      requires Valid() && InStep() && received < |incoming|
      modifies this
      ensures Valid() && old(received) < received
      ensures var flow := FlowRun(incoming[..received]);
              if flow.skipping then received == |incoming| && session == Sends(flow.session, ReadyForQuery)
              else InStep()
    {
      var m := incoming[received];
      ghost var seen := incoming[..received];
      received := received + 1;
      assert incoming[..received] == seen + [m];
      FlowRunAppend(seen, m);
      var r := HandleMessage(m);
      if r.failed {
        ghost var at := received;
        if !r.endOfMessages && waitForSync {
          var found := DiscardToSync();
          ghost var last := if found then received - 1 else received;
          ghost var skipped := incoming[at..last];
          SkippedHasNoEffect(seen + [m], skipped);
          assert incoming[..last] == seen + [m] + skipped;
          if found {
            assert incoming[..received] == incoming[..last] + [Sync];
            FlowRunAppend(incoming[..last], Sync);
          }
        }
        EndOfMessages(true);
      } else if r.endOfMessages {
        EndOfMessages(false);
      }
    }

    /**
     The connection until the client hangs up: what was kept, run and answered is what the protocol
     asks for, and one ReadyForQuery more exactly if the client left while an error was pending.
     */
    method HandleConnection()
      requires Valid() && InStep()
      modifies this
      ensures Valid() && received == |incoming|
      ensures var flow := FlowRun(incoming);
              session == if flow.skipping then Sends(flow.session, ReadyForQuery) else flow.session
      ensures Readies(session.sent) == Owed(incoming) <==> !FlowRun(incoming).skipping
    {
      while received < |incoming|
        invariant Valid() && received <= |incoming|
        invariant var flow := FlowRun(incoming[..received]);
                  if flow.skipping then received == |incoming| && session == Sends(flow.session, ReadyForQuery)
                  else InStep()
      {
        ReceiveMessage();
      }
      assert incoming[..received] == incoming;
      ReadyForQueryAccounting(incoming);
      ReadiesAppend(FlowRun(incoming).session.sent, ReadyForQuery);
    }
  }
}
