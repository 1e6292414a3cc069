/** The serve loops as they run: a transport object, a session object and, for one of them, a registry. */
module ServeLoops {
  import opened Prelude
  import opened Protocol
  import opened Backends
  import opened Streams
  import opened Obs
  import opened Serving
  import opened SessionObjects
  import Sessions

  /**
   A `Transport` driven by a script. `VecTransport` is the case of an inbox without errors and a plan
   under which every send succeeds.
   */
  class Endpoint {
    var inbox: seq<Result<seq<byte>, IoError>>
    var plan: seq<Option<IoError>>
    var outbox: seq<seq<byte>>

    ghost function Model(): Line
      reads this
    {
      Line(inbox, plan, outbox)
    }

    constructor (inbox: seq<Result<seq<byte>, IoError>>, plan: seq<Option<IoError>>)
      ensures Model() == Line(inbox, plan, [])
    {
      this.inbox, this.plan, outbox := inbox, plan, [];
    }

    method Recv() returns (r: Result<seq<byte>, IoError>)
      modifies this`inbox
      ensures r == old(Model()).NextRecv() && Model() == old(Model()).AfterRecv()
    {
      if inbox == [] {
        return Err(EndOfFile);
      }
      r, inbox := inbox[0], inbox[1..];
    }

    method Send(frame: seq<byte>) returns (failure: Option<IoError>)
      modifies this`plan, this`outbox
      ensures failure == old(Model()).NextSend() && Model() == old(Model()).AfterSend(frame)
    {
      failure := if plan == [] then None else plan[0];
      plan := if plan == [] then [] else plan[1..];
      if failure.None? {
        outbox := outbox + [frame];
      }
    }
  }

  lemma Apart(o: object, session: SessionObject)
    requires o is Endpoint || o is ObsRegistry
    ensures o !in session.Repr()
  {
    if o in session.Repr() {
      session.OwnsBackends(o);
    }
  }

  /** The body both loops share: receive a frame, handle it, send the reply. */
  method RunTurn(transport: Endpoint, session: SessionObject) returns (t: Turn)
    requires session.Valid()
    modifies transport, session, session.Repr()
    ensures session.Valid() && session.Repr() == old(session.Repr())
    ensures TurnEnd(transport.Model(), session.Model(), t) ==
            TakeTurn(BackendStep, old(transport.Model()), old(session.Model()))
  {
    hide BackendStep, Sessions.HandleFrame, SessionObject.Model, SessionObject.Valid;
    Apart(transport, session);
    var frame := transport.Recv();
    session.Undisturbed();
    if frame.Err? {
      return Stopped(if CleanClose(frame.error) then Ok(()) else Err(frame.error));
    }
    var reply := session.Handle(frame.value);
    if reply.Err? {
      return Stopped(Ok(()));
    }
    label Handled:
    var failure := transport.Send(reply.value);
    session.Undisturbed@Handled();
    t := if failure.Some? then Stopped(Err(failure.value)) else Replied(frame.value, reply.value);
  }

  method RunServe(transport: Endpoint, session: SessionObject) returns (result: Result<(), IoError>)
    requires session.Valid()
    modifies transport, session, session.Repr()
    ensures session.Valid() && session.Repr() == old(session.Repr())
    ensures Served(transport.Model(), session.Model(), result) ==
            Serve(BackendStep, old(transport.Model()), old(session.Model()))
  {
    hide BackendStep, TakeTurn, Serve, SessionObject.Model, SessionObject.Repr, SessionObject.Valid;
    while true
      invariant session.Valid() && session.Repr() == old(session.Repr())
      invariant Serve(BackendStep, transport.Model(), session.Model()) ==
                Serve(BackendStep, old(transport.Model()), old(session.Model()))
      decreases |transport.inbox|
    {
      ServeTurn(BackendStep, transport.Model(), session.Model());
      var t := RunTurn(transport, session);
      if t.Stopped? {
        return t.result;
      }
    }
  }

  /** Peeks each request's API name and records one call per reply sent. */
  method RunServeWithMetrics(transport: Endpoint, session: SessionObject, registry: ObsRegistry) returns (result: Result<(), IoError>)
    requires session.Valid() && registry.Valid()
    modifies transport, session, session.Repr(), registry
    ensures session.Valid() && session.Repr() == old(session.Repr()) && registry.Valid()
    ensures var m := ServeMetered(BackendStep, old(transport.Model()), old(session.Model()));
            && Served(transport.Model(), session.Model(), result) == m.served
            && registry.log == old(registry.log) + m.log
  {
    hide BackendStep, TakeTurn, ServeMetered, LogEntry, DecodeFrame, ApiName;
    hide SessionObject.Model, SessionObject.Valid, ObsRegistry.Valid;
    Apart(registry, session);
    ghost var all := ServeMetered(BackendStep, transport.Model(), session.Model());
    ghost var rest := all;
    while true
      invariant session.Valid() && session.Repr() == old(session.Repr()) && registry.Valid()
      invariant rest == ServeMetered(BackendStep, transport.Model(), session.Model())
      invariant rest.served == all.served && registry.log + rest.log == old(registry.log) + all.log
      decreases |transport.inbox|
    {
      MeteredTurn(BackendStep, transport.Model(), session.Model());
      ghost var logged := registry.log;
      var t := RunTurn(transport, session);
      if t.Stopped? {
        assert logged + [] == logged;
        return t.result;
      }
      rest := ServeMetered(BackendStep, transport.Model(), session.Model());
      ghost var entry := LogEntry(t.request, t.reply);
      LogEntryIs(t.request, t.reply);
      var peeked := ReadFrame(t.request);
      label Served:
      if peeked.Ok? {
        registry.Record(ApiName(OpcodeApi(peeked.value.header.opcode)), |t.request|, |t.reply|);
      }
      session.Undisturbed@Served();
      assert registry.log == logged + entry;
      assert logged + (entry + rest.log) == registry.log + rest.log;
    }
  }

  lemma LogEntryIs(frame: seq<byte>, reply: seq<byte>)
    ensures LogEntry(frame, reply) ==
            if DecodeFrame(frame).Err? then []
            else [CallRecord(ApiName(OpcodeApi(DecodeFrame(frame).value.header.opcode)), |frame|, |reply|)]
  {
    hide DecodeFrame, ApiName;
  }
}
