/** The link, the recorder, the shims and the client as objects that change in place. */
module ClientObjects {
  import opened Prelude
  import opened Handles
  import opened Protocol
  import opened Bodies
  import opened Backends
  import opened Streams
  import opened SessionObjects
  import opened ServeLoops
  import opened Traces
  import Clients
  import Sessions

  /** Two stream transports back to back with a served session at the far end. */
  class ServedLink {
    const near: StreamTransport
    const far: StreamTransport
    const session: SessionObject
    var open: bool

    ghost function Repr(): set<object>
      reads session
    {
      {this, near, far, session} + session.Repr()
    }

    ghost predicate Valid()
      reads session
    {
      near != far && near.maxFrame == far.maxFrame == MAX_FRAME && session.Valid()
    }

    ghost function Model(): Clients.Link
      reads this, near, far, session, session.Repr()
    {
      Clients.Link(open, far.rx + near.tx, near.rx + far.tx, session.Model())
    }

    constructor (session: SessionObject)
      requires session.Valid()
      ensures Valid() && this.session == session
      ensures Model() == Clients.Link(true, [], [], session.Model())
    {
      var a := new StreamTransport(MAX_FRAME);
      var b := new StreamTransport(MAX_FRAME);
      near, far, this.session, open := a, b, session, true;
    }

    method Send(frame: seq<byte>) returns (failure: Option<IoError>)
      requires Valid()
      modifies near
      ensures Valid() && session.Repr() == old(session.Repr())
      ensures (Model(), failure) == Clients.LinkSend(old(Model()), frame)
    {
      hide Framed, SessionObject.Model;
      Ends(near);
      if !open {
        return Some(BrokenPipe);
      }
      var r := near.Send(frame);
      session.Undisturbed();
      failure := if r.Ok? then None else Some(r.error);
      if r.Ok? {
        assert far.rx + (old(near.tx) + Framed(frame)) == far.rx + old(near.tx) + Framed(frame);
      }
    }

    lemma Ends(o: object)
      requires o is StreamTransport || o is ServedLink
      ensures o !in session.Repr()
    {
      if o in session.Repr() {
        session.OwnsBackends(o);
      }
    }

    /** The far end receives what has come up, handles it and sends the reply, or stops serving. */
    method ServerTurn()
      requires Valid()
      modifies this, near, far, session, session.Repr()
      ensures Valid() && session.Repr() == old(session.Repr())
      ensures Model() == Clients.ServerTurn(old(Model()))
    {
      hide Framed, Receive, Sessions.HandleFrame, BackendStep, SessionObject.Model;
      Ends(near);
      Ends(far);
      Ends(this);
      if !open {
        return;
      }
      far.rx, near.tx := far.rx + near.tx, [];
      assert far.rx + near.tx == old(far.rx + near.tx);
      var frame := far.Recv();
      assert far.rx + near.tx == far.rx;
      if frame.Err? {
        open := false;
        session.Undisturbed();
        return;
      }
      session.Undisturbed();
      var reply := session.Handle(frame.value);
      label Handled:
      if reply.Err? {
        open := false;
        session.Undisturbed@Handled();
        return;
      }
      var sent := far.Send(reply.value);
      if sent.Err? {
        open := false;
      } else {
        assert near.rx + far.tx == old(near.rx + far.tx) + Framed(reply.value);
      }
      session.Undisturbed@Handled();
    }

    method Recv() returns (r: Result<seq<byte>, IoError>)
      requires Valid()
      modifies this, near, far, session, session.Repr()
      ensures Valid() && session.Repr() == old(session.Repr())
      ensures (Model(), r) == Clients.LinkRecv(old(Model()))
    {
      hide Clients.ServerTurn, Receive, SessionObject.Model;
      ServerTurn();
      label Turned:
      Ends(near);
      Ends(far);
      near.rx, far.tx := near.rx + far.tx, [];
      assert near.rx + far.tx == old@Turned(near.rx + far.tx);
      r := near.Recv();
      assert near.rx + far.tx == near.rx;
      session.Undisturbed@Turned();
    }

    /** Send, receive, decode the header and check opcode and kind, as every shim begins. */
    method Exchange(request: seq<byte>, expected: u32) returns (r: Result<seq<byte>, Clients.ClientError>)
      requires Valid()
      modifies this, near, far, session, session.Repr()
      ensures Valid() && session.Repr() == old(session.Repr())
      ensures (Model(), r) == Clients.Exchange(old(Model()), request, expected)
    {
      hide Clients.LinkSend, Clients.LinkRecv, DecodeFrame, SessionObject.Model;
      var failure := Send(request);
      if failure.Some? {
        return Err(Clients.Transport(failure.value));
      }
      var reply := Recv();
      if reply.Err? {
        return Err(Clients.Transport(reply.error));
      }
      var f := ReadFrame(reply.value);
      if f.Err? {
        return Err(Clients.Malformed(f.error));
      }
      if f.value.header.opcode != expected || f.value.header.kind != Response {
        return Err(Clients.UnexpectedReply(f.value.header.opcode, f.value.header.kind));
      }
      r := Ok(f.value.body);
    }

    /** The loop over the devices returned, stopping at the first of another kind. */
    method CheckDevices(kind: u8, handles: seq<Handle>) returns (bad: Option<Clients.ClientError>)
      ensures bad == Clients.CheckKinds(kind, handles)
    {
      var i := 0;
      assert handles[0..] == handles;
      while i < |handles|
        invariant i <= |handles|
        invariant Clients.CheckKinds(kind, handles[i..]) == Clients.CheckKinds(kind, handles)
      {
        if handles[i].kind != kind {
          return Some(Clients.Malformed(BadKind(handles[i].kind)));
        }
        assert handles[i..][1..] == handles[i + 1..];
        i := i + 1;
      }
      bad := None;
    }

    method Shim(c: Call, reqId: u32, seqNo: u64) returns (r: Result<Answer, Clients.ClientError>)
      requires Valid()
      modifies this, near, far, session, session.Repr()
      ensures Valid() && session.Repr() == old(session.Repr())
      ensures (Model(), r) == Clients.Shim(old(Model()), c, reqId, seqNo)
    {
      hide Clients.Exchange, DecodeDevices, DecodeHandle, DecodeWord, OpcodeOf, EncodeCall, EncodeFrame, SessionObject.Model;
      var body := WriteCall(c, []);
      var header := FrameHeader(PROTOCOL_MAJOR, 0, Request, OpcodeOf(c), reqId, seqNo, Truncate32(|body|));
      var request := WriteFrame(header, body);
      assert [] + EncodeCall(c) == EncodeCall(c);
      var reply := Exchange(request, OpcodeOf(c));
      if reply.Err? {
        return Err(reply.error);
      }
      var expected := Clients.ExpectedKind(c);
      if c.EnumeratePhysicalDevices? {
        var devices := ReadDevices(reply.value);
        if devices.Err? {
          return Err(Clients.Malformed(devices.error));
        }
        var bad := CheckDevices(KIND_PHYSICAL_DEVICE, devices.value);
        r := if bad.Some? then Err(bad.value) else Ok(Devices(devices.value));
      } else if c.DecodeVideoFrame? {
        var index := DecodeWord(reply.value);
        r := if index.Err? then Err(Clients.Malformed(index.error)) else Ok(FrameIndex(index.value));
      } else if expected.None? {
        r := Ok(Ack);
      } else {
        var h := DecodeHandle(reply.value);
        r := if h.Err? then Err(Clients.Malformed(h.error))
             else if h.value.kind != expected.value then Err(Clients.Malformed(BadKind(h.value.kind)))
             else Ok(Created(h.value));
      }
    }
  }

  /** The session wrapper: owns the link and hands out the ids. */
  class ClientObject {
    const transport: ServedLink
    var nextReqId: u32
    var nextSeq: u64
    const sessionId: u64

    ghost function Model(): Clients.Client
      reads this, transport, transport.near, transport.far, transport.session, transport.session.Repr()
    {
      Clients.Client(transport.Model(), nextReqId, nextSeq, sessionId)
    }

    constructor (transport: ServedLink, sessionId: u64)
      ensures this.transport == transport && this.sessionId == sessionId && nextReqId == 2 && nextSeq == 2
    {
      this.transport, this.sessionId, nextReqId, nextSeq := transport, sessionId, 2, 2;
    }

    method NextIds() returns (reqId: u32, seqNo: u64)
      modifies this
      ensures (reqId, seqNo) == (old(nextReqId), old(nextSeq))
      ensures nextReqId == SaturatingAdd32(reqId, 1) && nextSeq == SaturatingAdd64(seqNo, 1)
    {
      reqId, seqNo := nextReqId, nextSeq;
      nextReqId := SaturatingAdd32(nextReqId, 1);
      nextSeq := SaturatingAdd64(nextSeq, 1);
    }

    method Demand(d: Clients.Demand) returns (r: Result<Answer, Clients.ClientError>)
      requires transport.Valid()
      modifies this, transport, transport.near, transport.far, transport.session, transport.session.Repr()
      ensures transport.Valid() && transport.session.Repr() == old(transport.session.Repr())
      ensures (Model(), r) == Clients.Demanded(old(Model()), d)
    {
      hide Clients.Shim, Clients.Exchange, Clients.RequestFrame, ServedLink.Model;
      Untouched();
      var reqId, seqNo := NextIds();
      assert transport.Model() == old(transport.Model());
      match d
      case Invoke(call) =>
        r := transport.Shim(call, reqId, seqNo);
      case Ping =>
        var body := transport.Exchange(Clients.RequestFrame(NOOP, reqId, seqNo, []), NOOP);
        r := if body.Err? then Err(body.error) else Ok(Ack);
    }

    lemma Untouched()
      ensures this !in transport.session.Repr()
    {
      if this in transport.session.Repr() {
        transport.session.OwnsBackends(this);
      }
    }
  }

  /** `Client::connect`: handshake first, then a client whose counters start at 2. */
  method Connect(transport: ServedLink) returns (r: Result<ClientObject, Clients.ClientError>)
    requires transport.Valid()
    modifies transport, transport.near, transport.far, transport.session, transport.session.Repr()
    ensures transport.Valid() && transport.session.Repr() == old(transport.session.Repr())
    ensures var (l, c) := Clients.Connect(old(transport.Model()));
            && transport.Model() == l
            && (r.Err? ==> c == Err(r.error))
            && (r.Ok? ==> fresh(r.value) && r.value.transport == transport && c == Ok(r.value.Model()))
  {
    hide Clients.Exchange, Clients.RequestFrame, DecodeWelcome, EncodeHello, ServedLink.Model;
    var hello := EncodeHello(Hello(PROTOCOL_MAJOR, PROTOCOL_MINOR, 0, DEFAULT_MAX_FRAME_BODY));
    var body := transport.Exchange(Clients.RequestFrame(HELLO, 1, 1, hello), WELCOME);
    if body.Err? {
      return Err(body.error);
    }
    var w := DecodeWelcome(body.value);
    if w.Err? {
      return Err(Clients.Malformed(w.error));
    }
    var client := new ClientObject(transport, w.value.sessionId);
    r := Ok(client);
  }

  /** Tees both directions of a link into a trace, each frame only once its operation has succeeded. */
  class RecordingTransport {
    const inner: ServedLink
    var trace: Trace

    constructor (inner: ServedLink)
      ensures this.inner == inner && trace == []
    {
      this.inner, trace := inner, [];
    }

    method Send(frame: seq<byte>) returns (failure: Option<IoError>)
      requires inner.Valid()
      modifies this, inner.near
      ensures inner.Valid() && inner.session.Repr() == old(inner.session.Repr())
      ensures (inner.Model(), failure) == Clients.LinkSend(old(inner.Model()), frame)
      ensures trace == old(trace) + if failure.None? then [frame] else []
    {
      hide Clients.LinkSend, ServedLink.Model;
      Untouched();
      failure := inner.Send(frame);
      if failure.None? {
        label Sent:
        trace := trace + [frame];
        assert inner.Model() == old@Sent(inner.Model());
      }
    }

    method Recv() returns (r: Result<seq<byte>, IoError>)
      requires inner.Valid()
      modifies this, inner, inner.near, inner.far, inner.session, inner.session.Repr()
      ensures inner.Valid() && inner.session.Repr() == old(inner.session.Repr())
      ensures (inner.Model(), r) == Clients.LinkRecv(old(inner.Model()))
      ensures trace == old(trace) + if r.Ok? then [r.value] else []
    {
      hide Clients.LinkRecv, ServedLink.Model;
      Untouched();
      r := inner.Recv();
      if r.Ok? {
        label Received:
        trace := trace + [r.value];
        assert inner.Model() == old@Received(inner.Model());
      }
    }

    /** One exchange through the recorder, as any shim makes it. */
    method RecordExchange(request: seq<byte>)
      requires inner.Valid()
      modifies this, inner, inner.near, inner.far, inner.session, inner.session.Repr()
      ensures inner.Valid() && inner.session.Repr() == old(inner.session.Repr())
      ensures Recorded(inner.Model(), trace) == RecordOne(Recorded(old(inner.Model()), old(trace)), request)
    {
      hide Clients.LinkSend, Clients.LinkRecv, ServedLink.Model;
      Untouched();
      var failure := Send(request);
      if failure.None? {
        var reply := Recv();
      }
    }

    lemma Untouched()
      ensures this !in inner.session.Repr()
    {
      if this in inner.session.Repr() {
        inner.session.OwnsBackends(this);
      }
    }
  }

  /** `replay`: re-send each recorded request; the first failing send aborts. */
  method RunReplay(transport: Endpoint, trace: Trace) returns (failure: Option<IoError>)
    modifies transport
    ensures (transport.Model(), failure) == Replay(old(transport.Model()), trace)
  {
    var i := 0;
    assert trace[0..] == trace;
    while i < |trace|
      invariant i <= |trace|
      invariant Replay(transport.Model(), trace[i..]) == Replay(old(transport.Model()), trace)
    {
      assert trace[i..][1..] == trace[i + 1..];
      var f := ReadFrame(trace[i]);
      if f.Ok? && f.value.header.kind == Request {
        failure := transport.Send(trace[i]);
        if failure.Some? {
          return;
        }
      }
      i := i + 1;
    }
    failure := None;
  }
}
