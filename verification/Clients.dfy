/**
 The client shims over a framed byte link to a served session, and that remoting is transparent: a
 run of calls through every layer does what the backends' own operations do.
 */
module Clients {
  import opened Prelude
  import opened Handles
  import opened Tables
  import opened Wire
  import opened Protocol
  import opened Bodies
  import opened Backends
  import opened Sessions
  import opened Streams

  datatype ClientError =
    | Transport(io: IoError)
    | Malformed(error: ProtocolError)
    | UnexpectedReply(opcode: u32, kind: FrameKind)

  /** Bytes on their way up and down, and the serve loop's session while it is still serving. */
  datatype Link = Link(open: bool, up: seq<byte>, down: seq<byte>, session: Session<BackendState>)

  function LinkSend(l: Link, frame: seq<byte>): (Link, Option<IoError>) {
    if !l.open then (l, Some(BrokenPipe))
    else if |frame| > U32_MAX then (l, Some(InvalidInput))
    else (l.(up := l.up + Framed(frame)), None)
  }

  /** One turn of the serve loop on what has come up: reply, or stop serving. */
  function ServerTurn(l: Link): Link {
    if !l.open then l
    else
      var r := Receive(MAX_FRAME, l.up);
      match r.result
      case Err(_) => l.(open := false, up := r.rest)
      case Ok(frame) =>
        var h := HandleFrame(BackendStep, l.session, frame);
        match h.reply
        case Err(_) => l.(open := false, up := r.rest, session := h.state)
        case Ok(reply) =>
          if |reply| > U32_MAX then l.(open := false, up := r.rest, session := h.state)
          else l.(up := r.rest, down := l.down + Framed(reply), session := h.state)
  }

  /** The client blocks until the server has taken its turn, then reads what came down. */
  function LinkRecv(l: Link): (Link, Result<seq<byte>, IoError>) {
    var l' := ServerTurn(l);
    var r := Receive(MAX_FRAME, l'.down);
    (l'.(down := r.rest), r.result)
  }

  // The shims

  /** The kind a shim insists on in the handles it gets back. */
  function ExpectedKind(c: Call): Option<u8> {
    match c
    case CreateInstance(_) => Some(KIND_INSTANCE)
    case EnumeratePhysicalDevices(_) => Some(KIND_PHYSICAL_DEVICE)
    case CreateDevice(_) => Some(KIND_DEVICE)
    case GetDeviceQueue(_, _, _) => Some(KIND_QUEUE)
    case AllocateMemory(_, _) => Some(KIND_DEVICE_MEMORY)
    case CreateBuffer(_, _, _) => Some(KIND_BUFFER)
    case CreateCommandPool(_, _) => Some(KIND_COMMAND_POOL)
    case AllocateCommandBuffer(_) => Some(KIND_COMMAND_BUFFER)
    case CreateDecodeSession(_, _, _) => Some(KIND_VIDEO_SESSION)
    case _ => None
  }

  function CheckKinds(kind: u8, handles: seq<Handle>): Option<ClientError> {
    if handles == [] then None
    else if handles[0].kind != kind then Some(Malformed(BadKind(handles[0].kind)))
    else CheckKinds(kind, handles[1..])
  }

  /** What a shim makes of the body of a reply that passed the opcode and kind checks. */
  function DecodeAnswer(c: Call, body: seq<byte>): Result<Answer, ClientError> {
    if c.EnumeratePhysicalDevices? then
      match DecodeDevices(body)
      case Err(e) => Err(Malformed(e))
      case Ok(hs) =>
        var bad := CheckKinds(KIND_PHYSICAL_DEVICE, hs);
        if bad.Some? then Err(bad.value) else Ok(Devices(hs))
    else if c.DecodeVideoFrame? then
      match DecodeWord(body)
      case Err(e) => Err(Malformed(e))
      case Ok(i) => Ok(FrameIndex(i))
    else if ExpectedKind(c).None? then Ok(Ack)
    else
      match DecodeHandle(body)
      case Err(e) => Err(Malformed(e))
      case Ok(h) =>
        if h.kind != ExpectedKind(c).value then Err(Malformed(BadKind(h.kind))) else Ok(Created(h))
  }

  function RequestFrame(opcode: u32, reqId: u32, seqNo: u64, body: seq<byte>): seq<byte> {
    EncodeFrame(FrameHeader(PROTOCOL_MAJOR, 0, Request, opcode, reqId, seqNo, Truncate32(|body|)), body)
  }

  function CallFrame(c: Call, reqId: u32, seqNo: u64): seq<byte> {
    RequestFrame(OpcodeOf(c), reqId, seqNo, EncodeCall(c))
  }

  /** Send, receive, and check the reply's opcode and kind. */
  function Exchange(l: Link, request: seq<byte>, expected: u32): (Link, Result<seq<byte>, ClientError>) {
    var (l1, failure) := LinkSend(l, request);
    if failure.Some? then (l1, Err(Transport(failure.value)))
    else
      var (l2, reply) := LinkRecv(l1);
      (l2, CheckReply(reply, expected))
  }

  function CheckReply(reply: Result<seq<byte>, IoError>, expected: u32): Result<seq<byte>, ClientError> {
    match reply
    case Err(e) => Err(Transport(e))
    case Ok(frame) =>
      match DecodeFrame(frame)
      case Err(e) => Err(Malformed(e))
      case Ok(f) =>
        if f.header.opcode != expected || f.header.kind != Response
        then Err(UnexpectedReply(f.header.opcode, f.header.kind))
        else Ok(f.body)
  }

  /** Any one of the shims: they differ in the request's body and in the shape of the answer. */
  function Shim(l: Link, c: Call, reqId: u32, seqNo: u64): (Link, Result<Answer, ClientError>) {
    var (l', body) := Exchange(l, CallFrame(c, reqId, seqNo), OpcodeOf(c));
    match body
    case Err(e) => (l', Err(e))
    case Ok(b) => (l', DecodeAnswer(c, b))
  }

  // What the call would do without any of this

  function ApplyCall(b: BackendState, c: Call): Option<(BackendState, Answer)> {
    match b
    case Vulkan(s) =>
      (match VkApply(s, c)
       case None => None
       case Some((s', a)) => Some((Vulkan(s'), a)))
    case Video(s) =>
      (match VideoApply(s, c)
       case None => None
       case Some((s', a)) => Some((Video(s'), a)))
  }

  type BackendMap = map<u8, BackendState>

  function Direct(backends: BackendMap, c: Call): Option<(BackendMap, Answer)> {
    var api := OpcodeApi(OpcodeOf(c));
    if api !in backends then None
    else
      match ApplyCall(backends[api], c)
      case None => None
      case Some((b, a)) => Some((backends[api := b], a))
  }

  /** Backends sit under their own API ids. */
  predicate WellRegistered(backends: BackendMap) {
    && (API_VULKAN in backends ==> backends[API_VULKAN].Vulkan?)
    && (API_VIDEO in backends ==> backends[API_VIDEO].Video?)
  }

  // The pieces of one call

  lemma CallApis(c: Call)
    ensures OpcodeOf(c) != HELLO && OpcodeOf(c) != NOOP
    ensures OpcodeApi(OpcodeOf(c)) ==
            if c.CreateDecodeSession? || c.DecodeVideoFrame? || c.DestroySession? then API_VIDEO else API_VULKAN
  {
  }

  lemma CallBodiesSmall(c: Call)
    ensures |EncodeCall(c)| <= 32
  {
    hide EncodeFields;
    ShortWidths(4, 4, 4, 0);
    ShortWidths(8, 4, 4, 0);
    ShortWidths(8, 8, 4, 0);
    ShortWidths(8, 8, 8, 8);
    var ws := Widths(OpcodeOf(c)).value;
  }

  /** The backend reached over the wire does what the call itself does. */
  lemma StepIsDirect(b: BackendState, c: Call, reqId: u32)
    requires b.Vulkan? <==> OpcodeApi(OpcodeOf(c)) == API_VULKAN
    ensures var r := BackendStep(b, OpcodeOf(c), reqId, EncodeCall(c));
            if ApplyCall(b, c).None? then r.reply.Err? && r.state == b
            else r == StepResult(ApplyCall(b, c).value.0, Ok(EncodeAnswer(ApplyCall(b, c).value.1)))
  {
    hide VkApply, VideoApply, OpcodeApi, DecodeCall, EncodeAnswer;
    CallRoundTrip(c, []);
    assert EncodeCall(c) + [] == EncodeCall(c);
    CallApis(c);
  }

  /** Answers have the shape and the handle kinds the shim of their call expects. */
  predicate FitsShim(c: Call, a: Answer) {
    if c.EnumeratePhysicalDevices? then a.Devices? && |a.handles| == 1 && a.handles[0].kind == KIND_PHYSICAL_DEVICE
    else if c.DecodeVideoFrame? then a.FrameIndex?
    else if ExpectedKind(c).None? then a.Ack?
    else a.Created? && a.handle.kind == ExpectedKind(c).value
  }

  lemma AnswersFit(b: BackendState, c: Call)
    requires ApplyCall(b, c).Some?
    ensures FitsShim(c, ApplyCall(b, c).value.1)
  {
    hide Get, Update, Remove;
  }

  lemma AnswerRoundTrip(c: Call, a: Answer)
    requires FitsShim(c, a)
    ensures DecodeAnswer(c, EncodeAnswer(a)) == Ok(a)
    ensures |EncodeAnswer(a)| <= 12
  {
    hide EncodeHandle, DecodeHandle, EncodeDevices, DecodeDevices, DecodeWord;
    var bs := EncodeAnswer(a);
    assert bs + [] == bs;
    match a
    case Created(h) => HandleBodyRoundTrip(h, []);
    case Devices(hs) =>
      DevicesRoundTrip(hs, []);
      DevicesLength(hs);
      assert hs[1..] == [] && CheckKinds(KIND_PHYSICAL_DEVICE, []) == None;
    case FrameIndex(i) => WordBodyRoundTrip(i, []);
    case Ack =>
  }

  lemma DevicesLength(hs: seq<Handle>)
    ensures |EncodeDevices(hs)| == 4 + 8 * |hs|
  {
  }

  lemma SmallIsExact(n: nat)
    requires n <= U32_MAX
    ensures Truncate32(n) == n
  {
  }

  /** A link with nothing in flight. */
  predicate Quiet(l: Link) {
    l.open && l.up == [] && l.down == []
  }

  /** Over a quiet link a frame within the cap reaches the session whole, and a short reply comes back whole. */
  lemma QuietExchange(l: Link, request: seq<byte>)
    requires Quiet(l) && |request| <= MAX_FRAME
    requires var r := HandleFrame(BackendStep, l.session, request); r.reply.Ok? ==> |r.reply.value| <= MAX_FRAME
    ensures var h := HandleFrame(BackendStep, l.session, request);
            var (l', reply) := LinkRecv(LinkSend(l, request).0);
            && LinkSend(l, request).1 == None
            && (h.reply.Ok? ==> l' == l.(session := h.state) && reply == Ok(h.reply.value))
            && (h.reply.Err? ==> l' == l.(session := h.state, open := false) && reply == Err(EndOfFile))
  {
    hide HandleFrame, Framed, Receive;
    ReceiveFramed(MAX_FRAME, request, []);
    assert Framed(request) + [] == Framed(request) && [] + Framed(request) == Framed(request);
    var h := HandleFrame(BackendStep, l.session, request);
    if h.reply.Ok? {
      ReceiveFramed(MAX_FRAME, h.reply.value, []);
      assert Framed(h.reply.value) + [] == Framed(h.reply.value) && [] + Framed(h.reply.value) == Framed(h.reply.value);
    } else {
      NothingThere(MAX_FRAME);
    }
  }

  lemma NothingThere(maxFrame: u32)
    ensures Receive(maxFrame, []) == Received(Err(EndOfFile), [])
  {
  }

  /** The session's side of a call: direct application, then an answer under the next number. */
  lemma SessionAppliesCall(s: Session<BackendState>, c: Call, reqId: u32, seqNo: u64)
    requires WellRegistered(s.backends)
    ensures var r := HandleFrame(BackendStep, s, CallFrame(c, reqId, seqNo));
            if Direct(s.backends, c).None? || |EncodeCall(c)| > s.maxFrameBody then r.reply.Err? && r.state == s
            else
              var (b, a) := Direct(s.backends, c).value;
              r == StepResult(s.(backends := b, nextSeq := WrappingNext64(s.nextSeq)),
                              Ok(ReplyFrame(OpcodeOf(c), reqId, s.nextSeq, EncodeAnswer(a))))
  {
    hide BackendStep, DecodeFrame, EncodeFrame, ReplyFrame, OpcodeApi, ApplyCall, EncodeAnswer, OpcodeOf, EncodeCall;
    var body := EncodeCall(c);
    CallBodiesSmall(c);
    SmallIsExact(|body|);
    CallApis(c);
    FrameRoundTrip(FrameHeader(PROTOCOL_MAJOR, 0, Request, OpcodeOf(c), reqId, seqNo, Truncate32(|body|)), body);
    var api := OpcodeApi(OpcodeOf(c));
    if api in s.backends {
      StepIsDirect(s.backends[api], c, reqId);
      assert s.backends[api := s.backends[api]] == s.backends;
    }
  }

  lemma FrameLengths(opcode: u32, reqId: u32, seqNo: u64, body: seq<byte>)
    ensures |RequestFrame(opcode, reqId, seqNo, body)| == HEADER_LEN + |body|
    ensures |ReplyFrame(opcode, reqId, seqNo, body)| == HEADER_LEN + |body|
  {
  }

  /** A call's exchange over a quiet link: the answer's body comes back, or the stream has ended. */
  lemma ExchangeIsDirect(l: Link, c: Call, reqId: u32, seqNo: u64)
    requires Quiet(l) && WellRegistered(l.session.backends)
    ensures var r := Exchange(l, CallFrame(c, reqId, seqNo), OpcodeOf(c));
            if Direct(l.session.backends, c).None? || |EncodeCall(c)| > l.session.maxFrameBody then
              r == (l.(open := false), Err(Transport(EndOfFile)))
            else
              var (b, a) := Direct(l.session.backends, c).value;
              r == (l.(session := l.session.(backends := b, nextSeq := WrappingNext64(l.session.nextSeq))), Ok(EncodeAnswer(a)))
  {
    hide HandleFrame, CallFrame, LinkSend, LinkRecv, OpcodeOf, EncodeAnswer, ReplyFrame, DecodeFrame, ApplyCall, OpcodeApi, Quiet, EncodeCall;
    SessionAppliesCall(l.session, c, reqId, seqNo);
    CallFrameSmall(c, reqId, seqNo);
    if Direct(l.session.backends, c).Some? {
      var (b, a) := Direct(l.session.backends, c).value;
      AnswersFit(l.session.backends[OpcodeApi(OpcodeOf(c))], c);
      AnswerRoundTrip(c, a);
      FrameLengths(OpcodeOf(c), reqId, l.session.nextSeq, EncodeAnswer(a));
      ReplyDecodes(OpcodeOf(c), reqId, l.session.nextSeq, EncodeAnswer(a));
    }
    QuietExchange(l, CallFrame(c, reqId, seqNo));
  }

  /**
   Remoting transparency of one call over a quiet link: the shim returns exactly the answer of the
   direct operation and the backends change exactly as it changes them; none of the shim's checks
   fires. A call the backend rejects, or whose body is over the negotiated cap, shows as end of
   stream, with every table unchanged; there is no third case.
   */
  lemma {:induction false} ShimIsTransparent(l: Link, c: Call, reqId: u32, seqNo: u64)
    requires Quiet(l) && WellRegistered(l.session.backends)
    ensures var (l', r) := Shim(l, c, reqId, seqNo);
            if Direct(l.session.backends, c).None? || |EncodeCall(c)| > l.session.maxFrameBody then
              r == Err(Transport(EndOfFile)) && l' == l.(open := false)
            else
              var (b, a) := Direct(l.session.backends, c).value;
              r == Ok(a) && l' == l.(session := l.session.(backends := b, nextSeq := WrappingNext64(l.session.nextSeq)))
  {
    hide Exchange, CallFrame, OpcodeOf, DecodeAnswer, EncodeAnswer, ApplyCall, OpcodeApi, EncodeCall, Quiet, WellRegistered;
    ExchangeIsDirect(l, c, reqId, seqNo);
    if Direct(l.session.backends, c).Some? {
      AnswersFit(l.session.backends[OpcodeApi(OpcodeOf(c))], c);
      AnswerRoundTrip(c, Direct(l.session.backends, c).value.1);
    }
  }

  lemma CallFrameSmall(c: Call, reqId: u32, seqNo: u64)
    ensures |CallFrame(c, reqId, seqNo)| <= MAX_FRAME
  {
    hide EncodeCall;
    CallBodiesSmall(c);
    FrameLengths(OpcodeOf(c), reqId, seqNo, EncodeCall(c));
  }

  // Whole runs

  datatype Stamped = Stamped(call: Call, reqId: u32, seqNo: u64)

  /** Driving the shims one after the other, going on after failures. */
  function ShimAll(l: Link, calls: seq<Stamped>): (Link, seq<Result<Answer, ClientError>>)
    decreases |calls|
  {
    if calls == [] then (l, [])
    else
      var (l1, r) := Shim(l, calls[0].call, calls[0].reqId, calls[0].seqNo);
      var (l2, rest) := ShimAll(l1, calls[1..]);
      (l2, [r] + rest)
  }

  /** Applying the calls to the backends themselves, up to the first one turned down or over the cap. */
  function DirectAll(backends: BackendMap, cap: u32, calls: seq<Stamped>): (BackendMap, seq<Answer>)
    decreases |calls|
  {
    if calls == [] || Direct(backends, calls[0].call).None? || |EncodeCall(calls[0].call)| > cap then (backends, [])
    else
      var (b, a) := Direct(backends, calls[0].call).value;
      var (b', rest) := DirectAll(b, cap, calls[1..]);
      (b', [a] + rest)
  }

  /** Request bodies have at most 32 bytes, so from 32 on the cap is never felt. */
  lemma {:induction false} AmpleCapNeverFelt(backends: BackendMap, cap: u32, calls: seq<Stamped>)
    requires cap >= 32
    ensures DirectAll(backends, cap, calls) == DirectAll(backends, U32_MAX, calls)
    decreases |calls|
  {
    hide Direct, EncodeCall;
    if calls != [] && Direct(backends, calls[0].call).Some? {
      CallBodiesSmall(calls[0].call);
      AmpleCapNeverFelt(Direct(backends, calls[0].call).value.0, cap, calls[1..]);
    }
  }

  lemma {:induction false} ClosedLinkRefuses(l: Link, calls: seq<Stamped>)
    requires !l.open
    ensures ShimAll(l, calls).0 == l && |ShimAll(l, calls).1| == |calls|
    ensures forall i :: 0 <= i < |calls| ==> ShimAll(l, calls).1[i] == Err(Transport(BrokenPipe))
    decreases |calls|
  {
    hide CallFrame;
    if calls != [] {
      ClosedLinkRefuses(l, calls[1..]);
    }
  }

  lemma DirectKeepsRegistration(backends: BackendMap, c: Call)
    requires WellRegistered(backends) && Direct(backends, c).Some?
    ensures WellRegistered(Direct(backends, c).value.0)
  {
    hide VkApply, VideoApply, OpcodeApi, OpcodeOf;
  }

  /** The answers in order, then end of stream once, then broken pipes. */
  predicate Faithful(results: seq<Result<Answer, ClientError>>, answers: seq<Answer>) {
    |results| >= |answers| &&
    forall i :: 0 <= i < |results| ==>
      results[i] == if i < |answers| then Ok(answers[i])
                    else if i == |answers| then Err(Transport(EndOfFile))
                    else Err(Transport(BrokenPipe))
  }

  lemma FaithfulCons(a: Answer, results: seq<Result<Answer, ClientError>>, answers: seq<Answer>)
    requires Faithful(results, answers)
    ensures Faithful([Ok(a)] + results, [a] + answers)
  {
  }

  /**
   Remoting transparency over whole runs, under any negotiated cap: as long as the direct calls succeed
   and fit the cap the shims return their very answers; the first call rejected or over the cap returns
   end of stream and every later one a broken pipe; the backends end in the state the direct calls
   leave them in.
   */
  lemma {:induction false} RemotingIsTransparent(l: Link, calls: seq<Stamped>)
    requires Quiet(l) && WellRegistered(l.session.backends)
    ensures var (b, answers) := DirectAll(l.session.backends, l.session.maxFrameBody, calls);
            var (l', results) := ShimAll(l, calls);
            && l'.session.backends == b
            && |results| == |calls|
            && Faithful(results, answers)
            && (|answers| == |calls| ==> Quiet(l'))
    decreases |calls|
  {
    if calls != [] {
      hide Shim, Direct, WellRegistered, Faithful, Quiet, EncodeCall;
      var c := calls[0];
      ShimIsTransparent(l, c.call, c.reqId, c.seqNo);
      var (l1, r) := Shim(l, c.call, c.reqId, c.seqNo);
      if Direct(l.session.backends, c.call).Some? && |EncodeCall(c.call)| <= l.session.maxFrameBody {
        DirectKeepsRegistration(l.session.backends, c.call);
        StaysQuiet(l, l1);
        RemotingIsTransparent(l1, calls[1..]);
        FaithfulCons(Direct(l.session.backends, c.call).value.1, ShimAll(l1, calls[1..]).1,
                     DirectAll(l1.session.backends, l.session.maxFrameBody, calls[1..]).1);
      } else {
        ClosedLinkRefuses(l1, calls[1..]);
        NothingAnswered(ShimAll(l1, calls[1..]).1);
      }
    }
  }

  lemma StaysQuiet(l: Link, l': Link)
    requires Quiet(l) && l' == l.(session := l'.session)
    ensures Quiet(l')
  {
  }

  lemma NothingAnswered(rest: seq<Result<Answer, ClientError>>)
    requires forall i :: 0 <= i < |rest| ==> rest[i] == Err(Transport(BrokenPipe))
    ensures Faithful([Err(Transport(EndOfFile))] + rest, [])
  {
  }

  // Connecting, and the client's own counters

  /** The frame every connection opens with, under request id and sequence number 1. */
  function HelloFrame(): seq<byte> {
    RequestFrame(HELLO, 1, 1, EncodeHello(Hello(PROTOCOL_MAJOR, PROTOCOL_MINOR, 0, DEFAULT_MAX_FRAME_BODY)))
  }

  /** The opening handshake. */
  function Handshake(l: Link): (Link, Result<Welcome, ClientError>) {
    var (l', body) := Exchange(l, HelloFrame(), WELCOME);
    match body
    case Err(e) => (l', Err(e))
    case Ok(b) =>
      match DecodeWelcome(b)
      case Err(e) => (l', Err(Malformed(e)))
      case Ok(w) => (l', Ok(w))
  }

  function Noop(l: Link, reqId: u32, seqNo: u64): (Link, Result<Answer, ClientError>) {
    var (l', body) := Exchange(l, RequestFrame(NOOP, reqId, seqNo, []), NOOP);
    match body
    case Err(e) => (l', Err(e))
    case Ok(_) => (l', Ok(Ack))
  }

  datatype Client = Client(link: Link, nextReqId: u32, nextSeq: u64, sessionId: u64)

  function Connect(l: Link): (Link, Result<Client, ClientError>) {
    var (l', w) := Handshake(l);
    match w
    case Err(e) => (l', Err(e))
    case Ok(welcome) => (l', Ok(Client(l', 2, 2, welcome.sessionId)))
  }

  datatype Demand = Ping | Invoke(call: Call)

  /** The frame the client's next demand goes out in, both ids taken from its counters. */
  function DemandFrame(c: Client, d: Demand): seq<byte> {
    FrameUnder(c.nextReqId, c.nextSeq, d)
  }

  function FrameUnder(reqId: u32, seqNo: u64, d: Demand): seq<byte> {
    match d
    case Ping => RequestFrame(NOOP, reqId, seqNo, [])
    case Invoke(call) => CallFrame(call, reqId, seqNo)
  }

  /** Takes the next pair of ids, saturating, and runs the shim with it. */
  function Demanded(c: Client, d: Demand): (Client, Result<Answer, ClientError>) {
    var (l, r) :=
      match d
      case Ping => Noop(c.link, c.nextReqId, c.nextSeq)
      case Invoke(call) => Shim(c.link, call, c.nextReqId, c.nextSeq);
    (Client(l, SaturatingAdd32(c.nextReqId, 1), SaturatingAdd64(c.nextSeq, 1), c.sessionId), r)
  }

  function DemandAll(c: Client, ds: seq<Demand>): (r: (Client, seq<Result<Answer, ClientError>>))
    ensures |r.1| == |ds|
    decreases |ds|
  {
    if ds == [] then (c, [])
    else
      var (c1, r) := Demanded(c, ds[0]);
      var (c2, rest) := DemandAll(c1, ds[1..]);
      (c2, [r] + rest)
  }

  /** Connecting to a fresh session negotiates the full 1 MiB and takes number 1 on both sides. */
  lemma {:induction false} ConnectNegotiates(l: Link)
    requires Quiet(l) && l.session.maxFrameBody == DEFAULT_MAX_FRAME_BODY && l.session.nextSeq == 1
    ensures Connect(l).1.Ok?
    ensures var c := Connect(l).1.value;
            && c.sessionId == l.session.id && c.nextReqId == 2 && c.nextSeq == 2
            && c.link == l.(session := l.session.(handshook := true, nextSeq := 2))
  {
    hide EncodeHello, DecodeHello, EncodeWelcome, DecodeWelcome, EncodeFrame, DecodeFrame, LinkSend, LinkRecv, Quiet;
    var hello := Hello(PROTOCOL_MAJOR, PROTOCOL_MINOR, 0, DEFAULT_MAX_FRAME_BODY);
    var welcome := Welcome(PROTOCOL_MAJOR, PROTOCOL_MINOR, 0, DEFAULT_MAX_FRAME_BODY, l.session.id);
    HandshakeRoundTrip(hello, welcome, []);
    HandshakeLengths(hello, welcome);
    assert EncodeHello(hello) + [] == EncodeHello(hello) && EncodeWelcome(welcome) + [] == EncodeWelcome(welcome);
    SmallIsExact(12);
    FrameRoundTrip(FrameHeader(PROTOCOL_MAJOR, 0, Request, HELLO, 1, 1, 12), EncodeHello(hello));
    ReplyDecodes(WELCOME, 1, 1, EncodeWelcome(welcome));
    FrameLengths(HELLO, 1, 1, EncodeHello(hello));
    FrameLengths(WELCOME, 1, 1, EncodeWelcome(welcome));
    QuietExchange(l, RequestFrame(HELLO, 1, 1, EncodeHello(hello)));
  }

  lemma HandshakeLengths(h: Hello, w: Welcome)
    ensures |EncodeHello(h)| == 12 && |EncodeWelcome(w)| == 20
  {
    HandshakeWidths();
  }

  /** A fresh session over a quiet link: connect, and every run of calls is remoted transparently, no cap felt. */
  lemma {:induction false} ConnectedCallsAreTransparent(l: Link, calls: seq<Stamped>)
    requires Quiet(l) && WellRegistered(l.session.backends)
    requires l.session == New<BackendState>(l.session.id).(backends := l.session.backends)
    ensures var (b, answers) := DirectAll(l.session.backends, U32_MAX, calls);
            && Connect(l).1.Ok?
            && var (l', results) := ShimAll(Connect(l).1.value.link, calls);
               (l'.session.backends == b && |results| == |calls| && Faithful(results, answers))
  {
    hide Connect, Faithful, WellRegistered, Quiet, DirectAll;
    ConnectNegotiates(l);
    AmpleCapNeverFelt(l.session.backends, DEFAULT_MAX_FRAME_BODY, calls);
    var c := Connect(l).1.value;
    QuietAfter(l, c.link.session);
    RemotingIsTransparent(c.link, calls);
  }

  lemma QuietAfter(l: Link, s: Session<BackendState>)
    ensures Quiet(l) ==> Quiet(l.(session := s))
  {
  }

  /** The next number the session will stamp is the one the client will send. */
  predicate InStep(c: Client) {
    Quiet(c.link) && c.nextSeq == c.link.session.nextSeq && c.nextReqId == Min(c.nextSeq, U32_MAX)
  }

  lemma PingIsAnswered(c: Client)
    requires InStep(c)
    ensures var r := HandleFrame(BackendStep, c.link.session, DemandFrame(c, Ping));
            && r == Reply(c.link.session, NOOP, c.nextReqId, [])
            && Demanded(c, Ping).1 == Ok(Ack)
            && Demanded(c, Ping).0.link == c.link.(session := r.state)
  {
    hide DecodeFrame, EncodeFrame, LinkSend, LinkRecv, Quiet, BackendStep;
    SmallIsExact(0);
    FrameRoundTrip(FrameHeader(PROTOCOL_MAJOR, 0, Request, NOOP, c.nextReqId, c.nextSeq, 0), []);
    ReplyDecodes(NOOP, c.nextReqId, c.link.session.nextSeq, []);
    FrameLengths(NOOP, c.nextReqId, c.nextSeq, []);
    FrameLengths(NOOP, c.nextReqId, c.link.session.nextSeq, []);
    QuietExchange(c.link, DemandFrame(c, Ping));
  }

  /** A demand that succeeds keeps client and session in step, both one further. */
  lemma {:induction false} DemandKeepsStep(c: Client, d: Demand)
    requires InStep(c) && c.nextSeq < U64_MAX && WellRegistered(c.link.session.backends)
    ensures var (c', r) := Demanded(c, d);
            r.Ok? ==> InStep(c') && c'.nextSeq == c.nextSeq + 1 && WellRegistered(c'.link.session.backends)
  {
    hide Shim, Noop, WellRegistered, HandleFrame, Direct, CallFrame, RequestFrame, EncodeCall;
    match d
    case Ping => PingIsAnswered(c);
    case Invoke(call) =>
      ShimIsTransparent(c.link, call, c.nextReqId, c.nextSeq);
      if Direct(c.link.session.backends, call).Some? {
        DirectKeepsRegistration(c.link.session.backends, call);
      }
  }

  /** A demand succeeds exactly when the session replies to its frame. */
  lemma {:induction false} DemandAnswered(c: Client, d: Demand)
    requires InStep(c) && WellRegistered(c.link.session.backends)
    ensures Demanded(c, d).1.Ok? <==> HandleFrame(BackendStep, c.link.session, DemandFrame(c, d)).reply.Ok?
  {
    hide Shim, Noop, WellRegistered, HandleFrame, Direct, CallFrame, RequestFrame, EncodeCall, ReplyFrame;
    match d
    case Ping => PingIsAnswered(c);
    case Invoke(call) =>
      ShimIsTransparent(c.link, call, c.nextReqId, c.nextSeq);
      SessionAppliesCall(c.link.session, call, c.nextReqId, c.nextSeq);
  }

  /** The client before demand number `k`, and the frame that demand goes out in. */
  function ClientAt(c: Client, ds: seq<Demand>, k: nat): Client
    requires k <= |ds|
  {
    DemandAll(c, ds[..k]).0
  }

  function RequestAt(c: Client, ds: seq<Demand>, k: nat): seq<byte>
    requires k < |ds|
  {
    DemandFrame(ClientAt(c, ds, k), ds[k])
  }

  /** What the session makes of it. */
  function ReplyAt(c: Client, ds: seq<Demand>, k: nat): Outcome
    requires k < |ds|
  {
    HandleFrame(BackendStep, ClientAt(c, ds, k).link.session, RequestAt(c, ds, k)).reply
  }

  /** Every demand takes a new pair of ids, whatever comes of it; both counters saturate. */
  lemma {:induction false} CountersAdvance(c: Client, ds: seq<Demand>, k: nat)
    requires k <= |ds|
    ensures ClientAt(c, ds, k).nextReqId == Min(c.nextReqId + k, U32_MAX)
    ensures ClientAt(c, ds, k).nextSeq == Min(c.nextSeq + k, U64_MAX)
    ensures ClientAt(c, ds, k).sessionId == c.sessionId
    decreases k
  {
    hide Shim, Noop;
    if k == 0 {
      assert ds[..0] == [];
    } else {
      CountersAdvance(Demanded(c, ds[0]).0, ds[1..], k - 1);
      assert ds[..k][1..] == ds[1..][..k - 1];
    }
  }

  lemma {:induction false} DemandResultAt(c: Client, ds: seq<Demand>, k: nat)
    requires k < |ds|
    ensures DemandAll(c, ds).1[k] == Demanded(ClientAt(c, ds, k), ds[k]).1
    decreases k
  {
    hide Demanded;
    if k == 0 {
      assert ds[..0] == [];
    } else {
      DemandResultAt(Demanded(c, ds[0]).0, ds[1..], k - 1);
      assert ds[..k][1..] == ds[1..][..k - 1];
    }
  }

  /** After `k` successful demands, client and session are still in step, `k` numbers further. */
  lemma {:induction false} ClientAndSessionInLockstep(c: Client, ds: seq<Demand>, k: nat)
    requires InStep(c) && WellRegistered(c.link.session.backends)
    requires k <= |ds| && c.nextSeq + k <= U64_MAX
    requires forall j :: 0 <= j < k ==> DemandAll(c, ds).1[j].Ok?
    ensures var c' := ClientAt(c, ds, k);
            && c'.nextSeq == c.nextSeq + k == c'.link.session.nextSeq
            && c'.nextReqId == Min(c.nextSeq + k, U32_MAX)
            && InStep(c') && WellRegistered(c'.link.session.backends)
    decreases k
  {
    hide Demanded, InStep, WellRegistered;
    if k == 0 {
      assert ds[..0] == [];
      InStepMeans(c);
    } else {
      var (c1, r) := Demanded(c, ds[0]);
      assert DemandAll(c, ds).1[0] == r;
      DemandKeepsStep(c, ds[0]);
      forall j | 0 <= j < k - 1 ensures DemandAll(c1, ds[1..]).1[j].Ok? {
        assert DemandAll(c, ds).1[j + 1] == DemandAll(c1, ds[1..]).1[j];
      }
      ClientAndSessionInLockstep(c1, ds[1..], k - 1);
      assert ds[..k][1..] == ds[1..][..k - 1];
    }
  }

  lemma InStepMeans(c: Client)
    requires InStep(c)
    ensures c.nextSeq == c.link.session.nextSeq && c.nextReqId == Min(c.nextSeq, U32_MAX)
  {
  }

  /** The frame is a whole one under these two numbers. */
  predicate Carries(frame: seq<byte>, reqId: u32, seqNo: u64) {
    && DecodeFrame(frame).Ok?
    && DecodeFrame(frame).value.header.reqId == reqId
    && DecodeFrame(frame).value.header.seqNo == seqNo
  }

  /** A demand goes out as a request of this protocol version, without flags, honest about its body's length. */
  lemma {:induction false} DemandFrameDecodes(reqId: u32, seqNo: u64, d: Demand)
    ensures var opcode := if d.Ping? then NOOP else OpcodeOf(d.call);
            var body := if d.Ping? then [] else EncodeCall(d.call);
            && |body| <= 32
            && DecodeFrame(FrameUnder(reqId, seqNo, d)) ==
               Ok(Frame(FrameHeader(PROTOCOL_MAJOR, 0, Request, opcode, reqId, seqNo, |body|), body))
  {
    hide DecodeFrame, EncodeFrame, EncodeCall, OpcodeOf;
    match d
    case Ping => FrameRoundTrip(FrameHeader(PROTOCOL_MAJOR, 0, Request, NOOP, reqId, seqNo, Truncate32(0)), []);
    case Invoke(call) =>
      var body := EncodeCall(call);
      CallBodiesSmall(call);
      SmallIsExact(|body|);
      FrameRoundTrip(FrameHeader(PROTOCOL_MAJOR, 0, Request, OpcodeOf(call), reqId, seqNo, Truncate32(|body|)), body);
  }

  /** A connection opens with a HELLO that offers this protocol version, no features and the full cap. */
  lemma {:induction false} HelloFrameDecodes()
    ensures var hello := Hello(PROTOCOL_MAJOR, PROTOCOL_MINOR, 0, DEFAULT_MAX_FRAME_BODY);
            DecodeFrame(HelloFrame()) ==
            Ok(Frame(FrameHeader(PROTOCOL_MAJOR, 0, Request, HELLO, 1, 1, 12), EncodeHello(hello)))
  {
    hide DecodeFrame, EncodeFrame, EncodeHello;
    var hello := Hello(PROTOCOL_MAJOR, PROTOCOL_MINOR, 0, DEFAULT_MAX_FRAME_BODY);
    HandshakeLengths(hello, Welcome(0, 0, 0, 0, 0));
    SmallIsExact(12);
    FrameRoundTrip(FrameHeader(PROTOCOL_MAJOR, 0, Request, HELLO, 1, 1, 12), EncodeHello(hello));
  }

  lemma FrameCarries(reqId: u32, seqNo: u64, d: Demand)
    ensures Carries(FrameUnder(reqId, seqNo, d), reqId, seqNo)
  {
    hide DecodeFrame, FrameUnder, EncodeCall, OpcodeOf;
    DemandFrameDecodes(reqId, seqNo, d);
  }

  /** The request of a demand and the reply to it carry the same request id and sequence number. */
  lemma {:induction false} RequestAndReplyShareNumbers(c: Client, d: Demand)
    requires InStep(c)
    ensures var request := DemandFrame(c, d);
            var r := HandleFrame(BackendStep, c.link.session, request);
            && Carries(request, c.nextReqId, c.nextSeq)
            && (r.reply.Ok? ==> Carries(r.reply.value, c.nextReqId, c.nextSeq))
  {
    hide HandleFrame, DecodeFrame, FrameUnder;
    HandleNumbers(BackendStep, c.link.session, DemandFrame(c, d));
    FrameCarries(c.nextReqId, c.nextSeq, d);
  }

  /** A client connected to a fresh session is in step with it, both at number 2. */
  lemma {:induction false} ConnectInStep(l: Link)
    requires Quiet(l) && l.session.maxFrameBody == DEFAULT_MAX_FRAME_BODY && l.session.nextSeq == 1
    ensures Connect(l).1.Ok? && InStep(Connect(l).1.value) && Connect(l).1.value.nextSeq == 2
    ensures Connect(l).1.value.link.session.backends == l.session.backends
  {
    hide Connect;
    ConnectNegotiates(l);
  }

  /**
   Lockstep over whole client runs from a fresh connection: as long as the demands before it succeeded,
   demand number `k` goes out under request id and sequence number k + 2 (the id capped at 2^32 - 1),
   succeeds exactly if the session replies, and the reply carries the same two numbers; no two such
   requests share a sequence number, and two share a request id only once both have reached its cap.
   */
  lemma {:induction false} ConnectedRunInLockstep(l: Link, ds: seq<Demand>, k: nat)
    requires Quiet(l) && l.session.maxFrameBody == DEFAULT_MAX_FRAME_BODY && l.session.nextSeq == 1
    requires WellRegistered(l.session.backends)
    requires Connect(l).1.Ok? && k < |ds| && k + 2 <= U64_MAX
    requires forall j :: 0 <= j < k ==> DemandAll(Connect(l).1.value, ds).1[j].Ok?
    ensures var c := Connect(l).1.value;
            && Carries(RequestAt(c, ds, k), Min(k + 2, U32_MAX), k + 2)
            && (DemandAll(c, ds).1[k].Ok? <==> ReplyAt(c, ds, k).Ok?)
            && (ReplyAt(c, ds, k).Ok? ==> Carries(ReplyAt(c, ds, k).value, Min(k + 2, U32_MAX), k + 2))
    ensures var c := Connect(l).1.value;
            forall j :: 0 <= j < k ==>
              && DecodeFrame(RequestAt(c, ds, j)).Ok? && DecodeFrame(RequestAt(c, ds, k)).Ok?
              && var a, b := DecodeFrame(RequestAt(c, ds, j)).value.header, DecodeFrame(RequestAt(c, ds, k)).value.header;
                 a.seqNo != b.seqNo && (a.reqId != b.reqId <==> j + 2 < U32_MAX)
  {
    hide Connect, InStep, WellRegistered, DemandFrame, HandleFrame, DemandAll, DecodeFrame;
    ConnectInStep(l);
    var c := Connect(l).1.value;
    forall j | 0 <= j <= k ensures Carries(RequestAt(c, ds, j), Min(j + 2, U32_MAX), j + 2) {
      ClientAndSessionInLockstep(c, ds, j);
      RequestAndReplyShareNumbers(ClientAt(c, ds, j), ds[j]);
    }
    ClientAndSessionInLockstep(c, ds, k);
    RequestAndReplyShareNumbers(ClientAt(c, ds, k), ds[k]);
    DemandAnswered(ClientAt(c, ds, k), ds[k]);
    DemandResultAt(c, ds, k);
  }
}
