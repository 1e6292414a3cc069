/** One call through session and backend: the exact bytes or the exact error it is answered with. */
module ServedCalls {
  import opened Prelude
  import opened TableInvariant
  import opened Wire
  import opened Protocol
  import opened Bodies
  import opened Backends
  import opened ObjectGraphs
  import opened VideoRuns
  import opened Sessions
  import opened Clients
  import opened Layouts
  import opened Obs
  import opened Serving

  /** The objects a session's backends hold accept the call. */
  ghost predicate Acceptable(backends: BackendMap, c: Call) {
    var api := OpcodeApi(OpcodeOf(c));
    && api in backends
    && match backends[api]
       case Vulkan(s) => Accepts(GraphOf(s), c)
       case Video(s) => VideoAccepts(Contents(s.sessions), c)
  }

  /** A call works directly exactly when the objects accept it. */
  lemma {:induction false} DirectIffAcceptable(backends: BackendMap, c: Call)
    ensures Direct(backends, c).Some? <==> Acceptable(backends, c)
  {
    hide VkApply, VideoApply, OpcodeApi, OpcodeOf, Accepts, VideoAccepts, GraphOf, Contents;
    var api := OpcodeApi(OpcodeOf(c));
    if api in backends {
      match backends[api]
      case Vulkan(s) => VkAcceptsExactly(s, c);
      case Video(s) => VideoAcceptsExactly(s, c);
    }
  }

  /**
   What a session answers to each body of each call's opcode, once the frame is honest: a body too
   short is the end of the buffer, a call the objects do not accept an unknown opcode, naming it; both
   leave everything as it was.
   */
  lemma {:induction false} RefusalsAreExact(s: Session<BackendState>, h: FrameHeader, body: seq<byte>)
    requires Honest(s, h, body) && WellRegistered(s.backends)
    requires OpcodeApi(h.opcode) in {API_VULKAN, API_VIDEO} && OpcodeApi(h.opcode) in s.backends
    ensures var out := HandleFrame(BackendStep, s, EncodeFrame(h, body));
            if Widths(h.opcode).Some? && |body| < TotalWidth(Widths(h.opcode).value) then
              out == StepResult(s, Err(UnexpectedEof))
            else if DecodeCall(h.opcode, body).Err? || !Acceptable(s.backends, DecodeCall(h.opcode, body).value) then
              out == StepResult(s, Err(UnknownOpcode(h.opcode)))
            else out.reply.Ok?
  {
    hide EncodeFrame, DecodeFrame, DecodeCall, VkApply, VideoApply, OpcodeApi, OpcodeOf, Widths, TotalWidth;
    hide EncodeAnswer, Accepts, VideoAccepts, GraphOf, Contents, Direct, HandleFrame;
    var api := OpcodeApi(h.opcode);
    OwnNamespace();
    RegisteredApiAnswers(BackendStep, s, h, body);
    CallAccepts(h.opcode, body);
    var decoded := DecodeCall(h.opcode, body);
    if decoded.Ok? {
      CallReencode(h.opcode, body);
      match s.backends[api]
      case Vulkan(vk) => VkAcceptsExactly(vk, decoded.value);
      case Video(video) => VideoAcceptsExactly(video, decoded.value);
    }
    assert s.backends[api := s.backends[api]] == s.backends;
  }

  lemma OwnNamespace()
    ensures OpcodeApi(HELLO) == OpcodeApi(NOOP) == 0
  {
  }

  /** A client's call that the objects do not accept is refused as an unknown opcode, naming the call's own. */
  lemma {:induction false} RefusedCallNamed(s: Session<BackendState>, c: Call, reqId: u32, seqNo: u64)
    requires WellRegistered(s.backends) && |EncodeCall(c)| <= s.maxFrameBody
    requires OpcodeApi(OpcodeOf(c)) in s.backends && !Acceptable(s.backends, c)
    ensures HandleFrame(BackendStep, s, CallFrame(c, reqId, seqNo)) == StepResult(s, Err(UnknownOpcode(OpcodeOf(c))))
  {
    hide EncodeFrame, EncodeCall, OpcodeOf, OpcodeApi, DecodeCall, HandleFrame, Acceptable, Widths, TotalWidth;
    var body := EncodeCall(c);
    CallBodiesSmall(c);
    SmallIsExact(|body|);
    CallRoundTrip(c, []);
    assert body + [] == body;
    CallAccepts(OpcodeOf(c), body);
    CallApis(c);
    RefusalsAreExact(s, FrameHeader(PROTOCOL_MAJOR, 0, Request, OpcodeOf(c), reqId, seqNo, |body|), body);
  }

  /** The bytes of an answer. */
  function AnswerBytes(a: Answer): seq<byte> {
    match a
    case Created(h) => HandleBytes(h)
    case Devices(hs) => if |hs| == 1 then Word4(1) + HandleBytes(hs[0]) else []
    case FrameIndex(i) => Word4(i)
    case Ack => []
  }

  /**
   A call that the objects accept is answered by one frame: a response of this protocol version under
   the call's opcode and request id and the session's number, whose body is the answer's bytes; an
   acknowledgement has none.
   */
  lemma {:induction false} AcceptedCallAnswered(s: Session<BackendState>, c: Call, reqId: u32, seqNo: u64)
    requires WellRegistered(s.backends) && |EncodeCall(c)| <= s.maxFrameBody && Direct(s.backends, c).Some?
    ensures var (b, a) := Direct(s.backends, c).value;
            var out := HandleFrame(BackendStep, s, CallFrame(c, reqId, seqNo));
            && out.state == s.(backends := b, nextSeq := WrappingNext64(s.nextSeq))
            && |AnswerBytes(a)| <= 12
            && out.reply.Ok?
            && DecodeFrame(out.reply.value) ==
               Ok(Frame(FrameHeader(PROTOCOL_MAJOR, 0, Response, OpcodeOf(c), reqId, s.nextSeq, |AnswerBytes(a)|), AnswerBytes(a)))
  {
    hide HandleFrame, DecodeFrame, EncodeFrame, EncodeCall, OpcodeOf, OpcodeApi, ApplyCall, EncodeAnswer;
    hide ReplyFrame, CallFrame, HandleBytes, Word4, WellRegistered;
    SessionAppliesCall(s, c, reqId, seqNo);
    var a := Direct(s.backends, c).value.1;
    AnswersFit(s.backends[OpcodeApi(OpcodeOf(c))], c);
    AnswerRoundTrip(c, a);
    AnswerLayout(a);
    SmallIsExact(|EncodeAnswer(a)|);
    ReplyDecodes(OpcodeOf(c), reqId, s.nextSeq, EncodeAnswer(a));
  }

  /** A call that is served is recorded under its own API's name, with the lengths of its two frames. */
  lemma {:induction false} CallRecordedUnderItsApi(line: Line, s: Session<BackendState>, c: Call, reqId: u32, seqNo: u64, i: nat)
    requires i < |ServeMetered(BackendStep, line, s).log|
    ensures var m := ServeMetered(BackendStep, line, s);
            var frames, sent := Frames(line.inbox), m.served.line.sent;
            && i < |frames| && |line.sent| + i < |sent|
            && (frames[i] == CallFrame(c, reqId, seqNo) ==>
                  m.log[i] == CallRecord(if OpcodeApi(OpcodeOf(c)) == API_VIDEO then "video" else "vulkan",
                                         |CallFrame(c, reqId, seqNo)|, |sent[|line.sent| + i]|))
  {
    hide ServeMetered, HandleFrame, EncodeFrame, EncodeCall, OpcodeOf, OpcodeApi, Label;
    LogCoversReplies(BackendStep, line, s);
    CallApis(c);
    var body := EncodeCall(c);
    LabelsByApi(FrameHeader(PROTOCOL_MAJOR, 0, Request, OpcodeOf(c), reqId, seqNo, Truncate32(|body|)), body);
  }
}
